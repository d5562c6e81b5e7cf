/** The filter that keeps some elements of a list, in order and with their repetitions. */
module Filters {

  function Filter<T>(s: seq<T>, keep: T -> bool): seq<T> {
    if s == [] then []
    else
      var last := s[|s| - 1];
      Filter(s[..|s| - 1], keep) + (if keep(last) then [last] else [])
  }

  lemma FilterMore<T>(s: seq<T>, x: T, keep: T -> bool)
    ensures Filter(s + [x], keep) == Filter(s, keep) + (if keep(x) then [x] else [])
  {
    assert (s + [x])[..|s|] == s;
  }

  lemma FilterNext<T>(s: seq<T>, i: nat, keep: T -> bool)
    requires i < |s|
    ensures Filter(s[..i + 1], keep) == Filter(s[..i], keep) + (if keep(s[i]) then [s[i]] else [])
  {
    assert s[..i + 1] == s[..i] + [s[i]];
    FilterMore(s[..i], s[i], keep);
  }

  lemma {:induction false} FilterKeeps<T>(s: seq<T>, keep: T -> bool)
    ensures forall i :: 0 <= i < |Filter(s, keep)| ==> keep(Filter(s, keep)[i])
  {
    if s != [] {
      FilterKeeps(s[..|s| - 1], keep);
    }
  }

  lemma {:induction false} FilterMembers<T(!new)>(s: seq<T>, keep: T -> bool)
    ensures forall x :: x in Filter(s, keep) <==> x in s && keep(x)
    ensures |Filter(s, keep)| <= |s|
  {
    if s != [] {
      var init, last := s[..|s| - 1], s[|s| - 1];
      assert s == init + [last];
      FilterMembers(init, keep);
    }
  }

  lemma {:induction false} FilterConcat<T>(s: seq<T>, t: seq<T>, keep: T -> bool)
    ensures Filter(s + t, keep) == Filter(s, keep) + Filter(t, keep)
  {
    if t == [] {
      assert s + t == s;
    } else {
      var init, last := t[..|t| - 1], t[|t| - 1];
      assert s + t == (s + init) + [last] && t == init + [last];
      FilterConcat(s, init, keep);
      FilterMore(s + init, last, keep);
    }
  }

  /** Filtering twice is filtering by both conditions. */
  lemma {:induction false} FilterTwice<T(!new)>(s: seq<T>, p: T -> bool, q: T -> bool, both: T -> bool)
    requires forall x :: x in s ==> (both(x) <==> p(x) && q(x))
    ensures Filter(Filter(s, p), q) == Filter(s, both)
  {
    if s != [] {
      var init, last := s[..|s| - 1], s[|s| - 1];
      assert s == init + [last];
      FilterTwice(init, p, q, both);
      if p(last) {
        FilterMore(Filter(init, p), last, q);
      } else {
        assert Filter(s, p) == Filter(init, p);
      }
    }
  }

  lemma {:induction false} FilterAlike<T(!new)>(s: seq<T>, p: T -> bool, q: T -> bool)
    requires forall x :: x in s ==> (p(x) <==> q(x))
    ensures Filter(s, p) == Filter(s, q)
  {
    if s != [] {
      var init, last := s[..|s| - 1], s[|s| - 1];
      assert s == init + [last];
      FilterAlike(init, p, q);
    }
  }

  lemma {:induction false} FilterAll<T(!new)>(s: seq<T>, keep: T -> bool)
    requires forall x :: x in s ==> keep(x)
    ensures Filter(s, keep) == s
  {
    if s != [] {
      var init, last := s[..|s| - 1], s[|s| - 1];
      assert s == init + [last];
      FilterAll(init, keep);
    }
  }

  /** `kept` is what stands in `s` at the positions `at`, which are those of the elements to keep, in order. */
  ghost predicate Selects<T>(s: seq<T>, kept: seq<T>, keep: T -> bool, at: seq<nat>) {
    && |at| == |kept|
    && (forall i :: 0 <= i < |at| ==> at[i] < |s| && kept[i] == s[at[i]])
    && (forall i, j :: 0 <= i < j < |at| ==> at[i] < at[j])
    && (forall p: nat :: p in at <==> p < |s| && keep(s[p]))
  }

  lemma SelectsOneMore<T>(s: seq<T>, kept: seq<T>, keep: T -> bool, at: seq<nat>, x: T)
    requires Selects(s, kept, keep, at)
    ensures keep(x) ==> Selects(s + [x], kept + [x], keep, at + [|s|])
    ensures !keep(x) ==> Selects(s + [x], kept, keep, at)
  {
    var more := s + [x];
    assert forall i :: 0 <= i < |at| ==> at[i] in at;
    assert forall p: nat :: p < |s| ==> more[p] == s[p];
    assert more[|s|] == x;
    if keep(x) {
      var there := at + [|s|];
      assert forall p: nat :: p in there <==> p in at || p == |s|;
    }
  }

  lemma {:induction false} FilterSelects<T>(s: seq<T>, keep: T -> bool) returns (at: seq<nat>)
    ensures Selects(s, Filter(s, keep), keep, at)
  {
    if s == [] {
      at := [];
    } else {
      var init, last := s[..|s| - 1], s[|s| - 1];
      at := FilterSelects(init, keep);
      SelectsOneMore(init, Filter(init, keep), keep, at, last);
      assert s == init + [last];
      if keep(last) {
        at := at + [|init|];
      }
    }
  }

  lemma LastIsLargest(at: seq<nat>, p: nat)
    requires forall i, j :: 0 <= i < j < |at| ==> at[i] < at[j]
    requires p in at
    ensures p <= at[|at| - 1]
  {
    var i :| 0 <= i < |at| && at[i] == p;
    if i < |at| - 1 {
      assert at[i] < at[|at| - 1];
    }
  }

  lemma LastIsSelected<T>(s: seq<T>, kept: seq<T>, keep: T -> bool, at: seq<nat>)
    requires Selects(s, kept, keep, at) && s != [] && keep(s[|s| - 1])
    ensures |at| > 0 && at[|at| - 1] == |s| - 1 && kept[|kept| - 1] == s[|s| - 1]
    ensures Selects(s[..|s| - 1], kept[..|kept| - 1], keep, at[..|at| - 1])
  {
    var n := |s| - 1;
    assert n in at;
    LastIsLargest(at, n);
    var before := at[..|at| - 1];
    assert at == before + [n];
    forall p: nat
      ensures p in before <==> p < n && keep(s[..n][p])
    {
      if p in before {
        var j :| 0 <= j < |before| && before[j] == p;
        assert at[j] == p && p in at;
      }
      if p < n && keep(s[p]) {
        assert p in at;
      }
    }
  }

  lemma LastIsNotSelected<T>(s: seq<T>, kept: seq<T>, keep: T -> bool, at: seq<nat>)
    requires Selects(s, kept, keep, at) && s != [] && !keep(s[|s| - 1])
    ensures Selects(s[..|s| - 1], kept, keep, at)
  {
    forall i | 0 <= i < |at|
      ensures at[i] < |s| - 1 && kept[i] == s[..|s| - 1][at[i]]
    {
      assert at[i] in at;
    }
  }

  /** The law determines what is kept: only the filter meets it. */
  lemma {:induction false} SelectsIsFilter<T>(s: seq<T>, kept: seq<T>, keep: T -> bool, at: seq<nat>)
    requires Selects(s, kept, keep, at)
    ensures kept == Filter(s, keep)
  {
    if s == [] {
      assert at == [];
    } else {
      var init, last := s[..|s| - 1], s[|s| - 1];
      if keep(last) {
        LastIsSelected(s, kept, keep, at);
        SelectsIsFilter(init, kept[..|kept| - 1], keep, at[..|at| - 1]);
        assert kept == kept[..|kept| - 1] + [last];
      } else {
        LastIsNotSelected(s, kept, keep, at);
        SelectsIsFilter(init, kept, keep, at);
      }
    }
  }
}
