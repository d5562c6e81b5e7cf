/**
  Which leaf of a composition is asked about which resources. A relation authorizer without a checker
  or a subject asks nobody.
*/
module Questions {
  import opened Wrappers
  import opened Authorizers
  import opened Worklist

  /** A leaf of the tree, by the positions of the children leading to it, and a resource. */
  datatype Question = Question(path: seq<nat>, resource: string)

  /** What one short-circuiting `Authorize` asks. */
  function Asked(t: Authorizer, path: seq<nat>, input: Input): multiset<Question>
    decreases t, 1, 0
  {
    if t.Any? then AskedFrom(t.children, 0, path, input)
    else if Misconfigured(t, input) then multiset{}
    else multiset{Question(path, input.resource)}
  }

  /** Child `k` is asked only when all earlier children deny. */
  function AskedOfChild(children: seq<Option<Authorizer>>, k: nat, path: seq<nat>, input: Input): multiset<Question>
    requires k < |children|
    decreases children, 0, 0
  {
    if children[k].Some? && AnyVerdict(children[..k], input) == Success(false)
    then assert children[k].value < children[k]; Asked(children[k].value, path + [k], input)
    else multiset{}
  }

  function AskedFrom(children: seq<Option<Authorizer>>, k: nat, path: seq<nat>, input: Input): multiset<Question>
    requires k <= |children|
    decreases children, 1, |children| - k
  {
    if k == |children| then multiset{}
    else AskedOfChild(children, k, path, input) + AskedFrom(children, k + 1, path, input)
  }

  /** What `AuthorizeBatch` asks: child `k` its round, in one batch. */
  function BatchAsked(t: Authorizer, path: seq<nat>, input: Input, rs: seq<string>): multiset<Question>
    decreases t, 1, 0, 0
  {
    if t.Any? then RoundsAsked(t.children, 0, path, input, rs)
    else if Misconfigured(t, input) then multiset{}
    else LeafAsked(path, rs)
  }

  function LeafAsked(path: seq<nat>, rs: seq<string>): multiset<Question> {
    multiset(seq(|rs|, i requires 0 <= i < |rs| => Question(path, rs[i])))
  }

  function RoundsAsked(children: seq<Option<Authorizer>>, k: nat, path: seq<nat>, input: Input,
                       rs: seq<string>): multiset<Question>
    requires k <= |children|
    decreases children, 0, |children| - k, 0
  {
    if k == |children| then multiset{}
    else
      (if children[k].None? then multiset{}
       else assert children[k].value < children[k];
            BatchAsked(children[k].value, path + [k], input, Round(children, k, input, rs)))
      + RoundsAsked(children, k + 1, path, input, rs)
  }

  /** The questions of one call per resource. */
  function SumAsked(t: Authorizer, path: seq<nat>, input: Input, rs: seq<string>): multiset<Question> {
    if rs == [] then multiset{}
    else SumAsked(t, path, input, rs[..|rs| - 1]) + Asked(t, path, On(input, rs[|rs| - 1]))
  }

  function SumAskedFrom(children: seq<Option<Authorizer>>, k: nat, path: seq<nat>, input: Input,
                        rs: seq<string>): multiset<Question>
    requires k <= |children|
  {
    if rs == [] then multiset{}
    else
      SumAskedFrom(children, k, path, input, rs[..|rs| - 1])
      + AskedFrom(children, k, path, On(input, rs[|rs| - 1]))
  }

  lemma LeafAskedOneMore(path: seq<nat>, rs: seq<string>, r: string)
    ensures LeafAsked(path, rs + [r]) == LeafAsked(path, rs) + multiset{Question(path, r)}
  {
    var more := rs + [r];
    assert seq(|more|, i requires 0 <= i < |more| => Question(path, more[i]))
        == seq(|rs|, i requires 0 <= i < |rs| => Question(path, rs[i])) + [Question(path, r)];
  }

  lemma LeafAskedOfPrefix(path: seq<nat>, some: seq<string>, rs: seq<string>)
    requires some <= rs
    ensures LeafAsked(path, some) <= LeafAsked(path, rs)
  {
    var all := seq(|rs|, i requires 0 <= i < |rs| => Question(path, rs[i]));
    assert all == all[..|some|] + all[|some|..];
    assert all[..|some|] == seq(|some|, i requires 0 <= i < |some| => Question(path, some[i]));
  }

  lemma {:induction false} LeafSum(t: Authorizer, path: seq<nat>, input: Input, rs: seq<string>)
    requires !t.Any?
    ensures BatchAsked(t, path, input, rs) == SumAsked(t, path, input, rs)
  {
    if rs == [] {
      assert LeafAsked(path, rs) == multiset([]);
    } else {
      var init, last := rs[..|rs| - 1], rs[|rs| - 1];
      assert rs == init + [last];
      LeafSum(t, path, input, init);
      LeafAskedOneMore(path, init, last);
    }
  }

  lemma {:induction false} AnySum(children: seq<Option<Authorizer>>, path: seq<nat>, input: Input, rs: seq<string>)
    ensures SumAsked(Any(children), path, input, rs) == SumAskedFrom(children, 0, path, input, rs)
  {
    if rs != [] {
      AnySum(children, path, input, rs[..|rs| - 1]);
    }
  }

  lemma Swap(a: multiset<Question>, b: multiset<Question>, c: multiset<Question>, d: multiset<Question>)
    ensures (a + b) + (c + d) == (a + c) + (b + d)
  {
  }

  /** Per-resource calls from child `k` on: child `k` on its round, then the later children. */
  lemma {:induction false} PeelChild(children: seq<Option<Authorizer>>, k: nat, path: seq<nat>, input: Input,
                                     rs: seq<string>)
    requires k < |children|
    ensures SumAskedFrom(children, k, path, input, rs)
         == (if children[k].None? then multiset{}
             else SumAsked(children[k].value, path + [k], input, Round(children, k, input, rs)))
            + SumAskedFrom(children, k + 1, path, input, rs)
  {
    if rs != [] {
      var init, last := rs[..|rs| - 1], rs[|rs| - 1];
      PeelChild(children, k, path, input, init);
      var here := if children[k].None? then multiset{}
                  else SumAsked(children[k].value, path + [k], input, Round(children, k, input, init));
      Swap(here, SumAskedFrom(children, k + 1, path, input, init),
           AskedOfChild(children, k, path, On(input, last)), AskedFrom(children, k + 1, path, On(input, last)));
      if children[k].Some? {
        var round := Undecided(children[..k], input, init);
        assert rs == init + [last];
        UndecidedMore(children[..k], input, init, last);
        if AnyVerdict(children[..k], On(input, last)) == Success(false) {
          assert (round + [last])[..|round|] == round;
        } else {
          assert Undecided(children[..k], input, rs) == round;
        }
      }
    }
  }

  /**
    Query minimality: over the whole tree, a batch asks every leaf exactly the questions that asking
    about each resource separately would, with multiplicity, and not one more.
  */
  lemma {:induction false} BatchAsksNoMore(t: Authorizer, path: seq<nat>, input: Input, rs: seq<string>)
    ensures BatchAsked(t, path, input, rs) == SumAsked(t, path, input, rs)
    decreases t, 1, 0
  {
    if t.Any? {
      AnySum(t.children, path, input, rs);
      RoundsAskNoMore(t.children, 0, path, input, rs);
    } else {
      LeafSum(t, path, input, rs);
    }
  }

  lemma {:induction false} NothingMoreToAsk(children: seq<Option<Authorizer>>, path: seq<nat>, input: Input,
                                            rs: seq<string>)
    ensures SumAskedFrom(children, |children|, path, input, rs) == multiset{}
  {
    if rs != [] {
      NothingMoreToAsk(children, path, input, rs[..|rs| - 1]);
    }
  }

  lemma {:induction false} RoundsAskNoMore(children: seq<Option<Authorizer>>, k: nat, path: seq<nat>, input: Input,
                                           rs: seq<string>)
    requires k <= |children|
    ensures RoundsAsked(children, k, path, input, rs) == SumAskedFrom(children, k, path, input, rs)
    decreases children, 0, |children| - k
  {
    if k == |children| {
      NothingMoreToAsk(children, path, input, rs);
    } else {
      RoundsAskNoMore(children, k + 1, path, input, rs);
      PeelChild(children, k, path, input, rs);
      if children[k].Some? {
        assert children[k].value < children[k];
        BatchAsksNoMore(children[k].value, path + [k], input, Round(children, k, input, rs));
      }
    }
  }

  /** A batch asks at most what the separate calls ask, and exactly that when it answers. */
  ghost predicate Frugal(t: Authorizer, path: seq<nat>, input: Input, rs: seq<string>, answered: bool,
                         asked: multiset<Question>) {
    && asked <= SumAsked(t, path, input, rs)
    && (answered ==> asked == BatchAsked(t, path, input, rs) == SumAsked(t, path, input, rs))
  }

  lemma {:induction false} SumOfPrefix(t: Authorizer, path: seq<nat>, input: Input, rs: seq<string>, k: nat)
    requires k <= |rs|
    ensures SumAsked(t, path, input, rs[..k]) <= SumAsked(t, path, input, rs)
  {
    if k == |rs| {
      assert rs[..k] == rs;
    } else {
      assert rs[..|rs| - 1][..k] == rs[..k];
      SumOfPrefix(t, path, input, rs[..|rs| - 1], k);
    }
  }

  /** A leaf that asks about a prefix of the list, or about all of it when it answers. */
  lemma LeafIsFrugal(t: Authorizer, path: seq<nat>, input: Input, rs: seq<string>, some: seq<string>, answered: bool)
    requires !t.Any? && !Misconfigured(t, input) && some <= rs && (answered ==> some == rs)
    ensures Frugal(t, path, input, rs, answered, LeafAsked(path, some))
  {
    LeafSum(t, path, input, rs);
    LeafAskedOfPrefix(path, some, rs);
  }

  lemma MisconfiguredIsFrugal(t: Authorizer, path: seq<nat>, input: Input, rs: seq<string>)
    requires Misconfigured(t, input)
    ensures Frugal(t, path, input, rs, true, multiset{})
  {
    LeafSum(t, path, input, rs);
  }

  /** A configured leaf is asked once; a misconfigured one asks nobody. */
  lemma LeafIsAsked(t: Authorizer, path: seq<nat>, input: Input)
    requires !t.Any?
    ensures Asked(t, path, input)
         == if t.ReBAC? && (t.checker.None?
                            || (input.subject == "" && (input.claims.None? || input.claims.value.subject == "")))
            then multiset{} else multiset{Question(path, input.resource)}
  {
  }

  lemma {:induction false} AskedByChild(children: seq<Option<Authorizer>>, k: nat, path: seq<nat>, input: Input,
                                        q: Question)
    returns (j: nat)
    requires k <= |children| && q in AskedFrom(children, k, path, input)
    ensures k <= j < |children| && q in AskedOfChild(children, j, path, input)
    decreases |children| - k
  {
    assert k < |children|;
    if q in AskedOfChild(children, k, path, input) {
      j := k;
    } else {
      j := AskedByChild(children, k + 1, path, input, q);
    }
  }

  lemma {:induction false} ChildsAreAsked(children: seq<Option<Authorizer>>, k: nat, j: nat, path: seq<nat>,
                                          input: Input, q: Question)
    requires k <= j < |children| && q in AskedOfChild(children, j, path, input)
    ensures q in AskedFrom(children, k, path, input)
    decreases j - k
  {
    if k < j {
      ChildsAreAsked(children, k + 1, j, path, input, q);
    }
  }

  /** Child `k` is reached, and asks `q`. */
  predicate AsksChild(children: seq<Option<Authorizer>>, k: nat, path: seq<nat>, input: Input, q: Question)
    requires k < |children|
  {
    && children[k].Some?
    && AnyVerdict(children[..k], input) == Success(false)
    && q in Asked(children[k].value, path + [k], input)
  }

  /** A composition asks what its children ask, those whose predecessors all deny. */
  lemma CompositionAsks(children: seq<Option<Authorizer>>, path: seq<nat>, input: Input, q: Question)
    ensures q in Asked(Any(children), path, input) <==>
              exists k :: 0 <= k < |children| && AsksChild(children, k, path, input, q)
  {
    if q in Asked(Any(children), path, input) {
      var j := AskedByChild(children, 0, path, input, q);
      assert AsksChild(children, j, path, input, q);
    }
    if k :| 0 <= k < |children| && AsksChild(children, k, path, input, q) {
      ChildsAreAsked(children, 0, k, path, input, q);
    }
  }
}
