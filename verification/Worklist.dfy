/** The worklist of the batch evaluator as a value: what is kept, what is marked, what is still undecided. */
module Worklist {
  import opened Authorizers
  import opened Filters
  import opened Wrappers

  function NotAllowed(partial: map<string, bool>): string -> bool {
    (r: string) => !Allowed(partial, r)
  }

  /** The resources that a partial answer does not allow, in order, with their repetitions. */
  function Kept(rs: seq<string>, partial: map<string, bool>): seq<string> {
    Filter(rs, NotAllowed(partial))
  }

  /** The results so far, with every listed resource that a partial answer allows marked true. */
  function Marked(results: map<string, bool>, rs: seq<string>, partial: map<string, bool>): map<string, bool> {
    results + map r | r in rs && Allowed(partial, r) :: true
  }

  lemma MarkedOneMore(results: map<string, bool>, rs: seq<string>, r: string, partial: map<string, bool>)
    ensures Marked(results, rs + [r], partial)
         == if Allowed(partial, r) then Marked(results, rs, partial)[r := true]
            else Marked(results, rs, partial)
  {
  }

  lemma KeptOneMore(rs: seq<string>, r: string, partial: map<string, bool>)
    ensures Kept(rs + [r], partial) == Kept(rs, partial) + (if Allowed(partial, r) then [] else [r])
  {
    FilterMore(rs, r, NotAllowed(partial));
  }

  /** Writing the element after the kept ones extends them and shortens the untouched rest. */
  lemma WriteNext(kept: seq<string>, rs: seq<string>, r: string)
    requires |kept| < |rs|
    ensures (kept + rs[|kept|..])[|kept| := r] == (kept + [r]) + rs[|kept| + 1..]
  {
  }

  lemma KeptAndRest(kept: seq<string>, rest: seq<string>)
    ensures (kept + rest)[..|kept|] == kept && (kept + rest)[|kept|..] == rest
  {
  }

  /** One round of the compaction loop, on values. */
  lemma OneMore(rs: seq<string>, i: nat, partial: map<string, bool>, results: map<string, bool>)
    requires i < |rs|
    ensures var allowed := Allowed(partial, rs[i]);
            var kept, marked := Kept(rs[..i], partial), Marked(results, rs[..i], partial);
            && Marked(results, rs[..i + 1], partial) == (if allowed then marked[rs[i] := true] else marked)
            && Kept(rs[..i + 1], partial) == (if allowed then kept else kept + [rs[i]])
  {
    assert rs[..i + 1] == rs[..i] + [rs[i]];
    MarkedOneMore(results, rs[..i], rs[i], partial);
    KeptOneMore(rs[..i], rs[i], partial);
  }

  function DeniedBy(cs: seq<Option<Authorizer>>, input: Input): string -> bool {
    (r: string) => AnyVerdict(cs, On(input, r)) == Success(false)
  }

  /** The resources all of `cs` deny, in order, with their repetitions. */
  function Undecided(cs: seq<Option<Authorizer>>, input: Input, rs: seq<string>): seq<string> {
    Filter(rs, DeniedBy(cs, input))
  }

  lemma KeptMembers(rs: seq<string>, partial: map<string, bool>)
    ensures forall r :: r in Kept(rs, partial) <==> r in rs && !Allowed(partial, r)
    ensures |Kept(rs, partial)| <= |rs|
  {
    FilterMembers(rs, NotAllowed(partial));
  }

  lemma UndecidedMembers(cs: seq<Option<Authorizer>>, input: Input, rs: seq<string>)
    ensures forall r :: r in Undecided(cs, input, rs) <==> r in rs && AnyVerdict(cs, On(input, r)) == Success(false)
    ensures (forall r :: r in rs ==> AnyVerdict(cs, On(input, r)) != Success(false)) ==> Undecided(cs, input, rs) == []
  {
    FilterMembers(rs, DeniedBy(cs, input));
    if Undecided(cs, input, rs) != [] {
      assert Undecided(cs, input, rs)[0] in Undecided(cs, input, rs);
    }
  }

  lemma UndecidedMore(cs: seq<Option<Authorizer>>, input: Input, rs: seq<string>, r: string)
    ensures Undecided(cs, input, rs + [r])
         == Undecided(cs, input, rs) + (if AnyVerdict(cs, On(input, r)) == Success(false) then [r] else [])
  {
    FilterMore(rs, r, DeniedBy(cs, input));
  }

  /** Dropping what one more child allows from what the earlier ones denied. */
  lemma KeptIsUndecided(cs: seq<Option<Authorizer>>, c: Authorizer, input: Input,
                        rs: seq<string>, partial: map<string, bool>)
    requires forall r :: r in rs && AnyVerdict(cs, On(input, r)) == Success(false) ==>
               Verdict(c, On(input, r)) == Success(Allowed(partial, r))
    ensures Kept(Undecided(cs, input, rs), partial) == Undecided(cs + [Some(c)], input, rs)
  {
    forall r | r in rs
      ensures DeniedBy(cs + [Some(c)], input)(r) <==> DeniedBy(cs, input)(r) && NotAllowed(partial)(r)
    {
      AnyOneMore(cs, Some(c), On(input, r));
    }
    FilterTwice(rs, DeniedBy(cs, input), NotAllowed(partial), DeniedBy(cs + [Some(c)], input));
  }

  /** The resources child `k` is asked about: what all earlier children denied; a nil child, nothing. */
  function Round(children: seq<Option<Authorizer>>, k: nat, input: Input, rs: seq<string>): seq<string>
    requires k < |children|
  {
    if children[k].None? then [] else Undecided(children[..k], input, rs)
  }

  /** The final results: every resource still listed is denied. */
  function Denied(results: map<string, bool>, left: seq<string>): map<string, bool> {
    results + map r | r in left :: false
  }

  lemma NobodyAskedYet(input: Input, rs: seq<string>)
    ensures Undecided([], input, rs) == rs
  {
    FilterAll(rs, DeniedBy([], input));
  }

  lemma NilChangesNothing(cs: seq<Option<Authorizer>>, input: Input, rs: seq<string>)
    ensures Undecided(cs + [None], input, rs) == Undecided(cs, input, rs)
  {
    forall r
      ensures DeniedBy(cs + [None], input)(r) <==> DeniedBy(cs, input)(r)
    {
      AnyOneMore(cs, None, On(input, r));
    }
    FilterAlike(rs, DeniedBy(cs + [None], input), DeniedBy(cs, input));
  }
}
