/** The batch evaluator's loop over the children, on values: what holds before each child. */
module BatchLoop {
  import opened Wrappers
  import opened Authorizers
  import opened Questions
  import opened Worklist

  /** True keys and worklist partition the request. */
  ghost predicate Partitioned(rs: seq<string>, left: seq<string>, results: map<string, bool>) {
    && results.Keys !! ToSet(left)
    && results.Keys + ToSet(left) == ToSet(rs)
    && forall r :: r in results ==> results[r]
  }

  /** What is marked so far, some part of the composition allows. */
  ghost predicate Granted(children: seq<Option<Authorizer>>, input: Input, results: map<string, bool>) {
    forall r :: r in results ==> AnyGrants(children, On(input, r))
  }

  /** After `k` children without an error, the worklist is what those children all deny. */
  ghost predicate Exact(children: seq<Option<Authorizer>>, k: nat, input: Input, rs: seq<string>,
                        left: seq<string>, rounds: seq<seq<string>>) {
    && k <= |children|
    && (forall r :: r in rs ==> AnyVerdict(children[..k], On(input, r)).Success?)
    && left == Undecided(children[..k], input, rs)
    && |rounds| == k
    && forall j :: 0 <= j < k ==> rounds[j] == Round(children, j, input, rs)
  }

  /** A further child keeps every verdict free of errors if it does not err on what is undecided. */
  lemma StillNoErrors(cs: seq<Option<Authorizer>>, c: Option<Authorizer>, input: Input, rs: seq<string>)
    requires forall r :: r in rs ==> AnyVerdict(cs, On(input, r)).Success?
    requires c.Some? ==> forall r :: r in Undecided(cs, input, rs) ==> Verdict(c.value, On(input, r)).Success?
    ensures forall r :: r in rs ==> AnyVerdict(cs + [c], On(input, r)).Success?
  {
    UndecidedMembers(cs, input, rs);
    forall r | r in rs
      ensures AnyVerdict(cs + [c], On(input, r)).Success?
    {
      AnyOneMore(cs, c, On(input, r));
    }
  }

  lemma NothingStaysUndecided(cs: seq<Option<Authorizer>>, c: Option<Authorizer>, input: Input, rs: seq<string>)
    requires Undecided(cs, input, rs) == []
    ensures Undecided(cs + [c], input, rs) == []
  {
    UndecidedMembers(cs, input, rs);
    UndecidedMembers(cs + [c], input, rs);
    forall r | r in rs
      ensures AnyVerdict(cs + [c], On(input, r)) != Success(false)
    {
      AnyOneMore(cs, c, On(input, r));
      assert r !in Undecided(cs, input, rs);
    }
  }

  /** Passing over a nil child, or over any child once nothing is left to decide. */
  lemma SkipStep(children: seq<Option<Authorizer>>, k: nat, input: Input, rs: seq<string>,
                 left: seq<string>, rounds: seq<seq<string>>)
    requires k < |children| && Exact(children, k, input, rs, left, rounds)
    requires children[k].None? || left == []
    ensures Exact(children, k + 1, input, rs, left, rounds + [[]])
  {
    var cs := children[..k];
    assert children[..k + 1] == cs + [children[k]];
    StillNoErrors(cs, children[k], input, rs);
    if children[k].None? {
      NilChangesNothing(cs, input, rs);
    } else {
      NothingStaysUndecided(cs, children[k], input, rs);
    }
  }

  lemma AskOne(cs: seq<Option<Authorizer>>, c: Authorizer, input: Input, rs: seq<string>, partial: map<string, bool>)
    requires forall r :: r in rs ==> AnyVerdict(cs, On(input, r)).Success?
    requires Agrees(c, input, Undecided(cs, input, rs), Success(partial))
    ensures forall r :: r in rs ==> AnyVerdict(cs + [Some(c)], On(input, r)).Success?
    ensures Kept(Undecided(cs, input, rs), partial) == Undecided(cs + [Some(c)], input, rs)
  {
    StillNoErrors(cs, Some(c), input, rs);
    UndecidedMembers(cs, input, rs);
    KeptIsUndecided(cs, c, input, rs, partial);
  }

  /** Asking a child about the worklist and keeping what it does not allow. */
  lemma AskStep(children: seq<Option<Authorizer>>, k: nat, input: Input, rs: seq<string>,
                left: seq<string>, rounds: seq<seq<string>>, partial: map<string, bool>)
    requires k < |children| && Exact(children, k, input, rs, left, rounds)
    requires children[k].Some? && Agrees(children[k].value, input, left, Success(partial))
    ensures Exact(children, k + 1, input, rs, Kept(left, partial), rounds + [left])
  {
    assert children[..k + 1] == children[..k] + [children[k]];
    AskOne(children[..k], children[k].value, input, rs, partial);
    assert left == Round(children, k, input, rs);
  }

  /** A child erring on something undecided is the composition erring there. */
  lemma ChildErrs(children: seq<Option<Authorizer>>, k: nat, input: Input, rs: seq<string>, r: string)
    requires k < |children| && children[k].Some?
    requires r in Undecided(children[..k], input, rs) && Verdict(children[k].value, On(input, r)).Failure?
    ensures r in rs && Verdict(Any(children), On(input, r)) == Verdict(children[k].value, On(input, r))
  {
    UndecidedMembers(children[..k], input, rs);
    AnyOneMore(children[..k], children[k], On(input, r));
    assert children[..k + 1] == children[..k] + [children[k]];
    AnyPrefix(children, k + 1, On(input, r));
  }

  /** Child `k` errs on something that all earlier children deny. */
  ghost predicate FailsIn(children: seq<Option<Authorizer>>, k: nat, input: Input, rs: seq<string>)
    requires k < |children|
  {
    children[k].Some?
    && exists r :: r in Round(children, k, input, rs) && Verdict(children[k].value, On(input, r)).Failure?
  }

  /** The child at which an uncancelled batch stops. */
  ghost predicate FirstFailing(children: seq<Option<Authorizer>>, k: nat, input: Input, rs: seq<string>) {
    && k < |children|
    && FailsIn(children, k, input, rs)
    && forall j: nat :: j < k ==> !FailsIn(children, j, input, rs)
  }

  /** Where the verdicts of a prefix are free of errors, none of its children fails in its round. */
  lemma NoneFailsBefore(children: seq<Option<Authorizer>>, k: nat, j: nat, input: Input, rs: seq<string>)
    requires j < k <= |children| && forall r :: r in rs ==> AnyVerdict(children[..k], On(input, r)).Success?
    ensures !FailsIn(children, j, input, rs)
  {
    if FailsIn(children, j, input, rs) {
      var r :| r in Round(children, j, input, rs) && Verdict(children[j].value, On(input, r)).Failure?;
      var cs := children[..k];
      assert cs[..j] == children[..j] && cs[j] == children[j];
      ChildErrs(cs, j, input, rs, r);
    }
  }

  /** The least failing child from `k` on, when a later one fails. */
  lemma {:induction false} LeastFailing(children: seq<Option<Authorizer>>, k: nat, input: Input, rs: seq<string>)
    returns (least: nat)
    requires k < |children| && FailsIn(children, k, input, rs)
    ensures FirstFailing(children, least, input, rs)
  {
    if j: nat :| j < k && FailsIn(children, j, input, rs) {
      least := LeastFailing(children, j, input, rs);
    } else {
      least := k;
    }
  }

  /** A resource on which the composition errs is in the round of the child that errs on it. */
  lemma {:induction false} ErrsInARound(children: seq<Option<Authorizer>>, n: nat, input: Input, rs: seq<string>,
                                        r: string)
    returns (k: nat)
    requires n <= |children| && r in rs && AnyVerdict(children[..n], On(input, r)).Failure?
    ensures k < n && FailsIn(children, k, input, rs)
  {
    var cs := children[..n];
    assert n > 0;
    assert cs == children[..n - 1] + [children[n - 1]];
    AnyOneMore(children[..n - 1], children[n - 1], On(input, r));
    if AnyVerdict(children[..n - 1], On(input, r)).Failure? {
      k := ErrsInARound(children, n - 1, input, rs, r);
    } else {
      k := n - 1;
      UndecidedMembers(children[..k], input, rs);
      assert r in Round(children, k, input, rs);
    }
  }

  /** A composition errs on a listed resource exactly when some child fails in its round; then one is the first. */
  lemma ErrsIffSomeChildFails(children: seq<Option<Authorizer>>, input: Input, rs: seq<string>)
    ensures (exists i :: 0 <= i < |rs| && Verdict(Any(children), On(input, rs[i])).Failure?)
            <==> exists k: nat :: FirstFailing(children, k, input, rs)
  {
    if i :| 0 <= i < |rs| && Verdict(Any(children), On(input, rs[i])).Failure? {
      assert children[..|children|] == children && rs[i] in rs;
      var k := ErrsInARound(children, |children|, input, rs, rs[i]);
      var least := LeastFailing(children, k, input, rs);
    }
    if k: nat :| FirstFailing(children, k, input, rs) {
      var r :| r in Round(children, k, input, rs) && Verdict(children[k].value, On(input, r)).Failure?;
      ChildErrs(children, k, input, rs, r);
      var i :| 0 <= i < |rs| && rs[i] == r;
      assert Verdict(Any(children), On(input, rs[i])).Failure?;
    }
  }

  /**
    A child erring on the worklist is the composition erring on the request, with an error of the
    request's; and no earlier child fails in its round.
  */
  lemma FailStep(children: seq<Option<Authorizer>>, k: nat, input: Input, rs: seq<string>,
                 left: seq<string>, rounds: seq<seq<string>>, e: Error)
    requires k < |children| && Exact(children, k, input, rs, left, rounds)
    requires children[k].Some? && Agrees(children[k].value, input, left, Failure(e))
    ensures Matches(Any(children), input, rs, Failure(e))
    ensures Blames(children[k].value, input, left, e) ==> Blames(Any(children), input, rs, e)
    ensures FirstFailing(children, k, input, rs)
  {
    var c := children[k].value;
    var i :| 0 <= i < |left| && Verdict(c, On(input, left[i])).Failure?;
    assert left[i] in left && left == Round(children, k, input, rs);
    ErringStep(children, k, input, rs, left[i]);
    if Blames(c, input, left, e) {
      var i' :| 0 <= i' < |left| && Verdict(c, On(input, left[i'])) == Failure(e);
      assert left[i'] in left;
      ErringStep(children, k, input, rs, left[i']);
    }
    forall j: nat | j < k
      ensures !FailsIn(children, j, input, rs)
    {
      NoneFailsBefore(children, k, j, input, rs);
    }
  }

  lemma ErringStep(children: seq<Option<Authorizer>>, k: nat, input: Input, rs: seq<string>, r: string)
    requires k < |children| && children[k].Some?
    requires r in Undecided(children[..k], input, rs) && Verdict(children[k].value, On(input, r)).Failure?
    ensures exists j :: 0 <= j < |rs|
                        && Verdict(Any(children), On(input, rs[j])) == Verdict(children[k].value, On(input, r))
  {
    ChildErrs(children, k, input, rs, r);
    var j :| 0 <= j < |rs| && rs[j] == r;
  }

  /** Whatever the child answers, marking what it allows keeps the partition. */
  lemma PartitionStep(rs: seq<string>, left: seq<string>, results: map<string, bool>, partial: map<string, bool>)
    requires Partitioned(rs, left, results)
    ensures Partitioned(rs, Kept(left, partial), Marked(results, left, partial))
  {
    KeptMembers(left, partial);
    assert Marked(results, left, partial).Keys + ToSet(Kept(left, partial)) == ToSet(rs);
  }

  /** What a sound child allows, some part of the composition allows. */
  lemma GrantStep(children: seq<Option<Authorizer>>, k: nat, input: Input, left: seq<string>,
                  results: map<string, bool>, partial: map<string, bool>)
    requires k < |children| && children[k].Some? && Granted(children, input, results)
    requires Sound(children[k].value, input, left, Success(partial))
    ensures Granted(children, input, Marked(results, left, partial))
  {
    forall r | r in Marked(results, left, partial)
      ensures AnyGrants(children, On(input, r))
    {
      if r in left && Allowed(partial, r) {
        AnyGrantsAt(children, k, On(input, r));
      }
    }
  }

  /** The final false-fill completes the key set and overwrites no allow, whatever the children answered. */
  lemma FillStep(rs: seq<string>, left: seq<string>, results: map<string, bool>)
    requires Partitioned(rs, left, results)
    ensures Denied(results, left).Keys == ToSet(rs)
    ensures forall r :: r in rs ==> (Denied(results, left)[r] <==> r in results)
  {
    assert forall r :: r in ToSet(left) <==> r in left;
    assert forall r :: r in ToSet(rs) <==> r in rs;
    assert Denied(results, left).Keys == results.Keys + ToSet(left);
  }

  /** After an exact run the filled results are the pointwise ones. */
  lemma FillMatches(children: seq<Option<Authorizer>>, input: Input, rs: seq<string>,
                    left: seq<string>, results: map<string, bool>, rounds: seq<seq<string>>)
    requires Partitioned(rs, left, results) && Exact(children, |children|, input, rs, left, rounds)
    ensures Matches(Any(children), input, rs, Success(Denied(results, left)))
  {
    FillStep(rs, left, results);
    assert children[..|children|] == children;
    UndecidedMembers(children, input, rs);
    var out := Denied(results, left);
    assert forall r :: r in ToSet(left) <==> r in left;
    forall r | r in out
      ensures Verdict(Any(children), On(input, r)) == Success(out[r])
    {
      assert r in ToSet(rs);
      ThreeWays(AnyVerdict(children, On(input, r)));
    }
  }

  // ---------------------------------------------------------------- the loop invariant

  /** A tree whose successful batches are pointwise: consistent, and free of fan-outs if it may be cancelled. */
  ghost predicate Dependable(t: Authorizer, mayCancel: bool) {
    Consistent(t) && (mayCancel ==> NoFanOut(t))
  }

  lemma ChildIsDependable(children: seq<Option<Authorizer>>, k: nat, mayCancel: bool)
    requires k < |children| && children[k].Some?
    ensures Modest(Any(children)) ==> Modest(children[k].value)
    ensures Consistent(Any(children)) ==> Consistent(children[k].value)
    ensures NamesErrors(Any(children)) ==> NamesErrors(children[k].value)
    ensures Dependable(Any(children), mayCancel) ==> Dependable(children[k].value, mayCancel)
  {
    if Modest(Any(children)) {
      EveryAt(children, k, ModestLeaf);
    }
    if Consistent(Any(children)) {
      EveryAt(children, k, ConsistentLeaf);
    }
    if NamesErrors(Any(children)) {
      EveryAt(children, k, NamingLeaf);
    }
    if NoFanOut(Any(children)) {
      EveryAt(children, k, NoFanOutLeaf);
    }
  }

  /** What holds before child `k`: the partition always, what is marked granted if engines are modest, exactness. */
  ghost predicate LoopInv(children: seq<Option<Authorizer>>, k: nat, input: Input, rs: seq<string>,
                          left: seq<string>, results: map<string, bool>, rounds: seq<seq<string>>,
                          mayCancel: bool) {
    && Partitioned(rs, left, results)
    && (Modest(Any(children)) ==> Granted(children, input, results))
    && (Dependable(Any(children), mayCancel) ==> Exact(children, k, input, rs, left, rounds))
  }

  lemma StartKeeps(children: seq<Option<Authorizer>>, input: Input, rs: seq<string>, mayCancel: bool)
    ensures LoopInv(children, 0, input, rs, rs, map[], [], mayCancel)
  {
    NobodyAskedYet(input, rs);
  }

  lemma SkipKeeps(children: seq<Option<Authorizer>>, k: nat, input: Input, rs: seq<string>, left: seq<string>,
                  results: map<string, bool>, rounds: seq<seq<string>>, mayCancel: bool)
    requires k < |children| && LoopInv(children, k, input, rs, left, results, rounds, mayCancel)
    requires children[k].None? || left == []
    ensures LoopInv(children, k + 1, input, rs, left, results, rounds + [[]], mayCancel)
  {
    if Dependable(Any(children), mayCancel) {
      SkipStep(children, k, input, rs, left, rounds);
    }
  }

  lemma AskKeeps(children: seq<Option<Authorizer>>, k: nat, input: Input, rs: seq<string>, left: seq<string>,
                 results: map<string, bool>, rounds: seq<seq<string>>, partial: map<string, bool>, mayCancel: bool)
    requires k < |children| && LoopInv(children, k, input, rs, left, results, rounds, mayCancel)
    requires children[k].Some? && left != []
    requires Serves(children[k].value, input, left, Success(partial), mayCancel)
    ensures LoopInv(children, k + 1, input, rs, Kept(left, partial), Marked(results, left, partial),
                    rounds + [left], mayCancel)
  {
    ChildIsDependable(children, k, mayCancel);
    PartitionStep(rs, left, results, partial);
    if Modest(Any(children)) {
      GrantStep(children, k, input, left, results, partial);
    }
    if Dependable(Any(children), mayCancel) {
      AskStep(children, k, input, rs, left, rounds, partial);
    }
  }

  ghost predicate AreRounds(children: seq<Option<Authorizer>>, input: Input, rs: seq<string>,
                            rounds: seq<seq<string>>) {
    |rounds| <= |children| && forall j :: 0 <= j < |rounds| ==> rounds[j] == Round(children, j, input, rs)
  }

  /** Child `k` is the first to fail in its round; where bulk engines name errors, with an error of that round. */
  ghost predicate StopsAt(children: seq<Option<Authorizer>>, k: nat, input: Input, rs: seq<string>, e: Error) {
    && FirstFailing(children, k, input, rs)
    && (NamesErrors(Any(children)) ==> Blames(children[k].value, input, Round(children, k, input, rs), e))
  }

  lemma FailReports(children: seq<Option<Authorizer>>, k: nat, input: Input, rs: seq<string>, left: seq<string>,
                    results: map<string, bool>, rounds: seq<seq<string>>, e: Error, mayCancel: bool)
    requires k < |children| && LoopInv(children, k, input, rs, left, results, rounds, mayCancel)
    requires children[k].Some? && left != []
    requires Serves(children[k].value, input, left, Failure(e), mayCancel)
    ensures Serves(Any(children), input, rs, Failure(e), mayCancel)
    ensures !mayCancel && Consistent(Any(children)) ==> StopsAt(children, k, input, rs, e)
    ensures Dependable(Any(children), mayCancel) ==>
              |rounds| == k && AreRounds(children, input, rs, rounds + [left])
  {
    ChildIsDependable(children, k, mayCancel);
    if !mayCancel && Consistent(Any(children)) {
      FailStep(children, k, input, rs, left, rounds, e);
    }
  }

  lemma FillReports(children: seq<Option<Authorizer>>, input: Input, rs: seq<string>, left: seq<string>,
                    results: map<string, bool>, rounds: seq<seq<string>>, mayCancel: bool)
    requires LoopInv(children, |children|, input, rs, left, results, rounds, mayCancel)
    ensures Serves(Any(children), input, rs, Success(Denied(results, left)), mayCancel)
    ensures Denied(results, left).Keys == ToSet(rs)
    ensures Dependable(Any(children), mayCancel) ==>
              && Matches(Any(children), input, rs, Success(Denied(results, left)))
              && |rounds| == |children| && AreRounds(children, input, rs, rounds)
  {
    FillStep(rs, left, results);
    if Dependable(Any(children), mayCancel) {
      FillMatches(children, input, rs, left, results, rounds);
      MatchesIsAgreement(Any(children), input, rs, Success(Denied(results, left)));
    }
  }

  // ---------------------------------------------------------------- the log of questions

  /** What was asked so far and what separate calls would ask of the remaining children make up the whole. */
  ghost predicate LogInv(children: seq<Option<Authorizer>>, k: nat, path: seq<nat>, input: Input, rs: seq<string>,
                         asked: multiset<Question>, mayCancel: bool)
    requires k <= |children|
  {
    Dependable(Any(children), mayCancel) ==>
      asked + SumAskedFrom(children, k, path, input, rs) == SumAsked(Any(children), path, input, rs)
  }

  lemma StartLog(children: seq<Option<Authorizer>>, path: seq<nat>, input: Input, rs: seq<string>, mayCancel: bool)
    ensures LogInv(children, 0, path, input, rs, multiset{}, mayCancel)
  {
    AnySum(children, path, input, rs);
  }

  lemma SkipLogs(children: seq<Option<Authorizer>>, k: nat, path: seq<nat>, input: Input, rs: seq<string>,
                 left: seq<string>, results: map<string, bool>, rounds: seq<seq<string>>,
                 asked: multiset<Question>, mayCancel: bool)
    requires k < |children| && LoopInv(children, k, input, rs, left, results, rounds, mayCancel)
    requires children[k].None? || left == []
    requires LogInv(children, k, path, input, rs, asked, mayCancel)
    ensures LogInv(children, k + 1, path, input, rs, asked, mayCancel)
  {
    PeelChild(children, k, path, input, rs);
  }

  lemma AskLogs(children: seq<Option<Authorizer>>, k: nat, path: seq<nat>, input: Input, rs: seq<string>,
                left: seq<string>, results: map<string, bool>, rounds: seq<seq<string>>, answered: bool,
                asked: multiset<Question>, more: multiset<Question>, mayCancel: bool)
    requires k < |children| && LoopInv(children, k, input, rs, left, results, rounds, mayCancel)
    requires children[k].Some? && LogInv(children, k, path, input, rs, asked, mayCancel)
    requires Dependable(children[k].value, mayCancel) ==>
               Frugal(children[k].value, path + [k], input, left, answered, more)
    ensures answered ==> LogInv(children, k + 1, path, input, rs, asked + more, mayCancel)
    ensures Dependable(Any(children), mayCancel) ==> asked + more <= SumAsked(Any(children), path, input, rs)
  {
    ChildIsDependable(children, k, mayCancel);
    PeelChild(children, k, path, input, rs);
    if Dependable(Any(children), mayCancel) {
      var whole := SumAsked(children[k].value, path + [k], input, left);
      var rest := SumAskedFrom(children, k + 1, path, input, rs);
      assert asked + (whole + rest) == (asked + whole) + rest;
    }
  }

  lemma EndLog(children: seq<Option<Authorizer>>, path: seq<nat>, input: Input, rs: seq<string>,
               asked: multiset<Question>, mayCancel: bool)
    requires LogInv(children, |children|, path, input, rs, asked, mayCancel)
    ensures Dependable(Any(children), mayCancel) ==> Frugal(Any(children), path, input, rs, true, asked)
  {
    NothingMoreToAsk(children, path, input, rs);
    BatchAsksNoMore(Any(children), path, input, rs);
  }
}
