/**
  Batch authorization: the optimised evaluator that asks each child of a composition once about all
  undecided resources, over one worklist that it shrinks in place.
*/
module BatchAuthorization {
  import opened Authorizers
  import opened BatchLoop
  import opened BatchOutcomes
  import opened FanOut
  import opened FanOutTheorems
  import opened Questions
  import opened Worklist
  import opened Wrappers

  import Authorization
  import FanOutInvariants

  // ---------------------------------------------------------------- in-place compaction

  /** Appending to a slice with room to grow writes into the array it shares. */
  method Append(buffer: array<string>, length: nat, value: string) returns (grown: nat)
    requires length < buffer.Length
    modifies buffer
    ensures grown == length + 1
    ensures buffer[..] == old(buffer[..])[length := value]
  {
    buffer[length] := value;
    grown := length + 1;
  }

  /** Keeping one element: it is written right after those kept so far, which stand before the untouched rest. */
  method KeepOne(remaining: array<string>, i: nat, still: nat, ghost was: seq<string>, ghost kept: seq<string>)
    returns (grown: nat)
    requires still == |kept| <= i < |was|
    requires remaining[..] == kept + was[still..]
    modifies remaining
    ensures grown == still + 1
    ensures remaining[..] == (kept + [was[i]]) + was[grown..]
  {
    ghost var cur := remaining[..];
    var resource := remaining[i];
    assert resource == cur[i] == was[i];
    WriteNext(kept, was, resource);
    grown := Append(remaining, still, resource);
  }

  /**
    The survivors are moved to the front of the slice that is being read. The write index never
    passes the read index, so every element is read before it is overwritten.
  */
  method MoveKept(remaining: array<string>, live: nat, partial: map<string, bool>, results: map<string, bool>)
    returns (still: nat, updated: map<string, bool>)
    requires live <= remaining.Length
    modifies remaining
    ensures still <= live
    ensures remaining[..still] == Kept(old(remaining[..live]), partial)
    ensures remaining[still..] == old(remaining[still..])
    ensures updated == Marked(results, old(remaining[..live]), partial)
  {
    ghost var was, kept := remaining[..], [];
    still, updated := 0, results;
    for i := 0 to live
      invariant kept == Kept(was[..i], partial) && still == |kept| <= i
      invariant remaining[..] == kept + was[still..]
      invariant updated == Marked(results, was[..i], partial)
    {
      OneMore(was, i, partial, results);
      assert remaining[i] == remaining[..][i] == was[i];
      if Allowed(partial, remaining[i]) {
        updated := updated[remaining[i] := true];
      } else {
        still := KeepOne(remaining, i, still, was, kept);
        kept := kept + [was[i]];
      }
    }
    assert was[..live] == old(remaining[..live]);
    KeptAndRest(kept, was[still..]);
    assert remaining[..still] == remaining[..][..still];
    assert remaining[still..] == remaining[..][still..];
  }

  /** The compaction overwrites the slice, so nothing that the child asked last has left running may still read it. */
  method Compact(remaining: array<string>, live: nat, partial: map<string, bool>, results: map<string, bool>,
                 ghost child: Authorizer, ghost input: Input, ghost steps: seq<Step>)
    returns (still: nat, updated: map<string, bool>)
    requires live <= remaining.Length
    requires Unread(child, input, remaining[..live], steps)
    modifies remaining
    ensures still <= live
    ensures remaining[..still] == Kept(old(remaining[..live]), partial)
    ensures remaining[still..] == old(remaining[still..])
    ensures updated == Marked(results, old(remaining[..live]), partial)
  {
    still, updated := MoveKept(remaining, live, partial, results);
  }

  method CopyOf(resources: array<string>, n: nat) returns (copy: array<string>)
    requires n <= resources.Length
    ensures fresh(copy) && copy.Length == n && copy[..n] == resources[..n]
  {
    copy := new string[n];
    for i := 0 to n
      invariant copy[..i] == resources[..i]
    {
      copy[i] := resources[i];
    }
  }

  method FillDenied(remaining: array<string>, live: nat, results: map<string, bool>)
    returns (out: map<string, bool>)
    requires live <= remaining.Length
    ensures out == Denied(results, remaining[..live])
  {
    out := results;
    for i := 0 to live
      invariant out == Denied(results, remaining[..i])
    {
      assert remaining[..i + 1] == remaining[..i] + [remaining[i]];
      out := out[remaining[i] := false];
    }
  }

  // ---------------------------------------------------------------- one resource after the other

  /** The pointwise answers, or the first error. */
  lemma EachServes(t: Authorizer, input: Input, rs: seq<string>, mayCancel: bool)
    ensures Matches(t, input, rs, Sequential(rs, VerdictOn(t, input)))
    ensures Serves(t, input, rs, Sequential(rs, VerdictOn(t, input)), mayCancel)
  {
    var outcome := Sequential(rs, VerdictOn(t, input));
    assert forall x :: VerdictOn(t, input)(x) == Verdict(t, On(input, x));
    MatchesIsAgreement(t, input, rs, outcome);
    AgreesIsSound(t, input, rs, outcome);
    if outcome.Failure? {
      var x :| x in rs && VerdictOn(t, input)(x) == Failure(outcome.error);
      assert Blames(t, input, rs, outcome.error);
    }
  }

  /** One round of the loop, on values: the answers so far, or the first error, and the questions so far. */
  lemma EachStep(t: Authorizer, path: seq<nat>, input: Input, rs: seq<string>, i: nat, results: map<string, bool>)
    requires i < |rs| && Sequential(rs[..i], VerdictOn(t, input)) == Success(results)
    ensures match Verdict(t, On(input, rs[i]))
            case Success(b) => Sequential(rs[..i + 1], VerdictOn(t, input)) == Success(results[rs[i] := b])
            case Failure(e) => Sequential(rs, VerdictOn(t, input)) == Failure(e)
    ensures SumAsked(t, path, input, rs[..i]) + Asked(t, path, On(input, rs[i]))
         == SumAsked(t, path, input, rs[..i + 1])
    ensures SumAsked(t, path, input, rs[..i + 1]) <= SumAsked(t, path, input, rs)
  {
    assert rs[..i + 1][..i] == rs[..i];
    SumOfPrefix(t, path, input, rs, i + 1);
    if Verdict(t, On(input, rs[i])).Failure? {
      SequentialStops(rs, i + 1, VerdictOn(t, input));
    }
  }

  /** What the loop's results amount to, as a batch. */
  lemma EachReports(t: Authorizer, path: seq<nat>, input: Input, rs: seq<string>, r: Result<map<string, bool>>,
                    asked: multiset<Question>, mayCancel: bool)
    requires r == Sequential(rs, VerdictOn(t, input)) || (mayCancel && !t.RBAC? && r.Failure?)
    requires asked <= SumAsked(t, path, input, rs) && (r.Success? ==> asked == SumAsked(t, path, input, rs))
    ensures !mayCancel || t.RBAC? || r.Success? ==> Matches(t, input, rs, r)
    ensures Serves(t, input, rs, r, mayCancel) && Frugal(t, path, input, rs, r.Success?, asked)
  {
    EachServes(t, input, rs, mayCancel);
    BatchAsksNoMore(t, path, input, rs);
  }

  /** Asking about one resource after the other: role policies, and children without a batch form. */
  method AuthorizeEach(t: Authorizer, path: seq<nat>, input: Input, resources: array<string>, n: nat, mayCancel: bool)
    returns (r: Result<map<string, bool>>, asked: multiset<Question>)
    requires n <= resources.Length
    ensures r == Sequential(resources[..n], VerdictOn(t, input)) || (mayCancel && !t.RBAC? && r.Failure?)
    ensures !mayCancel || t.RBAC? || r.Success? ==> Matches(t, input, resources[..n], r)
    ensures Serves(t, input, resources[..n], r, mayCancel)
    ensures Frugal(t, path, input, resources[..n], r.Success?, asked)
  {
    ghost var rs := resources[..n];
    var results: map<string, bool> := map[];
    asked := multiset{};
    for i := 0 to n
      invariant Sequential(rs[..i], VerdictOn(t, input)) == Success(results)
      invariant asked == SumAsked(t, path, input, rs[..i])
    {
      EachStep(t, path, input, rs, i, results);
      var allowed, questions := Authorization.Authorize(t, path, On(input, resources[i]));
      asked := asked + questions;
      if mayCancel && !t.RBAC? {
        if * {
          r := Failure(Backend("context canceled"));
          EachReports(t, path, input, rs, r, asked, mayCancel);
          return;
        }
      }
      if allowed.Failure? {
        r := Failure(allowed.error);
        EachReports(t, path, input, rs, r, asked, mayCancel);
        return;
      }
      results := results[resources[i] := allowed.value];
    }
    assert rs[..n] == rs;
    r := Success(results);
    EachReports(t, path, input, rs, r, asked, mayCancel);
  }

  // ---------------------------------------------------------------- relation engines

  /** A misconfigured relation authorizer errs at once; on an empty list no resource errs. */
  lemma MisconfiguredErrs(t: Authorizer, input: Input, rs: seq<string>, e: Error)
    requires Misconfigured(t, input)
    ensures Matches(t, input, rs, Failure(e)) <==> rs != []
  {
    if rs != [] {
      assert Verdict(t, On(input, rs[0])).Failure?;
    }
  }

  lemma MisconfiguredServes(t: Authorizer, path: seq<nat>, input: Input, rs: seq<string>, e: Error, mayCancel: bool)
    requires Misconfigured(t, input) && Verdict(t, input) == Failure(e)
    ensures Serves(t, input, rs, Failure(e), mayCancel)
    ensures Frugal(t, path, input, rs, false, multiset{})
    ensures Matches(t, input, rs, Failure(e)) <==> rs != []
  {
    MisconfiguredErrs(t, input, rs, e);
    MisconfiguredIsFrugal(t, path, input, rs);
    if rs != [] {
      assert Verdict(t, On(input, rs[0])) == Failure(e);
      assert Blames(t, input, rs, e);
    }
  }

  /** A bulk engine's map is passed on; it matches exactly if it has the requested keys and no others. */
  lemma EngineBatchServes(t: Authorizer, input: Input, rs: seq<string>, mayCancel: bool)
    requires IsBulk(t) && SubjectOf(input) != "" && rs != []
    ensures Serves(t, input, rs, BulkAnswer(t, input, rs), mayCancel)
    ensures Consistent(t) ==>
              (Matches(t, input, rs, BulkAnswer(t, input, rs))
               <==> (BulkAnswer(t, input, rs).Success? ==> BulkAnswer(t, input, rs).value.Keys == ToSet(rs)))
  {
    MatchesIsAgreement(t, input, rs, BulkAnswer(t, input, rs));
  }

  /** The fan-out's results are the checker's answers, whole when nothing cancels from outside. */
  lemma FanOutServes(t: Authorizer, input: Input, rs: seq<string>, handedOut: seq<string>,
                     check: string -> Result<bool>, r: Result<map<string, bool>>, mayCancel: bool)
    requires HasEngine(t) && t.checker.value.OneByOne? && forall x :: Verdict(t, On(input, x)) == check(x)
    requires handedOut <= rs
    requires r.Success? ==> Sequential(handedOut, check) == r
    requires !mayCancel && r.Success? ==> handedOut == rs
    requires !mayCancel && r.Failure? ==> FanOutInvariants.CheckFailsWith(Call(rs, check), r.error)
    ensures Serves(t, input, rs, r, mayCancel)
    ensures !mayCancel ==> Matches(t, input, rs, r)
  {
    if !mayCancel {
      MatchesIsAgreement(t, input, rs, r);
      if r.Failure? {
        assert Blames(t, input, rs, r.error);
      }
    }
    if r.Success? {
      assert forall x :: x in ToSet(handedOut) ==> x in handedOut && x in rs && x in ToSet(rs);
    }
  }

  /** One bulk call, or the fan-out; `steps` is the fan-out's schedule. */
  method AskEngine(checker: Checker, subject: string, path: seq<nat>, input: Input, resources: array<string>, n: nat,
                   mayCancel: bool)
    returns (r: Result<map<string, bool>>, asked: multiset<Question>, ghost steps: seq<Step>)
    requires 0 < n <= resources.Length && subject == SubjectOf(input) != ""
    ensures EngineAnswers(checker, input, resources[..n], r, mayCancel)
    ensures Serves(ReBAC(Some(checker)), input, resources[..n], r, mayCancel)
    ensures Dependable(ReBAC(Some(checker)), mayCancel) ==>
              Frugal(ReBAC(Some(checker)), path, input, resources[..n], r.Success?, asked)
    ensures r.Success? ==> Unread(ReBAC(Some(checker)), input, resources[..n], steps)
  {
    ghost var t, rs := ReBAC(Some(checker)), resources[..n];
    steps := [];
    match checker {
      case Batch(_, hasRelations) =>
        asked := LeafAsked(path, resources[..n]);
        LeafIsFrugal(t, path, input, rs, rs, true);
        if mayCancel {
          if * {
            return Failure(Backend("context canceled")), asked, steps;
          }
        }
        r := hasRelations(subject, input.action, resources[..n]);
        EngineBatchServes(t, input, rs, mayCancel);
      case OneByOne(hasRelation) =>
        var check := CheckOf(hasRelation, subject, input.action);
        var handedOut;
        r, handedOut, steps := FanOutRelationChecks(Call(resources[..n], check), mayCancel);
        asked := LeafAsked(path, handedOut);
        FanOutServes(t, input, rs, handedOut, check, r, mayCancel);
        LeafIsFrugal(t, path, input, rs, handedOut, r.Success? && !mayCancel);
    }
  }

  /** `steps` is the schedule of a fan-out over the list; without a fan-out it is not used. */
  method RebacAuthorizeBatch(checker: Option<Checker>, path: seq<nat>, input: Input, resources: array<string>, n: nat,
                             mayCancel: bool)
    returns (r: Result<map<string, bool>>, asked: multiset<Question>, ghost steps: seq<Step>)
    requires n <= resources.Length
    ensures checker.None? ==> r == Failure(CheckerNotConfigured)
    ensures checker.Some? && input.subject == "" && (input.claims.None? || input.claims.value.subject == "") ==>
              r == Failure(SubjectRequired)
    ensures checker.Some? && n > 0 && input.subject != "" ==>
              EngineReplies(checker.value, input.subject, input.action, resources[..n], r, mayCancel)
    ensures checker.Some? && n > 0 && input.subject == "" && input.claims.Some? && input.claims.value.subject != "" ==>
              EngineReplies(checker.value, input.claims.value.subject, input.action, resources[..n], r, mayCancel)
    ensures Misconfigured(ReBAC(checker), input) ==> r.Failure?
    ensures Answers(ReBAC(checker), input, resources[..n], r, mayCancel)
    ensures Serves(ReBAC(checker), input, resources[..n], r, mayCancel)
    ensures !mayCancel && Consistent(ReBAC(checker)) ==>
              (Matches(ReBAC(checker), input, resources[..n], r)
               <==> && (n > 0 || !Misconfigured(ReBAC(checker), input))
                    && (IsBulk(ReBAC(checker)) && r.Success? ==> r.value.Keys == ToSet(resources[..n])))
    ensures Dependable(ReBAC(checker), mayCancel) ==>
              Frugal(ReBAC(checker), path, input, resources[..n], r.Success?, asked)
    ensures r.Success? ==> Unread(ReBAC(checker), input, resources[..n], steps)
  {
    ghost var t, rs := ReBAC(checker), resources[..n];
    asked, steps := multiset{}, [];
    if checker.None? {
      MisconfiguredServes(t, path, input, rs, CheckerNotConfigured, mayCancel);
      return Failure(CheckerNotConfigured), asked, steps;
    }
    var subject := input.subject;
    if subject == "" && input.claims.Some? {
      subject := input.claims.value.subject;
    }
    if subject == "" {
      MisconfiguredServes(t, path, input, rs, SubjectRequired, mayCancel);
      return Failure(SubjectRequired), asked, steps;
    }
    if n == 0 {
      LeafIsFrugal(t, path, input, rs, [], true);
      return Success(map[]), asked, steps;
    }
    r, asked, steps := AskEngine(checker.value, subject, path, input, resources, n, mayCancel);
    MatchesIsAgreement(t, input, rs, r);
  }

  // ---------------------------------------------------------------- the loop over the children

  /** What holds before child `k`, of the worklist and the results, the log, and the possible outcomes. */
  ghost predicate Running(children: seq<Option<Authorizer>>, k: nat, path: seq<nat>, input: Input, rs: seq<string>,
                          left: seq<string>, results: map<string, bool>, rounds: seq<seq<string>>,
                          asked: multiset<Question>, mayCancel: bool) {
    && k <= |children|
    && LoopInv(children, k, input, rs, left, results, rounds, mayCancel)
    && LogInv(children, k, path, input, rs, asked, mayCancel)
    && Continues(children, k, input, rs, left, results, mayCancel)
  }

  /**
    What the composition's batch reports: a possible outcome; the full key set in any case; the
    pointwise answers, or where the first failing child is; the rounds; and the log.
  */
  ghost predicate Reports(children: seq<Option<Authorizer>>, path: seq<nat>, input: Input, rs: seq<string>,
                          r: Result<map<string, bool>>, rounds: seq<seq<string>>, asked: multiset<Question>,
                          mayCancel: bool) {
    && AnyAnswers(children, input, rs, map[], r, mayCancel)
    && (r.Success? ==> r.value.Keys == ToSet(rs))
    && Serves(Any(children), input, rs, r, mayCancel)
    && (!mayCancel && Consistent(Any(children)) ==> Matches(Any(children), input, rs, r))
    && (!mayCancel && Consistent(Any(children)) && r.Failure? ==>
          rounds != [] && StopsAt(children, |rounds| - 1, input, rs, r.error))
    && (Dependable(Any(children), mayCancel) ==>
          && AreRounds(children, input, rs, rounds)
          && (r.Success? ==> |rounds| == |children|)
          && Frugal(Any(children), path, input, rs, r.Success?, asked))
  }

  lemma RunStarts(children: seq<Option<Authorizer>>, path: seq<nat>, input: Input, rs: seq<string>, mayCancel: bool)
    ensures Running(children, 0, path, input, rs, rs, map[], [], multiset{}, mayCancel)
  {
    StartKeeps(children, input, rs, mayCancel);
    StartLog(children, path, input, rs, mayCancel);
    ContinueFromStart(children, input, rs, mayCancel);
  }

  lemma RunSkips(children: seq<Option<Authorizer>>, k: nat, path: seq<nat>, input: Input, rs: seq<string>,
                 left: seq<string>, results: map<string, bool>, rounds: seq<seq<string>>,
                 asked: multiset<Question>, mayCancel: bool)
    requires k < |children| && Running(children, k, path, input, rs, left, results, rounds, asked, mayCancel)
    requires children[k].None? || left == []
    ensures Running(children, k + 1, path, input, rs, left, results, rounds + [[]], asked, mayCancel)
  {
    SkipKeeps(children, k, input, rs, left, results, rounds, mayCancel);
    SkipLogs(children, k, path, input, rs, left, results, rounds, asked, mayCancel);
    ContinueSkipping(children, k, input, rs, left, results, mayCancel);
  }

  lemma RunAsks(children: seq<Option<Authorizer>>, k: nat, path: seq<nat>, input: Input, rs: seq<string>,
                left: seq<string>, results: map<string, bool>, rounds: seq<seq<string>>,
                asked: multiset<Question>, partial: map<string, bool>, more: multiset<Question>, mayCancel: bool)
    requires k < |children| && Running(children, k, path, input, rs, left, results, rounds, asked, mayCancel)
    requires children[k].Some? && left != []
    requires Answers(children[k].value, input, left, Success(partial), mayCancel)
    requires Serves(children[k].value, input, left, Success(partial), mayCancel)
    requires Dependable(children[k].value, mayCancel) ==>
               Frugal(children[k].value, path + [k], input, left, true, more)
    ensures Running(children, k + 1, path, input, rs, Kept(left, partial), Marked(results, left, partial),
                    rounds + [left], asked + more, mayCancel)
  {
    AskLogs(children, k, path, input, rs, left, results, rounds, true, asked, more, mayCancel);
    AskKeeps(children, k, input, rs, left, results, rounds, partial, mayCancel);
    ContinueAsking(children, k, input, rs, left, results, partial, mayCancel);
  }

  lemma RunFails(children: seq<Option<Authorizer>>, k: nat, path: seq<nat>, input: Input, rs: seq<string>,
                 left: seq<string>, results: map<string, bool>, rounds: seq<seq<string>>,
                 asked: multiset<Question>, e: Error, more: multiset<Question>, mayCancel: bool)
    requires k < |children| && Running(children, k, path, input, rs, left, results, rounds, asked, mayCancel)
    requires children[k].Some? && left != []
    requires Answers(children[k].value, input, left, Failure(e), mayCancel)
    requires Serves(children[k].value, input, left, Failure(e), mayCancel)
    requires Dependable(children[k].value, mayCancel) ==>
               Frugal(children[k].value, path + [k], input, left, false, more)
    ensures Reports(children, path, input, rs, Failure(e), rounds + [left], asked + more, mayCancel)
  {
    AskLogs(children, k, path, input, rs, left, results, rounds, false, asked, more, mayCancel);
    FailReports(children, k, input, rs, left, results, rounds, e, mayCancel);
    ContinueFailing(children, k, input, rs, left, results, e, mayCancel);
  }

  lemma RunEnds(children: seq<Option<Authorizer>>, path: seq<nat>, input: Input, rs: seq<string>,
                left: seq<string>, results: map<string, bool>, rounds: seq<seq<string>>,
                asked: multiset<Question>, mayCancel: bool)
    requires Running(children, |children|, path, input, rs, left, results, rounds, asked, mayCancel)
    ensures Reports(children, path, input, rs, Success(Denied(results, left)), rounds, asked, mayCancel)
  {
    FillReports(children, input, rs, left, results, rounds, mayCancel);
    EndLog(children, path, input, rs, asked, mayCancel);
    ContinueToTheEnd(children, input, rs, left, results, mayCancel);
  }

  // ---------------------------------------------------------------- whole trees

  /** The batch form of role-based, relation-based and composed authorizers. */
  method AuthorizeBatch(t: Authorizer, path: seq<nat>, input: Input, resources: array<string>, n: nat, mayCancel: bool)
    returns (r: Result<map<string, bool>>, asked: multiset<Question>, ghost steps: seq<Step>)
    requires n <= resources.Length && !t.Func?
    ensures Answers(t, input, resources[..n], r, mayCancel)
    ensures Serves(t, input, resources[..n], r, mayCancel)
    ensures !mayCancel && Consistent(t) ==>
              (Matches(t, input, resources[..n], r)
               <==> && (n > 0 || !Misconfigured(t, input))
                    && (IsBulk(t) && r.Success? ==> r.value.Keys == ToSet(resources[..n])))
    ensures Dependable(t, mayCancel) ==> Frugal(t, path, input, resources[..n], r.Success?, asked)
    ensures r.Success? ==> Unread(t, input, resources[..n], steps)
    decreases t, 1
  {
    steps := [];
    match t {
      case RBAC(_) =>
        r, asked := AuthorizeEach(t, path, input, resources, n, mayCancel);
      case ReBAC(checker) =>
        r, asked, steps := RebacAuthorizeBatch(checker, path, input, resources, n, mayCancel);
      case Any(children) =>
        var rounds;
        r, rounds, asked := AnyAuthorizeBatch(children, path, input, resources, n, mayCancel);
    }
  }

  /** One child of a composition, in its batch form where it has one. */
  method AskChild(c: Authorizer, path: seq<nat>, input: Input, remaining: array<string>, live: nat, mayCancel: bool)
    returns (partial: Result<map<string, bool>>, asked: multiset<Question>, ghost steps: seq<Step>)
    requires 0 < live <= remaining.Length
    ensures Answers(c, input, remaining[..live], partial, mayCancel)
    ensures Serves(c, input, remaining[..live], partial, mayCancel)
    ensures !mayCancel && Consistent(c) ==> Agrees(c, input, remaining[..live], partial)
    ensures Dependable(c, mayCancel) ==> Frugal(c, path, input, remaining[..live], partial.Success?, asked)
    ensures partial.Success? ==> Unread(c, input, remaining[..live], steps)
    decreases c, 2
  {
    steps := [];
    if c.Func? {
      partial, asked := AuthorizeEach(c, path, input, remaining, live, mayCancel);
    } else {
      partial, asked, steps := AuthorizeBatch(c, path, input, remaining, live, mayCancel);
    }
  }

  /**
    The composition's batch: `rounds[k]` is what child `k` was asked about. The caller's array is
    left alone; the worklist is a copy, compacted after each child that answered without an error.
  */
  method AnyAuthorizeBatch(children: seq<Option<Authorizer>>, path: seq<nat>, input: Input, resources: array<string>,
                           n: nat, mayCancel: bool)
    returns (r: Result<map<string, bool>>, rounds: seq<seq<string>>, asked: multiset<Question>)
    requires n <= resources.Length
    ensures Reports(children, path, input, resources[..n], r, rounds, asked, mayCancel)
    decreases children, 0
  {
    ghost var rs := resources[..n];
    var remaining := CopyOf(resources, n);
    var live: nat, results: map<string, bool> := n, map[];
    rounds, asked := [], multiset{};
    RunStarts(children, path, input, rs, mayCancel);
    for k := 0 to |children|
      invariant live <= n
      invariant Running(children, k, path, input, rs, remaining[..live], results, rounds, asked, mayCancel)
    {
      ghost var left := remaining[..live];
      if children[k].None? || live == 0 {
        RunSkips(children, k, path, input, rs, left, results, rounds, asked, mayCancel);
        rounds := rounds + [[]];
        continue;
      }
      var child := children[k].value;
      assert child < children[k];
      var partial, more;
      ghost var steps;
      partial, more, steps := AskChild(child, path + [k], input, remaining, live, mayCancel);
      if partial.Failure? {
        RunFails(children, k, path, input, rs, left, results, rounds, asked, partial.error, more, mayCancel);
        return Failure(partial.error), rounds + [remaining[..live]], asked + more;
      }
      RunAsks(children, k, path, input, rs, left, results, rounds, asked, partial.value, more, mayCancel);
      rounds, asked := rounds + [remaining[..live]], asked + more;
      live, results := Compact(remaining, live, partial.value, results, child, input, steps);
    }
    RunEnds(children, path, input, rs, remaining[..live], results, rounds, asked, mayCancel);
    var out := FillDenied(remaining, live, results);
    r := Success(out);
  }
}
