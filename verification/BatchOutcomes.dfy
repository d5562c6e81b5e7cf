/**
  Which outcomes the batch evaluators can have: a relation, since scheduling and cancellation are free.
  That cancellation is never taken back does not restrict the leaves asked later: an engine or a
  function whose context is done may still answer, and a feeder may still hand out every resource.
*/
module BatchOutcomes {
  import opened Authorizers
  import opened FanOut
  import opened Worklist
  import opened Wrappers

  import FanOutTheorems

  /** What an engine says about a resource, for one subject and relation. */
  function CheckOf(hasRelation: (string, string, string) -> Result<bool>, subject: string, relation: string)
    : string -> Result<bool>
  {
    (x: string) => hasRelation(subject, relation, x)
  }

  function VerdictOn(t: Authorizer, input: Input): string -> Result<bool> {
    (x: string) => Verdict(t, On(input, x))
  }

  /** The fan-out of an engine over a list. */
  function FanOutCall(t: Authorizer, input: Input, rs: seq<string>): Call
    requires HasEngine(t)
  {
    Call(rs, CheckOf(t.checker.value.hasRelation, SubjectOf(input), input.action))
  }

  /**
    Nobody reads `rs` any more, however the goroutines that this schedule has left behind go on. Only a
    fan-out reads the list concurrently; a composition copies it first.
  */
  ghost predicate Unread(t: Authorizer, input: Input, rs: seq<string>, steps: seq<Step>) {
    FansOut(t, input) && rs != [] ==>
      var call := FanOutCall(t, input, rs);
      Exec(call, steps).Some? && Returned(Exec(call, steps).value) && FanOutTheorems.NoMoreReads(call, steps)
  }

  /** A bulk call that may be cut short, or any schedule of the fan-out, for one subject and relation. */
  ghost predicate EngineReplies(checker: Checker, subject: string, relation: string, rs: seq<string>,
                                outcome: Result<map<string, bool>>, mayCancel: bool) {
    match checker
    case Batch(_, hasRelations) => outcome == hasRelations(subject, relation, rs) || (mayCancel && outcome.Failure?)
    case OneByOne(hasRelation) =>
      FanOutTheorems.CanReturn(Call(rs, CheckOf(hasRelation, subject, relation)), mayCancel, outcome)
  }

  ghost predicate EngineAnswers(checker: Checker, input: Input, rs: seq<string>,
                                outcome: Result<map<string, bool>>, mayCancel: bool) {
    if rs == [] then outcome == Success(map[])
    else EngineReplies(checker, SubjectOf(input), input.action, rs, outcome, mayCancel)
  }

  /** `t` can answer a batch about `rs` with `outcome`. */
  ghost predicate Answers(t: Authorizer, input: Input, rs: seq<string>, outcome: Result<map<string, bool>>,
                          mayCancel: bool)
    decreases t, 1
  {
    match t
    case RBAC(_) => outcome == FanOutTheorems.Sequential(rs, VerdictOn(t, input))
    case Func(_) => outcome == FanOutTheorems.Sequential(rs, VerdictOn(t, input)) || (mayCancel && outcome.Failure?)
    case ReBAC(None) => outcome == Failure(CheckerNotConfigured)
    case ReBAC(Some(checker)) =>
      if SubjectOf(input) == "" then outcome == Failure(SubjectRequired)
      else EngineAnswers(checker, input, rs, outcome, mayCancel)
    case Any(children) => AnyAnswers(children, input, rs, map[], outcome, mayCancel)
  }

  /** `children`, starting from this worklist and these results, can end with `outcome`. */
  ghost predicate AnyAnswers(children: seq<Option<Authorizer>>, input: Input, left: seq<string>,
                             results: map<string, bool>, outcome: Result<map<string, bool>>, mayCancel: bool)
    decreases children, 0
  {
    if children == [] then outcome == Success(Denied(results, left))
    else if children[0].None? || left == [] then AnyAnswers(children[1..], input, left, results, outcome, mayCancel)
    else
      assert children[0].value < children[0];
      exists partial ::
        && Answers(children[0].value, input, left, partial, mayCancel)
        && if partial.Failure? then outcome == partial
           else AnyAnswers(children[1..], input, Kept(left, partial.value), Marked(results, left, partial.value),
                           outcome, mayCancel)
  }

  lemma FirstAnswer(children: seq<Option<Authorizer>>, input: Input, left: seq<string>,
                    results: map<string, bool>, out: map<string, bool>, mayCancel: bool)
    returns (partial: map<string, bool>)
    requires children != [] && children[0].Some? && left != []
    requires AnyAnswers(children, input, left, results, Success(out), mayCancel)
    ensures Answers(children[0].value, input, left, Success(partial), mayCancel)
    ensures AnyAnswers(children[1..], input, Kept(left, partial), Marked(results, left, partial), Success(out),
                       mayCancel)
  {
    var answer :| Answers(children[0].value, input, left, answer, mayCancel)
                  && if answer.Failure? then Success(out) == answer
                     else AnyAnswers(children[1..], input, Kept(left, answer.value),
                                     Marked(results, left, answer.value), Success(out), mayCancel);
    partial := answer.value;
  }

  /** A composition's map has exactly the listed keys, whatever its engines answer and whoever cancels. */
  lemma {:induction false} CompositionKeys(children: seq<Option<Authorizer>>, input: Input, left: seq<string>,
                                           results: map<string, bool>, out: map<string, bool>, mayCancel: bool)
    requires AnyAnswers(children, input, left, results, Success(out), mayCancel)
    ensures out.Keys == results.Keys + ToSet(left)
    decreases children
  {
    if children == [] {
      assert forall r :: r in ToSet(left) <==> r in left;
    } else if children[0].None? || left == [] {
      CompositionKeys(children[1..], input, left, results, out, mayCancel);
    } else {
      var partial := FirstAnswer(children, input, left, results, out, mayCancel);
      CompositionKeys(children[1..], input, Kept(left, partial), Marked(results, left, partial), out, mayCancel);
      KeptMembers(left, partial);
    }
  }

  // ---------------------------------------------------------------- running the children in turn

  /** However the children from `k` on end, all children end from the start. */
  ghost predicate Continues(children: seq<Option<Authorizer>>, k: nat, input: Input, rs: seq<string>,
                            left: seq<string>, results: map<string, bool>, mayCancel: bool)
    requires k <= |children|
  {
    forall outcome :: AnyAnswers(children[k..], input, left, results, outcome, mayCancel) ==>
                        AnyAnswers(children, input, rs, map[], outcome, mayCancel)
  }

  lemma ContinueFromStart(children: seq<Option<Authorizer>>, input: Input, rs: seq<string>, mayCancel: bool)
    ensures Continues(children, 0, input, rs, rs, map[], mayCancel)
  {
    assert children[0..] == children;
  }

  lemma ContinueSkipping(children: seq<Option<Authorizer>>, k: nat, input: Input, rs: seq<string>,
                         left: seq<string>, results: map<string, bool>, mayCancel: bool)
    requires k < |children| && Continues(children, k, input, rs, left, results, mayCancel)
    requires children[k].None? || left == []
    ensures Continues(children, k + 1, input, rs, left, results, mayCancel)
  {
    assert children[k..][1..] == children[k + 1..];
  }

  lemma ContinueAsking(children: seq<Option<Authorizer>>, k: nat, input: Input, rs: seq<string>,
                       left: seq<string>, results: map<string, bool>, partial: map<string, bool>, mayCancel: bool)
    requires k < |children| && Continues(children, k, input, rs, left, results, mayCancel)
    requires children[k].Some? && left != []
    requires Answers(children[k].value, input, left, Success(partial), mayCancel)
    ensures Continues(children, k + 1, input, rs, Kept(left, partial), Marked(results, left, partial), mayCancel)
  {
    assert children[k..][1..] == children[k + 1..] && children[k..][0] == children[k];
    forall outcome | AnyAnswers(children[k + 1..], input, Kept(left, partial), Marked(results, left, partial),
                                outcome, mayCancel)
      ensures AnyAnswers(children, input, rs, map[], outcome, mayCancel)
    {
      assert Success(partial).value == partial;
      assert AnyAnswers(children[k..], input, left, results, outcome, mayCancel);
    }
  }

  lemma ContinueFailing(children: seq<Option<Authorizer>>, k: nat, input: Input, rs: seq<string>,
                        left: seq<string>, results: map<string, bool>, e: Error, mayCancel: bool)
    requires k < |children| && Continues(children, k, input, rs, left, results, mayCancel)
    requires children[k].Some? && left != []
    requires Answers(children[k].value, input, left, Failure(e), mayCancel)
    ensures AnyAnswers(children, input, rs, map[], Failure(e), mayCancel)
  {
    assert children[k..][0] == children[k];
    assert AnyAnswers(children[k..], input, left, results, Failure(e), mayCancel);
  }

  lemma ContinueToTheEnd(children: seq<Option<Authorizer>>, input: Input, rs: seq<string>, left: seq<string>,
                         results: map<string, bool>, mayCancel: bool)
    requires Continues(children, |children|, input, rs, left, results, mayCancel)
    ensures AnyAnswers(children, input, rs, map[], Success(Denied(results, left)), mayCancel)
  {
    assert AnyAnswers(children[|children|..], input, left, results, Success(Denied(results, left)), mayCancel);
  }

  // ---------------------------------------------------------------- what an engine was asked

  /** Uncancelled, a bulk engine's answer is passed on, and a fanned-out engine's single answers are put together. */
  lemma EngineRepliesMean(checker: Checker, subject: string, relation: string, rs: seq<string>,
                          outcome: Result<map<string, bool>>)
    requires EngineReplies(checker, subject, relation, rs, outcome, false)
    ensures checker.Batch? ==> outcome == checker.hasRelations(subject, relation, rs)
    ensures checker.OneByOne? && outcome.Success? ==>
              && outcome.value.Keys == ToSet(rs)
              && forall x :: x in outcome.value ==>
                   checker.hasRelation(subject, relation, x) == Success(outcome.value[x])
    ensures checker.OneByOne? && outcome.Failure? ==>
              exists x :: x in rs && checker.hasRelation(subject, relation, x) == Failure(outcome.error)
  {
    if checker.OneByOne? {
      var call := Call(rs, CheckOf(checker.hasRelation, subject, relation));
      var steps, s :| Exec(call, steps) == Some(s) && !s.outerCancelled
                      && FanOutTheorems.ReturnOf(s.collector) == Some(outcome);
      FanOutTheorems.RefinesSequential(call, steps, s);
    }
  }
}
