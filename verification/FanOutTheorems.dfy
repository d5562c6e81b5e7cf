/** Safety, termination and functional correctness of the fan-out, over every schedule. */
module FanOutTheorems {
  import opened Wrappers
  import opened FanOut
  import opened FanOutInvariants

  // ---------------------------------------------------------------- the sequential loop

  /** Asking the checker about one resource after the other, stopping at the first error. */
  function Sequential(resources: seq<string>, check: string -> Result<bool>): (r: Result<map<string, bool>>)
    ensures r.Success? <==> forall i :: 0 <= i < |resources| ==> check(resources[i]).Success?
    ensures r.Success? ==> r.value.Keys == ToSet(resources)
    ensures r.Success? ==> forall k :: k in r.value ==> check(k) == Success(r.value[k])
    ensures r.Failure? ==> exists k :: k in resources && check(k) == Failure(r.error)
  {
    if resources == [] then Success(map[])
    else
      var init, last := resources[..|resources| - 1], resources[|resources| - 1];
      assert forall i :: 0 <= i < |init| ==> init[i] == resources[i];
      match Sequential(init, check)
      case Failure(e) =>
        assert forall k :: k in init ==> k in resources;
        Failure(e)
      case Success(m) =>
        match check(last)
        case Failure(e) =>
          assert last in resources;
          Failure(e)
        case Success(b) => Success(m[last := b])
  }

  lemma SequentialIs(resources: seq<string>, check: string -> Result<bool>, out: map<string, bool>)
    requires out.Keys == ToSet(resources)
    requires forall k :: k in out ==> check(k) == Success(out[k])
    ensures Sequential(resources, check) == Success(out)
  {
    forall i | 0 <= i < |resources|
      ensures check(resources[i]).Success?
    {
      assert resources[i] in out;
    }
    assert Sequential(resources, check).value == out;
  }

  /** The first error ends the loop. */
  lemma {:induction false} SequentialStops(resources: seq<string>, k: nat, check: string -> Result<bool>)
    requires k <= |resources| && Sequential(resources[..k], check).Failure?
    ensures Sequential(resources, check) == Sequential(resources[..k], check)
  {
    if k == |resources| {
      assert resources[..k] == resources;
    } else {
      assert resources[..|resources| - 1][..k] == resources[..k];
      SequentialStops(resources[..|resources| - 1], k, check);
    }
  }

  // ---------------------------------------------------------------- channel safety

  /** A worker holds at most one resource, so at most min(8, n) checks are in flight. */
  lemma {:induction false} HeldBounded(ws: seq<Worker>)
    ensures |Held(ws)| <= |ws|
  {
    if ws != [] {
      HeldBounded(ws[1..]);
    }
  }

  lemma SendFits(call: Call, s: State, w: nat)
    requires Conserved(call, s) && w < |s.workers| && s.workers[w].Sending?
    ensures |s.buffer| < |call.resources|
  {
    HeldHas(s.workers, w);
    assert s.workers[w].outcome.resource in Held(s.workers);
    assert |multiset(call.resources[..s.fed])| == s.fed;
  }

  /** A worker with an outcome can always send it at once, and the results channel is still open. */
  lemma SendNeverBlocks(call: Call, steps: seq<Step>, s: State, w: nat)
    requires Exec(call, steps) == Some(s) && w < |s.workers| && s.workers[w].Sending?
    ensures Enabled(call, s, Send(w)) && !s.resultsClosed
  {
    Reached(call, steps, s);
    SendFits(call, s, w);
    NobodyAlive(s.workers);
  }

  /**
    Conservation, bounded concurrency, and the remaining ways Go would panic: nobody offers on or
    closes a closed jobs channel, and the WaitGroup counter never goes below zero.
  */
  lemma ChannelSafety(call: Call, steps: seq<Step>, s: State)
    requires Exec(call, steps) == Some(s)
    ensures s.fed <= |call.resources|
    ensures multiset(call.resources[..s.fed])
         == Held(s.workers) + multiset(Names(s.buffer)) + multiset(Names(s.received))
    ensures |Held(s.workers)| <= WorkerCount(|call.resources|) <= 8
    ensures s.feeder.Offering? || s.feeder.Closing? ==> !s.jobsClosed
    ensures s.pending >= 0
    ensures forall w :: 0 <= w < |s.workers| && s.workers[w].Idle? ==> s.pending > 0
  {
    Reached(call, steps, s);
    HeldBounded(s.workers);
    NobodyAlive(s.workers);
  }

  // ---------------------------------------------------------------- progress and termination

  /** Extends a schedule by one step. */
  lemma Take(call: Call, steps: seq<Step>, s: State, step: Step) returns (longer: seq<Step>, t: State)
    requires Exec(call, steps) == Some(s) && Enabled(call, s, step)
    ensures longer == steps + [step]
    ensures Some(t) == Fire(call, s, step) && Exec(call, longer) == Some(t)
  {
    longer, t := steps + [step], Fire(call, s, step).value;
    assert longer[..|longer| - 1] == steps;
  }

  function FeederOwes(f: Feeder, left: nat): nat {
    match f
    case AtLoop => 5 * left + 2
    case Offering(_) => 5 * left + 1
    case Closing => 1
    case Stopped => 0
  }

  function CollectorOwes(c: Collector): nat {
    match c
    case Collecting(_) => 2
    case Failing(_) => 1
    case _ => 0
  }

  /** An upper bound on the steps still to come. */
  function Measure(call: Call, s: State): nat {
    FeederOwes(s.feeder, if s.fed <= |call.resources| then |call.resources| - s.fed else 0)
    + Owed(s.workers)
    + |s.buffer|
    + (if s.resultsClosed then 0 else 1)
    + CollectorOwes(s.collector)
    + (if s.outerCancelled then 0 else 1)
  }

  lemma WorkerStepDecreases(call: Call, s: State, step: Step, w: nat, t: State)
    requires s.feeder.Offering? ==> s.fed < |call.resources|
    requires Fire(call, s, step) == Some(t)
    requires step == Hand(w) || step == Send(w) || step == Exit(w) || (step.Answered? && step.w == w)
    ensures Measure(call, t) < Measure(call, s)
  {
    CountsUpdate(s.workers, w, t.workers[w]);
  }

  lemma OtherStepDecreases(call: Call, s: State, step: Step, t: State)
    requires s.feeder.Offering? ==> s.fed < |call.resources|
    requires Fire(call, s, step) == Some(t)
    requires !(step.Hand? || step.Send? || step.Exit? || step.Answered?)
    ensures if step.CallerWrites? then Measure(call, t) == Measure(call, s)
            else Measure(call, t) < Measure(call, s)
  {
  }

  /** Every step of a goroutine brings the end nearer; what the caller writes afterwards does not matter. */
  lemma StepDecreases(call: Call, s: State, step: Step, t: State)
    requires Inv(call, s) && Fire(call, s, step) == Some(t)
    ensures if step.CallerWrites? then Measure(call, t) == Measure(call, s)
            else Measure(call, t) < Measure(call, s)
  {
    if step.Hand? || step.Send? || step.Exit? || step.Answered? {
      WorkerStepDecreases(call, s, step, step.w, t);
    } else {
      OtherStepDecreases(call, s, step, t);
    }
  }

  /** Steps of a schedule other than the caller's own writes after the return. */
  function Work(steps: seq<Step>): nat {
    if steps == [] then 0
    else Work(steps[..|steps| - 1]) + (if steps[|steps| - 1].CallerWrites? then 0 else 1)
  }

  /** Termination: no schedule runs longer than a bound linear in the number of resources. */
  lemma {:induction false} ScheduleBound(call: Call, steps: seq<Step>, s: State)
    requires Exec(call, steps) == Some(s)
    ensures Work(steps) + Measure(call, s) <= 5 * |call.resources| + WorkerCount(|call.resources|) + 6
  {
    if steps == [] {
      AllIdle(WorkerCount(|call.resources|));
    } else {
      var init := steps[..|steps| - 1];
      var before := Exec(call, init).value;
      ScheduleBound(call, init, before);
      Reached(call, init, before);
      StepDecreases(call, before, steps[|steps| - 1], s);
    }
  }

  /** A worker that is checking, sending, or idle beside a closed jobs channel can move by itself. */
  lemma WorkerMoves(call: Call, s: State, w: nat) returns (step: Step)
    requires Inv(call, s) && w < |s.workers|
    requires match s.workers[w] case Idle => s.jobsClosed || s.feeder.Offering? case Exited => false case _ => true
    ensures Enabled(call, s, step) && !FromOutside(step)
  {
    match s.workers[w] {
      case Checking(r) =>
        step := Answered(w, call.check(r));
      case Sending(_) =>
        SendFits(call, s, w);
        step := Send(w);
      case Idle =>
        step := if s.jobsClosed then Exit(w) else Hand(w);
    }
  }

  lemma CollectorMoves(call: Call, s: State) returns (step: Step)
    requires s.pending == 0 && !(s.resultsClosed && Returned(s))
    ensures Enabled(call, s, step) && !FromOutside(step)
  {
    if !s.resultsClosed {
      step := CloseResults;
    } else if s.collector.Failing? {
      step := ReturnError;
    } else {
      assert s.collector.Collecting?;
      step := if s.buffer != [] then Receive else ReturnMap;
    }
  }

  /** Deadlock freedom: while a goroutine is alive, one of them can take a step. */
  lemma NextStep(call: Call, s: State) returns (step: Step)
    requires Inv(call, s) && !AllDone(s)
    ensures Enabled(call, s, step) && !FromOutside(step)
  {
    if s.feeder.AtLoop? {
      return if s.fed < |s.slice| then Read else RangeEnds;
    }
    if s.feeder.Closing? {
      return CloseJobs;
    }
    if w: nat :| w < |s.workers| && !s.workers[w].Exited? {
      step := WorkerMoves(call, s, w);
      return;
    }
    NobodyAlive(s.workers);
    assert |s.workers| > 0 ==> s.workers[0].Exited?;
    step := CollectorMoves(call, s);
  }

  /** No goroutine leaks: the reachable states with nothing left to run are exactly the finished ones. */
  lemma StuckOnlyWhenDone(call: Call, steps: seq<Step>, s: State)
    requires Exec(call, steps) == Some(s)
    ensures AllDone(s) <==> forall step :: Enabled(call, s, step) ==> FromOutside(step)
  {
    Reached(call, steps, s);
    if !AllDone(s) {
      var step := NextStep(call, s);
      assert Enabled(call, s, step) && !FromOutside(step);
    }
  }

  lemma Advance(call: Call, steps: seq<Step>, s: State) returns (step: Step, t: State)
    requires Exec(call, steps) == Some(s) && !AllDone(s)
    ensures Exec(call, steps + [step]) == Some(t)
    ensures t.outerCancelled == s.outerCancelled && Measure(call, t) < Measure(call, s)
  {
    Reached(call, steps, s);
    step := NextStep(call, s);
    var longer;
    longer, t := Take(call, steps, s, step);
    StepDecreases(call, s, step, t);
  }

  /** Any schedule can be run to completion by the goroutines alone. */
  lemma {:induction false} Completes(call: Call, steps: seq<Step>, s: State) returns (whole: seq<Step>, t: State)
    requires Exec(call, steps) == Some(s)
    ensures steps <= whole && Exec(call, whole) == Some(t) && AllDone(t)
    ensures t.outerCancelled == s.outerCancelled
    decreases Measure(call, s)
  {
    if AllDone(s) {
      whole, t := steps, s;
    } else {
      var step, next := Advance(call, steps, s);
      whole, t := Completes(call, steps + [step], next);
    }
  }

  /** Returning cancels: the checker's context is done, and a feeder still offering can stop at once. */
  lemma ReturnCancels(call: Call, steps: seq<Step>, s: State)
    requires Exec(call, steps) == Some(s)
    ensures s.ctxDone <==> s.outerCancelled || Returned(s)
    ensures Returned(s) && s.feeder.Offering? ==> Enabled(call, s, SeeDone)
  {
    Reached(call, steps, s);
  }

  // ---------------------------------------------------------------- the caller's slice

  /**
    Quiescence: once the call has returned a map, its goroutines have all ended (with no resources
    the feeder may still be alive, but has nothing to read) and nobody can read the slice again.
    Every read that does happen sees what the caller passed.
  */
  lemma Quiescence(call: Call, steps: seq<Step>, s: State)
    requires Exec(call, steps) == Some(s)
    ensures s.collector.Succeeded? ==> !Enabled(call, s, Read)
    ensures s.collector.Succeeded? && call.resources != [] ==> AllDone(s)
    ensures Enabled(call, s, Read) ==> s.fed < |call.resources| && s.slice[s.fed] == call.resources[s.fed]
    ensures s.feeder.Offering? ==> s.fed < |call.resources| && s.feeder.resource == call.resources[s.fed]
  {
    Reached(call, steps, s);
    NobodyAlive(s.workers);
    if s.collector.Succeeded? && call.resources != [] {
      assert s.workers[0].Exited?;
    }
  }

  lemma SuccessSurvives(call: Call, s: State, step: Step, t: State)
    requires Fire(call, s, step) == Some(t) && s.collector.Succeeded?
    ensures t.collector == s.collector && t.received == s.received
  {
  }

  lemma ExecLast(call: Call, steps: seq<Step>, t: State) returns (before: State)
    requires steps != [] && Exec(call, steps) == Some(t)
    ensures Exec(call, steps[..|steps| - 1]) == Some(before)
    ensures Fire(call, before, steps[|steps| - 1]) == Some(t)
  {
    before := Exec(call, steps[..|steps| - 1]).value;
  }

  lemma {:induction false} SuccessStays(call: Call, n: nat, s: State, steps: seq<Step>, t: State)
    requires n <= |steps| && Exec(call, steps[..n]) == Some(s) && s.collector.Succeeded?
    requires Exec(call, steps) == Some(t)
    ensures t.collector == s.collector && t.received == s.received
  {
    if n == |steps| {
      assert steps[..n] == steps;
    } else {
      var before := ExecLast(call, steps, t);
      assert steps[..|steps| - 1][..n] == steps[..n];
      SuccessStays(call, n, s, steps[..|steps| - 1], before);
      SuccessSurvives(call, before, steps[|steps| - 1], t);
    }
  }

  /** A returned map stays returned, and nobody reads the slice any more, whatever else happens. */
  lemma SuccessIsFinal(call: Call, n: nat, s: State, steps: seq<Step>, t: State)
    requires n <= |steps| && Exec(call, steps[..n]) == Some(s) && s.collector.Succeeded?
    requires Exec(call, steps) == Some(t)
    ensures t.collector == s.collector && t.received == s.received
    ensures !Enabled(call, t, Read)
  {
    SuccessStays(call, n, s, steps, t);
    Quiescence(call, steps, t);
  }

  // ---------------------------------------------------------------- what the call returns

  lemma TallyOfAll(call: Call, s: State, out: map<string, bool>)
    requires Inv(call, s) && s.collector == Succeeded(out)
    ensures s.fed <= |call.resources|
    ensures Sequential(call.resources[..s.fed], call.check) == Success(out)
  {
    NobodyAlive(s.workers);
    var asked := call.resources[..s.fed];
    assert multiset(asked) == multiset(Names(s.received));
    forall r
      ensures r in out <==> r in asked
    {
      assert r in asked <==> r in multiset(asked);
      assert r in Names(s.received) <==> r in multiset(Names(s.received));
      if r in Names(s.received) {
        var i :| 0 <= i < |s.received| && Names(s.received)[i] == r;
        assert s.received[i] in s.received;
      }
    }
    forall k | k in out
      ensures call.check(k) == Success(out[k])
    {
      var i :| 0 <= i < |s.received| && Names(s.received)[i] == k;
      assert s.received[i] in s.received;
    }
    SequentialIs(asked, call.check, out);
  }

  /**
    Refinement: without outside cancellation every schedule that returns, returns what the
    sequential loop returns, except that it may report another of the checker's errors.
  */
  lemma RefinesSequential(call: Call, steps: seq<Step>, s: State)
    requires Exec(call, steps) == Some(s) && Returned(s) && !s.outerCancelled
    ensures s.collector.Succeeded? ==> Sequential(call.resources, call.check) == Success(s.collector.out)
    ensures s.collector.Failed? ==> Sequential(call.resources, call.check).Failure?
    ensures s.collector.Failed? ==> CheckFailsWith(call, s.collector.error)
  {
    Reached(call, steps, s);
    if s.collector.Succeeded? {
      TallyOfAll(call, s, s.collector.out);
      assert call.resources[..s.fed] == call.resources;
    }
  }

  /**
    Under outside cancellation a returned map is the sequential answer on the resources that were
    handed out, which may be only some of those requested; each key present is still right.
  */
  lemma SoundUnderCancellation(call: Call, steps: seq<Step>, s: State)
    requires Exec(call, steps) == Some(s) && s.collector.Succeeded?
    ensures s.fed <= |call.resources|
    ensures Sequential(call.resources[..s.fed], call.check) == Success(s.collector.out)
    ensures forall k :: k in s.collector.out ==>
              k in call.resources && call.check(k) == Success(s.collector.out[k])
  {
    Reached(call, steps, s);
    TallyOfAll(call, s, s.collector.out);
    assert forall k :: k in call.resources[..s.fed] ==> k in call.resources;
  }

  // ---------------------------------------------------------------- running the call

  lemma OnlyOuterCancels(call: Call, s: State, step: Step, t: State)
    requires Fire(call, s, step) == Some(t)
    ensures t.outerCancelled ==> s.outerCancelled || step.OuterCancel?
    ensures step.CallerWrites? ==> Returned(s)
  {
  }

  lemma TakenStep(call: Call, s: State, step: Step, t: State)
    requires Inv(call, s) && !Returned(s) && Fire(call, s, step) == Some(t)
    ensures Inv(call, t) && Measure(call, t) < Measure(call, s)
    ensures t.outerCancelled ==> s.outerCancelled || step.OuterCancel?
  {
    OnlyOuterCancels(call, s, step, t);
    InvStep(call, s, step, t);
    StepDecreases(call, s, step, t);
  }

  predicate MayTake(call: Call, s: State, mayCancel: bool, step: Step) {
    Enabled(call, s, step) && (step.OuterCancel? ==> mayCancel)
  }

  method PickStep(call: Call, s: State, mayCancel: bool) returns (step: Step)
    requires Inv(call, s) && !Returned(s)
    ensures MayTake(call, s, mayCancel, step)
  {
    ghost var some := NextStep(call, s);
    assert MayTake(call, s, mayCancel, some);
    step :| MayTake(call, s, mayCancel, step);
  }

  /** One scheduling decision: any goroutine that can move, or an outside cancellation if allowed. */
  method Interleave(call: Call, s: State, mayCancel: bool, ghost steps: seq<Step>)
    returns (t: State, ghost longer: seq<Step>)
    requires Exec(call, steps) == Some(s) && Inv(call, s) && !Returned(s)
    ensures Exec(call, longer) == Some(t) && Inv(call, t) && Measure(call, t) < Measure(call, s)
    ensures t.outerCancelled ==> s.outerCancelled || mayCancel
  {
    var step := PickStep(call, s, mayCancel);
    t := Fire(call, s, step).value;
    ghost var u;
    longer, u := Take(call, steps, s, step);
    TakenStep(call, s, step, t);
  }

  /** What the caller of a returned call gets. */
  function ReturnOf(c: Collector): Option<Result<map<string, bool>>> {
    match c
    case Succeeded(out) => Some(Success(out))
    case Failed(e) => Some(Failure(e))
    case _ => None
  }

  /** Some schedule, cancelled from outside only if allowed, returns this outcome. */
  ghost predicate CanReturn(call: Call, mayCancel: bool, outcome: Result<map<string, bool>>) {
    exists steps, s ::
      Exec(call, steps) == Some(s) && (s.outerCancelled ==> mayCancel) && ReturnOf(s.collector) == Some(outcome)
  }

  /** However the schedule goes on from here, nobody reads the caller's slice. */
  ghost predicate NoMoreReads(call: Call, steps: seq<Step>) {
    forall longer, t :: steps <= longer && Exec(call, longer) == Some(t) ==> !Enabled(call, t, Read)
  }

  lemma NoReadsAfterSuccess(call: Call, steps: seq<Step>, s: State)
    requires Exec(call, steps) == Some(s) && s.collector.Succeeded?
    ensures NoMoreReads(call, steps)
  {
    forall longer, t | steps <= longer && Exec(call, longer) == Some(t)
      ensures !Enabled(call, t, Read)
    {
      assert longer[..|steps|] == steps;
      SuccessIsFinal(call, |steps|, s, longer, t);
    }
  }

  lemma Returns(call: Call, mayCancel: bool, steps: seq<Step>, s: State)
    requires Exec(call, steps) == Some(s) && (s.outerCancelled ==> mayCancel) && Returned(s)
    ensures CanReturn(call, mayCancel, ReturnOf(s.collector).value)
  {
  }

  /** The call as its caller sees it: the goroutines interleave, along `steps`, until the collector returns. */
  method FanOutRelationChecks(call: Call, mayCancel: bool)
    returns (r: Result<map<string, bool>>, handedOut: seq<string>, ghost steps: seq<Step>)
    ensures CanReturn(call, mayCancel, r)
    ensures Exec(call, steps).Some? && ReturnOf(Exec(call, steps).value.collector) == Some(r)
    ensures r.Success? ==> NoMoreReads(call, steps)
    ensures handedOut <= call.resources
    ensures r.Success? ==> Sequential(handedOut, call.check) == r
    ensures !mayCancel && r.Success? ==> handedOut == call.resources
    ensures !mayCancel && r.Failure? ==> CheckFailsWith(call, r.error)
  {
    var s := Init(call);
    InitInv(call);
    steps := [];
    while !Returned(s)
      invariant Exec(call, steps) == Some(s) && Inv(call, s)
      invariant s.outerCancelled ==> mayCancel
      decreases Measure(call, s)
    {
      s, steps := Interleave(call, s, mayCancel, steps);
    }
    Returns(call, mayCancel, steps, s);
    handedOut := call.resources[..s.fed];
    match s.collector {
      case Succeeded(out) =>
        TallyOfAll(call, s, out);
        NoReadsAfterSuccess(call, steps, s);
        r := Success(out);
      case Failed(e) =>
        r := Failure(e);
    }
  }
}
