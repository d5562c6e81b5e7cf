/** Exactly what the fan-out can return, and exactly when its feeder can outlive the return. */
module FanOutOutcomes {
  import opened FanOut
  import opened FanOutInvariants
  import opened FanOutTheorems
  import opened Wrappers

  import Filters

  // ---------------------------------------------------------------- failing resources

  function Fails(call: Call): string -> bool {
    (r: string) => call.check(r).Failure?
  }

  /** The resources among the first `p` on which the check fails, in order, with their repetitions. */
  function FailingOf(call: Call, p: nat): seq<string>
    requires p <= |call.resources|
  {
    Filters.Filter(call.resources[..p], Fails(call))
  }

  lemma FailingNext(call: Call, p: nat)
    requires p < |call.resources|
    ensures var r := call.resources[p];
            FailingOf(call, p + 1) == FailingOf(call, p) + (if call.check(r).Failure? then [r] else [])
  {
    Filters.FilterNext(call.resources, p, Fails(call));
  }

  lemma {:induction false} FailingCounts(call: Call, p: nat)
    requires p <= |call.resources|
    ensures forall x :: multiset(FailingOf(call, p))[x]
                     == if call.check(x).Failure? then multiset(call.resources[..p])[x] else 0
  {
    if p > 0 {
      FailingCounts(call, p - 1);
      FailingNext(call, p - 1);
      assert call.resources[..p] == call.resources[..p - 1] + [call.resources[p - 1]];
    }
  }

  lemma {:induction false} FailingGrows(call: Call, p: nat, q: nat)
    requires p <= q <= |call.resources|
    ensures |FailingOf(call, p)| <= |FailingOf(call, q)|
    ensures p < q && call.check(call.resources[p]).Failure? ==> |FailingOf(call, p)| < |FailingOf(call, q)|
    decreases q
  {
    if p < q {
      FailingGrows(call, p, q - 1);
      FailingNext(call, q - 1);
    }
  }

  lemma {:induction false} NoneFailing(call: Call, p: nat)
    requires p <= |call.resources|
    ensures FailingOf(call, p) == [] <==> forall i :: 0 <= i < p ==> call.check(call.resources[i]).Success?
  {
    if p > 0 {
      NoneFailing(call, p - 1);
      FailingNext(call, p - 1);
    }
  }

  /**
    `e` is the error at a failing position below `limit` that fewer failing positions precede than
    there are workers.
  */
  ghost predicate EarlyError(call: Call, limit: nat, e: Error) {
    exists p :: 0 <= p < limit <= |call.resources| && call.check(call.resources[p]) == Failure(e)
                && |FailingOf(call, p)| < WorkerCount(|call.resources|)
  }

  // ---------------------------------------------------------------- which error comes first

  /** The first error the collector will meet in the buffer. */
  function Lead(buffer: seq<Outcome>): Option<Error> {
    if buffer == [] then None
    else if buffer[0].answer.Failure? then Some(buffer[0].answer.error)
    else Lead(buffer[1..])
  }

  lemma {:induction false} LeadOfMore(buffer: seq<Outcome>, o: Outcome)
    ensures Lead(buffer + [o]) == if Lead(buffer).Some? then Lead(buffer)
                                  else if o.answer.Failure? then Some(o.answer.error) else None
  {
    if buffer != [] {
      assert (buffer + [o])[1..] == buffer[1..] + [o];
      LeadOfMore(buffer[1..], o);
    }
  }

  lemma {:induction false} NoLead(buffer: seq<Outcome>)
    requires Lead(buffer).None?
    ensures forall o :: o in buffer ==> o.answer.Success?
  {
    if buffer != [] {
      NoLead(buffer[1..]);
    }
  }

  /** What is known about the error the call is going to return, or has returned. */
  ghost predicate Blamed(call: Call, s: State) {
    match s.collector
    case Collecting(_) => !s.outerCancelled && Lead(s.buffer).Some? ==> EarlyError(call, s.fed, Lead(s.buffer).value)
    case Failing(e) => s.fed > 0 && (!s.outerCancelled ==> EarlyError(call, s.fed, e))
    case Failed(e) => s.fed > 0 && (!s.outerCancelled ==> EarlyError(call, s.fed, e))
    case Succeeded(_) => true
  }

  lemma NotNamed(call: Call, outcomes: seq<Outcome>, x: string)
    requires call.check(x).Failure?
    requires forall i :: 0 <= i < |outcomes| ==> call.check(outcomes[i].resource).Success?
    ensures multiset(Names(outcomes))[x] == 0
  {
    assert x !in Names(outcomes);
  }

  /** While no error has been sent, what has been sent was checked successfully. */
  lemma SentAreFine(call: Call, s: State)
    requires Inv(call, s) && s.collector.Collecting? && !s.outerCancelled && Lead(s.buffer).None?
    ensures forall i :: 0 <= i < |s.buffer| ==> call.check(s.buffer[i].resource).Success?
    ensures forall i :: 0 <= i < |s.received| ==> call.check(s.received[i].resource).Success?
  {
    NoLead(s.buffer);
    assert forall i :: 0 <= i < |s.buffer| ==> s.buffer[i] in s.buffer && Honest(call, s.ctxDone, s.buffer[i]);
    assert forall i :: 0 <= i < |s.received| ==> s.received[i] in s.received;
  }

  /** While no error has been sent, all failing resources handed out so far are held by workers. */
  lemma FailingAreHeld(call: Call, s: State)
    requires Inv(call, s) && s.collector.Collecting? && !s.outerCancelled && Lead(s.buffer).None?
    ensures |FailingOf(call, s.fed)| <= WorkerCount(|call.resources|)
  {
    var failing, held := multiset(FailingOf(call, s.fed)), Held(s.workers);
    SentAreFine(call, s);
    FailingCounts(call, s.fed);
    forall x
      ensures failing[x] <= held[x]
    {
      if call.check(x).Failure? {
        NotNamed(call, s.buffer, x);
        NotNamed(call, s.received, x);
        assert multiset(call.resources[..s.fed])[x] == held[x];
      }
    }
    assert held == failing + (held - failing);
    HeldBounded(s.workers);
  }

  /** The first error to be sent is an early one. */
  lemma SentIsEarly(call: Call, s: State, w: nat)
    requires Inv(call, s) && s.collector.Collecting? && !s.outerCancelled && Lead(s.buffer).None?
    requires w < |s.workers| && s.workers[w].Sending? && s.workers[w].outcome.answer.Failure?
    ensures EarlyError(call, s.fed, s.workers[w].outcome.answer.error)
  {
    var o := s.workers[w].outcome;
    assert Honest(call, s.ctxDone, o);
    HeldHas(s.workers, w);
    assert o.resource in Held(s.workers);
    assert o.resource in multiset(call.resources[..s.fed]);
    var p :| 0 <= p < s.fed && call.resources[..s.fed][p] == o.resource;
    assert call.resources[p] == o.resource;
    FailingAreHeld(call, s);
    FailingGrows(call, p, s.fed);
  }

  lemma EarlierStaysEarly(call: Call, limit: nat, more: nat, e: Error)
    requires EarlyError(call, limit, e) && limit <= more <= |call.resources|
    ensures EarlyError(call, more, e)
  {
  }

  lemma SendKeepsBlame(call: Call, s: State, w: nat, t: State)
    requires Inv(call, s) && Blamed(call, s) && Fire(call, s, Send(w)) == Some(t)
    ensures Blamed(call, t)
  {
    var o := s.workers[w].outcome;
    LeadOfMore(s.buffer, o);
    if s.collector.Collecting? && !s.outerCancelled && Lead(s.buffer).None? && o.answer.Failure? {
      SentIsEarly(call, s, w);
    }
  }

  lemma ReceiveKeepsBlame(call: Call, s: State, t: State)
    requires Inv(call, s) && Blamed(call, s) && Fire(call, s, Receive) == Some(t)
    ensures Blamed(call, t)
  {
    BufferedIsRequested(call, s, 0);
    assert s.buffer[0].resource == Names(s.buffer)[0];
    assert s.buffer[0].resource in multiset(call.resources[..s.fed]);
  }

  lemma OtherStepKeepsBlame(call: Call, s: State, step: Step, t: State)
    requires Blamed(call, s) && Fire(call, s, step) == Some(t)
    requires !(step.Send? || step.Receive? || step.Hand?)
    ensures Blamed(call, t)
  {
    assert t.buffer == s.buffer && t.fed == s.fed;
  }

  lemma HandKeepsBlame(call: Call, s: State, w: nat, t: State)
    requires Inv(call, s) && Blamed(call, s) && Fire(call, s, Hand(w)) == Some(t)
    ensures Blamed(call, t)
  {
    assert t.buffer == s.buffer && t.collector == s.collector && t.outerCancelled == s.outerCancelled;
    forall e | EarlyError(call, s.fed, e)
      ensures EarlyError(call, t.fed, e)
    {
      EarlierStaysEarly(call, s.fed, t.fed, e);
    }
  }

  lemma {:induction false} BlameReached(call: Call, steps: seq<Step>, s: State)
    requires Exec(call, steps) == Some(s)
    ensures Blamed(call, s)
  {
    if steps != [] {
      var before := ExecLast(call, steps, s);
      var step := steps[|steps| - 1];
      BlameReached(call, steps[..|steps| - 1], before);
      Reached(call, steps[..|steps| - 1], before);
      match step {
        case Send(w) => SendKeepsBlame(call, before, w, s);
        case Receive => ReceiveKeepsBlame(call, before, s);
        case Hand(w) => HandKeepsBlame(call, before, w, s);
        case _ => OtherStepKeepsBlame(call, before, step, s);
      }
    }
  }

  // ---------------------------------------------------------------- schedules that park failing checks

  /** One worker per failing resource among the first `p`, still checking it; the others idle. */
  function ParkedWorkers(call: Call, p: nat): seq<Worker>
    requires p <= |call.resources|
  {
    var failing := FailingOf(call, p);
    seq(WorkerCount(|call.resources|), i requires 0 <= i =>
      if i < |failing| then Checking(failing[i]) else Idle)
  }

  /** The first `p` resources handed out, the successful ones collected, the failing ones parked. */
  predicate Parked(call: Call, p: nat, s: State)
    requires p <= |call.resources|
  {
    && s == Init(call).(fed := p, workers := ParkedWorkers(call, p), collector := s.collector, received := s.received)
    && s.collector.Collecting?
  }

  /** Hands resource `p` to the first idle worker. */
  lemma HandNext(call: Call, p: nat, steps: seq<Step>, s: State) returns (longer: seq<Step>, t: State)
    requires p < |call.resources| && |FailingOf(call, p)| < WorkerCount(|call.resources|)
    requires Exec(call, steps) == Some(s) && Parked(call, p, s)
    ensures Exec(call, longer) == Some(t)
    ensures t == s.(fed := p + 1, workers := s.workers[|FailingOf(call, p)| := Checking(call.resources[p])])
  {
    longer, t := Take(call, steps, s, Read);
    longer, t := Take(call, longer, t, Hand(|FailingOf(call, p)|));
  }

  /** Has worker `w` get an answer, send it, and the collector take it. */
  lemma AnswerNext(call: Call, w: nat, answer: Result<bool>, steps: seq<Step>, s: State)
    returns (longer: seq<Step>, t: State)
    requires w < |s.workers| && s.workers[w].Checking? && call.resources != []
    requires Possible(call, s.ctxDone, s.workers[w].resource, answer)
    requires s.buffer == [] && s.collector.Collecting?
    requires Exec(call, steps) == Some(s)
    ensures Exec(call, longer) == Some(t)
    ensures var o := Outcome(s.workers[w].resource, answer);
            t == s.(workers := s.workers[w := Idle], received := s.received + [o],
                    collector := if answer.Failure? then Failing(answer.error)
                                 else Collecting(s.collector.partial[o.resource := answer.value]))
  {
    longer, t := Take(call, steps, s, Answered(w, answer));
    assert t.workers[w] == Sending(Outcome(s.workers[w].resource, answer));
    longer, t := Take(call, longer, t, Send(w));
    assert t.buffer == [Outcome(s.workers[w].resource, answer)];
    longer, t := Take(call, longer, t, Receive);
    assert t.workers == s.workers[w := Idle] && t.buffer == [];
  }

  lemma ParkedWorkersNext(call: Call, p: nat)
    requires p < |call.resources| && |FailingOf(call, p)| < WorkerCount(|call.resources|)
    ensures var m := |FailingOf(call, p)|;
            var handed := ParkedWorkers(call, p)[m := Checking(call.resources[p])];
            && (call.check(call.resources[p]).Failure? ==> handed == ParkedWorkers(call, p + 1))
            && (call.check(call.resources[p]).Success? ==> handed[m := Idle] == ParkedWorkers(call, p + 1))
  {
    FailingNext(call, p);
  }

  lemma NothingParked(call: Call)
    ensures ParkedWorkers(call, 0) == Init(call).workers
  {
  }

  lemma {:induction false} Park(call: Call, p: nat) returns (steps: seq<Step>, s: State)
    requires p <= |call.resources|
    requires p > 0 ==> |FailingOf(call, p - 1)| < WorkerCount(|call.resources|)
    ensures Exec(call, steps) == Some(s) && Parked(call, p, s)
  {
    if p == 0 {
      NothingParked(call);
      steps, s := [], Init(call);
    } else {
      FailingGrows(call, if p > 1 then p - 2 else 0, p - 1);
      steps, s := Park(call, p - 1);
      ParkedWorkersNext(call, p - 1);
      steps, s := HandNext(call, p - 1, steps, s);
      var answer := call.check(call.resources[p - 1]);
      if answer.Success? {
        steps, s := AnswerNext(call, |FailingOf(call, p - 1)|, answer, steps, s);
      }
    }
  }

  /** Every early error can be the one returned, with the feeder about to read what is left. */
  lemma ErrorAttained(call: Call, p: nat) returns (steps: seq<Step>, s: State)
    requires p < |call.resources| && call.check(call.resources[p]).Failure?
    requires |FailingOf(call, p)| < WorkerCount(|call.resources|)
    ensures Exec(call, steps) == Some(s) && !s.outerCancelled
    ensures s.collector == Failed(call.check(call.resources[p]).error)
    ensures Enabled(call, s, Read) <==> p + 1 < |call.resources|
  {
    if p > 0 {
      FailingGrows(call, p - 1, p);
    }
    steps, s := Park(call, p);
    steps, s := HandNext(call, p, steps, s);
    steps, s := AnswerNext(call, |FailingOf(call, p)|, call.check(call.resources[p]), steps, s);
    steps, s := Take(call, steps, s, ReturnError);
  }

  lemma CancelledAtStart(call: Call) returns (steps: seq<Step>, s: State)
    requires call.resources != []
    ensures Exec(call, steps) == Some(s)
    ensures s == Init(call).(outerCancelled := true, ctxDone := true, fed := 1,
                             workers := Init(call).workers[0 := Checking(call.resources[0])])
  {
    steps, s := Take(call, [], Init(call), OuterCancel);
    steps, s := Take(call, steps, s, Read);
    steps, s := Take(call, steps, s, Hand(0));
  }

  /** Once cancelled, a call with resources can return any error, again before the slice is read up. */
  lemma CancelledErrorAttained(call: Call, e: Error) returns (steps: seq<Step>, s: State)
    requires call.resources != []
    ensures Exec(call, steps) == Some(s) && s.collector == Failed(e)
    ensures Enabled(call, s, Read) <==> 1 < |call.resources|
  {
    steps, s := CancelledAtStart(call);
    steps, s := AnswerNext(call, 0, Failure(e), steps, s);
    steps, s := Take(call, steps, s, ReturnError);
  }

  // ---------------------------------------------------------------- schedules that drop keys

  lemma CancelHere(call: Call, k: nat, steps: seq<Step>, s: State) returns (longer: seq<Step>, t: State)
    requires k < |call.resources| && Exec(call, steps) == Some(s) && Parked(call, k, s)
    ensures Exec(call, longer) == Some(t)
    ensures t == s.(outerCancelled := true, ctxDone := true, feeder := Stopped, jobsClosed := true)
  {
    longer, t := Take(call, steps, s, OuterCancel);
    longer, t := Take(call, longer, t, Read);
    longer, t := Take(call, longer, t, SeeDone);
    longer, t := Take(call, longer, t, CloseJobs);
  }

  /** With the feeder gone and nothing under way, the workers leave and the map so far is returned. */
  lemma {:induction false} WindDown(call: Call, steps: seq<Step>, s: State) returns (longer: seq<Step>, t: State)
    requires Exec(call, steps) == Some(s) && s.feeder.Stopped? && s.jobsClosed && s.buffer == []
    requires s.collector.Collecting? && !s.resultsClosed && s.pending == Living(s.workers)
    requires forall i :: 0 <= i < |s.workers| ==> s.workers[i].Idle? || s.workers[i].Exited?
    ensures Exec(call, longer) == Some(t)
    ensures t.collector == Succeeded(s.collector.partial) && t.fed == s.fed && t.outerCancelled == s.outerCancelled
    decreases Living(s.workers)
  {
    if w: nat :| w < |s.workers| && s.workers[w].Idle? {
      var next;
      longer, next := Take(call, steps, s, Exit(w));
      CountsUpdate(s.workers, w, Exited);
      assert next.workers == s.workers[w := Exited];
      longer, t := WindDown(call, longer, next);
    } else {
      assert forall i :: 0 <= i < |s.workers| ==> s.workers[i].Exited?;
      NobodyAlive(s.workers);
      longer, t := Take(call, steps, s, CloseResults);
      longer, t := Take(call, longer, t, ReturnMap);
    }
  }

  /**
    Cancellation can stop the call after any prefix of successful checks, and the map returned then
    speaks of that prefix only.
  */
  lemma CancellationDropsKeys(call: Call, k: nat) returns (steps: seq<Step>, s: State)
    requires k < |call.resources|
    requires forall i :: 0 <= i < k ==> call.check(call.resources[i]).Success?
    ensures Exec(call, steps) == Some(s) && s.fed == k && s.collector.Succeeded?
    ensures Sequential(call.resources[..k], call.check) == Success(s.collector.out)
  {
    NoneFailing(call, k);
    if k > 0 {
      FailingGrows(call, k - 1, k);
    }
    steps, s := Park(call, k);
    steps, s := CancelHere(call, k, steps, s);
    AllIdle(WorkerCount(|call.resources|));
    assert s.workers == Init(call).workers;
    steps, s := WindDown(call, steps, s);
    Reached(call, steps, s);
    TallyOfAll(call, s, s.collector.out);
  }

  // ---------------------------------------------------------------- exactly what can happen

  /** The maps a call can return: the sequential answers on a prefix, on a proper one only if cancelled. */
  lemma PossibleMaps(call: Call, mayCancel: bool, out: map<string, bool>)
    ensures CanReturn(call, mayCancel, Success(out)) <==>
              exists k :: 0 <= k <= |call.resources| && (k == |call.resources| || mayCancel)
                          && Sequential(call.resources[..k], call.check) == Success(out)
  {
    if CanReturn(call, mayCancel, Success(out)) {
      var steps, s :| Exec(call, steps) == Some(s) && (s.outerCancelled ==> mayCancel)
                      && ReturnOf(s.collector) == Some(Success(out));
      Reached(call, steps, s);
      TallyOfAll(call, s, out);
    }
    if k :| 0 <= k <= |call.resources| && (k == |call.resources| || mayCancel)
            && Sequential(call.resources[..k], call.check) == Success(out) {
      MapAttained(call, mayCancel, k, out);
    }
  }

  lemma MapAttained(call: Call, mayCancel: bool, k: nat, out: map<string, bool>)
    requires k <= |call.resources| && (k == |call.resources| || mayCancel)
    requires Sequential(call.resources[..k], call.check) == Success(out)
    ensures CanReturn(call, mayCancel, Success(out))
  {
    if k == |call.resources| {
      assert call.resources[..k] == call.resources;
      var steps, s := Completes(call, [], Init(call));
      RefinesSequential(call, steps, s);
      Returns(call, mayCancel, steps, s);
    } else {
      assert forall i :: 0 <= i < k ==> call.resources[..k][i] == call.resources[i];
      var steps, s := CancellationDropsKeys(call, k);
      Returns(call, mayCancel, steps, s);
    }
  }

  /** A returned map can lack a requested key exactly when cancellation is possible and a key is requested. */
  lemma KeysCanBeMissing(call: Call, mayCancel: bool)
    ensures (exists out, r :: CanReturn(call, mayCancel, Success(out)) && r in call.resources && r !in out)
            <==> mayCancel && call.resources != []
  {
    if out, r :| CanReturn(call, mayCancel, Success(out)) && r in call.resources && r !in out {
      PossibleMaps(call, mayCancel, out);
      assert call.resources[..|call.resources|] == call.resources;
    }
    if mayCancel && call.resources != [] {
      var none: map<string, bool> := map[];
      MapAttained(call, mayCancel, 0, none);
      assert call.resources[0] in call.resources && call.resources[0] !in none;
    }
  }

  /** The errors a call can return: early errors of the checker, or anything once it is cancelled. */
  lemma PossibleErrors(call: Call, mayCancel: bool, e: Error)
    ensures CanReturn(call, mayCancel, Failure(e)) <==>
              if mayCancel then call.resources != [] else EarlyError(call, |call.resources|, e)
  {
    if CanReturn(call, mayCancel, Failure(e)) {
      var steps, s :| Exec(call, steps) == Some(s) && (s.outerCancelled ==> mayCancel)
                      && ReturnOf(s.collector) == Some(Failure(e));
      Reached(call, steps, s);
      BlameReached(call, steps, s);
      if !mayCancel {
        EarlierStaysEarly(call, s.fed, |call.resources|, e);
      }
    }
    if mayCancel && call.resources != [] {
      var steps, s := CancelledErrorAttained(call, e);
      Returns(call, mayCancel, steps, s);
    }
    if !mayCancel && EarlyError(call, |call.resources|, e) {
      var p :| 0 <= p < |call.resources| && call.check(call.resources[p]) == Failure(e)
               && |FailingOf(call, p)| < WorkerCount(|call.resources|);
      var steps, s := ErrorAttained(call, p);
      Returns(call, mayCancel, steps, s);
    }
  }

  /** A failing position with no failing position before it. */
  lemma {:induction false} LeastFailing(call: Call, i: nat) returns (p: nat)
    requires i < |call.resources| && call.check(call.resources[i]).Failure?
    ensures p <= i && call.check(call.resources[p]).Failure? && FailingOf(call, p) == []
  {
    if j: nat :| j < i && call.check(call.resources[j]).Failure? {
      p := LeastFailing(call, j);
    } else {
      NoneFailing(call, i);
      p := i;
    }
  }

  /** A state in which the call has returned and the feeder is about to read the caller's slice. */
  predicate LateRead(call: Call, s: State) {
    Returned(s) && Enabled(call, s, Read)
  }

  /**
    The feeder can read the slice after the call has returned exactly when a check before the last
    resource fails, or, under cancellation, when there is more than one resource.
  */
  lemma FeederOutlivesFailure(call: Call, mayCancel: bool)
    ensures (exists steps, s :: Exec(call, steps) == Some(s) && (s.outerCancelled ==> mayCancel) && LateRead(call, s))
            <==> if mayCancel then |call.resources| > 1
                 else exists i :: 0 <= i < |call.resources| - 1 && call.check(call.resources[i]).Failure?
  {
    if steps, s :| Exec(call, steps) == Some(s) && (s.outerCancelled ==> mayCancel) && LateRead(call, s) {
      Reached(call, steps, s);
      BlameReached(call, steps, s);
      Quiescence(call, steps, s);
    }
    if mayCancel && |call.resources| > 1 {
      var steps, s := CancelledErrorAttained(call, SubjectRequired);
      assert LateRead(call, s);
    }
    if i: nat :| !mayCancel && i < |call.resources| - 1 && call.check(call.resources[i]).Failure? {
      var p := LeastFailing(call, i);
      var steps, s := ErrorAttained(call, p);
      assert LateRead(call, s);
    }
  }

  // ---------------------------------------------------------------- how much is in flight

  lemma {:induction false} HandOut(call: Call, m: nat) returns (steps: seq<Step>, s: State)
    requires m <= WorkerCount(|call.resources|)
    ensures Exec(call, steps) == Some(s)
    ensures s == Init(call).(fed := m, workers := s.workers) && |s.workers| == WorkerCount(|call.resources|)
    ensures forall i :: 0 <= i < |s.workers| ==>
              s.workers[i] == if i < m then Checking(call.resources[i]) else Idle
  {
    if m == 0 {
      steps, s := [], Init(call);
    } else {
      steps, s := HandOut(call, m - 1);
      steps, s := Take(call, steps, s, Read);
      steps, s := Take(call, steps, s, Hand(m - 1));
    }
  }

  lemma {:induction false} AllHeld(ws: seq<Worker>)
    requires forall i :: 0 <= i < |ws| ==> ws[i].Checking?
    ensures |Held(ws)| == |ws|
  {
    if ws != [] {
      AllHeld(ws[1..]);
    }
  }

  /** Never more than eight checks are in flight, nor more than there are resources; and some schedule has that many. */
  lemma PeakFlight(call: Call)
    ensures forall steps, s :: Exec(call, steps) == Some(s) ==>
              |Held(s.workers)| <= if |call.resources| < 8 then |call.resources| else 8
    ensures exists steps, s :: Exec(call, steps) == Some(s)
              && |Held(s.workers)| == if |call.resources| < 8 then |call.resources| else 8
  {
    forall steps, s | Exec(call, steps) == Some(s)
      ensures |Held(s.workers)| <= if |call.resources| < 8 then |call.resources| else 8
    {
      ChannelSafety(call, steps, s);
    }
    var steps, s := HandOut(call, WorkerCount(|call.resources|));
    AllHeld(s.workers);
  }
}
