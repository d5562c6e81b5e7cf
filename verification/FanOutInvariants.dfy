/** What every reachable state of the fan-out satisfies, whatever the schedule. */
module FanOutInvariants {
  import opened Wrappers
  import opened FanOut

  // ---------------------------------------------------------------- sums over workers

  function Holding(w: Worker): multiset<string> {
    match w
    case Checking(r) => multiset{r}
    case Sending(o) => multiset{o.resource}
    case _ => multiset{}
  }

  function Held(ws: seq<Worker>): multiset<string> {
    if ws == [] then multiset{} else Holding(ws[0]) + Held(ws[1..])
  }

  function Living(ws: seq<Worker>): nat {
    if ws == [] then 0 else (if ws[0].Exited? then 0 else 1) + Living(ws[1..])
  }

  /** Steps a worker still owes, counting the receipt of the outcome it will send. */
  function Owes(w: Worker): nat {
    match w
    case Idle => 1
    case Checking(_) => 4
    case Sending(_) => 3
    case Exited => 0
  }

  function Owed(ws: seq<Worker>): nat {
    if ws == [] then 0 else Owes(ws[0]) + Owed(ws[1..])
  }

  lemma Regroup(a: multiset<string>, b: multiset<string>, c: multiset<string>)
    ensures (a + b) + c == a + (b + c)
  {
  }

  lemma Shift(h: multiset<string>, r: multiset<string>, b: multiset<string>, g: multiset<string>)
    ensures h + r + b + g == h + (b + r) + g == h + (r + b) + g == h + b + (g + r)
  {
  }

  lemma {:induction false} HeldUpdate(ws: seq<Worker>, i: nat, w: Worker)
    requires i < |ws|
    ensures Held(ws[i := w]) + Holding(ws[i]) == Held(ws) + Holding(w)
  {
    var tail, tail' := ws[1..], ws[i := w][1..];
    if i == 0 {
      assert tail' == tail;
      assert Held(ws[i := w]) == Holding(w) + Held(tail);
    } else {
      assert tail' == tail[i - 1 := w];
      HeldUpdate(tail, i - 1, w);
      Regroup(Holding(ws[0]), Held(tail'), Holding(ws[i]));
      Regroup(Holding(ws[0]), Held(tail), Holding(w));
    }
  }

  lemma {:induction false} CountsUpdate(ws: seq<Worker>, i: nat, w: Worker)
    requires i < |ws|
    ensures Living(ws[i := w]) + (if ws[i].Exited? then 0 else 1) == Living(ws) + (if w.Exited? then 0 else 1)
    ensures Owed(ws[i := w]) + Owes(ws[i]) == Owed(ws) + Owes(w)
  {
    if i == 0 {
      assert ws[i := w][1..] == ws[1..];
    } else {
      assert ws[i := w][1..] == ws[1..][i - 1 := w];
      CountsUpdate(ws[1..], i - 1, w);
    }
  }

  /** What the workers hold when one of them starts holding `gain` in place of `loss`. */
  lemma HeldAfterUpdate(ws: seq<Worker>, i: nat, w: Worker, gain: multiset<string>, loss: multiset<string>)
    requires i < |ws| && Holding(w) == gain && Holding(ws[i]) == loss
    ensures Held(ws[i := w]) + loss == Held(ws) + gain
    ensures gain == loss ==> Held(ws[i := w]) == Held(ws)
    ensures loss == multiset{} ==> Held(ws[i := w]) == Held(ws) + gain
    ensures gain == multiset{} ==> Held(ws[i := w]) + loss == Held(ws)
  {
    HeldUpdate(ws, i, w);
    var now, was := Held(ws[i := w]), Held(ws);
    assert forall x :: now[x] + loss[x] == (now + loss)[x] == (was + gain)[x] == was[x] + gain[x];
  }

  lemma {:induction false} HeldHas(ws: seq<Worker>, i: nat)
    requires i < |ws|
    ensures Holding(ws[i]) <= Held(ws)
  {
    if i > 0 {
      HeldHas(ws[1..], i - 1);
    }
  }

  /** Nobody is alive exactly when every worker has exited; then no worker holds anything. */
  lemma {:induction false} NobodyAlive(ws: seq<Worker>)
    ensures Living(ws) == 0 <==> forall i :: 0 <= i < |ws| ==> ws[i].Exited?
    ensures Living(ws) == 0 ==> Held(ws) == multiset{}
  {
    if ws != [] {
      NobodyAlive(ws[1..]);
      assert forall i :: 0 <= i < |ws[1..]| ==> ws[1..][i] == ws[i + 1];
      if forall i :: 0 <= i < |ws[1..]| ==> ws[1..][i].Exited? {
        assert forall i :: 0 < i < |ws| ==> ws[i] == ws[1..][i - 1];
      }
    }
  }

  lemma {:induction false} AllIdle(n: nat)
    ensures var ws := seq(n, _ => Idle);
            Held(ws) == multiset{} && Living(ws) == n && Owed(ws) == n
  {
    if n > 0 {
      assert seq(n, _ => Idle)[1..] == seq(n - 1, _ => Idle);
      AllIdle(n - 1);
    }
  }

  // ---------------------------------------------------------------- invariants

  function Names(outcomes: seq<Outcome>): seq<string> {
    seq(|outcomes|, i requires 0 <= i < |outcomes| => outcomes[i].resource)
  }

  /** Control: who may still run, what each closed channel implies, who may read the slice. */
  predicate Shape(call: Call, s: State) {
    && |s.slice| == |call.resources|
    && (s.collector.Succeeded? || s.slice == call.resources)
    && |s.workers| == WorkerCount(|call.resources|)
    && s.fed <= |call.resources|
    && (s.feeder.Offering? ==> s.fed < |call.resources| && s.feeder.resource == call.resources[s.fed])
    && (s.jobsClosed <==> s.feeder.Stopped?)
    && (forall i :: 0 <= i < |s.workers| && s.workers[i].Exited? ==> s.jobsClosed)
    && s.pending == Living(s.workers)
    && (s.resultsClosed ==> s.pending == 0)
    && ((s.feeder.Closing? || s.feeder.Stopped?) && s.fed < |call.resources| ==> s.ctxDone)
    && (s.ctxDone <==> s.outerCancelled || Returned(s))
    && (s.collector.Succeeded? ==> s.resultsClosed && s.buffer == [])
    && (s.collector.Succeeded? ==> s.fed == |call.resources| || s.outerCancelled)
  }

  /** Conservation: what was handed out is held by a worker, buffered, or collected. */
  predicate Conserved(call: Call, s: State) {
    && s.fed <= |call.resources|
    && multiset(call.resources[..s.fed])
       == Held(s.workers) + multiset(Names(s.buffer)) + multiset(Names(s.received))
  }

  predicate Honest(call: Call, ctxDone: bool, o: Outcome) {
    Possible(call, ctxDone, o.resource, o.answer)
  }

  predicate CheckFailsWith(call: Call, error: Error) {
    exists i :: 0 <= i < |call.resources| && call.check(call.resources[i]) == Failure(error)
  }

  /** `out` is exactly the checker's answers on the received resources, and none of them is an error. */
  predicate Tallies(call: Call, received: seq<Outcome>, out: map<string, bool>) {
    && (forall o :: o in received ==> o.resource in out && call.check(o.resource) == Success(out[o.resource]))
    && (forall r :: r in out ==> r in Names(received))
  }

  /** Every outcome under way is the checker's, and the collector's value is the tally of them. */
  predicate Truthful(call: Call, s: State) {
    && (forall i :: 0 <= i < |s.workers| && s.workers[i].Sending? ==> Honest(call, s.ctxDone, s.workers[i].outcome))
    && (forall i :: 0 <= i < |s.buffer| ==> Honest(call, s.ctxDone, s.buffer[i]))
    && match s.collector
       case Collecting(out) => Tallies(call, s.received, out)
       case Succeeded(out) => Tallies(call, s.received, out)
       case Failing(e) => CheckFailsWith(call, e) || s.outerCancelled
       case Failed(e) => CheckFailsWith(call, e) || s.outerCancelled
  }

  predicate Inv(call: Call, s: State) {
    Shape(call, s) && Conserved(call, s) && Truthful(call, s)
  }

  lemma InitInv(call: Call)
    ensures Inv(call, Init(call))
  {
    AllIdle(WorkerCount(|call.resources|));
  }

  /** A worker taking a resource, getting its answer, sending it on, or leaving. */
  lemma WorkerStepKeepsShape(call: Call, s: State, step: Step, w: nat, t: State)
    requires Shape(call, s) && Fire(call, s, step) == Some(t)
    requires step == Hand(w) || step == Send(w) || step == Exit(w) || (step.Answered? && step.w == w)
    ensures Shape(call, t)
  {
    assert s.pending > 0 by {
      NobodyAlive(s.workers);
    }
    var now := t.workers[w];
    assert t.workers == s.workers[w := now];
    assert Living(t.workers) == s.pending - (if now.Exited? then 1 else 0) by {
      CountsUpdate(s.workers, w, now);
    }
  }

  lemma OtherStepKeepsShape(call: Call, s: State, step: Step, t: State)
    requires Shape(call, s) && Fire(call, s, step) == Some(t)
    requires !(step.Hand? || step.Send? || step.Exit? || step.Answered?)
    ensures Shape(call, t)
  {
  }

  lemma HandConserves(call: Call, s: State, w: nat, t: State)
    requires Shape(call, s) && Conserved(call, s) && Fire(call, s, Hand(w)) == Some(t)
    ensures Conserved(call, t)
  {
    var r := call.resources[s.fed];
    assert call.resources[..t.fed] == call.resources[..s.fed] + [r];
    assert Held(t.workers) == Held(s.workers) + multiset{r} by {
      HeldAfterUpdate(s.workers, w, Checking(r), multiset{r}, multiset{});
    }
  }

  lemma AnsweredConserves(call: Call, s: State, w: nat, answer: Result<bool>, t: State)
    requires Conserved(call, s) && Fire(call, s, Answered(w, answer)) == Some(t)
    ensures Conserved(call, t)
  {
    var r := s.workers[w].resource;
    HeldAfterUpdate(s.workers, w, Sending(Outcome(r, answer)), multiset{r}, multiset{r});
  }

  lemma NamesMore(outcomes: seq<Outcome>, o: Outcome)
    ensures multiset(Names(outcomes + [o])) == multiset(Names(outcomes)) + multiset{o.resource}
  {
    assert Names(outcomes + [o]) == Names(outcomes) + [o.resource];
  }

  lemma SendConserves(call: Call, s: State, w: nat, t: State)
    requires Conserved(call, s) && Fire(call, s, Send(w)) == Some(t)
    ensures Conserved(call, t)
  {
    var r := s.workers[w].outcome.resource;
    assert Held(t.workers) + multiset{r} == Held(s.workers) by {
      HeldAfterUpdate(s.workers, w, Idle, multiset{}, multiset{r});
    }
    var h, b, g := Held(t.workers), multiset(Names(s.buffer)), multiset(Names(s.received));
    NamesMore(s.buffer, s.workers[w].outcome);
    Shift(h, multiset{r}, b, g);
  }

  lemma ExitConserves(call: Call, s: State, w: nat, t: State)
    requires Conserved(call, s) && Fire(call, s, Exit(w)) == Some(t)
    ensures Conserved(call, t)
  {
    HeldAfterUpdate(s.workers, w, Exited, multiset{}, multiset{});
  }

  lemma ReceiveConserves(call: Call, s: State, t: State)
    requires Conserved(call, s) && Fire(call, s, Receive) == Some(t)
    ensures Conserved(call, t)
  {
    var r := s.buffer[0].resource;
    assert Names(s.buffer) == [r] + Names(t.buffer);
    assert Names(t.received) == Names(s.received) + [r];
    var h, b, g := Held(s.workers), multiset(Names(t.buffer)), multiset(Names(s.received));
    Shift(h, multiset{r}, b, g);
  }

  lemma OtherStepConserves(call: Call, s: State, step: Step, t: State)
    requires Conserved(call, s) && Fire(call, s, step) == Some(t)
    requires !(step.Hand? || step.Send? || step.Exit? || step.Answered? || step.Receive?)
    ensures Conserved(call, t)
  {
    assert t.workers == s.workers && t.buffer == s.buffer && t.received == s.received && t.fed == s.fed;
  }

  lemma StepConserves(call: Call, s: State, step: Step, t: State)
    requires Shape(call, s) && Conserved(call, s) && Fire(call, s, step) == Some(t)
    ensures Conserved(call, t)
  {
    match step {
      case Hand(w) => HandConserves(call, s, w, t);
      case Answered(w, answer) => AnsweredConserves(call, s, w, answer, t);
      case Send(w) => SendConserves(call, s, w, t);
      case Exit(w) => ExitConserves(call, s, w, t);
      case Receive => ReceiveConserves(call, s, t);
      case _ => OtherStepConserves(call, s, step, t);
    }
  }

  lemma BufferedIsRequested(call: Call, s: State, i: nat)
    requires Conserved(call, s) && i < |s.buffer|
    ensures s.buffer[i].resource in call.resources
  {
    assert s.buffer[i].resource == Names(s.buffer)[i];
    assert s.buffer[i].resource in multiset(call.resources[..s.fed]);
  }

  lemma ReceiveTellsTruth(call: Call, s: State, t: State)
    requires Inv(call, s) && Fire(call, s, Receive) == Some(t)
    ensures Truthful(call, t)
  {
    var o := s.buffer[0];
    BufferedIsRequested(call, s, 0);
    assert Honest(call, s.ctxDone, o);
    assert Names(t.received) == Names(s.received) + [o.resource];
  }

  lemma WorkerStepTellsTruth(call: Call, s: State, step: Step, w: nat, t: State)
    requires Truthful(call, s) && Fire(call, s, step) == Some(t)
    requires step == Hand(w) || step == Send(w) || step == Exit(w) || (step.Answered? && step.w == w)
    ensures Truthful(call, t)
  {
  }

  lemma OtherStepTellsTruth(call: Call, s: State, step: Step, t: State)
    requires Truthful(call, s) && Fire(call, s, step) == Some(t)
    requires !(step.Hand? || step.Send? || step.Exit? || step.Answered? || step.Receive?)
    ensures Truthful(call, t)
  {
  }

  lemma StepTellsTruth(call: Call, s: State, step: Step, t: State)
    requires Inv(call, s) && Fire(call, s, step) == Some(t)
    ensures Truthful(call, t)
  {
    if step.Receive? {
      ReceiveTellsTruth(call, s, t);
    } else if step.Hand? || step.Send? || step.Exit? || step.Answered? {
      WorkerStepTellsTruth(call, s, step, step.w, t);
    } else {
      OtherStepTellsTruth(call, s, step, t);
    }
  }

  lemma InvStep(call: Call, s: State, step: Step, t: State)
    requires Inv(call, s) && Fire(call, s, step) == Some(t)
    ensures Inv(call, t)
  {
    if step.Hand? || step.Send? || step.Exit? || step.Answered? {
      WorkerStepKeepsShape(call, s, step, step.w, t);
    } else {
      OtherStepKeepsShape(call, s, step, t);
    }
    StepConserves(call, s, step, t);
    StepTellsTruth(call, s, step, t);
  }

  /** Every state any schedule leads to satisfies the invariants. */
  lemma {:induction false} Reached(call: Call, steps: seq<Step>, s: State)
    requires Exec(call, steps) == Some(s)
    ensures Inv(call, s)
  {
    if steps == [] {
      InitInv(call);
    } else {
      var before := Exec(call, steps[..|steps| - 1]).value;
      Reached(call, steps[..|steps| - 1], before);
      InvStep(call, before, steps[|steps| - 1], s);
    }
  }
}
