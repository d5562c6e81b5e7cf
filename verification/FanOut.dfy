/**
  The bounded fan-out of relation checks as a state machine.

  One feeder goroutine hands resources to at most eight workers over an unbuffered channel, the
  workers put outcomes on a buffered channel, a closer waits for the workers, and the calling
  goroutine collects. Every channel operation, every read of the caller's slice and both ways the
  context can be cancelled are separate atomic steps, taken in any order.
*/
module FanOut {
  import opened Wrappers

  const BATCH_FAN_OUT_LIMIT := 8

  /** What one call is about: the slice it was given and the checker's answer per resource. */
  datatype Call = Call(resources: seq<string>, check: string -> Result<bool>)

  datatype Outcome = Outcome(resource: string, answer: Result<bool>)

  datatype Worker = Idle | Checking(resource: string) | Sending(outcome: Outcome) | Exited

  datatype Feeder = AtLoop | Offering(resource: string) | Closing | Stopped

  datatype Collector =
    | Collecting(partial: map<string, bool>)
    | Failing(cause: Error)
    | Failed(error: Error)
    | Succeeded(out: map<string, bool>)

  /**
    `slice` is the caller's memory, which the caller may overwrite once the call has returned a map.
    `pending` is the WaitGroup counter. `received` is history: every outcome the collector has taken.
  */
  datatype State = State(
    slice: seq<string>,
    feeder: Feeder,
    fed: nat,
    jobsClosed: bool,
    workers: seq<Worker>,
    pending: int,
    buffer: seq<Outcome>,
    resultsClosed: bool,
    collector: Collector,
    ctxDone: bool,
    outerCancelled: bool,
    received: seq<Outcome>)

  datatype Step =
    | Read
    | RangeEnds
    | Hand(w: nat)
    | SeeDone
    | CloseJobs
    | Answered(w: nat, answer: Result<bool>)
    | Send(w: nat)
    | Exit(w: nat)
    | CloseResults
    | Receive
    | ReturnError
    | ReturnMap
    | OuterCancel
    | CallerWrites(slice: seq<string>)

  function WorkerCount(n: nat): nat {
    if n < BATCH_FAN_OUT_LIMIT then n else BATCH_FAN_OUT_LIMIT
  }

  function Init(call: Call): State {
    var count := WorkerCount(|call.resources|);
    State(call.resources, AtLoop, 0, false, seq(count, _ => Idle), count, [], false,
          Collecting(map[]), false, false, [])
  }

  /** Before cancellation the checker answers by resource; after it, the call may also fail. */
  predicate Possible(call: Call, ctxDone: bool, resource: string, answer: Result<bool>) {
    answer == call.check(resource) || (ctxDone && answer.Failure?)
  }

  /** The state after one atomic step, or None when the step cannot be taken. */
  function Fire(call: Call, s: State, step: Step): Option<State> {
    match step
    case Read =>
      if s.feeder.AtLoop? && s.fed < |s.slice|
      then Some(s.(feeder := Offering(s.slice[s.fed])))
      else None
    case RangeEnds =>
      if s.feeder.AtLoop? && s.fed >= |s.slice| then Some(s.(feeder := Closing)) else None
    case Hand(w) =>
      if s.feeder.Offering? && w < |s.workers| && s.workers[w].Idle?
      then Some(s.(feeder := AtLoop, fed := s.fed + 1,
                   workers := s.workers[w := Checking(s.feeder.resource)]))
      else None
    case SeeDone =>
      if s.feeder.Offering? && s.ctxDone then Some(s.(feeder := Closing)) else None
    case CloseJobs =>
      if s.feeder.Closing? then Some(s.(feeder := Stopped, jobsClosed := true)) else None
    case Answered(w, answer) =>
      if w < |s.workers| && s.workers[w].Checking? && Possible(call, s.ctxDone, s.workers[w].resource, answer)
      then Some(s.(workers := s.workers[w := Sending(Outcome(s.workers[w].resource, answer))]))
      else None
    case Send(w) =>
      if w < |s.workers| && s.workers[w].Sending? && |s.buffer| < |call.resources|
      then Some(s.(workers := s.workers[w := Idle], buffer := s.buffer + [s.workers[w].outcome]))
      else None
    case Exit(w) =>
      if w < |s.workers| && s.workers[w].Idle? && s.jobsClosed
      then Some(s.(workers := s.workers[w := Exited], pending := s.pending - 1))
      else None
    case CloseResults =>
      if s.pending == 0 && !s.resultsClosed then Some(s.(resultsClosed := true)) else None
    case Receive =>
      if s.collector.Collecting? && s.buffer != [] then
        var o := s.buffer[0];
        Some(s.(buffer := s.buffer[1..], received := s.received + [o],
                collector := if o.answer.Failure? then Failing(o.answer.error)
                             else Collecting(s.collector.partial[o.resource := o.answer.value])))
      else None
    case ReturnError =>
      if s.collector.Failing? then Some(s.(collector := Failed(s.collector.cause), ctxDone := true)) else None
    case ReturnMap =>
      if s.collector.Collecting? && s.buffer == [] && s.resultsClosed
      then Some(s.(collector := Succeeded(s.collector.partial), ctxDone := true))
      else None
    case OuterCancel =>
      if !s.outerCancelled then Some(s.(outerCancelled := true, ctxDone := true)) else None
    case CallerWrites(slice) =>
      if s.collector.Succeeded? && |slice| == |s.slice| then Some(s.(slice := slice)) else None
  }

  predicate Enabled(call: Call, s: State, step: Step) {
    Fire(call, s, step).Some?
  }

  /** The state a schedule leads to, when every step of it could be taken in turn. */
  function Exec(call: Call, steps: seq<Step>): Option<State> {
    if steps == [] then Some(Init(call))
    else match Exec(call, steps[..|steps| - 1])
      case None => None
      case Some(s) => Fire(call, s, steps[|steps| - 1])
  }

  /** Steps of the environment; all others belong to one of the call's goroutines. */
  predicate FromOutside(step: Step) {
    step.OuterCancel? || step.CallerWrites?
  }

  predicate Returned(s: State) {
    s.collector.Failed? || s.collector.Succeeded?
  }

  /** Feeder, workers, closer and collector have all ended. */
  predicate AllDone(s: State) {
    && s.feeder.Stopped?
    && (forall i :: 0 <= i < |s.workers| ==> s.workers[i].Exited?)
    && s.resultsClosed
    && Returned(s)
  }
}
