/** Periodic re-verification of a live connection's claims, over whole runs. */
module Reverification {
  import opened Wrappers
  import opened ClaimContainer

  /** What the loop's select yields: cancellation, or a tick with the clock and the revoker's reply then. */
  datatype Event = Cancelled | Tick(now: int, reply: Result<bool>)

  function Expiry(claims: Claims): int
    requires claims.expiresAt.Some?
  {
    claims.expiresAt.value.seconds * NANOS_PER_SECOND + claims.expiresAt.value.nanos
  }

  predicate Expired(claims: Claims, now: int) {
    claims.expiresAt.Some? && now > Expiry(claims)
  }

  /** None when the claims still stand. */
  function CheckStillValid(claims: Claims, hasRevoker: bool, now: int, reply: Result<bool>): Option<Error> {
    if Expired(claims, now) then Some(InvalidToken)
    else if !hasRevoker then None
    else
      match reply
      case Failure(e) => Some(e)
      case Success(revoked) => if revoked then Some(TokenRevoked) else None
  }

  predicate Passes(claims: Claims, hasRevoker: bool, event: Event) {
    event.Tick? && CheckStillValid(claims, hasRevoker, event.now, event.reply).None?
  }

  /**
    A run of the loop over `events` that takes the first `handled` of them and makes these `calls`:
    every event but the last passes; events are left over only when the last one taken ended the
    loop; the callback gets the error of a failing last tick and is not called otherwise.
  */
  ghost predicate IsRun(claims: Claims, hasRevoker: bool, events: seq<Event>, calls: seq<Error>, handled: nat) {
    && handled <= |events|
    && (forall i :: 0 <= i < handled - 1 ==> Passes(claims, hasRevoker, events[i]))
    && (handled < |events| ==> handled > 0 && !Passes(claims, hasRevoker, events[handled - 1]))
    && calls == if handled == 0 || events[handled - 1].Cancelled? then []
                else
                  var last := events[handled - 1];
                  match CheckStillValid(claims, hasRevoker, last.now, last.reply)
                  case None => []
                  case Some(e) => [e]
  }

  method Reverify(claims: Option<Claims>, hasRevoker: bool, hasCallback: bool, events: seq<Event>)
    returns (calls: seq<Error>, handled: nat)
    ensures claims.None? || !hasCallback ==> calls == [] && handled == 0
    ensures claims.Some? && hasCallback ==> IsRun(claims.value, hasRevoker, events, calls, handled)
  {
    calls, handled := [], 0;
    if claims.None? || !hasCallback {
      return;
    }
    while handled < |events|
      invariant handled <= |events| && calls == []
      invariant forall i :: 0 <= i < handled ==> Passes(claims.value, hasRevoker, events[i])
    {
      var event := events[handled];
      handled := handled + 1;
      match event {
        case Cancelled =>
          return;
        case Tick(now, reply) =>
          var failure := CheckStillValid(claims.value, hasRevoker, now, reply);
          if failure.Some? {
            calls := [failure.value];
            return;
          }
      }
    }
  }

  /** The clock of the ticks never runs backwards. */
  predicate Monotone(events: seq<Event>) {
    forall i, j :: 0 <= i <= j < |events| && events[i].Tick? && events[j].Tick? ==> events[i].now <= events[j].now
  }

  /** What was handled decides: runs over the same events stop together and call back alike. */
  lemma RunIsDetermined(claims: Claims, hasRevoker: bool, events: seq<Event>,
                        calls: seq<Error>, handled: nat, calls': seq<Error>, handled': nat)
    requires IsRun(claims, hasRevoker, events, calls, handled)
    requires IsRun(claims, hasRevoker, events, calls', handled')
    ensures calls == calls' && handled == handled' && |calls| <= 1
  {
  }

  /** The callback is called exactly when a failing tick comes before any cancellation. */
  lemma CalledIff(claims: Claims, hasRevoker: bool, events: seq<Event>, calls: seq<Error>, handled: nat)
    requires IsRun(claims, hasRevoker, events, calls, handled)
    ensures calls != [] <==>
              exists i :: 0 <= i < |events| && events[i].Tick? && !Passes(claims, hasRevoker, events[i])
                          && forall j :: 0 <= j < i ==> Passes(claims, hasRevoker, events[j])
  {
  }

  /**
    With a clock that never runs backwards, expiry ends the loop: if a tick after the expiry is due,
    nothing beyond it is handled, and from it on every tick would fail in the same way.
  */
  lemma ExpiryStops(claims: Claims, hasRevoker: bool, events: seq<Event>, calls: seq<Error>, handled: nat, i: nat)
    requires Monotone(events) && IsRun(claims, hasRevoker, events, calls, handled)
    requires i < |events| && events[i].Tick? && Expired(claims, events[i].now)
    ensures 0 < handled <= i + 1
    ensures handled == i + 1 ==> calls == [InvalidToken]
    ensures forall j :: i <= j < |events| && events[j].Tick? ==>
              CheckStillValid(claims, hasRevoker, events[j].now, events[j].reply) == Some(InvalidToken)
  {
  }

  /** Ticks only, the first at most `interval` after `start` and each later one at most that after the one before. */
  predicate Ticking(events: seq<Event>, start: int, interval: nat) {
    && (forall i :: 0 <= i < |events| ==> events[i].Tick?)
    && (events != [] ==> events[0].now <= start + interval)
    && (forall i :: 0 < i < |events| ==> events[i].now <= events[i - 1].now + interval)
  }

  /**
    How long a connection can outlive its claims: it is cut off by the first tick after the expiry, so
    no tick later than one interval after it is handled; and it is cut off then, if such a tick comes.
  */
  lemma ExpiryLatency(claims: Claims, hasRevoker: bool, events: seq<Event>, calls: seq<Error>, handled: nat,
                      start: int, interval: nat)
    requires IsRun(claims, hasRevoker, events, calls, handled) && Monotone(events) && Ticking(events, start, interval)
    requires claims.expiresAt.Some? && start <= Expiry(claims)
    ensures forall i :: 0 <= i < handled ==> events[i].now <= Expiry(claims) + interval
    ensures (exists i :: 0 <= i < |events| && events[i].now > Expiry(claims)) ==> |calls| == 1
  {
    forall i | 0 <= i < handled
      ensures events[i].now <= Expiry(claims) + interval
    {
      if i > 0 {
        assert Passes(claims, hasRevoker, events[i - 1]);
        assert !Expired(claims, events[i - 1].now);
        assert events[i].now <= events[i - 1].now + interval;
      }
    }
    if i :| 0 <= i < |events| && events[i].now > Expiry(claims) {
      ExpiryStops(claims, hasRevoker, events, calls, handled, i);
      assert events[handled - 1].Tick?;
    }
  }

  // ---------------------------------------------------------------- runs in terms of the events alone

  /** What ends the loop: cancellation, a tick after the expiry, or a revoker's reply other than "not revoked". */
  predicate Ends(claims: Claims, hasRevoker: bool, event: Event) {
    match event
    case Cancelled => true
    case Tick(now, reply) => PastExpiry(claims, now) || (hasRevoker && reply != Success(false))
  }

  predicate PastExpiry(claims: Claims, now: int) {
    match claims.expiresAt
    case None => false
    case Some(date) => now > date.seconds * 1_000_000_000 + date.nanos
  }

  /** What the callback is told at the event that ends the loop. */
  function Told(claims: Claims, event: Event): seq<Error> {
    match event
    case Cancelled => []
    case Tick(now, reply) =>
      if PastExpiry(claims, now) then [InvalidToken]
      else match reply
        case Failure(e) => [e]
        case Success(_) => [TokenRevoked]
  }

  lemma EndsUnlessPasses(claims: Claims, hasRevoker: bool, event: Event)
    ensures Ends(claims, hasRevoker, event) <==> !Passes(claims, hasRevoker, event)
    ensures Ends(claims, hasRevoker, event) && event.Tick? ==>
              Told(claims, event) == [CheckStillValid(claims, hasRevoker, event.now, event.reply).value]
  {
  }

  /** The first event that ends the loop is the last one handled and decides the calls; without one, all are. */
  lemma RunMeans(claims: Claims, hasRevoker: bool, events: seq<Event>, calls: seq<Error>, handled: nat)
    ensures IsRun(claims, hasRevoker, events, calls, handled) <==>
              if exists i :: 0 <= i < |events| && Ends(claims, hasRevoker, events[i])
              then 0 < handled <= |events| && Ends(claims, hasRevoker, events[handled - 1])
                   && (forall i :: 0 <= i < handled - 1 ==> !Ends(claims, hasRevoker, events[i]))
                   && calls == Told(claims, events[handled - 1])
              else handled == |events| && calls == []
  {
    forall i | 0 <= i < |events|
      ensures Ends(claims, hasRevoker, events[i]) <==> !Passes(claims, hasRevoker, events[i])
    {
      EndsUnlessPasses(claims, hasRevoker, events[i]);
    }
    if 0 < handled <= |events| {
      EndsUnlessPasses(claims, hasRevoker, events[handled - 1]);
    }
  }

  predicate SameButReplies(event: Event, event': Event) {
    match (event, event')
    case (Cancelled, Cancelled) => true
    case (Tick(now, _), Tick(now', _)) => now == now'
    case _ => false
  }

  /** Without a revoker the replies make no difference. */
  lemma RepliesIgnored(claims: Claims, events: seq<Event>, events': seq<Event>, calls: seq<Error>, handled: nat)
    requires |events| == |events'| && forall i :: 0 <= i < |events| ==> SameButReplies(events[i], events'[i])
    ensures IsRun(claims, false, events, calls, handled) <==> IsRun(claims, false, events', calls, handled)
  {
    assert forall i :: 0 <= i < |events| ==> (Passes(claims, false, events[i]) <==> Passes(claims, false, events'[i]));
  }
}
