/**
  Batches whose outside context may be cancelled: exactly what a successful one can say about a
  resource. A missing key reads as false, so a dropped key is a denial.
*/
module Cancellation {
  import opened Authorizers
  import opened BatchOutcomes
  import opened Wrappers
  import opened Worklist

  import FanOutOutcomes
  import FanOutTheorems
  import Filters

  /** A cancelled batch can allow the resource: some child allows it, and all before may pass it on. */
  predicate MayAllow(t: Authorizer, input: Input)
    decreases t, 1
  {
    if t.Any? then AnyMayAllow(t.children, input) else Verdict(t, input) == Success(true)
  }

  predicate AnyMayAllow(children: seq<Option<Authorizer>>, input: Input)
    decreases children, 0
  {
    && children != []
    && if children[0].None? then AnyMayAllow(children[1..], input)
       else
         assert children[0].value < children[0];
         MayAllow(children[0].value, input)
         || (MayPass(children[0].value, input) && AnyMayAllow(children[1..], input))
  }

  /** A cancelled batch can leave the resource unallowed: everything denies it or is fanned out. */
  predicate MayPass(t: Authorizer, input: Input)
    decreases t, 1
  {
    if t.Any? then AnyMayPass(t.children, input)
    else FansOut(t, input) || Verdict(t, input) == Success(false)
  }

  predicate AnyMayPass(children: seq<Option<Authorizer>>, input: Input)
    decreases children, 0
  {
    children != [] ==>
      && (children[0].Some? ==> assert children[0].value < children[0]; MayPass(children[0].value, input))
      && AnyMayPass(children[1..], input)
  }

  // ---------------------------------------------------------------- no batch says more

  lemma LeafReads(t: Authorizer, input: Input, rs: seq<string>, out: map<string, bool>, r: string)
    requires !t.Any? && Consistent(t) && r in rs && Answers(t, input, rs, Success(out), true)
    ensures if Allowed(out, r) then MayAllow(t, On(input, r)) else MayPass(t, On(input, r))
  {
    if FansOut(t, input) {
      var call := FanOutCall(t, input, rs);
      FanOutOutcomes.PossibleMaps(call, true, out);
    } else if t.ReBAC? {
      assert rs != [] && BulkAnswer(t, input, rs) == Success(out);
      assert Agrees(t, input, rs, BulkAnswer(t, input, rs));
    } else {
      assert FanOutTheorems.Sequential(rs, VerdictOn(t, input)) == Success(out);
      assert r in ToSet(rs);
    }
  }

  /** What the first child and then the others say about a resource, put together. */
  lemma ReadsStep(children: seq<Option<Authorizer>>, input: Input, left: seq<string>, results: map<string, bool>,
                  partial: map<string, bool>, out: map<string, bool>, r: string)
    requires children != [] && children[0].Some?
    requires r in left ==>
               if Allowed(partial, r) then MayAllow(children[0].value, On(input, r))
               else MayPass(children[0].value, On(input, r))
    requires r in Kept(left, partial) ==>
               if Allowed(out, r) then AnyMayAllow(children[1..], On(input, r))
               else AnyMayPass(children[1..], On(input, r))
    requires r !in Kept(left, partial) && Allowed(Marked(results, left, partial), r) ==> Allowed(out, r)
    ensures r in left && Allowed(out, r) ==> AnyMayAllow(children, On(input, r))
    ensures r in left && !Allowed(out, r) ==> AnyMayPass(children, On(input, r))
    ensures r !in left && Allowed(results, r) ==> Allowed(out, r)
  {
    KeptMembers(left, partial);
  }

  lemma {:induction false} Reads(t: Authorizer, input: Input, rs: seq<string>, out: map<string, bool>, r: string)
    requires Consistent(t) && r in rs && Answers(t, input, rs, Success(out), true)
    ensures if Allowed(out, r) then MayAllow(t, On(input, r)) else MayPass(t, On(input, r))
    decreases t, 1
  {
    if t.Any? {
      AnyReads(t.children, input, rs, map[], out, r);
    } else {
      LeafReads(t, input, rs, out, r);
    }
  }

  lemma {:induction false} AnyReads(children: seq<Option<Authorizer>>, input: Input, left: seq<string>,
                                    results: map<string, bool>, out: map<string, bool>, r: string)
    requires EveryChild(children, ConsistentLeaf)
    requires AnyAnswers(children, input, left, results, Success(out), true)
    ensures r in left && Allowed(out, r) ==> AnyMayAllow(children, On(input, r))
    ensures r in left && !Allowed(out, r) ==> AnyMayPass(children, On(input, r))
    ensures r !in left && Allowed(results, r) ==> Allowed(out, r)
    decreases children, 0
  {
    if children == [] {
    } else if children[0].None? || left == [] {
      AnyReads(children[1..], input, left, results, out, r);
    } else {
      var c := children[0].value;
      assert c < children[0];
      var partial := FirstAnswer(children, input, left, results, out, true);
      AnyReads(children[1..], input, Kept(left, partial), Marked(results, left, partial), out, r);
      if r in left {
        Reads(c, input, left, partial, r);
      }
      ReadsStep(children, input, left, results, partial, out, r);
    }
  }

  // ---------------------------------------------------------------- and some batch says each of it

  lemma FannedOutReading(t: Authorizer, input: Input, r: string, allowed: bool) returns (out: map<string, bool>)
    requires FansOut(t, input) && (allowed ==> Verdict(t, On(input, r)) == Success(true))
    ensures Answers(t, input, [r], Success(out), true) && Allowed(out, r) == allowed
  {
    var call := FanOutCall(t, input, [r]);
    var asked := if allowed then 1 else 0;
    assert FanOutTheorems.Sequential(call.resources[..asked], call.check).Success?;
    out := FanOutTheorems.Sequential(call.resources[..asked], call.check).value;
    FanOutOutcomes.PossibleMaps(call, true, out);
    assert allowed ==> r in ToSet([r]);
  }

  lemma LeafReading(t: Authorizer, input: Input, r: string, allowed: bool) returns (out: map<string, bool>)
    requires !t.Any? && Consistent(t)
    requires if allowed then MayAllow(t, On(input, r)) else MayPass(t, On(input, r))
    ensures Answers(t, input, [r], Success(out), true) && Allowed(out, r) == allowed
  {
    if FansOut(t, input) {
      out := FannedOutReading(t, input, r, allowed);
    } else if t.ReBAC? {
      assert Agrees(t, input, [r], BulkAnswer(t, input, [r]));
      assert [r][0] == r && r in [r];
      out := BulkAnswer(t, input, [r]).value;
    } else {
      out := FanOutTheorems.Sequential([r], VerdictOn(t, input)).value;
      assert r in ToSet([r]);
    }
  }

  lemma {:induction false} Reading(t: Authorizer, input: Input, r: string, allowed: bool)
    returns (out: map<string, bool>)
    requires Consistent(t)
    requires if allowed then MayAllow(t, On(input, r)) else MayPass(t, On(input, r))
    ensures Answers(t, input, [r], Success(out), true) && Allowed(out, r) == allowed
    decreases t, 1
  {
    if t.Any? {
      out := AnyReading(t.children, input, map[], r, allowed);
    } else {
      out := LeafReading(t, input, r, allowed);
    }
  }

  lemma {:induction false} NothingLeft(children: seq<Option<Authorizer>>, input: Input, results: map<string, bool>)
    ensures AnyAnswers(children, input, [], results, Success(results), true)
  {
    if children == [] {
      assert Denied(results, []) == results;
    } else {
      NothingLeft(children[1..], input, results);
    }
  }

  lemma KeptOfOne(r: string, partial: map<string, bool>)
    ensures Kept([r], partial) == if Allowed(partial, r) then [] else [r]
  {
    KeptOneMore([], r, partial);
    assert [] + [r] == [r];
  }

  lemma {:induction false} AnyReading(children: seq<Option<Authorizer>>, input: Input, results: map<string, bool>,
                                      r: string, allowed: bool)
    returns (out: map<string, bool>)
    requires EveryChild(children, ConsistentLeaf)
    requires if allowed then AnyMayAllow(children, On(input, r)) else AnyMayPass(children, On(input, r))
    ensures AnyAnswers(children, input, [r], results, Success(out), true) && Allowed(out, r) == allowed
    decreases children, 0
  {
    if children == [] {
      out := Denied(results, [r]);
    } else if children[0].None? {
      out := AnyReading(children[1..], input, results, r, allowed);
    } else {
      var c := children[0].value;
      assert c < children[0];
      var here := allowed && MayAllow(c, On(input, r));
      var partial := Reading(c, input, r, here);
      KeptOfOne(r, partial);
      var marked := Marked(results, [r], partial);
      if here {
        out := marked;
        NothingLeft(children[1..], input, out);
      } else {
        out := AnyReading(children[1..], input, marked, r, allowed);
      }
      assert Success(partial).value == partial && Answers(c, input, [r], Success(partial), true);
    }
  }

  // ---------------------------------------------------------------- the exact conditions

  /** What a successful batch under cancellation can say about a resource, over all lists and schedules. */
  lemma CancelledReads(t: Authorizer, input: Input, r: string, allowed: bool)
    requires Consistent(t)
    ensures (exists rs, out :: r in rs && Answers(t, input, rs, Success(out), true) && Allowed(out, r) == allowed)
            <==> if allowed then MayAllow(t, On(input, r)) else MayPass(t, On(input, r))
  {
    if rs, out :| r in rs && Answers(t, input, rs, Success(out), true) && Allowed(out, r) == allowed {
      Reads(t, input, rs, out, r);
    }
    if if allowed then MayAllow(t, On(input, r)) else MayPass(t, On(input, r)) {
      var out := Reading(t, input, r, allowed);
      assert r in [r];
    }
  }

  /** The verdict is the only thing a cancelled batch can say. */
  predicate Steady(t: Authorizer, input: Input) {
    && (MayAllow(t, input) ==> Verdict(t, input) == Success(true))
    && (MayPass(t, input) ==> Verdict(t, input) == Success(false))
  }

  /** Successful batches under cancellation all agree with the pointwise verdict iff it is steady. */
  lemma CancelledAgrees(t: Authorizer, input: Input, r: string)
    requires Consistent(t)
    ensures (forall rs, out :: r in rs && Answers(t, input, rs, Success(out), true) ==>
                                 Verdict(t, On(input, r)) == Success(Allowed(out, r)))
            <==> Steady(t, On(input, r))
  {
    CancelledReads(t, input, r, true);
    CancelledReads(t, input, r, false);
  }

  /** The pointwise answer is always among the possible ones, and a denial is never overruled. */
  lemma {:induction false} MayAllowMeans(t: Authorizer, input: Input)
    ensures Verdict(t, input) == Success(true) ==> MayAllow(t, input)
    ensures Verdict(t, input) == Success(false) ==> MayPass(t, input) && !MayAllow(t, input)
    decreases t, 1
  {
    if t.Any? {
      AnyMayAllowMeans(t.children, input);
    }
  }

  lemma {:induction false} AnyMayAllowMeans(children: seq<Option<Authorizer>>, input: Input)
    ensures AnyVerdict(children, input) == Success(true) ==> AnyMayAllow(children, input)
    ensures AnyVerdict(children, input) == Success(false) ==>
              AnyMayPass(children, input) && !AnyMayAllow(children, input)
    decreases children, 0
  {
    if children != [] {
      AnyMayAllowMeans(children[1..], input);
      if children[0].Some? {
        assert children[0].value < children[0];
        MayAllowMeans(children[0].value, input);
      }
    }
  }

  /** Whatever a cancelled batch allows is allowed pointwise iff nothing may be allowed on which the tree errs. */
  lemma CancelledAllows(t: Authorizer, input: Input, r: string)
    requires Consistent(t)
    ensures (forall rs, out :: r in rs && Answers(t, input, rs, Success(out), true) && Allowed(out, r) ==>
                                 Verdict(t, On(input, r)) == Success(true))
            <==> !(MayAllow(t, On(input, r)) && Verdict(t, On(input, r)).Failure?)
  {
    MayAllowMeans(t, On(input, r));
    ThreeWays(Verdict(t, On(input, r)));
    if MayAllow(t, On(input, r)) {
      var out := Reading(t, input, r, true);
      assert r in [r] && Allowed(out, r);
    }
    forall rs, out | r in rs && Answers(t, input, rs, Success(out), true) && Allowed(out, r)
      ensures MayAllow(t, On(input, r))
    {
      Reads(t, input, rs, out, r);
    }
  }

  // ---------------------------------------------------------------- conditions on the engines

  /** Where nothing is fanned out, cancellation changes no answer. */
  lemma {:induction false} SteadyWithoutFanOut(t: Authorizer, input: Input)
    requires NoFanOut(t)
    ensures Steady(t, input)
    decreases t, 1
  {
    if t.Any? {
      SteadyChildren(t.children, input);
    }
  }

  lemma {:induction false} SteadyChildren(children: seq<Option<Authorizer>>, input: Input)
    requires EveryChild(children, NoFanOutLeaf)
    ensures AnyMayAllow(children, input) ==> AnyVerdict(children, input) == Success(true)
    ensures AnyMayPass(children, input) ==> AnyVerdict(children, input) == Success(false)
    decreases children, 0
  {
    if children != [] {
      SteadyChildren(children[1..], input);
      if children[0].Some? {
        assert children[0].value < children[0];
        SteadyWithoutFanOut(children[0].value, input);
      }
    }
  }

  /** An engine that is fanned out does not err on the input. */
  ghost function AnsweringEngine(input: Input): Authorizer -> bool {
    (t: Authorizer) => FansOut(t, input) ==> Verdict(t, input).Success?
  }

  /** Where the engines that are fanned out do not err, nothing is allowed that is not allowed pointwise. */
  lemma {:induction false} AllowsWhenEnginesReply(t: Authorizer, input: Input)
    requires Every(t, AnsweringEngine(input))
    ensures MayAllow(t, input) ==> Verdict(t, input) == Success(true)
    ensures MayPass(t, input) ==> Verdict(t, input).Success?
    decreases t, 1
  {
    if t.Any? {
      AnyAllowsWhenEnginesReply(t.children, input);
    } else {
      assert AnsweringEngine(input)(t);
    }
  }

  lemma {:induction false} AnyAllowsWhenEnginesReply(children: seq<Option<Authorizer>>, input: Input)
    requires EveryChild(children, AnsweringEngine(input))
    ensures AnyMayAllow(children, input) ==> AnyVerdict(children, input) == Success(true)
    ensures AnyMayPass(children, input) ==> AnyVerdict(children, input).Success?
    decreases children, 0
  {
    if children != [] {
      AnyAllowsWhenEnginesReply(children[1..], input);
      if children[0].Some? {
        assert children[0].value < children[0];
        AllowsWhenEnginesReply(children[0].value, input);
        ThreeWays(Verdict(children[0].value, input));
      }
    }
  }

  // ---------------------------------------------------------------- an engine can vanish

  lemma KeptNothingAllowed(rs: seq<string>)
    ensures Kept(rs, map[]) == rs
  {
    Filters.FilterAll(rs, NotAllowed(map[]));
  }

  lemma NothingHandedOut(t: Authorizer, input: Input, rs: seq<string>)
    requires FansOut(t, input)
    ensures Answers(t, input, rs, Success(map[]), true)
  {
    if rs != [] {
      var call := FanOutCall(t, input, rs);
      assert FanOutTheorems.Sequential(call.resources[..0], call.check) == Success(map[]);
      FanOutOutcomes.PossibleMaps(call, true, map[]);
    }
  }

  /** Cancelled, a composition can answer as if a child that is fanned out were nil, whatever that child says. */
  lemma {:induction false} EngineCanVanish(children: seq<Option<Authorizer>>, k: nat, input: Input,
                                           left: seq<string>, results: map<string, bool>,
                                           outcome: Result<map<string, bool>>)
    requires k < |children| && children[k].Some? && FansOut(children[k].value, input)
    requires AnyAnswers(children[k := None], input, left, results, outcome, true)
    ensures AnyAnswers(children, input, left, results, outcome, true)
  {
    var nils := children[k := None];
    if k == 0 {
      assert nils[1..] == children[1..];
      var partial: map<string, bool> := map[];
      NothingHandedOut(children[0].value, input, left);
      KeptNothingAllowed(left);
      assert Marked(results, left, partial) == results && Success(partial).value == partial;
    } else {
      assert nils[1..] == children[1..][k - 1 := None];
      if children[0].None? || left == [] {
        EngineCanVanish(children[1..], k - 1, input, left, results, outcome);
      } else {
        var partial :| Answers(children[0].value, input, left, partial, true)
                       && if partial.Failure? then outcome == partial
                          else AnyAnswers(nils[1..], input, Kept(left, partial.value),
                                          Marked(results, left, partial.value), outcome, true);
        if partial.Success? {
          EngineCanVanish(children[1..], k - 1, input, Kept(left, partial.value),
                          Marked(results, left, partial.value), outcome);
        }
      }
    }
  }

  /** So a composition can deny every resource that its only child, an engine, allows. */
  lemma CancellationDenies(engine: Authorizer, input: Input, rs: seq<string>)
    requires FansOut(engine, input)
    ensures Answers(Any([Some(engine)]), input, rs, Success(map r | r in rs :: false), true)
  {
    assert AnyAnswers([None][1..], input, rs, map[], Success(Denied(map[], rs)), true);
    assert [Some(engine)][0 := None] == [None];
    EngineCanVanish([Some(engine)], 0, input, rs, map[], Success(Denied(map[], rs)));
    assert Denied(map[], rs) == map r | r in rs :: false;
  }

  /** And it can allow a resource on which its first child, an engine, errs. */
  lemma CancellationOverlooksError(engine: Authorizer, f: Input -> Result<bool>, input: Input, r: string)
    requires FansOut(engine, input) && f(On(input, r)) == Success(true)
    ensures AnyVerdict([Some(engine), Some(Func(f))], On(input, r))
         == if Verdict(engine, On(input, r)).Failure? then Verdict(engine, On(input, r)) else Success(true)
    ensures exists out :: Answers(Any([Some(engine), Some(Func(f))]), input, [r], Success(out), true) && Allowed(out, r)
  {
    var children := [Some(engine), Some(Func(f))];
    ThreeWays(Verdict(engine, On(input, r)));
    assert children[1..][1..] == [];
    assert MayAllow(Func(f), On(input, r)) && MayPass(engine, On(input, r));
    assert AnyMayAllow(children[1..], On(input, r));
    assert AnyVerdict(children[1..], On(input, r)) == Success(true);
    assert Consistent(engine) && Consistent(Func(f));
    assert EveryChild(children[1..], ConsistentLeaf);
    var out := Reading(Any(children), input, r, true);
    assert Allowed(out, r);
  }
}
