/** Authorizers and their compositions: what one question means, asked alone or as part of a batch. */
module Authorizers {
  import opened Wrappers

  import ClaimContainer
  import Permissions
  import Text

  datatype Input = Input(claims: Option<ClaimContainer.Claims>, subject: string, action: string, resource: string)

  /** The same question about another resource. */
  function On(input: Input, resource: string): (on: Input)
    ensures on == Input(input.claims, input.subject, input.action, resource)
  {
    input.(resource := resource)
  }

  /** A relation engine, by subject, relation and resource; some also answer for many resources at once. */
  datatype Checker =
    | OneByOne(hasRelation: (string, string, string) -> Result<bool>)
    | Batch(hasRelation: (string, string, string) -> Result<bool>,
            hasRelations: (string, string, seq<string>) -> Result<map<string, bool>>)

  /** None stands for a nil checker and for a nil child. */
  datatype Authorizer =
    | RBAC(rbac: Permissions.Rbac)
    | ReBAC(checker: Option<Checker>)
    | Func(f: Input -> Result<bool>)
    | Any(children: seq<Option<Authorizer>>)

  function SubjectOf(input: Input): string {
    if input.subject == "" && input.claims.Some? then input.claims.value.subject else input.subject
  }

  // ---------------------------------------------------------------- the verdict on one resource

  function Verdict(t: Authorizer, input: Input): Result<bool>
    decreases t, 1
  {
    match t
    case RBAC(a) => Permissions.RbacVerdict(a, input.claims, input.action, input.resource)
    case ReBAC(None) => Failure(CheckerNotConfigured)
    case ReBAC(Some(checker)) =>
      if SubjectOf(input) == "" then Failure(SubjectRequired)
      else checker.hasRelation(SubjectOf(input), input.action, input.resource)
    case Func(f) => f(input)
    case Any(children) => AnyVerdict(children, input)
  }

  /** The first child that errs or allows decides. */
  function AnyVerdict(children: seq<Option<Authorizer>>, input: Input): Result<bool>
    decreases children, 0
  {
    if children == [] then Success(false)
    else if children[0].None? then AnyVerdict(children[1..], input)
    else
      assert children[0].value < children[0];
      var v := Verdict(children[0].value, input);
      if v == Success(false) then AnyVerdict(children[1..], input) else v
  }

  // ---------------------------------------------------------------- what the leaves are asked

  /**
    A role policy errs iff there are no claims, and allows iff some role of the caller has a grant
    covering what the printed permission is split into, at its first colon.
  */
  lemma PolicyVerdict(a: Permissions.Rbac, input: Input) returns (x: string, y: string)
    ensures ':' !in x && x + ":" + y == Text.TrimSpace(input.action) + ":" + Text.TrimSpace(input.resource)
    ensures input.claims.None? ==> Verdict(RBAC(a), input) == Failure(ClaimsRequired)
    ensures input.claims.Some? ==> Verdict(RBAC(a), input).Success?
    ensures Verdict(RBAC(a), input) == Success(true) <==>
              input.claims.Some?
              && exists role, granted ::
                   && role in Permissions.Roles(input.claims, a.roleClaim) && role in a.policies
                   && granted in a.policies[role] && Permissions.Covers(granted, x, y)
  {
    x, y := Permissions.RbacComponentwise(a, input.claims, input.action, input.resource);
  }

  /** A relation engine is asked about the explicit subject, or the claims' subject if there is none. */
  lemma EngineVerdict(checker: Checker, input: Input)
    ensures Verdict(ReBAC(None), input) == Failure(CheckerNotConfigured)
    ensures input.subject != "" ==>
              Verdict(ReBAC(Some(checker)), input)
              == checker.hasRelation(input.subject, input.action, input.resource)
    ensures input.subject == "" && input.claims.Some? && input.claims.value.subject != "" ==>
              Verdict(ReBAC(Some(checker)), input)
              == checker.hasRelation(input.claims.value.subject, input.action, input.resource)
    ensures input.subject == "" && (input.claims.None? || input.claims.value.subject == "") ==>
              Verdict(ReBAC(Some(checker)), input) == Failure(SubjectRequired)
  {
  }

  /** A function is asked the question as it was put. */
  lemma FunctionVerdict(f: Input -> Result<bool>, input: Input)
    ensures Verdict(Func(f), input) == f(input)
  {
  }

  // ---------------------------------------------------------------- laws of composition

  /** Adding a child matters only for what all earlier children denied. */
  lemma {:induction false} AnyOneMore(cs: seq<Option<Authorizer>>, c: Option<Authorizer>, input: Input)
    ensures AnyVerdict(cs + [c], input)
         == if AnyVerdict(cs, input) != Success(false) then AnyVerdict(cs, input)
            else if c.None? then Success(false)
            else Verdict(c.value, input)
  {
    if cs == [] {
      assert (cs + [c])[1..] == [];
    } else {
      assert (cs + [c])[1..] == cs[1..] + [c];
      AnyOneMore(cs[1..], c, input);
    }
  }

  lemma AnyPrefix(cs: seq<Option<Authorizer>>, k: nat, input: Input)
    requires k <= |cs| && AnyVerdict(cs[..k], input) != Success(false)
    ensures AnyVerdict(cs, input) == AnyVerdict(cs[..k], input)
    decreases |cs| - k
  {
    if k == |cs| {
      assert cs[..k] == cs;
    } else {
      assert cs[..k + 1] == cs[..k] + [cs[k]];
      AnyOneMore(cs[..k], cs[k], input);
      AnyPrefix(cs, k + 1, input);
    }
  }

  /** Some part of the tree, taken alone, allows the input. */
  predicate Grants(t: Authorizer, input: Input)
    decreases t, 1
  {
    if t.Any? then AnyGrants(t.children, input) else Verdict(t, input) == Success(true)
  }

  predicate AnyGrants(children: seq<Option<Authorizer>>, input: Input)
    decreases children, 0
  {
    && children != []
    && (AnyGrants(children[1..], input)
        || (children[0].Some? && assert children[0].value < children[0]; Grants(children[0].value, input)))
  }

  /** Where the composition reaches a verdict, it allows exactly when some part does (OR semantics). */
  lemma {:induction false} VerdictIsOr(t: Authorizer, input: Input)
    requires Verdict(t, input).Success?
    ensures Verdict(t, input).value ==> Grants(t, input)
    ensures !Verdict(t, input).value ==> !Grants(t, input)
    decreases t, 1
  {
    if t.Any? {
      AnyVerdictIsOr(t.children, input);
    }
  }

  lemma {:induction false} AnyVerdictIsOr(children: seq<Option<Authorizer>>, input: Input)
    requires AnyVerdict(children, input).Success?
    ensures AnyVerdict(children, input).value <==> AnyGrants(children, input)
    decreases children, 0
  {
    if children != [] {
      if children[0].None? {
        AnyVerdictIsOr(children[1..], input);
      } else {
        assert children[0].value < children[0];
        VerdictIsOr(children[0].value, input);
        if Verdict(children[0].value, input) == Success(false) {
          AnyVerdictIsOr(children[1..], input);
        }
      }
    }
  }

  lemma {:induction false} AnyGrantsAt(children: seq<Option<Authorizer>>, k: nat, input: Input)
    requires k < |children| && children[k].Some? && Grants(children[k].value, input)
    ensures AnyGrants(children, input)
  {
    if k > 0 {
      AnyGrantsAt(children[1..], k - 1, input);
    }
  }

  lemma ThreeWays(v: Result<bool>)
    ensures v == Success(true) || v == Success(false) || v.Failure?
  {
    if v.Success? && v.value {
      assert v == Success(true);
    }
  }

  // ---------------------------------------------------------------- batches

  /** What reading a resource off a batch's map gives: a missing key reads as false. */
  predicate Allowed(out: map<string, bool>, r: string) {
    r in out && out[r]
  }

  /** `outcome` answers for every listed resource what `t` says about it, and errs iff `t` errs on one. */
  ghost predicate Matches(t: Authorizer, input: Input, rs: seq<string>, outcome: Result<map<string, bool>>) {
    && (outcome.Failure? <==> exists i :: 0 <= i < |rs| && Verdict(t, On(input, rs[i])).Failure?)
    && (outcome.Success? ==> outcome.value.Keys == ToSet(rs))
    && (outcome.Success? ==> forall r :: r in outcome.value ==>
                               Verdict(t, On(input, r)) == Success(outcome.value[r]))
  }

  /** The same for the listed resources read off the map, whatever keys it leaves out or adds. */
  ghost predicate Agrees(t: Authorizer, input: Input, rs: seq<string>, outcome: Result<map<string, bool>>) {
    && (outcome.Failure? <==> exists i :: 0 <= i < |rs| && Verdict(t, On(input, rs[i])).Failure?)
    && (outcome.Success? ==> forall r :: r in rs ==>
                               Verdict(t, On(input, r)) == Success(Allowed(outcome.value, r)))
  }

  lemma KeysOf(rs: seq<string>, out: map<string, bool>)
    requires out.Keys == ToSet(rs)
    ensures forall r :: r in out <==> r in rs
    ensures forall r :: r in rs ==> Allowed(out, r) == out[r]
  {
    assert forall r :: r in out.Keys <==> r in ToSet(rs);
  }

  /** Agreement lacks nothing but the exact key set. */
  lemma MatchesIsAgreement(t: Authorizer, input: Input, rs: seq<string>, outcome: Result<map<string, bool>>)
    ensures Matches(t, input, rs, outcome) <==>
              Agrees(t, input, rs, outcome) && (outcome.Success? ==> outcome.value.Keys == ToSet(rs))
  {
    if outcome.Success? && outcome.value.Keys == ToSet(rs) {
      KeysOf(rs, outcome.value);
    }
  }

  /** `outcome` allows no listed resource that no part of `t` allows. */
  ghost predicate Sound(t: Authorizer, input: Input, rs: seq<string>, outcome: Result<map<string, bool>>) {
    outcome.Success? ==>
      forall r :: r in rs && Allowed(outcome.value, r) ==> Grants(t, On(input, r))
  }

  /** `e` is what `t` reports on some listed resource. */
  ghost predicate Blames(t: Authorizer, input: Input, rs: seq<string>, e: Error) {
    exists i :: 0 <= i < |rs| && Verdict(t, On(input, rs[i])) == Failure(e)
  }

  lemma AgreesIsSound(t: Authorizer, input: Input, rs: seq<string>, outcome: Result<map<string, bool>>)
    requires Agrees(t, input, rs, outcome)
    ensures Sound(t, input, rs, outcome)
  {
    if outcome.Success? {
      forall r | r in rs && Allowed(outcome.value, r)
        ensures Grants(t, On(input, r))
      {
        VerdictIsOr(t, On(input, r));
      }
    }
  }

  /** A sound batch never allows what asking about that resource alone would deny. */
  lemma SoundNeverOverrules(t: Authorizer, input: Input, rs: seq<string>, outcome: Result<map<string, bool>>)
    requires Sound(t, input, rs, outcome) && outcome.Success?
    ensures forall r :: r in rs && Allowed(outcome.value, r) ==> Verdict(t, On(input, r)) != Success(false)
  {
    forall r | r in rs && Allowed(outcome.value, r)
      ensures Verdict(t, On(input, r)) != Success(false)
    {
      if Verdict(t, On(input, r)).Success? {
        VerdictIsOr(t, On(input, r));
      }
    }
  }

  // ---------------------------------------------------------------- conditions on the engines of a tree

  /** Something holds of every leaf of a tree. */
  ghost predicate Every(t: Authorizer, p: Authorizer -> bool)
    decreases t, 1
  {
    if t.Any? then EveryChild(t.children, p) else p(t)
  }

  ghost predicate EveryChild(children: seq<Option<Authorizer>>, p: Authorizer -> bool)
    decreases children, 0
  {
    children != [] ==>
      && EveryChild(children[1..], p)
      && (children[0].Some? ==> assert children[0].value < children[0]; Every(children[0].value, p))
  }

  lemma {:induction false} EveryAt(children: seq<Option<Authorizer>>, k: nat, p: Authorizer -> bool)
    requires EveryChild(children, p) && k < |children| && children[k].Some?
    ensures Every(children[k].value, p)
  {
    if k > 0 {
      EveryAt(children[1..], k - 1, p);
    }
  }

  predicate HasEngine(t: Authorizer) {
    t.ReBAC? && t.checker.Some?
  }

  predicate IsBulk(t: Authorizer) {
    HasEngine(t) && t.checker.value.Batch?
  }

  /** An engine that is asked about one resource at a time and has a subject to ask about. */
  predicate FansOut(t: Authorizer, input: Input) {
    HasEngine(t) && t.checker.value.OneByOne? && SubjectOf(input) != ""
  }

  /** What a bulk engine answers to one call. */
  function BulkAnswer(t: Authorizer, input: Input, rs: seq<string>): Result<map<string, bool>>
    requires IsBulk(t)
  {
    t.checker.value.hasRelations(SubjectOf(input), input.action, rs)
  }

  /** A bulk engine's map reads, for each resource it was asked about, like its single answer; its keys are free. */
  ghost predicate ConsistentLeaf(t: Authorizer) {
    IsBulk(t) ==>
      forall input, rs: seq<string> | rs != [] && SubjectOf(input) != "" ::
        Agrees(t, input, rs, BulkAnswer(t, input, rs))
  }

  ghost predicate Consistent(t: Authorizer) {
    Every(t, ConsistentLeaf)
  }

  /** A bulk engine allows nothing that it does not allow singly. It may err, or leave out what it likes. */
  ghost predicate ModestLeaf(t: Authorizer) {
    IsBulk(t) ==>
      forall input, rs: seq<string> | rs != [] && SubjectOf(input) != "" ::
        Sound(t, input, rs, BulkAnswer(t, input, rs))
  }

  ghost predicate Modest(t: Authorizer) {
    Every(t, ModestLeaf)
  }

  /** A bulk engine that errs reports the error of some listed resource. */
  ghost predicate NamingLeaf(t: Authorizer) {
    IsBulk(t) ==>
      forall input, rs: seq<string> | rs != [] && SubjectOf(input) != "" ::
        BulkAnswer(t, input, rs).Failure? ==> Blames(t, input, rs, BulkAnswer(t, input, rs).error)
  }

  ghost predicate NamesErrors(t: Authorizer) {
    Every(t, NamingLeaf)
  }

  /** No engine that answers one resource at a time, so nothing to fan out. */
  ghost predicate NoFanOutLeaf(t: Authorizer) {
    HasEngine(t) ==> IsBulk(t)
  }

  ghost predicate NoFanOut(t: Authorizer) {
    Every(t, NoFanOutLeaf)
  }

  /** No bulk engine. */
  ghost predicate NoBulkLeaf(t: Authorizer) {
    !IsBulk(t)
  }

  /** A tree without bulk engines meets what is asked of bulk engines. */
  lemma {:induction false} NoBulkMeetsAll(t: Authorizer)
    requires Every(t, NoBulkLeaf)
    ensures Consistent(t) && NamesErrors(t)
    decreases t, 1
  {
    if t.Any? {
      NoBulkBelow(t.children);
    }
  }

  lemma {:induction false} NoBulkBelow(children: seq<Option<Authorizer>>)
    requires EveryChild(children, NoBulkLeaf)
    ensures EveryChild(children, ConsistentLeaf) && EveryChild(children, NamingLeaf)
    decreases children, 0
  {
    if children != [] {
      NoBulkBelow(children[1..]);
      if children[0].Some? {
        assert children[0].value < children[0];
        NoBulkMeetsAll(children[0].value);
      }
    }
  }

  lemma ConsistentLeafIsModest(t: Authorizer)
    requires ConsistentLeaf(t)
    ensures ModestLeaf(t)
  {
    if IsBulk(t) {
      forall input, rs: seq<string> | rs != [] && SubjectOf(input) != ""
        ensures Sound(t, input, rs, BulkAnswer(t, input, rs))
      {
        AgreesIsSound(t, input, rs, BulkAnswer(t, input, rs));
      }
    }
  }

  /** Consistent engines are modest. */
  lemma {:induction false} ConsistentIsModest(t: Authorizer)
    requires Consistent(t)
    ensures Modest(t)
    decreases t, 1
  {
    if t.Any? {
      ConsistentBelow(t.children);
    } else {
      ConsistentLeafIsModest(t);
    }
  }

  lemma {:induction false} ConsistentBelow(children: seq<Option<Authorizer>>)
    requires EveryChild(children, ConsistentLeaf)
    ensures EveryChild(children, ModestLeaf)
    decreases children, 0
  {
    if children != [] {
      ConsistentBelow(children[1..]);
      if children[0].Some? {
        assert children[0].value < children[0];
        ConsistentIsModest(children[0].value);
      }
    }
  }

  /** A bulk engine that returns one and the same table whatever it is asked about. */
  function TableEngine(table: map<string, bool>): Authorizer {
    ReBAC(Some(Batch((_, _, r) => Success(Allowed(table, r)), (_, _, _) => Success(table))))
  }

  /** It is consistent whatever keys the table has, but as a root it matches exactly the lists of these keys. */
  lemma TableIsConsistent(table: map<string, bool>, input: Input, rs: seq<string>)
    ensures Consistent(TableEngine(table))
    ensures SubjectOf(input) != "" ==>
              (Matches(TableEngine(table), input, rs, Success(table)) <==> table.Keys == ToSet(rs))
  {
    var t := TableEngine(table);
    forall input: Input, rs: seq<string> | SubjectOf(input) != ""
      ensures Agrees(t, input, rs, Success(table))
    {
      assert forall r :: Verdict(t, On(input, r)) == Success(Allowed(table, r));
    }
    assert ConsistentLeaf(t);
    MatchesIsAgreement(t, input, rs, Success(table));
  }

  /** A relation authorizer that errs before looking at any resource. */
  predicate Misconfigured(t: Authorizer, input: Input) {
    t.ReBAC? && (t.checker.None? || SubjectOf(input) == "")
  }

  /**
    The keys of a batch's map: only listed ones, and all of them unless a fan-out at the root was cut
    short; a bulk engine's map is passed on as it is, so at the root nothing is known of its keys.
  */
  ghost predicate HasKeys(t: Authorizer, rs: seq<string>, outcome: Result<map<string, bool>>, mayCancel: bool) {
    outcome.Success? && !IsBulk(t) ==>
      && outcome.value.Keys <= ToSet(rs)
      && (!(mayCancel && t.ReBAC?) ==> outcome.value.Keys == ToSet(rs))
  }

  /**
    What a batch promises. Its keys, whatever the engines answer; soundness if they are modest. If they
    are consistent: without outside cancellation the pointwise verdicts, with an error of a listed
    resource where bulk engines report such; and the pointwise verdicts also under cancellation if the
    batch succeeds and nothing in the tree is fanned out.
  */
  ghost predicate Serves(t: Authorizer, input: Input, rs: seq<string>, outcome: Result<map<string, bool>>,
                         mayCancel: bool) {
    && HasKeys(t, rs, outcome, mayCancel)
    && (Modest(t) ==> Sound(t, input, rs, outcome))
    && (Consistent(t) ==>
          && (!mayCancel && (rs != [] || !Misconfigured(t, input)) ==> Agrees(t, input, rs, outcome))
          && (outcome.Success? && NoFanOut(t) ==> Agrees(t, input, rs, outcome))
          && (!mayCancel && rs != [] && NamesErrors(t) && outcome.Failure? ==> Blames(t, input, rs, outcome.error)))
  }
}
