/** Authorizing one resource: the dispatching check and the short-circuiting search over children. */
module Authorization {
  import opened Authorizers
  import opened Questions
  import opened Wrappers

  import Permissions

  /** Once a prefix of the children has decided, so have all longer ones. */
  lemma StaysDecided(children: seq<Option<Authorizer>>, k: nat, j: nat, input: Input)
    requires k <= j <= |children| && AnyVerdict(children[..k], input) != Success(false)
    ensures AnyVerdict(children[..j], input) == AnyVerdict(children[..k], input)
  {
    assert children[..j][..k] == children[..k];
    AnyPrefix(children[..j], k, input);
  }

  lemma {:induction false} NobodyAskedAfter(children: seq<Option<Authorizer>>, k: nat, j: nat, path: seq<nat>,
                                            input: Input)
    requires k <= j <= |children| && AnyVerdict(children[..k], input) != Success(false)
    ensures AskedFrom(children, j, path, input) == multiset{}
    decreases |children| - j
  {
    if j < |children| {
      StaysDecided(children, k, j, input);
      NobodyAskedAfter(children, k, j + 1, path, input);
    }
  }

  /** The children before `k` whose answer is asked for: those whose predecessors all deny. */
  function Consulted(children: seq<Option<Authorizer>>, k: nat, input: Input): set<nat>
    requires k <= |children|
  {
    set j: nat | j < k && children[j].Some? && AnyVerdict(children[..j], input) == Success(false)
  }

  lemma ConsultedMore(children: seq<Option<Authorizer>>, k: nat, input: Input)
    requires k < |children| && AnyVerdict(children[..k], input) == Success(false)
    ensures Consulted(children, k + 1, input)
         == Consulted(children, k, input) + (if children[k].Some? then {k} else {})
  {
  }

  /** The deciding prefix gives the verdict, and no later child is asked. */
  lemma Decided(children: seq<Option<Authorizer>>, k: nat, path: seq<nat>, input: Input)
    requires k <= |children| && AnyVerdict(children[..k], input) != Success(false)
    ensures AnyVerdict(children, input) == AnyVerdict(children[..k], input)
    ensures Consulted(children, |children|, input) == Consulted(children, k, input)
    ensures AskedFrom(children, k, path, input) == multiset{}
  {
    AnyPrefix(children, k, input);
    NobodyAskedAfter(children, k, k, path, input);
    forall j: nat | k <= j <= |children|
      ensures AnyVerdict(children[..j], input) != Success(false)
    {
      StaysDecided(children, k, j, input);
    }
  }

  /** Logging what child `k` is asked. */
  lemma LogChild(children: seq<Option<Authorizer>>, k: nat, path: seq<nat>, input: Input, asked: multiset<Question>)
    requires k < |children| && AnyVerdict(children[..k], input) == Success(false)
    requires asked + AskedFrom(children, k, path, input) == AskedFrom(children, 0, path, input)
    ensures var here := if children[k].None? then multiset{} else Asked(children[k].value, path + [k], input);
            (asked + here) + AskedFrom(children, k + 1, path, input) == AskedFrom(children, 0, path, input)
  {
    assert asked + multiset{} == asked;
  }

  /** `asked` is the log of the calls made at the leaves. */
  method Authorize(t: Authorizer, path: seq<nat>, input: Input)
    returns (r: Result<bool>, asked: multiset<Question>)
    ensures r == Verdict(t, input)
    ensures asked == Asked(t, path, input)
    decreases t, 1
  {
    match t {
      case RBAC(a) =>
        asked := multiset{Question(path, input.resource)};
        r := Permissions.RbacAuthorize(a, input.claims, input.action, input.resource);
      case ReBAC(checker) =>
        asked := multiset{};
        if checker.None? {
          return Failure(CheckerNotConfigured), asked;
        }
        var subject := input.subject;
        if subject == "" && input.claims.Some? {
          subject := input.claims.value.subject;
        }
        if subject == "" {
          return Failure(SubjectRequired), asked;
        }
        asked := multiset{Question(path, input.resource)};
        r := checker.value.hasRelation(subject, input.action, input.resource);
      case Func(f) =>
        asked := multiset{Question(path, input.resource)};
        r := f(input);
      case Any(children) =>
        var consulted;
        r, consulted, asked := AuthorizeAny(children, path, input);
    }
  }

  /** `consulted` are the children whose answer was asked for: those whose predecessors all denied. */
  method AuthorizeAny(children: seq<Option<Authorizer>>, path: seq<nat>, input: Input)
    returns (r: Result<bool>, consulted: set<nat>, asked: multiset<Question>)
    ensures r == AnyVerdict(children, input)
    ensures forall k: nat :: k in consulted <==>
              k < |children| && children[k].Some? && AnyVerdict(children[..k], input) == Success(false)
    ensures asked == AskedFrom(children, 0, path, input)
    decreases children, 0
  {
    consulted, asked := {}, multiset{};
    for k := 0 to |children|
      invariant AnyVerdict(children[..k], input) == Success(false)
      invariant consulted == Consulted(children, k, input)
      invariant asked + AskedFrom(children, k, path, input) == AskedFrom(children, 0, path, input)
    {
      assert children[..k + 1] == children[..k] + [children[k]];
      AnyOneMore(children[..k], children[k], input);
      ConsultedMore(children, k, input);
      LogChild(children, k, path, input, asked);
      if children[k].None? {
        continue;
      }
      consulted := consulted + {k};
      assert children[k].value < children[k];
      var questions;
      r, questions := Authorize(children[k].value, path + [k], input);
      asked := asked + questions;
      assert AnyVerdict(children[..k + 1], input) == r;
      if r.Failure? || r.value {
        assert r != Success(false);
        Decided(children, k + 1, path, input);
        assert asked + multiset{} == asked;
        return;
      }
    }
    assert children[..|children|] == children && asked + multiset{} == asked;
    r := Success(false);
  }
}
