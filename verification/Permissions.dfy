/** Role-based permissions: `action:resource` grants, their printing, their parsing, and roles. */
module Permissions {
  import opened ClaimContainer
  import opened Filters
  import opened Text
  import opened Wrappers

  function Permission(action: string, resource: string): string {
    TrimSpace(action) + ":" + TrimSpace(resource)
  }

  function PermissionMatches(granted: string, required: string): bool {
    match Cut(TrimSpace(granted), ':')
    case None => false
    case Some((gAction, gResource)) =>
      match Cut(TrimSpace(required), ':')
      case None => false
      case Some((rAction, rResource)) =>
        (gAction == "*" || gAction == rAction) && (gResource == "*" || gResource == rResource)
  }

  /** What a grant is documented to mean: action and resource match one by one, or by wildcard. */
  ghost predicate Covers(granted: string, action: string, resource: string) {
    exists gAction, gResource ::
      && TrimSpace(granted) == gAction + ":" + gResource
      && ':' !in gAction
      && (gAction == "*" || gAction == action)
      && (gResource == "*" || gResource == resource)
  }

  /** A printed permission has no white space to trim. */
  lemma PermissionIsTrimmed(action: string, resource: string)
    ensures TrimSpace(Permission(action, resource)) == Permission(action, resource)
  {
  }

  /** What parsing a printed permission gives, wherever the first colon of the action is. */
  lemma ParseOfPrinted(action: string, resource: string) returns (a: string, r: string)
    ensures Cut(TrimSpace(Permission(action, resource)), ':') == Some((a, r))
    ensures ':' !in a && Permission(action, resource) == a + ":" + r
    ensures ':' !in TrimSpace(action) ==> a == TrimSpace(action) && r == TrimSpace(resource)
    ensures ':' in TrimSpace(action) ==> |a| < |TrimSpace(action)| && |r| > |TrimSpace(resource)| && ':' in r
  {
    PermissionIsTrimmed(action, resource);
    var p, ta, tr := Permission(action, resource), TrimSpace(action), TrimSpace(resource);
    if ':' in ta {
      var rest;
      a, rest := FirstCut(ta, ':');
      r := rest + ":" + tr;
      assert p == a + ":" + r;
    } else {
      a, r := ta, tr;
    }
    CutIs(a, ':', r);
  }

  /** Printing then parsing gives back the trimmed pair exactly when the action has no colon. */
  lemma PrintParse(action: string, resource: string)
    ensures Cut(TrimSpace(Permission(action, resource)), ':').Some?
    ensures Cut(TrimSpace(Permission(action, resource)), ':') == Some((TrimSpace(action), TrimSpace(resource)))
            <==> ':' !in TrimSpace(action)
  {
    var a, r := ParseOfPrinted(action, resource);
  }

  lemma MatchesIsCovers(granted: string, action: string, resource: string, a: string, r: string)
    requires Cut(TrimSpace(Permission(action, resource)), ':') == Some((a, r))
    ensures PermissionMatches(granted, Permission(action, resource)) <==> Covers(granted, a, r)
  {
    CutMeans(TrimSpace(granted), ':');
    if Covers(granted, a, r) {
      var gAction, gResource :| && TrimSpace(granted) == gAction + ":" + gResource && ':' !in gAction
                                && (gAction == "*" || gAction == a) && (gResource == "*" || gResource == r);
      CutIs(gAction, ':', gResource);
    }
  }

  /** Grants mean what is documented for an action exactly when the trimmed action has no colon. */
  lemma GrantsMeanWhatTheySay(action: string, resource: string)
    ensures (forall granted :: PermissionMatches(granted, Permission(action, resource))
                               <==> Covers(granted, TrimSpace(action), TrimSpace(resource)))
            <==> ':' !in TrimSpace(action)
  {
    var a, r := ParseOfPrinted(action, resource);
    if ':' in TrimSpace(action) {
      var granted := Permission(action, resource);
      PermissionIsTrimmed(action, resource);
      MatchesIsCovers(granted, action, resource, a, r);
      if Covers(granted, TrimSpace(action), TrimSpace(resource)) {
        var x, y :| granted == x + ":" + y && ':' !in x
                    && (x == "*" || x == TrimSpace(action)) && (y == "*" || y == TrimSpace(resource));
        CutIs(x, ':', y);
        assert false;
      }
    } else {
      forall granted
        ensures PermissionMatches(granted, Permission(action, resource))
                <==> Covers(granted, TrimSpace(action), TrimSpace(resource))
      {
        MatchesIsCovers(granted, action, resource, a, r);
      }
    }
  }

  /** What a grant matches, part by part: white space around it is ignored, and `*` stands for anything. */
  lemma GrantMeans(l: string, gAction: string, gResource: string, r: string, action: string, resource: string)
    returns (x: string, y: string)
    requires AllSpace(l) && AllSpace(r) && ':' !in gAction && Trimmed(gAction + ":" + gResource)
    ensures ':' !in x && x + ":" + y == TrimSpace(action) + ":" + TrimSpace(resource)
    ensures PermissionMatches(l + (gAction + ":" + gResource) + r, TrimSpace(action) + ":" + TrimSpace(resource))
            <==> (gAction == "*" || gAction == x) && (gResource == "*" || gResource == y)
  {
    x, y := ParseOfPrinted(action, resource);
    TrimIs(l, gAction + ":" + gResource, r);
    CutIs(gAction, ':', gResource);
  }

  /** A grant without a colon matches nothing. */
  lemma NoColonNoGrant(granted: string, required: string)
    requires ':' !in granted
    ensures !PermissionMatches(granted, required)
  {
    var l, r := TrimCuts(granted);
    CutMeans(TrimSpace(granted), ':');
  }

  // ---------------------------------------------------------------- roles

  /** The texts in the claim that names the caller's roles. */
  function RoleTexts(claims: Option<Claims>, claimName: string): seq<string> {
    var name := if claimName == "" then "roles" else claimName;
    if claims.None? || name !in claims.value.values then [] else TextsIn(claims.value.values[name])
  }

  function Roles(claims: Option<Claims>, claimName: string): seq<string> {
    NonEmpty(RoleTexts(claims, claimName))
  }

  /** The non-empty texts in one private claim, none if there is no such claim. */
  ghost predicate HoldsRoles(claims: Claims, name: string, out: seq<string>) {
    if name in claims.values then HoldsTexts(claims.values[name], out) else out == []
  }

  lemma RolesHold(claims: Claims, claimName: string)
    ensures HoldsRoles(claims, if claimName == "" then "roles" else claimName, Roles(Some(claims), claimName))
  {
    var name := if claimName == "" then "roles" else claimName;
    if name in claims.values {
      NonEmptyHolds(claims.values[name]);
    }
  }

  method TextsOfClaim(value: Value) returns (out: seq<string>)
    ensures out == NonEmpty(TextsIn(value))
  {
    out := [];
    match value {
      case Str(text) =>
        FilterNext([text], 0, HasText);
        out := if text == "" then [] else [text];
      case Strs(texts) =>
        for i := 0 to |texts|
          invariant out == NonEmpty(texts[..i])
        {
          FilterNext(texts, i, HasText);
          if texts[i] != "" {
            out := out + [texts[i]];
          }
        }
        assert texts[..|texts|] == texts;
      case List(items) =>
        for i := 0 to |items|
          invariant out == NonEmpty(TextsOf(items[..i]))
        {
          TextsOfMore(items, i);
          FilterMore(TextsOf(items[..i]), StringClaim(items[i]), HasText);
          if items[i].Str? && items[i].text != "" {
            out := out + [items[i].text];
          }
        }
        assert items[..|items|] == items;
      case _ =>
    }
  }

  /** Of the texts in the claim, the non-empty ones, in order and as often as they stand there. */
  method ExtractClaimStrings(claims: Option<Claims>, claimName: string) returns (out: seq<string>)
    ensures out == Roles(claims, claimName)
    ensures claims.None? ==> out == []
    ensures claims.Some? ==> HoldsRoles(claims.value, if claimName == "" then "roles" else claimName, out)
  {
    if claims.None? {
      return [];
    }
    var name := if claimName == "" then "roles" else claimName;
    if name !in claims.value.values {
      return [];
    }
    out := TextsOfClaim(claims.value.values[name]);
    NonEmptyHolds(claims.value.values[name]);
  }

  // ---------------------------------------------------------------- policies

  datatype Rbac = Rbac(roleClaim: string, policies: map<string, seq<string>>)

  predicate RoleGrants(policies: map<string, seq<string>>, role: string, required: string) {
    role in policies
    && exists j :: 0 <= j < |policies[role]| && PermissionMatches(policies[role][j], required)
  }

  predicate AnyRoleGrants(policies: map<string, seq<string>>, roles: seq<string>, required: string) {
    exists i :: 0 <= i < |roles| && RoleGrants(policies, roles[i], required)
  }

  /** The verdict on one resource: some role of the caller has some matching grant. */
  function RbacVerdict(a: Rbac, claims: Option<Claims>, action: string, resource: string): Result<bool> {
    if claims.None? then Failure(ClaimsRequired)
    else Success(AnyRoleGrants(a.policies, Roles(claims, a.roleClaim), Permission(action, resource)))
  }

  method SearchGrants(grants: seq<string>, required: string) returns (found: bool)
    ensures found <==> exists j :: 0 <= j < |grants| && PermissionMatches(grants[j], required)
  {
    for j := 0 to |grants|
      invariant forall k :: 0 <= k < j ==> !PermissionMatches(grants[k], required)
    {
      if PermissionMatches(grants[j], required) {
        return true;
      }
    }
    return false;
  }

  method SearchRoles(policies: map<string, seq<string>>, roles: seq<string>, required: string)
    returns (found: bool)
    ensures found <==> AnyRoleGrants(policies, roles, required)
  {
    for i := 0 to |roles|
      invariant forall k :: 0 <= k < i ==> !RoleGrants(policies, roles[k], required)
    {
      found := SearchGrants(if roles[i] in policies then policies[roles[i]] else [], required);
      if found {
        assert RoleGrants(policies, roles[i], required);
        return;
      }
    }
    found := false;
  }

  method RbacAuthorize(a: Rbac, claims: Option<Claims>, action: string, resource: string)
    returns (r: Result<bool>)
    ensures r == RbacVerdict(a, claims, action, resource)
  {
    if claims.None? {
      return Failure(ClaimsRequired);
    }
    var roles := ExtractClaimStrings(claims, a.roleClaim);
    if |roles| == 0 {
      return Success(false);
    }
    var found := SearchRoles(a.policies, roles, Permission(action, resource));
    r := Success(found);
  }

  /**
    The meaning of the whole RBAC check: some grant of some role covers the pair that the printed
    permission is split into, which is action and resource themselves iff the action has no colon.
  */
  lemma RbacComponentwise(a: Rbac, claims: Option<Claims>, action: string, resource: string)
    returns (asAction: string, asResource: string)
    ensures ':' !in asAction && Permission(action, resource) == asAction + ":" + asResource
    ensures (asAction, asResource) == (TrimSpace(action), TrimSpace(resource)) <==> ':' !in TrimSpace(action)
    ensures RbacVerdict(a, claims, action, resource) == Success(true) <==>
              claims.Some? &&
              exists role, granted ::
                && role in Roles(claims, a.roleClaim)
                && role in a.policies
                && granted in a.policies[role]
                && Covers(granted, asAction, asResource)
  {
    asAction, asResource := ParseOfPrinted(action, resource);
    var roles, required := Roles(claims, a.roleClaim), Permission(action, resource);
    forall granted
      ensures PermissionMatches(granted, required) <==> Covers(granted, asAction, asResource)
    {
      MatchesIsCovers(granted, action, resource, asAction, asResource);
    }
    if RbacVerdict(a, claims, action, resource) == Success(true) {
      var i :| 0 <= i < |roles| && RoleGrants(a.policies, roles[i], required);
      var grants := a.policies[roles[i]];
      var j :| 0 <= j < |grants| && PermissionMatches(grants[j], required);
      assert roles[i] in roles && grants[j] in grants;
    }
    if role, granted :| role in roles && role in a.policies && granted in a.policies[role]
                        && Covers(granted, asAction, asResource) {
      assert PermissionMatches(granted, required);
      assert RoleGrants(a.policies, role, required);
    }
  }

  lemma PrintedMatch(granted: string, required: string, a: string, r: string, a': string, r': string)
    requires TrimSpace(granted) == granted && Cut(granted, ':') == Some((a, r))
    requires TrimSpace(required) == required && Cut(required, ':') == Some((a', r'))
    ensures PermissionMatches(granted, required) <==> (a == "*" || a == a') && (r == "*" || r == r')
  {
  }

  /** Two requests are granted by the same grants exactly when their permissions print alike. */
  lemma SharedGrants(action: string, resource: string, action': string, resource': string)
    ensures (forall granted :: PermissionMatches(granted, Permission(action, resource))
                               <==> PermissionMatches(granted, Permission(action', resource')))
            <==> Permission(action, resource) == Permission(action', resource')
  {
    var mine, yours := Permission(action, resource), Permission(action', resource');
    if forall granted :: PermissionMatches(granted, mine) <==> PermissionMatches(granted, yours) {
      var a, r := ParseOfPrinted(action, resource);
      var a', r' := ParseOfPrinted(action', resource');
      PermissionIsTrimmed(action, resource);
      PermissionIsTrimmed(action', resource');
      PrintedMatch(mine, mine, a, r, a, r);
      PrintedMatch(mine, yours, a, r, a', r');
      PrintedMatch(yours, yours, a', r', a', r');
      PrintedMatch(yours, mine, a', r', a, r);
    }
  }
}
