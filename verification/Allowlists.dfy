/** Merged issuer and audience allowlists and the decision taken after a token has been parsed. */
module Allowlists {
  import opened Wrappers
  import opened ClaimContainer

  function FirstOccurrences(values: seq<string>): seq<string> {
    if values == [] then []
    else
      var init, last := FirstOccurrences(values[..|values| - 1]), values[|values| - 1];
      if last == "" || last in init then init else init + [last]
  }

  method AllowedValues(single: string, plural: seq<string>) returns (out: seq<string>)
    ensures out == FirstOccurrences([single] + plural)
  {
    var all := [single] + plural;
    assert all[..0] == [] && all[..1] == [single] && [single][..0] == [];
    if single == "" && |plural| == 0 {
      assert all == [""];
      return [];
    }
    var seen: set<string> := {};
    out := [];
    if single != "" {
      seen, out := {single}, [single];
    }
    for i := 0 to |plural|
      invariant seen == ToSet(out)
      invariant out == FirstOccurrences(all[..i + 1])
    {
      assert all[..i + 2][..i + 1] == all[..i + 1];
      var value := plural[i];
      if value != "" && value !in seen {
        seen, out := seen + {value}, out + [value];
      }
    }
    assert all[..|plural| + 1] == all;
  }

  function FirstIndex(values: seq<string>, v: string): nat {
    if values == [] || values[0] == v then 0 else 1 + FirstIndex(values[1..], v)
  }

  lemma {:induction false} FirstIndexIn(values: seq<string>, v: string, last: string)
    ensures v in values ==> FirstIndex(values, v) < |values| && FirstIndex(values + [last], v) == FirstIndex(values, v)
    ensures v !in values ==> FirstIndex(values, v) == |values| && FirstIndex(values + [last], v) >= |values|
  {
    if values != [] {
      assert (values + [last])[1..] == values[1..] + [last];
      FirstIndexIn(values[1..], v, last);
    }
  }

  /** No empty value, no duplicate, nothing lost, and in order of first occurrence. */
  lemma {:induction false} FirstOccurrencesMeans(values: seq<string>)
    ensures var out := FirstOccurrences(values);
            && (forall v :: v in out <==> v in values && v != "")
            && (forall i, j :: 0 <= i < j < |out| ==> FirstIndex(values, out[i]) < FirstIndex(values, out[j]))
  {
    if values != [] {
      var init, last := values[..|values| - 1], values[|values| - 1];
      assert values == init + [last];
      FirstOccurrencesMeans(init);
      var out := FirstOccurrences(init);
      forall v
        ensures v in init ==> FirstIndex(init, v) < |init| && FirstIndex(values, v) == FirstIndex(init, v)
        ensures v !in init ==> FirstIndex(values, v) >= |init|
      {
        FirstIndexIn(init, v, last);
      }
      assert forall i :: 0 <= i < |out| ==> out[i] in out;
    }
  }

  // ---------------------------------------------------------------- the decision

  method Contains(values: seq<string>, target: string) returns (found: bool)
    ensures found <==> target in values
  {
    for i := 0 to |values|
      invariant target !in values[..i]
    {
      assert values[..i + 1] == values[..i] + [values[i]];
      if values[i] == target {
        return true;
      }
    }
    assert values[..|values|] == values;
    found := false;
  }

  method ContainsAny(allowed: seq<string>, candidates: seq<string>) returns (found: bool)
    ensures found <==> exists c :: c in candidates && c in allowed
  {
    for i := 0 to |candidates|
      invariant forall c :: c in candidates[..i] ==> c !in allowed
    {
      assert candidates[..i + 1] == candidates[..i] + [candidates[i]];
      var here := Contains(allowed, candidates[i]);
      if here {
        return true;
      }
    }
    assert candidates[..|candidates|] == candidates;
    found := false;
  }

  predicate Accepts(issuers: seq<string>, audiences: seq<string>, claims: Claims) {
    && (issuers == [] || claims.issuer in issuers)
    && (audiences == [] || exists c :: c in claims.audience && c in audiences)
  }

  /** `ValidateToken` from the point where a verified claim map is at hand. */
  method ValidateParsed(issuer: string, issuers: seq<string>, audience: string, audiences: seq<string>,
                        claimSet: map<string, Value>)
    returns (r: Result<Claims>)
    ensures r == if Accepts(FirstOccurrences([issuer] + issuers), FirstOccurrences([audience] + audiences),
                            FromMap(claimSet))
                 then Success(FromMap(claimSet)) else Failure(InvalidToken)
  {
    var allowedIssuers := AllowedValues(issuer, issuers);
    var allowedAudiences := AllowedValues(audience, audiences);
    var claims := ClaimsFromMapClaims(claimSet);
    var known := Contains(allowedIssuers, claims.issuer);
    if |allowedIssuers| > 0 && !known {
      return Failure(InvalidToken);
    }
    var meets := ContainsAny(allowedAudiences, claims.audience);
    if |allowedAudiences| > 0 && !meets {
      return Failure(InvalidToken);
    }
    r := Success(claims);
  }

  /** The configured values other than "", as a set. */
  function Configured(values: seq<string>): set<string> {
    ToSet(values) - {""}
  }

  /** The decision in terms of sets: order and repetition of configured values do not matter. */
  lemma DecisionBySets(issuers: seq<string>, audiences: seq<string>, claims: Claims)
    ensures Accepts(FirstOccurrences(issuers), FirstOccurrences(audiences), claims) <==>
              && (Configured(issuers) == {} || claims.issuer in Configured(issuers))
              && (Configured(audiences) == {} || Configured(audiences) * ToSet(claims.audience) != {})
  {
    FirstOccurrencesMeans(issuers);
    FirstOccurrencesMeans(audiences);
    MembersAreConfigured(issuers);
    MembersAreConfigured(audiences);
    var allowed := FirstOccurrences(audiences);
    if c :| c in claims.audience && c in allowed {
      assert c in Configured(audiences) * ToSet(claims.audience);
    }
    if c :| c in Configured(audiences) * ToSet(claims.audience) {
      assert c in claims.audience && c in allowed;
    }
  }

  lemma MembersAreConfigured(values: seq<string>)
    ensures forall v :: v in FirstOccurrences(values) <==> v in Configured(values)
    ensures FirstOccurrences(values) == [] <==> Configured(values) == {}
  {
  }
}
