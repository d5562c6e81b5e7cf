/** The normalised claim container and its conversions from and to a plain claim map. */
module ClaimContainer {
  import opened Filters
  import opened Text
  import opened Wrappers

  /** The dynamic types a decoded claim can have; `Other` stands for all types no code looks into. */
  datatype Value =
    | Str(text: string)
    | Strs(texts: seq<string>)
    | List(items: seq<Value>)
    | Float64(number: real)
    | Int64(value: int)
    | Int(value: int)
    | Number(parsed: Option<int>)
    | Other(id: int)

  const NANOS_PER_SECOND := 1_000_000_000

  type Nanos = n: nat | n < NANOS_PER_SECOND

  /** A point in time: whole seconds since the epoch (rounded down) and the nanoseconds above them. */
  datatype NumericDate = NumericDate(seconds: int, nanos: Nanos)

  /** Registered claims (section 4.1 of RFC 7519) beside the private ones. */
  datatype Claims = Claims(
    issuer: string,
    subject: string,
    audience: seq<string>,
    id: string,
    expiresAt: Option<NumericDate>,
    notBefore: Option<NumericDate>,
    issuedAt: Option<NumericDate>,
    values: map<string, Value>)

  const REGISTERED: set<string> := {"iss", "sub", "aud", "jti", "exp", "nbf", "iat"}

  // ---------------------------------------------------------------- one claim at a time

  function StringClaim(value: Value): string {
    if value.Str? then value.text else ""
  }

  function TextsOf(items: seq<Value>): seq<string> {
    seq(|items|, i requires 0 <= i < |items| => StringClaim(items[i]))
  }

  lemma TextsOfMore(items: seq<Value>, i: nat)
    requires i < |items|
    ensures TextsOf(items[..i + 1]) == TextsOf(items[..i]) + [StringClaim(items[i])]
  {
  }

  /** The texts a claim holds, entry by entry; an entry of another type holds the empty text. */
  function TextsIn(value: Value): seq<string> {
    match value
    case Str(text) => [text]
    case Strs(texts) => texts
    case List(items) => TextsOf(items)
    case _ => []
  }

  /** `out` are the texts at the positions `at`, which are those of the non-empty ones, in order. */
  ghost predicate PicksTexts(texts: seq<string>, out: seq<string>, at: seq<nat>) {
    && |at| == |out|
    && (forall i, j :: 0 <= i < j < |at| ==> at[i] < at[j])
    && (forall i :: 0 <= i < |at| ==> at[i] < |texts| && out[i] == texts[at[i]])
    && (forall p: nat :: p in at <==> p < |texts| && texts[p] != "")
  }

  /** The same for a list of values of any type. */
  ghost predicate PicksItems(items: seq<Value>, out: seq<string>, at: seq<nat>) {
    && |at| == |out|
    && (forall i, j :: 0 <= i < j < |at| ==> at[i] < at[j])
    && (forall i :: 0 <= i < |at| ==> at[i] < |items| && items[at[i]] == Str(out[i]))
    && (forall p: nat :: p in at <==> p < |items| && items[p].Str? && items[p].text != "")
  }

  /** `out` are the non-empty texts a claim holds, by its dynamic type: a text, a list of texts, or a mixed list. */
  ghost predicate HoldsTexts(value: Value, out: seq<string>) {
    match value
    case Str(text) => out == if text == "" then [] else [text]
    case Strs(texts) => exists at :: PicksTexts(texts, out, at)
    case List(items) => exists at :: PicksItems(items, out, at)
    case _ => out == []
  }

  lemma NonEmptyHolds(value: Value)
    ensures HoldsTexts(value, NonEmpty(TextsIn(value)))
  {
    var out := NonEmpty(TextsIn(value));
    var at := FilterSelects(TextsIn(value), HasText);
    match value {
      case Str(text) =>
        FilterNext([text], 0, HasText);
      case Strs(texts) =>
        assert PicksTexts(texts, out, at);
      case List(items) =>
        forall i | 0 <= i < |at|
          ensures at[i] < |items| && items[at[i]] == Str(out[i])
        {
          assert at[i] in at;
        }
        assert PicksItems(items, out, at);
      case _ =>
    }
  }

  function Audience(value: Value): seq<string> {
    if value.Strs? then value.texts else NonEmpty(TextsIn(value))
  }

  /** A list of strings is taken as it is; of anything else the non-empty texts, in order. */
  method AudienceClaim(value: Value) returns (audience: seq<string>)
    ensures audience == Audience(value)
    ensures value.Strs? ==> audience == value.texts
    ensures !value.Strs? ==> HoldsTexts(value, audience)
  {
    NonEmptyHolds(value);
    match value {
      case Str(text) =>
        FilterNext([text], 0, HasText);
        audience := if text == "" then [] else [text];
      case Strs(texts) =>
        audience := texts;
      case List(items) =>
        audience := [];
        for i := 0 to |items|
          invariant audience == NonEmpty(TextsOf(items[..i]))
        {
          TextsOfMore(items, i);
          FilterMore(TextsOf(items[..i]), StringClaim(items[i]), HasText);
          if items[i].Str? && items[i].text != "" {
            audience := audience + [items[i].text];
          }
        }
        assert items[..|items|] == items;
      case _ =>
        audience := [];
    }
  }

  /** Go's conversion from float64 to int64 drops the fraction, toward zero. */
  function Truncate(x: real): int {
    if x >= 0.0 then x.Floor else -((-x).Floor)
  }

  function NumericDateClaim(value: Value): Option<NumericDate> {
    match value
    case Float64(x) => Some(NumericDate(Truncate(x), 0))
    case Int64(n) => Some(NumericDate(n, 0))
    case Int(n) => Some(NumericDate(n, 0))
    case Number(Some(n)) => Some(NumericDate(n, 0))
    case _ => None
  }

  // ---------------------------------------------------------------- whole claim sets

  function TextAt(m: map<string, Value>, name: string): string {
    if name in m then StringClaim(m[name]) else ""
  }

  function DateAt(m: map<string, Value>, name: string): Option<NumericDate> {
    if name in m then NumericDateClaim(m[name]) else None
  }

  /** The claims a map stands for, read off key by key. */
  function FromMap(m: map<string, Value>): Claims {
    Claims(TextAt(m, "iss"), TextAt(m, "sub"), if "aud" in m then Audience(m["aud"]) else [],
           TextAt(m, "jti"), DateAt(m, "exp"), DateAt(m, "nbf"), DateAt(m, "iat"), m - REGISTERED)
  }

  /** Whatever order the map is ranged over in, the result is the same. */
  method ClaimsFromMapClaims(claimSet: map<string, Value>) returns (claims: Claims)
    ensures claims == FromMap(claimSet)
  {
    claims := Claims("", "", [], "", None, None, None, map[]);
    ghost var seen: map<string, Value> := map[];
    var todo := claimSet.Keys;
    while todo != {}
      invariant todo <= claimSet.Keys && seen == claimSet - todo
      invariant claims == FromMap(seen)
    {
      var key :| key in todo;
      var value := claimSet[key];
      match key {
        case "iss" => claims := claims.(issuer := StringClaim(value));
        case "sub" => claims := claims.(subject := StringClaim(value));
        case "aud" =>
          var audience := AudienceClaim(value);
          claims := claims.(audience := audience);
        case "jti" => claims := claims.(id := StringClaim(value));
        case "exp" => claims := claims.(expiresAt := NumericDateClaim(value));
        case "nbf" => claims := claims.(notBefore := NumericDateClaim(value));
        case "iat" => claims := claims.(issuedAt := NumericDateClaim(value));
        case _ => claims := claims.(values := claims.values[key := value]);
      }
      todo := todo - {key};
      seen := seen[key := value];
    }
    assert seen == claimSet;
  }

  function TextEntry(text: string): Option<Value> {
    if text == "" then None else Some(Str(text))
  }

  function AudienceEntry(audience: seq<string>): Option<Value> {
    if audience == [] then None else Some(Strs(audience))
  }

  function DateEntry(date: Option<NumericDate>): Option<Value> {
    if date.None? then None else Some(Int64(date.value.seconds))
  }

  function Put(m: map<string, Value>, name: string, entry: Option<Value>): map<string, Value> {
    if entry.None? then m else m[name := entry.value]
  }

  /** Private claims, then each registered claim that is present, over any private one of its name. */
  function ToMap(c: Claims): map<string, Value> {
    var m := Put(c.values, "iss", TextEntry(c.issuer));
    var m := Put(m, "sub", TextEntry(c.subject));
    var m := Put(m, "aud", AudienceEntry(c.audience));
    var m := Put(m, "jti", TextEntry(c.id));
    var m := Put(m, "exp", DateEntry(c.expiresAt));
    var m := Put(m, "nbf", DateEntry(c.notBefore));
    Put(m, "iat", DateEntry(c.issuedAt))
  }

  /** A nil receiver has no claims. */
  method AsMap(c: Option<Claims>) returns (out: map<string, Value>)
    ensures out == if c.None? then map[] else ToMap(c.value)
  {
    out := map[];
    if c.None? {
      return;
    }
    var claims := c.value;
    var todo := claims.values.Keys;
    while todo != {}
      invariant todo <= claims.values.Keys && out == claims.values - todo
    {
      var key :| key in todo;
      out := out[key := claims.values[key]];
      todo := todo - {key};
    }
    ghost var m := Put(claims.values, "iss", TextEntry(claims.issuer));
    if claims.issuer != "" {
      out := out["iss" := Str(claims.issuer)];
    }
    assert out == m;
    m := Put(m, "sub", TextEntry(claims.subject));
    if claims.subject != "" {
      out := out["sub" := Str(claims.subject)];
    }
    assert out == m;
    m := Put(m, "aud", AudienceEntry(claims.audience));
    if |claims.audience| > 0 {
      out := out["aud" := Strs(claims.audience)];
    }
    assert out == m;
    m := Put(m, "jti", TextEntry(claims.id));
    if claims.id != "" {
      out := out["jti" := Str(claims.id)];
    }
    assert out == m;
    m := Put(m, "exp", DateEntry(claims.expiresAt));
    if claims.expiresAt.Some? {
      out := out["exp" := Int64(claims.expiresAt.value.seconds)];
    }
    assert out == m;
    m := Put(m, "nbf", DateEntry(claims.notBefore));
    if claims.notBefore.Some? {
      out := out["nbf" := Int64(claims.notBefore.value.seconds)];
    }
    assert out == m;
    m := Put(m, "iat", DateEntry(claims.issuedAt));
    if claims.issuedAt.Some? {
      out := out["iat" := Int64(claims.issuedAt.value.seconds)];
    }
    assert out == m;
  }

  // ---------------------------------------------------------------- laws

  lemma PrivateClaimsKept(m: map<string, Value>)
    ensures FromMap(m).values.Keys !! REGISTERED
    ensures forall k :: k in m && k !in REGISTERED ==> k in FromMap(m).values && FromMap(m).values[k] == m[k]
    ensures forall k :: k in FromMap(m).values ==> k in m
  {
  }

  predicate WholeSeconds(c: Claims) {
    && (c.expiresAt.Some? ==> c.expiresAt.value.nanos == 0)
    && (c.notBefore.Some? ==> c.notBefore.value.nanos == 0)
    && (c.issuedAt.Some? ==> c.issuedAt.value.nanos == 0)
  }

  function At(m: map<string, Value>, name: string): Option<Value> {
    if name in m then Some(m[name]) else None
  }

  /** The registered claim of that name as a map entry, or the private one where it is absent. */
  function Entry(c: Claims, name: string): Option<Value> {
    var registered :=
      if name == "iss" then TextEntry(c.issuer)
      else if name == "sub" then TextEntry(c.subject)
      else if name == "aud" then AudienceEntry(c.audience)
      else if name == "jti" then TextEntry(c.id)
      else if name == "exp" then DateEntry(c.expiresAt)
      else if name == "nbf" then DateEntry(c.notBefore)
      else if name == "iat" then DateEntry(c.issuedAt)
      else None;
    if registered.Some? then registered else At(c.values, name)
  }

  lemma PutAt(m: map<string, Value>, name: string, entry: Option<Value>, k: string)
    ensures At(Put(m, name, entry), k) == if k == name && entry.Some? then entry else At(m, k)
  {
  }

  /** A lookup in the map sees the registered claim first and the private claim otherwise. */
  lemma Lookup(c: Claims, k: string)
    ensures At(ToMap(c), k) == Entry(c, k)
  {
    var m1 := Put(c.values, "iss", TextEntry(c.issuer));
    var m2 := Put(m1, "sub", TextEntry(c.subject));
    var m3 := Put(m2, "aud", AudienceEntry(c.audience));
    var m4 := Put(m3, "jti", TextEntry(c.id));
    var m5 := Put(m4, "exp", DateEntry(c.expiresAt));
    var m6 := Put(m5, "nbf", DateEntry(c.notBefore));
    PutAt(c.values, "iss", TextEntry(c.issuer), k);
    PutAt(m1, "sub", TextEntry(c.subject), k);
    PutAt(m2, "aud", AudienceEntry(c.audience), k);
    PutAt(m3, "jti", TextEntry(c.id), k);
    PutAt(m4, "exp", DateEntry(c.expiresAt), k);
    PutAt(m5, "nbf", DateEntry(c.notBefore), k);
    PutAt(m6, "iat", DateEntry(c.issuedAt), k);
  }

  lemma SameLookups(m: map<string, Value>, n: map<string, Value>)
    requires forall k :: At(n, k) == At(m, k)
    ensures n == m
  {
    forall k
      ensures k in n <==> k in m
      ensures k in n ==> n[k] == m[k]
    {
      assert At(n, k) == At(m, k);
    }
  }

  lemma PrivatePart(c: Claims)
    requires c.values.Keys !! REGISTERED
    ensures ToMap(c) - REGISTERED == c.values
  {
  }

  lemma TextsBack(c: Claims)
    requires c.values.Keys !! REGISTERED
    ensures TextAt(ToMap(c), "iss") == c.issuer
    ensures TextAt(ToMap(c), "sub") == c.subject
    ensures TextAt(ToMap(c), "jti") == c.id
    ensures FromMap(ToMap(c)).audience == c.audience
  {
    Lookup(c, "iss");
    Lookup(c, "sub");
    Lookup(c, "jti");
    Lookup(c, "aud");
    assert {"iss", "sub", "jti", "aud"} <= REGISTERED;
  }

  function Floored(date: Option<NumericDate>): Option<NumericDate> {
    if date.None? then None else Some(NumericDate(date.value.seconds, 0))
  }

  lemma DatesBack(c: Claims)
    requires c.values.Keys !! REGISTERED
    ensures DateAt(ToMap(c), "exp") == Floored(c.expiresAt)
    ensures DateAt(ToMap(c), "nbf") == Floored(c.notBefore)
    ensures DateAt(ToMap(c), "iat") == Floored(c.issuedAt)
  {
    Lookup(c, "exp");
    Lookup(c, "nbf");
    Lookup(c, "iat");
    assert {"exp", "nbf", "iat"} <= REGISTERED;
  }

  /** Going through a map and back changes nothing, exactly for claims a map can represent. */
  lemma RoundTrip(c: Claims)
    ensures FromMap(ToMap(c)) == c <==> c.values.Keys !! REGISTERED && WholeSeconds(c)
  {
    if c.values.Keys !! REGISTERED {
      PrivatePart(c);
      TextsBack(c);
      DatesBack(c);
    } else {
      PrivateClaimsKept(ToMap(c));
    }
  }

  /** Normalising twice is normalising once. */
  lemma NormalisationIsIdempotent(m: map<string, Value>)
    ensures FromMap(ToMap(FromMap(m))) == FromMap(m)
    ensures ToMap(FromMap(ToMap(FromMap(m)))) == ToMap(FromMap(m))
  {
    var c := FromMap(m);
    PrivateClaimsKept(m);
    assert WholeSeconds(c);
    RoundTrip(c);
  }

  /** A registered claim in the one form normalisation produces. */
  predicate Canonical(name: string, value: Value) {
    match name
    case "aud" => value.Strs? && value.texts != []
    case "exp" => value.Int64?
    case "nbf" => value.Int64?
    case "iat" => value.Int64?
    case _ => value.Str? && value.text != ""
  }

  /** What normalisation leaves under a registered name is canonical, or the value it found there. */
  lemma EntryOfNormalised(m: map<string, Value>, k: string)
    ensures At(ToMap(FromMap(m)), k) == Entry(FromMap(m), k)
    ensures k !in REGISTERED ==> At(ToMap(FromMap(m)), k) == At(m, k)
    ensures k in REGISTERED && k in m && Canonical(k, m[k]) ==> Entry(FromMap(m), k) == Some(m[k])
    ensures k in REGISTERED && Entry(FromMap(m), k).Some? ==> k in m && Canonical(k, Entry(FromMap(m), k).value)
  {
    Lookup(FromMap(m), k);
  }

  /** The maps normalisation leaves alone are those whose registered claims are all canonical. */
  lemma FixedPoints(m: map<string, Value>)
    ensures ToMap(FromMap(m)) == m <==> forall k :: k in m && k in REGISTERED ==> Canonical(k, m[k])
  {
    var n := ToMap(FromMap(m));
    forall k
      ensures k in m && k in REGISTERED && Canonical(k, m[k]) ==> At(n, k) == At(m, k)
      ensures k !in REGISTERED || k !in m ==> At(n, k) == At(m, k)
      ensures k in REGISTERED && k in m && !Canonical(k, m[k]) ==> At(n, k) != At(m, k)
    {
      EntryOfNormalised(m, k);
    }
    if forall k :: k in m && k in REGISTERED ==> Canonical(k, m[k]) {
      SameLookups(m, n);
    }
  }

  // ---------------------------------------------------------------- normalisation, name by name

  /** The whole number a claim of some numeric type stands for; a fraction is dropped, toward zero. */
  predicate StandsFor(value: Value, n: int) {
    match value
    case Int64(k) => k == n
    case Int(k) => k == n
    case Number(parsed) => parsed == Some(n)
    case Float64(x) => if x >= 0.0 then n as real <= x < n as real + 1.0 else n as real - 1.0 < x <= n as real
    case _ => false
  }

  /** A date claim is read as the whole number it stands for, in seconds, and is absent otherwise. */
  ghost predicate ReadsDate(m: map<string, Value>, name: string, date: Option<NumericDate>) {
    && (forall n: int :: name in m && StandsFor(m[name], n) ==> date == Some(NumericDate(n, 0)))
    && (date.Some? ==> name in m && date.value.nanos == 0 && StandsFor(m[name], date.value.seconds))
  }

  lemma DateIsRead(m: map<string, Value>, name: string)
    ensures ReadsDate(m, name, DateAt(m, name))
  {
    if name in m && m[name].Float64? {
      var x := m[name].number;
      assert StandsFor(m[name], Truncate(x));
      forall n: int | StandsFor(m[name], n)
        ensures n == Truncate(x)
      {
      }
    }
  }

  /** A text claim is read as it is, and is absent if it is no text. */
  predicate ReadsText(m: map<string, Value>, name: string, text: string) {
    if name in m && m[name].Str? then text == m[name].text else text == ""
  }

  /** Every field of normalised claims, by the name of the claim it is read from. */
  lemma Normalised(m: map<string, Value>)
    ensures var c := FromMap(m);
            && ReadsText(m, "iss", c.issuer) && ReadsText(m, "sub", c.subject) && ReadsText(m, "jti", c.id)
            && ReadsDate(m, "exp", c.expiresAt) && ReadsDate(m, "nbf", c.notBefore) && ReadsDate(m, "iat", c.issuedAt)
            && ("aud" !in m ==> c.audience == [])
            && ("aud" in m && m["aud"].Strs? ==> c.audience == m["aud"].texts)
            && ("aud" in m && !m["aud"].Strs? ==> HoldsTexts(m["aud"], c.audience))
            && c.values == m - {"iss", "sub", "aud", "jti", "exp", "nbf", "iat"}
  {
    DateIsRead(m, "exp");
    DateIsRead(m, "nbf");
    DateIsRead(m, "iat");
    if "aud" in m && !m["aud"].Strs? {
      NonEmptyHolds(m["aud"]);
    }
  }

  /** Which numeric type a date came in makes no difference. */
  lemma DatesByNumber(m: map<string, Value>, name: string, value: Value, n: int)
    requires name in {"exp", "nbf", "iat"} && StandsFor(value, n)
    ensures FromMap(m[name := value]) == FromMap(m[name := Int64(n)])
  {
    Normalised(m[name := value]);
    Normalised(m[name := Int64(n)]);
    assert m[name := value] - REGISTERED == m[name := Int64(n)] - REGISTERED;
    assert StandsFor(Int64(n), n);
  }

  lemma RegisteredEntries(c: Claims)
    ensures forall name :: name in REGISTERED ==> At(ToMap(c), name) == Entry(c, name)
  {
    forall name | name in REGISTERED
      ensures At(ToMap(c), name) == Entry(c, name)
    {
      Lookup(c, name);
    }
  }

  /** Every registered claim that is present is under its name in the map of a claim set, dates in whole seconds. */
  lemma RegisteredMeans(c: Claims)
    ensures var m := ToMap(c);
            && (c.issuer != "" ==> "iss" in m && m["iss"] == Str(c.issuer))
            && (c.subject != "" ==> "sub" in m && m["sub"] == Str(c.subject))
            && (c.audience != [] ==> "aud" in m && m["aud"] == Strs(c.audience))
            && (c.id != "" ==> "jti" in m && m["jti"] == Str(c.id))
            && (c.expiresAt.Some? ==> "exp" in m && m["exp"] == Int64(c.expiresAt.value.seconds))
            && (c.notBefore.Some? ==> "nbf" in m && m["nbf"] == Int64(c.notBefore.value.seconds))
            && (c.issuedAt.Some? ==> "iat" in m && m["iat"] == Int64(c.issuedAt.value.seconds))
  {
    RegisteredEntries(c);
  }

  /** Every other entry of it is the private claim of that name. */
  lemma PrivateMeans(c: Claims, k: string)
    requires k == "iss" ==> c.issuer == ""
    requires k == "sub" ==> c.subject == ""
    requires k == "aud" ==> c.audience == []
    requires k == "jti" ==> c.id == ""
    requires k == "exp" ==> c.expiresAt.None?
    requires k == "nbf" ==> c.notBefore.None?
    requires k == "iat" ==> c.issuedAt.None?
    ensures k in ToMap(c) <==> k in c.values
    ensures k in c.values ==> ToMap(c)[k] == c.values[k]
  {
    Lookup(c, k);
    assert At(ToMap(c), k) == At(c.values, k);
  }
}
