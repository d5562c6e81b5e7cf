/** The API gateway's own subprotocol extraction, and when it agrees with the core extractor. */
module Gateway {
  import opened Wrappers
  import opened Text
  import opened Extractor

  /** Here two dots are enough, wherever they are. */
  function GatewayCandidate(value: string): Option<string> {
    var lower := ToLower(value);
    if Count(value, '.') == 2 then Some(value)
    else if "bearer." <= lower then
      (var token := TrimSpace(value[7..]); if Count(token, '.') == 2 then Some(token) else None)
    else if "jwt." <= lower then
      (var token := TrimSpace(value[4..]); if Count(token, '.') == 2 then Some(token) else None)
    else None
  }

  function FirstTwoDots(values: seq<string>): Option<string> {
    if values == [] then None
    else if GatewayCandidate(values[0]).Some? then GatewayCandidate(values[0])
    else FirstTwoDots(values[1..])
  }

  lemma TrimAllFirst(chunks: seq<string>)
    requires chunks != []
    ensures var value := TrimSpace(chunks[0]);
            TrimAll(chunks) == (if value == "" then [] else [value]) + TrimAll(chunks[1..])
  {
    TrimAllConcat([chunks[0]], chunks[1..]);
    assert [chunks[0]] + chunks[1..] == chunks;
    TrimOne(chunks[0]);
  }

  lemma FirstTwoDotsStep(chunks: seq<string>)
    requires chunks != []
    ensures var c := GatewayCandidate(TrimSpace(chunks[0]));
            FirstTwoDots(TrimAll(chunks)) == if c.Some? then c else FirstTwoDots(TrimAll(chunks[1..]))
  {
    TrimAllFirst(chunks);
    FirstTwoDotsOf(TrimSpace(chunks[0]), TrimAll(chunks[1..]));
  }

  lemma FirstTwoDotsOf(value: string, rest: seq<string>)
    ensures var c := GatewayCandidate(value);
            FirstTwoDots((if value == "" then [] else [value]) + rest) == if c.Some? then c else FirstTwoDots(rest)
  {
    if value == "" {
      assert [] + rest == rest;
    } else {
      assert ([value] + rest)[1..] == rest;
    }
  }

  /** The empty string stands for "no token". */
  method SubprotocolToken(header: string) returns (token: string)
    ensures token == GatewayToken(header)
  {
    var parts := Split(header, ',');
    ghost var answer := FirstTwoDots(TrimAll(parts));
    assert parts[0..] == parts;
    for i := 0 to |parts|
      invariant answer == FirstTwoDots(TrimAll(parts[i..]))
    {
      var value := TrimSpace(parts[i]);
      assert answer == var c := GatewayCandidate(value);
                       if c.Some? then c else FirstTwoDots(TrimAll(parts[i + 1..])) by {
        FirstTwoDotsStep(parts[i..]);
        assert parts[i..][1..] == parts[i + 1..];
      }
      var lower := ToLower(value);
      if Count(value, '.') == 2 {
        return value;
      } else if "bearer." <= lower {
        token := TrimSpace(value[7..]);
        if Count(token, '.') == 2 {
          return;
        }
      } else if "jwt." <= lower {
        token := TrimSpace(value[4..]);
        if Count(token, '.') == 2 {
          return;
        }
      }
      assert GatewayCandidate(value).None?;
    }
    token := "";
  }

  function GatewayToken(header: string): string {
    match FirstTwoDots(HeaderList(header))
    case None => ""
    case Some(token) => token
  }

  // ---------------------------------------------------------------- agreement

  /** The core extractor's candidates are the gateway's candidates of three non-empty parts. */
  lemma CandidatesCompared(value: string)
    ensures Candidate(value).Some? ==> GatewayCandidate(value) == Candidate(value)
    ensures GatewayCandidate(value).Some? ==>
              Count(GatewayCandidate(value).value, '.') == 2
              && (Candidate(value).Some? <==> LooksLikeJwt(GatewayCandidate(value).value))
    ensures Candidate(value).Some? ==> LooksLikeJwt(Candidate(value).value)
  {
    JwtShape(value);
    if "bearer." <= ToLower(value) {
      JwtShape(TrimSpace(value[7..]));
      PrefixHasDot(value, 7);
      TrimKeepsDots(value[7..]);
    } else if "jwt." <= ToLower(value) {
      JwtShape(TrimSpace(value[4..]));
      PrefixHasDot(value, 4);
      TrimKeepsDots(value[4..]);
    }
  }

  lemma PrefixHasDot(value: string, n: nat)
    requires 0 < n <= |value| && ToLower(value)[n - 1] == '.'
    ensures Count(value, '.') > Count(value[n..], '.')
  {
    assert value == value[..n] + value[n..];
    CountConcat(value[..n], value[n..], '.');
    DotInPrefix(value, n);
    CountNone(value[..n], '.');
  }

  lemma DotInPrefix(value: string, n: nat)
    requires 0 < n <= |value| && ToLower(value)[n - 1] == '.'
    ensures '.' in value[..n]
  {
  }

  lemma TrimKeepsDots(s: string)
    ensures Count(TrimSpace(s), '.') == Count(s, '.')
  {
    var l, r := TrimCuts(s);
    CountConcat(l + TrimSpace(s), r, '.');
    CountConcat(l, TrimSpace(s), '.');
    CountNone(l, '.');
    CountNone(r, '.');
  }

  /** The first element the gateway would accept holds three non-empty parts, or there is none. */
  predicate FirstIsWellFormed(values: seq<string>) {
    values != [] ==>
      match GatewayCandidate(values[0])
      case None => FirstIsWellFormed(values[1..])
      case Some(token) => LooksLikeJwt(token)
  }

  predicate Agree(core: Result<string>, gateway: string) {
    if gateway == "" then core.Failure? else core == Success(gateway)
  }

  lemma {:induction false} FirstsCompared(values: seq<string>)
    ensures FirstIsWellFormed(values) <==> FirstCandidate(values) == FirstTwoDots(values)
    ensures FirstTwoDots(values).Some? ==> FirstTwoDots(values).value != ""
    ensures FirstCandidate(values).Some? ==> LooksLikeJwt(FirstCandidate(values).value)
    ensures FirstCandidate(values).Some? ==> FirstTwoDots(values).Some?
  {
    if values != [] {
      CandidatesCompared(values[0]);
      FirstsCompared(values[1..]);
    }
  }

  /** The two extractors agree exactly on headers whose first two-dot candidate is well formed. */
  lemma AgreementExact(header: string)
    ensures Agree(Extracted(header), GatewayToken(header)) <==> FirstIsWellFormed(HeaderList(header))
  {
    ExtractedFromList(header);
    FirstsCompared(HeaderList(header));
  }

  lemma {:induction false} AllWellFormed(values: seq<string>)
    requires forall i :: 0 <= i < |values| && GatewayCandidate(values[i]).Some? ==>
               LooksLikeJwt(GatewayCandidate(values[i]).value)
    ensures FirstIsWellFormed(values)
  {
    if values != [] && GatewayCandidate(values[0]).None? {
      AllWellFormed(values[1..]);
    }
  }

  /** In particular they agree when every two-dot candidate has three non-empty parts. */
  lemma AgreementWhenWellFormed(header: string)
    requires forall i :: 0 <= i < |HeaderList(header)| && GatewayCandidate(HeaderList(header)[i]).Some? ==>
               LooksLikeJwt(GatewayCandidate(HeaderList(header)[i]).value)
    ensures Agree(Extracted(header), GatewayToken(header))
  {
    AllWellFormed(HeaderList(header));
    AgreementExact(header);
  }

  // ---------------------------------------------------------------- the gateway's extraction, exactly

  /** Three parts, any of which may be empty. */
  ghost predicate TwoDots(value: string) {
    exists a, b, c :: '.' !in a && '.' !in b && '.' !in c && value == a + "." + b + "." + c
  }

  lemma TwoDotsCounted(value: string)
    ensures Count(value, '.') == 2 <==> TwoDots(value)
  {
    SplitCounts(value, '.');
    if Count(value, '.') == 2 {
      var a, b, c := JwtHasThreeParts(value);
    }
    if a, b, c :| '.' !in a && '.' !in b && '.' !in c && value == a + "." + b + "." + c {
      ThreePartsSplit(a, b, c);
    }
  }

  /** An element holds the two-dot text it is, or else the one left after an inline prefix and white space. */
  ghost predicate TwoDotsIn(value: string, t: string) {
    && TwoDots(t)
    && (value == t || (!TwoDots(value) && exists p, rest ::
                         value == p + rest && IsInlinePrefix(p) && t == TrimSpace(rest)))
  }

  lemma GatewayCandidateMeans(value: string, t: string)
    ensures GatewayCandidate(value) == Some(t) <==> TwoDotsIn(value, t)
  {
    TwoDotsCounted(value);
    TwoDotsCounted(t);
    if !TwoDots(value) && GatewayCandidate(value) == Some(t) {
      PrefixOf(value, if "bearer." <= ToLower(value) then 7 else 4);
    }
    if !TwoDots(value) && TwoDotsIn(value, t) {
      var p, rest :| value == p + rest && IsInlinePrefix(p) && t == TrimSpace(rest);
      InlinePrefixIs(value, p, rest);
      assert value[|p|..] == rest;
    }
  }

  lemma {:induction false} FirstTwoDotsAfter(pre: seq<string>, rest: seq<string>)
    requires forall i :: 0 <= i < |pre| ==> GatewayCandidate(pre[i]) == None
    ensures FirstTwoDots(pre + rest) == FirstTwoDots(rest)
  {
    if pre == [] {
      assert pre + rest == rest;
    } else {
      assert (pre + rest)[1..] == pre[1..] + rest;
      FirstTwoDotsAfter(pre[1..], rest);
    }
  }

  /** The gateway returns the text in the first element that holds one with two dots, and nothing if none does. */
  lemma GatewayMeans(header: string, pre: seq<string>, value: string, post: seq<string>, t: string)
    requires HeaderList(header) == pre + [value] + post && TwoDotsIn(value, t)
    requires forall i, u :: 0 <= i < |pre| ==> !TwoDotsIn(pre[i], u)
    ensures GatewayToken(header) == t != ""
  {
    GatewayCandidateMeans(value, t);
    NoneHeld(pre);
    assert pre + [value] + post == pre + ([value] + post);
    FirstTwoDotsAfter(pre, [value] + post);
  }

  lemma NoneHeld(values: seq<string>)
    requires forall i, u :: 0 <= i < |values| ==> !TwoDotsIn(values[i], u)
    ensures forall i :: 0 <= i < |values| ==> GatewayCandidate(values[i]) == None
  {
    forall i | 0 <= i < |values|
      ensures GatewayCandidate(values[i]) == None
    {
      if GatewayCandidate(values[i]).Some? {
        GatewayCandidateMeans(values[i], GatewayCandidate(values[i]).value);
      }
    }
  }

  lemma GatewayMisses(header: string)
    requires forall i, u :: 0 <= i < |HeaderList(header)| ==> !TwoDotsIn(HeaderList(header)[i], u)
    ensures GatewayToken(header) == ""
  {
    NoneHeld(HeaderList(header));
    FirstTwoDotsAfter(HeaderList(header), []);
    assert HeaderList(header) + [] == HeaderList(header);
  }

  lemma KeywordIsNoGatewayCandidate(keyword: string)
    requires IsKeyword(keyword)
    ensures GatewayCandidate(keyword) == None
  {
    assert '.' !in keyword;
    CountNone(keyword, '.');
    WordsInAnyCase(keyword);
  }

  lemma PrefixedGatewayCandidate(prefix: string, t: string)
    requires Count(t, '.') == 2 && Trimmed(t) && IsInlinePrefix(prefix)
    ensures GatewayCandidate(prefix + t) == Some(t)
  {
    var value := prefix + t;
    assert prefix[|prefix| - 1] == '.';
    CountNone(prefix, '.');
    CountConcat(prefix, t, '.');
    InlinePrefixIs(value, prefix, t);
    TrimmedIsKept(t);
    assert value[|prefix|..] == t;
  }

  lemma OfferIsFirstTwoDots(planted: seq<string>, post: seq<string>, t: string)
    requires Count(t, '.') == 2 && Trimmed(t) && Offers(planted, t)
    ensures FirstTwoDots(planted + post) == Some(t)
  {
    var all := planted + post;
    assert all[0] == planted[0];
    if |planted| == 2 {
      KeywordIsNoGatewayCandidate(planted[0]);
      assert all[1..][0] == t;
    } else if planted != [t] {
      var n := if |planted[0]| > 7 && planted[0][7..] == t && AnyCase(planted[0][..7], "bearer.", "BEARER.")
               then 7 else 4;
      assert planted[0] == planted[0][..n] + t;
      PrefixedGatewayCandidate(planted[0][..n], t);
    }
  }

  lemma PlantedIsFirstTwoDots(pre: seq<string>, planted: seq<string>, post: seq<string>, t: string)
    requires Count(t, '.') == 2 && Trimmed(t) && Offers(planted, t)
    requires forall i :: 0 <= i < |pre| ==> GatewayCandidate(pre[i]) == None
    ensures FirstTwoDots(pre + planted + post) == Some(t)
  {
    assert pre + planted + post == pre + (planted + post);
    FirstTwoDotsAfter(pre, planted + post);
    OfferIsFirstTwoDots(planted, post, t);
  }

  /** The gateway too finds a planted token, in any letter case, if nothing before it is a candidate. */
  lemma PlantedIsFound(pre: seq<string>, planted: seq<string>, post: seq<string>, t: string, values: seq<string>)
    requires TwoDots(t) && Trimmed(t) && Offers(planted, t)
    requires forall i :: 0 <= i < |pre| ==> GatewayCandidate(pre[i]) == None
    requires values == pre + planted + post
    requires forall i :: 0 <= i < |values| ==> ListElement(values[i])
    ensures GatewayToken(Join(values, ", ")) == t
  {
    JoinSplit(values);
    TwoDotsCounted(t);
    PlantedIsFirstTwoDots(pre, planted, post, t);
  }

  /** They do differ: the gateway takes any two-dot element, such as `a..b`, for a token. */
  lemma ExtractorsDiffer(t: string)
    requires ListElement(t) && Count(t, '.') == 2 && !LooksLikeJwt(t)
    ensures GatewayToken(t) == t && Extracted(t) == Failure(TokenMissing)
  {
    JoinSplit([t]);
    TrimmedIsKept(t);
    CandidatesCompared(t);
    assert FirstCandidate([t]) == FirstCandidate([t][1..]);
  }
}
