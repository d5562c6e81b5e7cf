/** Token extraction from the subprotocol header and chains of extractors. */
module Extractor {
  import opened Text
  import opened Wrappers

  import Filters

  // ---------------------------------------------------------------- tokens

  function LooksLikeJwt(value: string): bool {
    var parts := Split(value, '.');
    |parts| == 3 && parts[0] != "" && parts[1] != "" && parts[2] != ""
  }

  /** The compact form of section 7.1 of RFC 7515, without its base64url alphabet: three parts, none empty. */
  ghost predicate ThreeParts(value: string) {
    exists a, b, c ::
      && a != "" && b != "" && c != ""
      && '.' !in a && '.' !in b && '.' !in c
      && value == a + "." + b + "." + c
  }

  lemma ThreePartsSplit(a: string, b: string, c: string)
    requires '.' !in a && '.' !in b && '.' !in c
    ensures Split(a + "." + b + "." + c, '.') == [a, b, c]
  {
    assert a + "." + b + "." + c == a + "." + (b + "." + c);
    SplitFirst(a, '.', b + "." + c);
    SplitFirst(b, '.', c);
    SplitFirst(c, '.', "");
  }

  lemma JwtHasThreeParts(value: string) returns (a: string, b: string, c: string)
    requires |Split(value, '.')| == 3
    ensures '.' !in a && '.' !in b && '.' !in c
    ensures value == a + "." + b + "." + c
  {
    var rest;
    SplitCounts(value, '.');
    CountNone(value, '.');
    a, rest := FirstCut(value, '.');
    SplitFirst(a, '.', rest);
    SplitCounts(rest, '.');
    CountNone(rest, '.');
    b, c := FirstCut(rest, '.');
    SplitFirst(b, '.', c);
    SplitCounts(c, '.');
    CountNone(c, '.');
    assert a + "." + (b + "." + c) == a + "." + b + "." + c;
  }

  lemma JwtShape(value: string)
    ensures LooksLikeJwt(value) <==> ThreeParts(value)
    ensures LooksLikeJwt(value) ==> Count(value, '.') == 2
  {
    SplitCounts(value, '.');
    if LooksLikeJwt(value) {
      var a, b, c := JwtHasThreeParts(value);
      ThreePartsSplit(a, b, c);
    }
    if a, b, c :| && a != "" && b != "" && c != "" && '.' !in a && '.' !in b && '.' !in c
                  && value == a + "." + b + "." + c {
      ThreePartsSplit(a, b, c);
    }
  }

  // ---------------------------------------------------------------- header lists

  function TrimEach(chunks: seq<string>): seq<string> {
    seq(|chunks|, i requires 0 <= i < |chunks| => TrimSpace(chunks[i]))
  }

  function TrimAll(chunks: seq<string>): seq<string> {
    NonEmpty(TrimEach(chunks))
  }

  lemma TrimNext(chunks: seq<string>, i: nat)
    requires i < |chunks|
    ensures var value := TrimSpace(chunks[i]);
            TrimAll(chunks[..i + 1]) == TrimAll(chunks[..i]) + (if value == "" then [] else [value])
  {
    assert TrimEach(chunks[..i + 1]) == TrimEach(chunks[..i]) + [TrimSpace(chunks[i])];
    Filters.FilterMore(TrimEach(chunks[..i]), TrimSpace(chunks[i]), HasText);
  }

  /** The elements of a comma-separated header, trimmed, without the empty ones. */
  function HeaderList(value: string): seq<string> {
    TrimAll(Split(value, ','))
  }

  method SplitHeaderList(value: string) returns (out: seq<string>)
    ensures out == HeaderList(value)
  {
    var chunks := Split(value, ',');
    out := [];
    for i := 0 to |chunks|
      invariant out == TrimAll(chunks[..i])
    {
      TrimNext(chunks, i);
      var chunk := TrimSpace(chunks[i]);
      if chunk != "" {
        out := out + [chunk];
      }
    }
    assert chunks[..|chunks|] == chunks;
  }

  // ---------------------------------------------------------------- the scanner

  /** The token one list element holds: itself, or what follows an inline `bearer.` or `jwt.`. */
  function Candidate(value: string): Option<string> {
    var lower := ToLower(value);
    if LooksLikeJwt(value) then Some(value)
    else if "bearer." <= lower then
      (var token := TrimSpace(value[7..]); if LooksLikeJwt(token) then Some(token) else None)
    else if "jwt." <= lower then
      (var token := TrimSpace(value[4..]); if LooksLikeJwt(token) then Some(token) else None)
    else None
  }

  function FirstCandidate(values: seq<string>): Option<string> {
    if values == [] then None
    else if Candidate(values[0]).Some? then Candidate(values[0])
    else FirstCandidate(values[1..])
  }

  /** The whole extraction, without any lookahead. */
  function Extracted(header: string): Result<string> {
    if TrimSpace(header) == "" then Failure(TokenMissing)
    else
      var values := HeaderList(TrimSpace(header));
      if values == [] then Failure(InvalidSecWebSocketHeader)
      else
        match FirstCandidate(values)
        case None => Failure(TokenMissing)
        case Some(token) => Success(token)
  }

  lemma KeywordIsNoCandidate(value: string)
    requires ToLower(value) == "bearer" || ToLower(value) == "jwt" || ToLower(value) == "token"
    ensures Candidate(value) == None
  {
    JwtShape(value);
    CountNone(value, '.');
    assert forall i :: 0 <= i < |value| ==> ToLower(value)[i] == ToLowerChar(value[i]);
    assert '.' !in ToLower(value);
  }

  /** The scanner with its lookahead after `bearer`, `jwt` and `token` finds the first candidate. */
  method SecWebSocketProtocol(header: string) returns (r: Result<string>)
    ensures r == Extracted(header)
  {
    var headerValue := TrimSpace(header);
    if headerValue == "" {
      return Failure(TokenMissing);
    }
    var values := SplitHeaderList(headerValue);
    if |values| == 0 {
      return Failure(InvalidSecWebSocketHeader);
    }
    for index := 0 to |values|
      invariant FirstCandidate(values) == FirstCandidate(values[index..])
    {
      var value := values[index];
      var lower := ToLower(value);
      assert values[index..][1..] == values[index + 1..];
      if LooksLikeJwt(value) {
        return Success(value);
      } else if (lower == "bearer" || lower == "jwt" || lower == "token") && index + 1 < |values| {
        KeywordIsNoCandidate(value);
        var next := values[index + 1];
        assert values[index + 1..][0] == next;
        if LooksLikeJwt(next) {
          return Success(next);
        }
      } else if "bearer." <= lower {
        var token := TrimSpace(value[7..]);
        if LooksLikeJwt(token) {
          return Success(token);
        }
      } else if "jwt." <= lower {
        var token := TrimSpace(value[4..]);
        if LooksLikeJwt(token) {
          return Success(token);
        }
      } else {
        assert Candidate(value) == None;
      }
    }
    r := Failure(TokenMissing);
  }

  // ---------------------------------------------------------------- laws of header lists

  predicate ListElement(value: string) {
    value != "" && Trimmed(value) && ',' !in value
  }

  lemma TrimLacks(s: string, c: char)
    requires c !in s
    ensures c !in TrimSpace(s)
  {
    var l, r := TrimCuts(s);
    assert forall i :: 0 <= i < |TrimSpace(s)| ==> TrimSpace(s)[i] == s[|l| + i];
  }

  lemma TrimAllElements(chunks: seq<string>)
    requires forall i :: 0 <= i < |chunks| ==> ',' !in chunks[i]
    ensures forall v :: v in TrimAll(chunks) ==> ListElement(v)
  {
    Filters.FilterMembers(TrimEach(chunks), HasText);
    forall v | v in TrimAll(chunks)
      ensures ListElement(v)
    {
      var i :| 0 <= i < |chunks| && TrimEach(chunks)[i] == v;
      TrimLacks(chunks[i], ',');
    }
  }

  lemma HeaderListElements(header: string)
    ensures forall v :: v in HeaderList(header) ==> ListElement(v)
  {
    forall i | 0 <= i < |Split(header, ',')|
      ensures ',' !in Split(header, ',')[i]
    {
      PartsLackSeparator(header, ',', i);
    }
    TrimAllElements(Split(header, ','));
  }

  lemma TrimAllConcat(xs: seq<string>, ys: seq<string>)
    ensures TrimAll(xs + ys) == TrimAll(xs) + TrimAll(ys)
  {
    assert TrimEach(xs + ys) == TrimEach(xs) + TrimEach(ys);
    Filters.FilterConcat(TrimEach(xs), TrimEach(ys), HasText);
  }

  lemma TrimOne(x: string)
    ensures TrimAll([x]) == if TrimSpace(x) == "" then [] else [TrimSpace(x)]
  {
    TrimNext([x], 0);
    assert [x][..0] == [] && [x][..1] == [x];
  }

  lemma HeaderListFirst(x: string, rest: string)
    requires ',' !in x
    ensures HeaderList(x + "," + rest) == TrimAll([x]) + HeaderList(rest)
    ensures HeaderList(x) == TrimAll([x])
  {
    SplitFirst(x, ',', rest);
    TrimAllConcat([x], Split(rest, ','));
  }

  lemma SpacesAroundOne(l: string, x: string, r: string)
    requires AllSpace(l) && AllSpace(r)
    ensures TrimAll([l + x + r]) == TrimAll([x])
  {
    var l', r' := TrimCuts(x);
    assert l + x + r == (l + l') + TrimSpace(x) + (r' + r);
    TrimIs(l + l', TrimSpace(x), r' + r);
    TrimOne(x);
    TrimOne(l + x + r);
  }

  /** White space around a header changes nothing. */
  lemma {:induction false} SpacesAround(l: string, header: string, r: string)
    requires AllSpace(l) && AllSpace(r)
    ensures HeaderList(l + header + r) == HeaderList(header)
    decreases |header|
  {
    assert ',' !in l && ',' !in r;
    if ',' in header {
      var x, rest := FirstCut(header, ',');
      SpacesAround("", rest, r);
      assert "" + rest + r == rest + r;
      assert l + header + r == (l + x) + "," + (rest + r);
      HeaderListFirst(l + x, rest + r);
      HeaderListFirst(x, rest);
      SpacesAroundOne(l, x, "");
      assert l + x + "" == l + x;
    } else {
      HeaderListFirst(l + header + r, "");
      HeaderListFirst(header, "");
      SpacesAroundOne(l, header, r);
    }
  }

  lemma TrimKeepsList(header: string)
    ensures HeaderList(TrimSpace(header)) == HeaderList(header)
  {
    var l, r := TrimCuts(header);
    SpacesAround(l, TrimSpace(header), r);
  }

  /** A first element followed by ", " is the first of the list. */
  lemma HeaderListCons(x: string, tail: string)
    requires ListElement(x)
    ensures HeaderList(x + ", " + tail) == [x] + HeaderList(tail)
    ensures HeaderList(x) == [x]
  {
    assert x + ", " + tail == x + "," + (" " + tail);
    HeaderListFirst(x, " " + tail);
    TrimmedIsKept(x);
    TrimOne(x);
    SpacesAround(" ", tail, "");
    assert " " + tail + "" == " " + tail;
  }

  /** Joining list elements with ", " and splitting gives them back. */
  lemma {:induction false} JoinSplit(values: seq<string>)
    requires forall i :: 0 <= i < |values| ==> ListElement(values[i])
    ensures HeaderList(Join(values, ", ")) == values
  {
    if values == [] {
      HeaderListFirst("", "");
      TrimOne("");
    } else {
      HeaderListCons(values[0], Join(values[1..], ", "));
      assert values == [values[0]] + values[1..];
      if |values| > 1 {
        JoinSplit(values[1..]);
      }
    }
  }

  // ---------------------------------------------------------------- laws of extraction

  lemma CandidateShape(value: string)
    requires ListElement(value) && Candidate(value).Some?
    ensures LooksLikeJwt(Candidate(value).value)
    ensures ',' !in Candidate(value).value && Trimmed(Candidate(value).value)
  {
    if "bearer." <= ToLower(value) {
      TrimLacks(value[7..], ',');
    } else if "jwt." <= ToLower(value) {
      TrimLacks(value[4..], ',');
    }
  }

  lemma {:induction false} FirstCandidateShape(values: seq<string>)
    requires forall v :: v in values ==> ListElement(v)
    requires FirstCandidate(values).Some?
    ensures ThreeParts(FirstCandidate(values).value)
    ensures ',' !in FirstCandidate(values).value && Trimmed(FirstCandidate(values).value)
  {
    if Candidate(values[0]).Some? {
      CandidateShape(values[0]);
      JwtShape(Candidate(values[0]).value);
    } else {
      FirstCandidateShape(values[1..]);
    }
  }

  /** Every extracted token is a trimmed three-part token without a comma. */
  lemma ExtractedShape(header: string)
    requires Extracted(header).Success?
    ensures ThreeParts(Extracted(header).value)
    ensures ',' !in Extracted(header).value && Trimmed(Extracted(header).value)
  {
    HeaderListElements(TrimSpace(header));
    FirstCandidateShape(HeaderList(TrimSpace(header)));
  }

  /** Blank headers have no elements, so extraction depends only on the header's elements. */
  lemma ExtractedFromList(header: string)
    ensures Extracted(header).Success? <==> FirstCandidate(HeaderList(header)).Some?
    ensures Extracted(header).Success? ==> Extracted(header).value == FirstCandidate(HeaderList(header)).value
  {
    TrimKeepsList(header);
    if TrimSpace(header) == "" {
      JoinSplit([]);
    }
  }

  lemma {:induction false} FirstAfter(pre: seq<string>, rest: seq<string>)
    requires forall i :: 0 <= i < |pre| ==> Candidate(pre[i]) == None
    ensures FirstCandidate(pre + rest) == FirstCandidate(rest)
  {
    if pre == [] {
      assert pre + rest == rest;
    } else {
      assert (pre + rest)[1..] == pre[1..] + rest;
      FirstAfter(pre[1..], rest);
    }
  }

  /** `bearer`, `jwt` or `token`, each letter in either case. */
  predicate IsKeyword(value: string) {
    AnyCase(value, "bearer", "BEARER") || AnyCase(value, "jwt", "JWT") || AnyCase(value, "token", "TOKEN")
  }

  /** The ways a client may offer a token: bare, after a keyword, or behind an inline prefix. */
  predicate Offers(planted: seq<string>, t: string) {
    || planted == [t]
    || (|planted| == 2 && planted[1] == t && IsKeyword(planted[0]))
    || (|planted| == 1 && |planted[0]| > 7 && planted[0][7..] == t
        && AnyCase(planted[0][..7], "bearer.", "BEARER."))
    || (|planted| == 1 && |planted[0]| > 4 && planted[0][4..] == t && AnyCase(planted[0][..4], "jwt.", "JWT."))
  }

  lemma DotAfterPrefix(prefix: string, t: string)
    requires LooksLikeJwt(t) && prefix != "" && ToLower(prefix)[|prefix| - 1] == '.'
    ensures !LooksLikeJwt(prefix + t)
  {
    assert ToLowerChar(prefix[|prefix| - 1]) == '.' && '.' in prefix;
    CountNone(prefix, '.');
    CountConcat(prefix, t, '.');
    JwtShape(t);
    JwtShape(prefix + t);
  }

  lemma PrefixedCandidate(prefix: string, t: string)
    requires LooksLikeJwt(t) && Trimmed(t)
    requires ToLower(prefix) == "bearer." || ToLower(prefix) == "jwt."
    ensures Candidate(prefix + t) == Some(t)
  {
    var value, n := prefix + t, |prefix|;
    DotAfterPrefix(prefix, t);
    assert ToLower(value)[..n] == ToLower(prefix);
    TrimmedIsKept(t);
    assert value[n..] == t;
  }

  lemma KeywordThenToken(keyword: string, t: string, post: seq<string>)
    requires LooksLikeJwt(t) && ToLower(keyword) in {"bearer", "jwt", "token"}
    ensures FirstCandidate([keyword, t] + post) == Some(t)
  {
    KeywordIsNoCandidate(keyword);
    assert ([keyword, t] + post)[1..] == [t] + post;
    assert ([t] + post)[0] == t;
  }

  lemma OfferIsFirst(planted: seq<string>, post: seq<string>, t: string)
    requires LooksLikeJwt(t) && Trimmed(t) && Offers(planted, t)
    ensures FirstCandidate(planted + post) == Some(t)
  {
    assert (planted + post)[0] == planted[0];
    if |planted| == 2 {
      WordsInAnyCase(planted[0]);
      assert planted == [planted[0], t];
      KeywordThenToken(planted[0], t, post);
    } else if planted != [t] {
      var n := if |planted[0]| > 7 && planted[0][7..] == t && AnyCase(planted[0][..7], "bearer.", "BEARER.")
               then 7 else 4;
      assert planted[0] == planted[0][..n] + t;
      WordsInAnyCase(planted[0][..n]);
      PrefixedCandidate(planted[0][..n], t);
    }
  }

  lemma PlantedIsFirst(pre: seq<string>, planted: seq<string>, post: seq<string>, t: string)
    requires LooksLikeJwt(t) && Trimmed(t) && Offers(planted, t)
    requires forall i :: 0 <= i < |pre| ==> Candidate(pre[i]) == None
    ensures FirstCandidate(pre + planted + post) == Some(t)
  {
    assert pre + planted + post == pre + (planted + post);
    FirstAfter(pre, planted + post);
    OfferIsFirst(planted, post, t);
  }

  /** A planted token is found, whatever precedes it without holding a token and whatever follows. */
  lemma PlantedIsExtracted(pre: seq<string>, planted: seq<string>, post: seq<string>, t: string,
                           values: seq<string>)
    requires LooksLikeJwt(t) && Trimmed(t) && Offers(planted, t)
    requires forall i :: 0 <= i < |pre| ==> Candidate(pre[i]) == None
    requires values == pre + planted + post
    requires forall i :: 0 <= i < |values| ==> ListElement(values[i])
    ensures Extracted(Join(values, ", ")) == Success(t)
  {
    JoinSplit(values);
    ExtractedFromList(Join(values, ", "));
    PlantedIsFirst(pre, planted, post, t);
  }

  // ---------------------------------------------------------------- the extraction, exactly

  predicate IsInlinePrefix(p: string) {
    AnyCase(p, "bearer.", "BEARER.") || AnyCase(p, "jwt.", "JWT.")
  }

  /** An element holds the token it is, or else the one left after an inline prefix and white space. */
  ghost predicate TokenIn(value: string, t: string) {
    && ThreeParts(t)
    && (value == t || (!ThreeParts(value) && exists p, rest ::
                         value == p + rest && IsInlinePrefix(p) && t == TrimSpace(rest)))
  }

  lemma InlinePrefixIs(value: string, p: string, rest: string)
    requires value == p + rest && IsInlinePrefix(p)
    ensures if |p| == 7 then "bearer." <= ToLower(value) else |p| == 4 && "jwt." <= ToLower(value)
    ensures |p| == 4 ==> !("bearer." <= ToLower(value))
  {
    WordsInAnyCase(p);
    assert ToLower(value)[..|p|] == ToLower(p);
    assert ToLower(value)[0] == ToLower(p)[0];
  }

  lemma PrefixOf(value: string, n: nat)
    requires (n == 7 && "bearer." <= ToLower(value)) || (n == 4 && "jwt." <= ToLower(value))
    ensures value == value[..n] + value[n..] && IsInlinePrefix(value[..n])
  {
    WordsInAnyCase(value[..n]);
    assert ToLower(value[..n]) == ToLower(value)[..n];
  }

  lemma CandidateIsHeld(value: string, t: string)
    requires Candidate(value) == Some(t)
    ensures TokenIn(value, t)
  {
    JwtShape(value);
    JwtShape(t);
    if !LooksLikeJwt(value) {
      var n := if "bearer." <= ToLower(value) then 7 else 4;
      PrefixOf(value, n);
      assert value == value[..n] + value[n..] && IsInlinePrefix(value[..n]) && t == TrimSpace(value[n..]);
    }
  }

  lemma HeldIsCandidate(value: string, t: string)
    requires TokenIn(value, t)
    ensures Candidate(value) == Some(t)
  {
    JwtShape(value);
    JwtShape(t);
    if !ThreeParts(value) {
      var p, rest :| value == p + rest && IsInlinePrefix(p) && t == TrimSpace(rest);
      InlinePrefixIs(value, p, rest);
      assert value[|p|..] == rest;
    }
  }

  /** What an element's candidate is, both ways. */
  lemma CandidateMeans(value: string, t: string)
    ensures Candidate(value) == Some(t) <==> TokenIn(value, t)
  {
    if Candidate(value) == Some(t) {
      CandidateIsHeld(value, t);
    }
    if TokenIn(value, t) {
      HeldIsCandidate(value, t);
    }
  }

  /** `t` is the token in the first of `values` that holds one. */
  ghost predicate FirstTokenIn(values: seq<string>, t: string) {
    exists i :: 0 <= i < |values| && TokenIn(values[i], t) && forall j, u :: 0 <= j < i ==> !TokenIn(values[j], u)
  }

  lemma {:induction false} FirstCandidateMeans(values: seq<string>, t: string)
    ensures FirstCandidate(values) == Some(t) <==> FirstTokenIn(values, t)
  {
    if values != [] {
      var rest := values[1..];
      FirstCandidateMeans(rest, t);
      CandidateMeans(values[0], t);
      assert forall i :: 0 <= i < |rest| ==> rest[i] == values[i + 1];
      if Candidate(values[0]).Some? {
        CandidateMeans(values[0], Candidate(values[0]).value);
      } else {
        forall u
          ensures !TokenIn(values[0], u)
        {
          CandidateMeans(values[0], u);
        }
        FirstOfRest(values, t);
      }
    }
  }

  lemma FirstOfRest(values: seq<string>, t: string)
    requires values != [] && forall u :: !TokenIn(values[0], u)
    ensures FirstTokenIn(values, t) <==> FirstTokenIn(values[1..], t)
  {
    var rest := values[1..];
    if i :| 0 <= i < |values| && TokenIn(values[i], t) && forall j, u :: 0 <= j < i ==> !TokenIn(values[j], u) {
      assert TokenIn(rest[i - 1], t);
      assert forall j, u :: 0 <= j < i - 1 ==> rest[j] == values[j + 1] && !TokenIn(rest[j], u);
    }
    if i :| 0 <= i < |rest| && TokenIn(rest[i], t) && forall j, u :: 0 <= j < i ==> !TokenIn(rest[j], u) {
      assert TokenIn(values[i + 1], t);
      forall j, u | 0 <= j < i + 1
        ensures !TokenIn(values[j], u)
      {
        assert j > 0 ==> values[j] == rest[j - 1];
      }
    }
  }

  /** The token extracted from a header is the first one its elements hold, and every such token is extracted. */
  lemma ExtractedMeans(header: string, t: string)
    ensures Extracted(header) == Success(t) <==> FirstTokenIn(HeaderList(header), t)
  {
    ExtractedFromList(header);
    FirstCandidateMeans(HeaderList(header), t);
  }

  // ---------------------------------------------------------------- headers without a token

  lemma BlankIsTrimmedAway(s: string)
    ensures TrimSpace(s) == "" <==> AllSpace(s)
  {
    var l, r := TrimCuts(s);
    if AllSpace(s) {
      TrimIs(s, "", "");
      assert s + "" + "" == s;
    }
    if TrimSpace(s) == "" {
      assert s == l + r;
    }
  }

  predicate SpacesAndCommas(s: string) {
    forall i :: 0 <= i < |s| ==> IsSpace(s[i]) || s[i] == ','
  }

  /** A header has no elements exactly when it consists of white space and commas. */
  lemma {:induction false} NoElements(header: string)
    ensures HeaderList(header) == [] <==> SpacesAndCommas(header)
    decreases |header|
  {
    if ',' in header {
      var x, rest := FirstCut(header, ',');
      HeaderListFirst(x, rest);
      BlankIsTrimmedAway(x);
      TrimOne(x);
      NoElements(rest);
      assert header == x + "," + rest;
      assert SpacesAndCommas(header) <==> AllSpace(x) && SpacesAndCommas(rest) by {
        if SpacesAndCommas(header) {
          assert forall i :: 0 <= i < |x| ==> x[i] == header[i] && x[i] != ',';
          assert forall i :: 0 <= i < |rest| ==> rest[i] == header[|x| + 1 + i];
        }
      }
    } else {
      HeaderListFirst(header, "");
      BlankIsTrimmedAway(header);
      TrimOne(header);
    }
  }

  /** The error for each kind of header without a token: blank, without elements, or with none that holds one. */
  lemma ErrorsMean(header: string)
    requires forall t :: !FirstTokenIn(HeaderList(header), t)
    ensures Extracted(header)
         == if !AllSpace(header) && SpacesAndCommas(header) then Failure(InvalidSecWebSocketHeader)
            else Failure(TokenMissing)
  {
    BlankIsTrimmedAway(header);
    NoElements(header);
    TrimKeepsList(header);
    if FirstCandidate(HeaderList(header)).Some? {
      FirstCandidateMeans(HeaderList(header), FirstCandidate(HeaderList(header)).value);
    }
  }
}
