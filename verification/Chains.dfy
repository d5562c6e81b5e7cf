/** Chains of token extractors, nested in any way. */
module Chains {
  import opened Filters
  import opened Wrappers

  import Extractor
  import Text

  /** A request, as far as extractors see it: header values by name. */
  type Request = map<string, string>

  type TokenExtractor = Request -> Result<string>

  const MISSING: Result<string> := Failure(TokenMissing)

  predicate IsSet(extractor: Option<TokenExtractor>) {
    extractor.Some?
  }

  function NonNil(extractors: seq<Option<TokenExtractor>>): seq<TokenExtractor> {
    var given := Filter(extractors, IsSet);
    FilterKeeps(extractors, IsSet);
    seq(|given|, i requires 0 <= i < |given| => given[i].value)
  }

  lemma NonNilNext(extractors: seq<Option<TokenExtractor>>, i: nat)
    requires i < |extractors|
    ensures NonNil(extractors[..i + 1])
         == NonNil(extractors[..i]) + (if extractors[i].None? then [] else [extractors[i].value])
  {
    FilterNext(extractors, i, IsSet);
  }

  /** The first outcome other than "no token here". */
  function FirstDecisive(extractors: seq<TokenExtractor>, request: Request): Result<string> {
    if extractors == [] then MISSING
    else
      var outcome := extractors[0](request);
      if outcome == MISSING then FirstDecisive(extractors[1..], request) else outcome
  }

  /** What a chain does with one request. */
  method RunChain(filtered: seq<TokenExtractor>, request: Request) returns (r: Result<string>)
    ensures r == FirstDecisive(filtered, request)
  {
    for i := 0 to |filtered|
      invariant FirstDecisive(filtered, request) == FirstDecisive(filtered[i..], request)
    {
      assert filtered[i..][1..] == filtered[i + 1..];
      var outcome := filtered[i](request);
      if outcome.Success? {
        return outcome;
      } else if outcome.error != TokenMissing {
        return Failure(outcome.error);
      }
    }
    r := Failure(TokenMissing);
  }

  /** `c` is a chain of these extractors: nil when there are none, otherwise deciding as they do. */
  ghost predicate ChainOf(c: Option<TokenExtractor>, extractors: seq<Option<TokenExtractor>>) {
    && (c.None? <==> NonNil(extractors) == [])
    && (c.Some? ==> forall request :: c.value(request) == FirstDecisive(NonNil(extractors), request))
  }

  method ChainExtractors(extractors: seq<Option<TokenExtractor>>) returns (c: Option<TokenExtractor>)
    ensures ChainOf(c, extractors)
  {
    var filtered: seq<TokenExtractor> := [];
    for i := 0 to |extractors|
      invariant filtered == NonNil(extractors[..i])
    {
      NonNilNext(extractors, i);
      if extractors[i].Some? {
        filtered := filtered + [extractors[i].value];
      }
    }
    assert extractors[..|extractors|] == extractors;
    if |filtered| == 0 {
      return None;
    }
    c := Some((request: Request) => FirstDecisive(filtered, request));
  }

  // ---------------------------------------------------------------- laws

  lemma NonNilConcat(xs: seq<Option<TokenExtractor>>, ys: seq<Option<TokenExtractor>>)
    ensures NonNil(xs + ys) == NonNil(xs) + NonNil(ys)
  {
    FilterConcat(xs, ys, IsSet);
  }

  lemma {:induction false} DecisiveConcat(xs: seq<TokenExtractor>, ys: seq<TokenExtractor>, request: Request)
    ensures FirstDecisive(xs + ys, request)
         == if FirstDecisive(xs, request) == MISSING then FirstDecisive(ys, request)
            else FirstDecisive(xs, request)
  {
    if xs == [] {
      assert xs + ys == ys;
    } else {
      assert (xs + ys)[1..] == xs[1..] + ys;
      DecisiveConcat(xs[1..], ys, request);
    }
  }

  /** A chain decides by its first extractor that finds a token or a hard error, if there is one. */
  lemma {:induction false} FirstDecisiveMeans(extractors: seq<TokenExtractor>, request: Request)
    ensures var r := FirstDecisive(extractors, request);
            if r == Failure(TokenMissing)
            then forall i :: 0 <= i < |extractors| ==> extractors[i](request) == Failure(TokenMissing)
            else exists i :: 0 <= i < |extractors| && extractors[i](request) == r
                             && forall j :: 0 <= j < i ==> extractors[j](request) == Failure(TokenMissing)
  {
    if extractors != [] {
      var tail := extractors[1..];
      FirstDecisiveMeans(tail, request);
      assert forall i :: 0 <= i < |tail| ==> tail[i] == extractors[i + 1];
      var r := FirstDecisive(extractors, request);
      if extractors[0](request) == MISSING {
        if r == MISSING {
          assert forall i :: 0 < i < |extractors| ==> extractors[i] == tail[i - 1];
        } else {
          var i :| 0 <= i < |tail| && tail[i](request) == r && forall j :: 0 <= j < i ==> tail[j](request) == MISSING;
          assert extractors[i + 1](request) == r;
          forall j | 0 <= j < i + 1
            ensures extractors[j](request) == MISSING
          {
            assert j > 0 ==> extractors[j] == tail[j - 1];
          }
        }
      }
    }
  }

  /** A chain as a member of another chain decides like its own members in its place. */
  lemma Flattens(pre: seq<Option<TokenExtractor>>, inner: seq<Option<TokenExtractor>>,
                 post: seq<Option<TokenExtractor>>, nested: Option<TokenExtractor>, c: Option<TokenExtractor>)
    requires ChainOf(nested, inner)
    ensures ChainOf(c, pre + [nested] + post) <==> ChainOf(c, pre + inner + post)
  {
    var a, m, z := NonNil(pre), NonNil(inner), NonNil(post);
    var one := NonNil([nested]);
    assert one == if nested.None? then [] else [nested.value] by {
      NonNilNext([nested], 0);
      assert [nested][..0] == [] && [nested][..1] == [nested];
    }
    NonNilConcat(pre, [nested]);
    NonNilConcat(pre + [nested], post);
    NonNilConcat(pre, inner);
    NonNilConcat(pre + inner, post);
    forall request
      ensures FirstDecisive(a + one + z, request) == FirstDecisive(a + m + z, request)
    {
      DecisiveConcat(a + one, z, request);
      DecisiveConcat(a, one, request);
      DecisiveConcat(a + m, z, request);
      DecisiveConcat(a, m, request);
      assert nested.Some? ==> one[1..] == [];
    }
  }

  /** The extractor of the subprotocol header; a header that is not there reads as the empty text. */
  function ProtocolExtractor(name: string): TokenExtractor {
    (request: Request) => Extractor.Extracted(if name in request then request[name] else "")
  }

  /** A chain moves on past a header that is missing or blank. */
  lemma BlankHeaderIsPassed(name: string, rest: seq<TokenExtractor>, request: Request)
    requires name !in request || Text.AllSpace(request[name])
    ensures FirstDecisive([ProtocolExtractor(name)] + rest, request) == FirstDecisive(rest, request)
  {
    Extractor.BlankIsTrimmedAway(if name in request then request[name] else "");
    assert ([ProtocolExtractor(name)] + rest)[1..] == rest;
  }
}
