/** The parts of Go's `strings` package the library uses, on sequences of code points. */
module Text {
  import opened Wrappers

  import Filters

  /** Unicode white space, as `unicode.IsSpace` decides it. */
  predicate IsSpace(c: char) {
    || '\t' <= c <= '\r'
    || c == ' '
    || c == '\U{85}'
    || c == '\U{A0}'
    || c == '\U{1680}'
    || '\U{2000}' <= c <= '\U{200A}'
    || c == '\U{2028}'
    || c == '\U{2029}'
    || c == '\U{202F}'
    || c == '\U{205F}'
    || c == '\U{3000}'
  }

  /** The white space characters one by one, as the Unicode property White_Space lists them. */
  lemma SpaceTable(c: char)
    ensures IsSpace(c) <==>
              c in ['\t', '\n', '\U{B}', '\U{C}', '\r', ' ', '\U{85}', '\U{A0}', '\U{1680}',
                    '\U{2000}', '\U{2001}', '\U{2002}', '\U{2003}', '\U{2004}', '\U{2005}', '\U{2006}',
                    '\U{2007}', '\U{2008}', '\U{2009}', '\U{200A}',
                    '\U{2028}', '\U{2029}', '\U{202F}', '\U{205F}', '\U{3000}']
  {
  }

  predicate AllSpace(s: string) {
    forall i :: 0 <= i < |s| ==> IsSpace(s[i])
  }

  /** Neither starts nor ends with white space. */
  predicate Trimmed(s: string) {
    s == [] || (!IsSpace(s[0]) && !IsSpace(s[|s| - 1]))
  }

  function TrimLeft(s: string): (t: string)
    ensures t == [] || !IsSpace(t[0])
  {
    if s != [] && IsSpace(s[0]) then TrimLeft(s[1..]) else s
  }

  function TrimRight(s: string): (t: string)
    ensures t <= s
    ensures t == [] || !IsSpace(t[|t| - 1])
  {
    if s != [] && IsSpace(s[|s| - 1]) then TrimRight(s[..|s| - 1]) else s
  }

  function TrimSpace(s: string): (t: string)
    ensures Trimmed(t)
  {
    TrimRight(TrimLeft(s))
  }

  lemma {:induction false} TrimLeftDrops(l: string, s: string)
    requires AllSpace(l)
    ensures TrimLeft(l + s) == TrimLeft(s)
  {
    if l == [] {
      assert l + s == s;
    } else {
      assert (l + s)[1..] == l[1..] + s;
      TrimLeftDrops(l[1..], s);
    }
  }

  lemma {:induction false} TrimRightDrops(s: string, r: string)
    requires AllSpace(r)
    ensures TrimRight(s + r) == TrimRight(s)
  {
    if r == [] {
      assert s + r == s;
    } else {
      assert (s + r)[..|s + r| - 1] == s + r[..|r| - 1];
      TrimRightDrops(s, r[..|r| - 1]);
    }
  }

  /** Trimming is determined by what it leaves: white space around a trimmed core. */
  lemma TrimIs(l: string, core: string, r: string)
    requires AllSpace(l) && AllSpace(r) && Trimmed(core)
    ensures TrimSpace(l + core + r) == core
  {
    assert l + core + r == l + (core + r);
    TrimLeftDrops(l, core + r);
    if core == [] {
      assert core + r == r && r == r + "";
      TrimLeftDrops(r, "");
    } else {
      assert (core + r)[0] == core[0];
      TrimRightDrops(core, r);
    }
  }

  lemma TrimmedIsKept(s: string)
    requires Trimmed(s)
    ensures TrimSpace(s) == s
  {
  }

  lemma {:induction false} TrimLeftCuts(s: string) returns (l: string)
    ensures AllSpace(l) && s == l + TrimLeft(s)
  {
    if s != [] && IsSpace(s[0]) {
      var rest := TrimLeftCuts(s[1..]);
      l := [s[0]] + rest;
    } else {
      l := "";
    }
  }

  lemma {:induction false} TrimRightCuts(s: string) returns (r: string)
    ensures AllSpace(r) && s == TrimRight(s) + r
  {
    if s != [] && IsSpace(s[|s| - 1]) {
      var rest := TrimRightCuts(s[..|s| - 1]);
      r := rest + [s[|s| - 1]];
    } else {
      r := "";
    }
  }

  lemma TrimCuts(s: string) returns (l: string, r: string)
    ensures AllSpace(l) && AllSpace(r) && s == l + TrimSpace(s) + r
  {
    l := TrimLeftCuts(s);
    r := TrimRightCuts(TrimLeft(s));
  }

  // ---------------------------------------------------------------- splitting and cutting

  /** `strings.Split` with a one-character separator. */
  function Split(s: string, sep: char): (parts: seq<string>)
    ensures parts != []
  {
    if s == [] then [""]
    else
      var rest := Split(s[1..], sep);
      if s[0] == sep then [""] + rest else [[s[0]] + rest[0]] + rest[1..]
  }

  function Count(s: string, c: char): nat {
    if s == [] then 0 else (if s[0] == c then 1 else 0) + Count(s[1..], c)
  }

  lemma {:induction false} SplitCounts(s: string, sep: char)
    ensures |Split(s, sep)| == Count(s, sep) + 1
  {
    if s != [] {
      SplitCounts(s[1..], sep);
    }
  }

  lemma {:induction false} SplitFirst(x: string, sep: char, s: string)
    requires sep !in x
    ensures Split(x + [sep] + s, sep) == [x] + Split(s, sep)
    ensures Split(x, sep) == [x]
  {
    var whole := x + [sep] + s;
    if x == [] {
      assert whole[1..] == s;
    } else {
      assert whole[1..] == x[1..] + [sep] + s;
      SplitFirst(x[1..], sep, s);
      assert [x[0]] + x[1..] == x;
    }
  }

  /** The first occurrence of `sep` splits any text that has one. */
  lemma {:induction false} FirstCut(s: string, sep: char) returns (x: string, rest: string)
    requires sep in s
    ensures sep !in x && s == x + [sep] + rest
  {
    if s[0] == sep {
      x, rest := "", s[1..];
    } else {
      x, rest := FirstCut(s[1..], sep);
      x := [s[0]] + x;
    }
  }

  lemma {:induction false} PartsLackSeparator(s: string, sep: char, i: nat)
    requires i < |Split(s, sep)|
    ensures sep !in Split(s, sep)[i]
    decreases |s|
  {
    if s != [] {
      var rest := Split(s[1..], sep);
      if s[0] == sep {
        if i > 0 {
          PartsLackSeparator(s[1..], sep, i - 1);
        }
      } else {
        PartsLackSeparator(s[1..], sep, i);
      }
    }
  }

  lemma {:induction false} CountConcat(a: string, b: string, c: char)
    ensures Count(a + b, c) == Count(a, c) + Count(b, c)
  {
    if a == [] {
      assert a + b == b;
    } else {
      assert (a + b)[1..] == a[1..] + b;
      CountConcat(a[1..], b, c);
    }
  }

  lemma {:induction false} CountNone(s: string, c: char)
    ensures Count(s, c) == 0 <==> c !in s
  {
    if s != [] {
      CountNone(s[1..], c);
    }
  }

  /** `strings.Cut`: the text before and after the first separator, if there is one. */
  function Cut(s: string, sep: char): Option<(string, string)> {
    if s == [] then None
    else if s[0] == sep then Some(("", s[1..]))
    else
      match Cut(s[1..], sep)
      case None => None
      case Some((before, after)) => Some(([s[0]] + before, after))
  }

  lemma {:induction false} CutIs(before: string, sep: char, after: string)
    requires sep !in before
    ensures Cut(before + [sep] + after, sep) == Some((before, after))
  {
    var s := before + [sep] + after;
    if before == [] {
      assert s[1..] == after;
    } else {
      assert s[1..] == before[1..] + [sep] + after;
      CutIs(before[1..], sep, after);
      assert [before[0]] + before[1..] == before;
    }
  }

  lemma {:induction false} CutMeans(s: string, sep: char)
    ensures match Cut(s, sep)
            case None => sep !in s
            case Some((before, after)) => sep !in before && s == before + [sep] + after
  {
    if s != [] && s[0] != sep {
      CutMeans(s[1..], sep);
    }
  }

  // ---------------------------------------------------------------- case and prefixes

  function ToLowerChar(c: char): char {
    if 'A' <= c <= 'Z' then c - 'A' + 'a' else c
  }

  function ToLower(s: string): (t: string)
    ensures |t| == |s|
    ensures forall i :: 0 <= i < |s| ==> t[i] == ToLowerChar(s[i])
  {
    seq(|s|, i requires 0 <= i < |s| => ToLowerChar(s[i]))
  }

  /** `p` spells one word, each letter in either case. */
  predicate AnyCase(p: string, lower: string, upper: string)
    requires |lower| == |upper|
  {
    |p| == |lower| && forall i :: 0 <= i < |p| ==> p[i] == lower[i] || p[i] == upper[i]
  }

  /** Lower-casing recognises exactly the letter cases of the words looked for. */
  lemma WordsInAnyCase(p: string)
    ensures ToLower(p) == "bearer." <==> AnyCase(p, "bearer.", "BEARER.")
    ensures ToLower(p) == "jwt." <==> AnyCase(p, "jwt.", "JWT.")
    ensures ToLower(p) == "bearer" <==> AnyCase(p, "bearer", "BEARER")
    ensures ToLower(p) == "jwt" <==> AnyCase(p, "jwt", "JWT")
    ensures ToLower(p) == "token" <==> AnyCase(p, "token", "TOKEN")
  {
    WordInAnyCase(p, "bearer.", "BEARER.");
    WordInAnyCase(p, "jwt.", "JWT.");
    WordInAnyCase(p, "bearer", "BEARER");
    WordInAnyCase(p, "jwt", "JWT");
    WordInAnyCase(p, "token", "TOKEN");
  }

  lemma WordInAnyCase(p: string, lower: string, upper: string)
    requires |lower| == |upper|
    requires forall i :: 0 <= i < |lower| ==>
               lower[i] == upper[i] == '.' || ('a' <= lower[i] <= 'z' && upper[i] == lower[i] - 'a' + 'A')
    ensures ToLower(p) == lower <==> AnyCase(p, lower, upper)
  {
    if |p| == |lower| {
      forall i | 0 <= i < |p|
        ensures ToLower(p)[i] == lower[i] <==> p[i] == lower[i] || p[i] == upper[i]
      {
        assert lower[i] == upper[i] == '.' || ('a' <= lower[i] <= 'z' && upper[i] == lower[i] - 'a' + 'A');
      }
      if AnyCase(p, lower, upper) {
        assert forall i :: 0 <= i < |p| ==> ToLower(p)[i] == lower[i];
      }
    }
  }

  predicate HasText(s: string) {
    s != ""
  }

  function NonEmpty(texts: seq<string>): seq<string> {
    Filters.Filter(texts, HasText)
  }

  function Join(parts: seq<string>, sep: string): string {
    if parts == [] then ""
    else if |parts| == 1 then parts[0]
    else parts[0] + sep + Join(parts[1..], sep)
  }
}
