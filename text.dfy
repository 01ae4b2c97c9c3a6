/** The handful of Python string operations the core relies on: `str.split()` with no argument,
    `' '.join`, `str.strip()`, `str.replace(c, '')`, `s.split(c)[0]` and the substring test
    `a in b`. Characters are Unicode code points; whitespace is what Python's `str.isspace`
    accepts and a digit what `str.isdigit` accepts. */
module Text {

  /** Python's whitespace characters (`str.isspace`). */
  predicate IsSpace(c: char) {
    c == ' ' || ('\t' <= c <= '\r') || ('\U{1C}' <= c <= '\U{1F}') || c == '\U{85}' ||
    c == '\U{A0}' || c == '\U{1680}' || ('\U{2000}' <= c <= '\U{200A}') ||
    c == '\U{2028}' || c == '\U{2029}' || c == '\U{202F}' || c == '\U{205F}' || c == '\U{3000}'
  }

  /** Python's digit characters (`str.isdigit`, Unicode 15.0): the decimal digits of every
      script together with the other characters whose numeric type is a digit, such as
      superscripts, subscripts and circled digits. */
  predicate IsDigit(c: char) {
    ('0' <= c <= '9') || ('\U{B2}' <= c <= '\U{B3}') || c == '\U{B9}' ||
    ('\U{660}' <= c <= '\U{669}') || ('\U{6F0}' <= c <= '\U{6F9}') ||
    ('\U{7C0}' <= c <= '\U{7C9}') || ('\U{966}' <= c <= '\U{96F}') ||
    ('\U{9E6}' <= c <= '\U{9EF}') || ('\U{A66}' <= c <= '\U{A6F}') ||
    ('\U{AE6}' <= c <= '\U{AEF}') || ('\U{B66}' <= c <= '\U{B6F}') ||
    ('\U{BE6}' <= c <= '\U{BEF}') || ('\U{C66}' <= c <= '\U{C6F}') ||
    ('\U{CE6}' <= c <= '\U{CEF}') || ('\U{D66}' <= c <= '\U{D6F}') ||
    ('\U{DE6}' <= c <= '\U{DEF}') || ('\U{E50}' <= c <= '\U{E59}') ||
    ('\U{ED0}' <= c <= '\U{ED9}') || ('\U{F20}' <= c <= '\U{F29}') ||
    ('\U{1040}' <= c <= '\U{1049}') || ('\U{1090}' <= c <= '\U{1099}') ||
    ('\U{1369}' <= c <= '\U{1371}') || ('\U{17E0}' <= c <= '\U{17E9}') ||
    ('\U{1810}' <= c <= '\U{1819}') || ('\U{1946}' <= c <= '\U{194F}') ||
    ('\U{19D0}' <= c <= '\U{19DA}') || ('\U{1A80}' <= c <= '\U{1A89}') ||
    ('\U{1A90}' <= c <= '\U{1A99}') || ('\U{1B50}' <= c <= '\U{1B59}') ||
    ('\U{1BB0}' <= c <= '\U{1BB9}') || ('\U{1C40}' <= c <= '\U{1C49}') ||
    ('\U{1C50}' <= c <= '\U{1C59}') || c == '\U{2070}' || ('\U{2074}' <= c <= '\U{2079}') ||
    ('\U{2080}' <= c <= '\U{2089}') || ('\U{2460}' <= c <= '\U{2468}') ||
    ('\U{2474}' <= c <= '\U{247C}') || ('\U{2488}' <= c <= '\U{2490}') || c == '\U{24EA}' ||
    ('\U{24F5}' <= c <= '\U{24FD}') || c == '\U{24FF}' || ('\U{2776}' <= c <= '\U{277E}') ||
    ('\U{2780}' <= c <= '\U{2788}') || ('\U{278A}' <= c <= '\U{2792}') ||
    ('\U{A620}' <= c <= '\U{A629}') || ('\U{A8D0}' <= c <= '\U{A8D9}') ||
    ('\U{A900}' <= c <= '\U{A909}') || ('\U{A9D0}' <= c <= '\U{A9D9}') ||
    ('\U{A9F0}' <= c <= '\U{A9F9}') || ('\U{AA50}' <= c <= '\U{AA59}') ||
    ('\U{ABF0}' <= c <= '\U{ABF9}') || ('\U{FF10}' <= c <= '\U{FF19}') ||
    ('\U{104A0}' <= c <= '\U{104A9}') || ('\U{10A40}' <= c <= '\U{10A43}') ||
    ('\U{10D30}' <= c <= '\U{10D39}') || ('\U{10E60}' <= c <= '\U{10E68}') ||
    ('\U{11052}' <= c <= '\U{1105A}') || ('\U{11066}' <= c <= '\U{1106F}') ||
    ('\U{110F0}' <= c <= '\U{110F9}') || ('\U{11136}' <= c <= '\U{1113F}') ||
    ('\U{111D0}' <= c <= '\U{111D9}') || ('\U{112F0}' <= c <= '\U{112F9}') ||
    ('\U{11450}' <= c <= '\U{11459}') || ('\U{114D0}' <= c <= '\U{114D9}') ||
    ('\U{11650}' <= c <= '\U{11659}') || ('\U{116C0}' <= c <= '\U{116C9}') ||
    ('\U{11730}' <= c <= '\U{11739}') || ('\U{118E0}' <= c <= '\U{118E9}') ||
    ('\U{11950}' <= c <= '\U{11959}') || ('\U{11C50}' <= c <= '\U{11C59}') ||
    ('\U{11D50}' <= c <= '\U{11D59}') || ('\U{11DA0}' <= c <= '\U{11DA9}') ||
    ('\U{11F50}' <= c <= '\U{11F59}') || ('\U{16A60}' <= c <= '\U{16A69}') ||
    ('\U{16AC0}' <= c <= '\U{16AC9}') || ('\U{16B50}' <= c <= '\U{16B59}') ||
    ('\U{1D7CE}' <= c <= '\U{1D7FF}') || ('\U{1E140}' <= c <= '\U{1E149}') ||
    ('\U{1E2F0}' <= c <= '\U{1E2F9}') || ('\U{1E4F0}' <= c <= '\U{1E4F9}') ||
    ('\U{1E950}' <= c <= '\U{1E959}') || ('\U{1F100}' <= c <= '\U{1F10A}') ||
    ('\U{1FBF0}' <= c <= '\U{1FBF9}')
  }

  /** A token produced by `str.split()`: non-empty and free of whitespace. */
  predicate IsWord(w: string) {
    |w| > 0 && forall i :: 0 <= i < |w| ==> !IsSpace(w[i])
  }

  /** Words separated by exactly one ordinary space, with nothing around them. */
  predicate SingleSpaced(s: string) {
    && (forall i :: 0 <= i < |s| && IsSpace(s[i]) ==> s[i] == ' ')
    && (|s| > 0 ==> !IsSpace(s[0]) && !IsSpace(s[|s| - 1]))
    && (forall i :: 0 <= i < |s| - 1 && IsSpace(s[i]) ==> !IsSpace(s[i + 1]))
  }

  /** Length of the leading run of non-whitespace characters. */
  function TokenLength(s: string): (n: nat)
    ensures n <= |s|
    ensures forall i :: 0 <= i < n ==> !IsSpace(s[i])
    ensures n < |s| ==> IsSpace(s[n])
  {
    if |s| == 0 || IsSpace(s[0]) then 0 else 1 + TokenLength(s[1..])
  }

  /** Python's `s.split()`: the maximal runs of non-whitespace characters, in order. */
  function Words(s: string): (ws: seq<string>)
    ensures forall k :: 0 <= k < |ws| ==> IsWord(ws[k])
    decreases |s|
  {
    if |s| == 0 then []
    else if IsSpace(s[0]) then Words(s[1..])
    else
      var n := TokenLength(s);
      [s[..n]] + Words(s[n..])
  }

  /** A string of whitespace only. */
  predicate AllSpace(t: string) {
    forall i :: 0 <= i < |t| ==> IsSpace(t[i])
  }

  /** The words laid out between whitespace gaps: `gaps[0] + ws[0] + gaps[1] + ... + gaps[n]`. */
  function Interleave(gaps: seq<string>, ws: seq<string>): string
    requires |gaps| == |ws| + 1
    decreases |ws|
  {
    if |ws| == 0 then gaps[0] else gaps[0] + ws[0] + Interleave(gaps[1..], ws[1..])
  }

  /** A layout of words between whitespace gaps, every gap between two words non-empty. */
  predicate IsLayout(s: string, gaps: seq<string>, ws: seq<string>) {
    && |gaps| == |ws| + 1
    && (forall k :: 0 <= k < |gaps| ==> AllSpace(gaps[k]))
    && (forall k :: 0 < k < |gaps| - 1 ==> |gaps[k]| > 0)
    && s == Interleave(gaps, ws)
  }

  /** `split()` finds the maximal runs: the string is its words, in order, laid out between
      whitespace gaps, every gap between two words being non-empty. */
  lemma {:induction false} WordsLayout(s: string) returns (gaps: seq<string>)
    ensures IsLayout(s, gaps, Words(s))
    decreases |s|
  {
    if |s| == 0 {
      gaps := [""];
    } else if IsSpace(s[0]) {
      var g := WordsLayout(s[1..]);
      gaps := LayoutSpaceStep(s, g);
    } else {
      var n := TokenLength(s);
      var g := WordsLayout(s[n..]);
      gaps := LayoutWordStep(s, n, g);
    }
  }

  /** A leading whitespace character joins the first gap. */
  lemma LayoutSpaceStep(s: string, g: seq<string>) returns (gaps: seq<string>)
    requires |s| > 0 && IsSpace(s[0])
    requires IsLayout(s[1..], g, Words(s[1..]))
    ensures IsLayout(s, gaps, Words(s))
  {
    var ws := Words(s[1..]);
    assert Words(s) == ws;
    gaps := [[s[0]] + g[0]] + g[1..];
    assert gaps[1..] == g[1..];
    assert AllSpace(gaps[0]);
    if |ws| == 0 {
      assert s == [s[0]] + s[1..];
    } else {
      assert Interleave(g, ws) == g[0] + ws[0] + Interleave(g[1..], ws[1..]);
      assert s == [s[0]] + s[1..];
    }
  }

  /** A leading token becomes the first word, after an empty gap. */
  lemma LayoutWordStep(s: string, n: nat, g: seq<string>) returns (gaps: seq<string>)
    requires |s| > 0 && !IsSpace(s[0]) && n == TokenLength(s)
    requires IsLayout(s[n..], g, Words(s[n..]))
    ensures IsLayout(s, gaps, Words(s))
  {
    var ws := Words(s[n..]);
    assert Words(s) == [s[..n]] + ws;
    gaps := [""] + g;
    assert gaps[1..] == g && (Words(s))[1..] == ws;
    assert s == s[..n] + s[n..];
    if |ws| > 0 {
      assert |g[0]| > 0 by {
        assert Interleave(g, ws) == g[0] + ws[0] + Interleave(g[1..], ws[1..]);
      }
    }
  }

  /** Python's `' '.join(ws)`. */
  function Join(ws: seq<string>): string
  {
    if |ws| == 0 then ""
    else if |ws| == 1 then ws[0]
    else ws[0] + " " + Join(ws[1..])
  }

  /** Python's `s.strip()`. */
  function Strip(s: string): (r: string)
  {
    StripRight(StripLeft(s))
  }

  function StripLeft(s: string): (r: string)
    ensures |r| <= |s| && r == s[|s| - |r|..]
    ensures forall i :: 0 <= i < |s| - |r| ==> IsSpace(s[i])
    ensures |r| > 0 ==> !IsSpace(r[0])
  {
    if |s| > 0 && IsSpace(s[0]) then StripLeft(s[1..]) else s
  }

  function StripRight(s: string): (r: string)
    ensures |r| <= |s| && r == s[..|r|]
    ensures forall i :: |r| <= i < |s| ==> IsSpace(s[i])
    ensures |r| > 0 ==> !IsSpace(r[|r| - 1])
  {
    if |s| > 0 && IsSpace(s[|s| - 1]) then StripRight(s[..|s| - 1]) else s
  }

  /** Python's `s.replace(c, '')`. */
  function Remove(s: string, c: char): (r: string)
    ensures c !in r
    ensures forall d :: d != c ==> (d in r <==> d in s)
  {
    if |s| == 0 then ""
    else if s[0] == c then Remove(s[1..], c)
    else [s[0]] + Remove(s[1..], c)
  }

  /** `replace` keeps every other character as often as it occurs. */
  lemma {:induction false} RemoveCount(s: string, c: char)
    ensures multiset(Remove(s, c)) == multiset(s)[c := 0]
  {
    if |s| > 0 {
      assert s == [s[0]] + s[1..];
      RemoveCount(s[1..], c);
    }
  }

  /** `replace` works piece by piece, so the characters it keeps stay in their order. */
  lemma {:induction false} RemoveConcat(a: string, b: string, c: char)
    ensures Remove(a + b, c) == Remove(a, c) + Remove(b, c)
  {
    if |a| > 0 {
      assert (a + b)[0] == a[0] && (a + b)[1..] == a[1..] + b;
      RemoveConcat(a[1..], b, c);
    } else {
      assert a + b == b;
    }
  }

  /** A single character is dropped when it is `c` and kept otherwise. */
  lemma RemoveChar(x: char, c: char)
    ensures Remove([x], c) == if x == c then "" else [x]
  {
  }

  /** Removing a character that does not occur changes nothing. */
  lemma {:induction false} RemoveAbsent(s: string, c: char)
    requires c !in s
    ensures Remove(s, c) == s
  {
    if |s| > 0 {
      RemoveAbsent(s[1..], c);
      assert s == [s[0]] + s[1..];
    }
  }

  /** Python's `s.split(c)[0]`: everything before the first `c`. */
  function BeforeFirst(s: string, c: char): (r: string)
    ensures c !in r
    ensures |r| <= |s| && r == s[..|r|]
    ensures |r| < |s| ==> s[|r|] == c
  {
    if |s| == 0 || s[0] == c then "" else [s[0]] + BeforeFirst(s[1..], c)
  }

  /** Python's substring test `a in b`. */
  predicate IsSubstring(a: string, b: string) {
    exists i: nat | i <= |b| :: OccursAt(a, b, i)
  }

  /** `a` appears in `b` starting at position `i`. */
  predicate OccursAt(a: string, b: string, i: nat) {
    i + |a| <= |b| && b[i..i + |a|] == a
  }

  /** A substring of either part is a substring of the concatenation. */
  lemma SubstringOfConcat(a: string, x: string, y: string)
    ensures IsSubstring(a, x) ==> IsSubstring(a, x + y)
    ensures IsSubstring(a, y) ==> IsSubstring(a, x + y)
  {
    if IsSubstring(a, x) {
      var i: nat :| i <= |x| && OccursAt(a, x, i);
      assert (x + y)[i..i + |a|] == x[i..i + |a|];
      assert OccursAt(a, x + y, i);
    }
    if IsSubstring(a, y) {
      var i: nat :| i <= |y| && OccursAt(a, y, i);
      assert (x + y)[|x| + i..|x| + i + |a|] == y[i..i + |a|];
      assert OccursAt(a, x + y, |x| + i);
    }
  }

  /** Every string is a substring of itself. */
  lemma SubstringOfSelf(a: string)
    ensures IsSubstring(a, a)
  {
    assert a[0..|a|] == a;
    assert OccursAt(a, a, 0);
  }

  /** Splitting a word followed by nothing or by whitespace yields that word first. */
  lemma WordsOfWordThen(w: string, t: string)
    requires IsWord(w)
    requires |t| == 0 || IsSpace(t[0])
    ensures Words(w + t) == [w] + Words(t)
  {
    var s := w + t;
    TokenLengthOf(w, t);
    assert s[..|w|] == w && s[|w|..] == t;
  }

  lemma {:induction false} TokenLengthOf(w: string, t: string)
    requires forall i :: 0 <= i < |w| ==> !IsSpace(w[i])
    requires |t| == 0 || IsSpace(t[0])
    ensures TokenLength(w + t) == |w|
  {
    if |w| > 0 {
      assert (w + t)[1..] == w[1..] + t;
      TokenLengthOf(w[1..], t);
    } else {
      assert w + t == t;
    }
  }

  /** `split` undoes `join` on proper words. */
  lemma {:induction false} WordsOfJoin(ws: seq<string>)
    requires forall k :: 0 <= k < |ws| ==> IsWord(ws[k])
    ensures Words(Join(ws)) == ws
  {
    if |ws| == 1 {
      WordsOfWordThen(ws[0], "");
      assert ws[0] + "" == ws[0];
    } else if |ws| > 1 {
      var tail := Join(ws[1..]);
      var rest := " " + tail;
      assert Join(ws) == ws[0] + rest;
      WordsOfWordThen(ws[0], rest);
      assert rest[1..] == tail;
      assert Words(rest) == Words(tail);
      WordsOfJoin(ws[1..]);
      assert ws == [ws[0]] + ws[1..];
    }
  }

  /** Every character of a join is a separating space or comes from one of the words. */
  lemma {:induction false} JoinChars(ws: seq<string>, c: char)
    requires c in Join(ws)
    ensures c == ' ' || exists k :: 0 <= k < |ws| && c in ws[k]
  {
    if |ws| > 1 {
      if c !in ws[0] && c != ' ' {
        assert c in Join(ws[1..]);
        JoinChars(ws[1..], c);
        var k :| 0 <= k < |ws[1..]| && c in ws[1..][k];
        assert c in ws[k + 1];
      }
    }
  }

  /** Joining proper words with one space gives a single-spaced string. */
  lemma {:induction false} JoinSingleSpaced(ws: seq<string>)
    requires forall k :: 0 <= k < |ws| ==> IsWord(ws[k])
    ensures SingleSpaced(Join(ws))
  {
    if |ws| > 1 {
      JoinSingleSpaced(ws[1..]);
      var w, j := ws[0], Join(ws[1..]);
      var s := w + " " + j;
      assert |j| > 0 by { assert |ws[1..]| > 0; JoinNonEmpty(ws[1..]); }
      forall i | 0 <= i < |s| && IsSpace(s[i]) ensures s[i] == ' ' {
        if i > |w| { assert s[i] == j[i - |w| - 1]; }
      }
      forall i | 0 <= i < |s| - 1 && IsSpace(s[i]) ensures !IsSpace(s[i + 1]) {
        if i > |w| { assert s[i] == j[i - |w| - 1] && s[i + 1] == j[i - |w|]; }
      }
      assert s[|s| - 1] == j[|j| - 1];
    }
  }

  lemma {:induction false} JoinNonEmpty(ws: seq<string>)
    requires |ws| > 0 && forall k :: 0 <= k < |ws| ==> IsWord(ws[k])
    ensures |Join(ws)| > 0
  {
  }

  /** A string without surrounding whitespace is left alone by `strip`. */
  lemma StripUnchanged(s: string)
    requires |s| > 0 ==> !IsSpace(s[0]) && !IsSpace(s[|s| - 1])
    ensures Strip(s) == s
  {
  }

  /** Without the separator, `split(c)[0]` is the whole string. */
  lemma {:induction false} BeforeFirstAbsent(s: string, c: char)
    requires c !in s
    ensures BeforeFirst(s, c) == s
  {
    if |s| > 0 {
      BeforeFirstAbsent(s[1..], c);
      assert s == [s[0]] + s[1..];
    }
  }
}
