/** The two ways the reader and the aggregator tidy a security's display name. */
module NameCleaning {
  import opened Text

  /** A token survives the reader's cleaning when it has no digit and no percent sign. */
  predicate KeepToken(t: string) {
    (forall i :: 0 <= i < |t| ==> !IsDigit(t[i])) && '%' !in t
  }

  /** Digits of other scripts count too: a token with a superscript two or an Arabic-Indic
      three is dropped. */
  lemma NonAsciiDigitsDropped()
    ensures !KeepToken("Fund\U{B2}")
    ensures !KeepToken("\U{663}x")
  {
    assert IsDigit("Fund\U{B2}"[4]);
    assert IsDigit("\U{663}x"[0]);
  }

  /** The surviving tokens, in order. */
  function KeptTokens(ws: seq<string>): (r: seq<string>)
    ensures forall k :: 0 <= k < |r| ==> KeepToken(r[k])
    ensures forall k :: 0 <= k < |ws| && IsWord(ws[k]) ==> (KeepToken(ws[k]) <==> ws[k] in r)
    ensures (forall k :: 0 <= k < |ws| ==> IsWord(ws[k])) ==> forall k :: 0 <= k < |r| ==> IsWord(r[k])
  {
    if |ws| == 0 then []
    else if KeepToken(ws[0]) then [ws[0]] + KeptTokens(ws[1..])
    else KeptTokens(ws[1..])
  }

  /** A kept token occurs as often as in the input, a dropped one not at all. */
  lemma {:induction false} KeptTokensCount(ws: seq<string>, w: string)
    ensures multiset(KeptTokens(ws))[w] == if KeepToken(w) then multiset(ws)[w] else 0
  {
    if |ws| > 0 {
      assert ws == [ws[0]] + ws[1..];
      KeptTokensCount(ws[1..], w);
    }
  }

  /** The filter works token by token, so the kept tokens stay in their order. */
  lemma {:induction false} KeptTokensConcat(a: seq<string>, b: seq<string>)
    ensures KeptTokens(a + b) == KeptTokens(a) + KeptTokens(b)
  {
    if |a| > 0 {
      assert (a + b)[0] == a[0] && (a + b)[1..] == a[1..] + b;
      KeptTokensConcat(a[1..], b);
    } else {
      assert a + b == b;
    }
  }

  /** The reader's name cleaning: split on whitespace, drop every token that holds a digit or a
      `%`, and join the rest with single spaces. */
  function CleanTokens(s: string): (r: string)
    ensures forall i :: 0 <= i < |r| ==> !IsDigit(r[i]) && r[i] != '%'
    ensures SingleSpaced(r)
    ensures Words(r) == KeptTokens(Words(s))
  {
    var kept := KeptTokens(Words(s));
    JoinSingleSpaced(kept);
    WordsOfJoin(kept);
    forall i | 0 <= i < |Join(kept)| ensures !IsDigit(Join(kept)[i]) && Join(kept)[i] != '%' {
      KeptJoinChar(kept, Join(kept)[i]);
    }
    Join(kept)
  }

  /** A character of a join of kept tokens is neither a digit nor `%`. */
  lemma KeptJoinChar(kept: seq<string>, c: char)
    requires forall k :: 0 <= k < |kept| ==> KeepToken(kept[k])
    requires c in Join(kept)
    ensures !IsDigit(c) && c != '%'
  {
    JoinChars(kept, c);
    if c == ' ' {
      SpaceNotDigit();
    } else {
      var k :| 0 <= k < |kept| && c in kept[k];
      KeptChar(kept[k], c);
    }
  }

  lemma SpaceNotDigit()
    ensures !IsDigit(' ')
  {
  }

  lemma KeptChar(t: string, c: char)
    requires KeepToken(t) && c in t
    ensures !IsDigit(c) && c != '%'
  {
  }

  /** Filtering tokens that all pass already changes nothing. */
  lemma {:induction false} KeptTokensAllPass(ws: seq<string>)
    requires forall k :: 0 <= k < |ws| ==> KeepToken(ws[k])
    ensures KeptTokens(ws) == ws
  {
    if |ws| > 0 {
      KeptTokensAllPass(ws[1..]);
      assert ws == [ws[0]] + ws[1..];
    }
  }

  /** Cleaning a cleaned name changes nothing. */
  lemma CleanTokensIdempotent(s: string)
    ensures CleanTokens(CleanTokens(s)) == CleanTokens(s)
  {
    var kept := KeptTokens(Words(s));
    var r := CleanTokens(s);
    assert r == Join(kept);
    KeptTokensAllPass(kept);
    assert Words(r) == kept;
  }

  /** The aggregator's name normalisation: strip, keep what precedes the first `%`, strip again,
      and collapse whitespace runs to single spaces. */
  function NormalizeName(s: string): (r: string)
    ensures '%' !in r
    ensures SingleSpaced(r)
    ensures Words(r) == Words(BeforeFirst(Strip(s), '%'))
  {
    var ws := Words(Strip(BeforeFirst(Strip(s), '%')));
    assert Words(Strip(BeforeFirst(Strip(s), '%'))) == Words(BeforeFirst(Strip(s), '%')) by {
      StripKeepsWords(BeforeFirst(Strip(s), '%'));
    }
    JoinSingleSpaced(ws);
    WordsOfJoin(ws);
    assert '%' !in Join(ws) by {
      if '%' in Join(ws) {
        JoinChars(ws, '%');
        var k :| 0 <= k < |ws| && '%' in ws[k];
        WordsChars(Strip(BeforeFirst(Strip(s), '%')), k, '%');
        assert false;
      }
    }
    Join(ws)
  }

  /** `strip` never changes how a string splits into words. */
  lemma StripKeepsWords(s: string)
    ensures Words(Strip(s)) == Words(s)
  {
    StripLeftKeepsWords(s);
    StripRightKeepsWords(StripLeft(s));
  }

  lemma {:induction false} StripLeftKeepsWords(s: string)
    ensures Words(StripLeft(s)) == Words(s)
  {
    if |s| > 0 && IsSpace(s[0]) {
      StripLeftKeepsWords(s[1..]);
    }
  }

  lemma {:induction false} StripRightKeepsWords(s: string)
    ensures Words(StripRight(s)) == Words(s)
    decreases |s|
  {
    if |s| > 0 && IsSpace(s[|s| - 1]) {
      StripRightKeepsWords(s[..|s| - 1]);
      TrailingSpaceKeepsWords(s[..|s| - 1], s[|s| - 1]);
      assert s == s[..|s| - 1] + [s[|s| - 1]];
    }
  }

  /** Appending one whitespace character does not change the words. */
  lemma {:induction false} TrailingSpaceKeepsWords(s: string, c: char)
    requires IsSpace(c)
    ensures Words(s + [c]) == Words(s)
    decreases |s|
  {
    if |s| == 0 {
      assert Words([c]) == Words([c][1..]);
    } else if IsSpace(s[0]) {
      assert (s + [c])[1..] == s[1..] + [c];
      TrailingSpaceKeepsWords(s[1..], c);
    } else {
      var n := TokenLength(s);
      var sc := s + [c];
      assert TokenLength(sc) == n by {
        assert sc == s[..n] + sc[n..];
        TokenLengthOf(s[..n], sc[n..]);
      }
      assert sc[..n] == s[..n];
      assert sc[n..] == s[n..] + [c];
      TrailingSpaceKeepsWords(s[n..], c);
    }
  }

  /** A character of one of the words occurs in the string itself. */
  lemma {:induction false} WordsChars(s: string, k: nat, c: char)
    requires k < |Words(s)| && c in Words(s)[k]
    ensures c in s
    decreases |s|
  {
    if IsSpace(s[0]) {
      WordsChars(s[1..], k, c);
    } else {
      var n := TokenLength(s);
      if k > 0 {
        WordsChars(s[n..], k - 1, c);
      }
    }
  }

  /** Normalising a normalised name changes nothing. */
  lemma NormalizeNameIdempotent(s: string)
    ensures NormalizeName(NormalizeName(s)) == NormalizeName(s)
  {
    var r := NormalizeName(s);
    StripUnchanged(r);
    BeforeFirstAbsent(r, '%');
    StripUnchanged(r);
    var ws := Words(BeforeFirst(Strip(s), '%'));
    assert r == Join(Words(Strip(BeforeFirst(Strip(s), '%'))));
    StripKeepsWords(BeforeFirst(Strip(s), '%'));
    assert r == Join(ws);
    WordsOfJoin(ws);
  }
}
