/** Character classes and string helpers shared by the cleaning chains:
    Python's notion of whitespace, ASCII digits and letters, decimal
    rendering, and `str.split()` / `" ".join(...)` / `str.strip()`. */
module Text {

  /** `str.isspace()`; for a `str` pattern this is also the set `\s` matches. */
  predicate IsSpace(c: char) {
    c == ' ' || ('\t' <= c <= '\r') || ('\U{1c}' <= c <= '\U{1f}')
    || c == '\U{85}' || c == '\U{a0}' || c == '\U{1680}'
    || ('\U{2000}' <= c <= '\U{200a}') || c == '\U{2028}' || c == '\U{2029}'
    || c == '\U{202f}' || c == '\U{205f}' || c == '\U{3000}'
  }

  predicate IsDigit(c: char) { '0' <= c <= '9' }

  predicate IsAsciiLetter(c: char) { ('a' <= c <= 'z') || ('A' <= c <= 'Z') }

  /** `\w`, restricted to ASCII. */
  predicate IsWordChar(c: char) { IsAsciiLetter(c) || IsDigit(c) || c == '_' }

  /** ASCII lower-casing of one character. */
  function LowerChar(c: char): char {
    if 'A' <= c <= 'Z' then (c as int + 32) as char else c
  }

  /** `str.lower()`, restricted to ASCII letters. */
  function Lower(s: string): (r: string)
    ensures |r| == |s|
    ensures forall i :: 0 <= i < |s| ==> r[i] == LowerChar(s[i])
  {
    seq(|s|, i requires 0 <= i < |s| => LowerChar(s[i]))
  }

  /** Every character is whitespace. */
  predicate AllSpace(s: string) { forall i :: 0 <= i < |s| ==> IsSpace(s[i]) }

  // ---------------------------------------------------------------------------
  // Decimal numbers

  predicate AllDigits(s: string) { forall i :: 0 <= i < |s| ==> IsDigit(s[i]) }

  function DigitChar(d: nat): (c: char)
    requires d < 10
    ensures IsDigit(c)
  {
    ('0' as int + d) as char
  }

  function DigitValue(c: char): nat
    requires IsDigit(c)
  {
    c as int - '0' as int
  }

  /** `str(n)` for a natural number: decimal digits, no leading zero. */
  function NatToString(n: nat): (r: string)
    ensures r != [] && AllDigits(r)
    ensures r[0] == '0' ==> n == 0 && |r| == 1
    decreases n
  {
    if n < 10 then [DigitChar(n)] else NatToString(n / 10) + [DigitChar(n % 10)]
  }

  /** The value of a run of decimal digits (the empty run is 0). */
  function DigitsValue(s: string): nat
    requires AllDigits(s)
  {
    if s == [] then 0 else DigitsValue(s[..|s| - 1]) * 10 + DigitValue(s[|s| - 1])
  }

  /** Reading back a rendered number gives the number. */
  lemma {:induction false} DecimalRoundTrip(n: nat)
    ensures DigitsValue(NatToString(n)) == n
  {
    var r := NatToString(n);
    if n >= 10 {
      DecimalRoundTrip(n / 10);
      assert r[..|r| - 1] == NatToString(n / 10);
    }
  }

  // ---------------------------------------------------------------------------
  // Words: str.split() with no argument, and joining with a separator

  /** A word of `str.split()`: non-empty, no whitespace inside. */
  predicate IsWord(w: string) {
    w != [] && forall i :: 0 <= i < |w| ==> !IsSpace(w[i])
  }

  /** Length of the longest whitespace-free prefix. */
  function WordLen(s: string): (n: nat)
    ensures n <= |s|
    ensures forall i :: 0 <= i < n ==> !IsSpace(s[i])
    ensures n < |s| ==> IsSpace(s[n])
  {
    if s == [] || IsSpace(s[0]) then 0 else 1 + WordLen(s[1..])
  }

  /** `s.split()`: the maximal whitespace-free runs, in order. */
  function SplitWords(s: string): (ws: seq<string>)
    ensures forall i :: 0 <= i < |ws| ==> IsWord(ws[i])
    decreases |s|
  {
    if s == [] then []
    else if IsSpace(s[0]) then SplitWords(s[1..])
    else var n := WordLen(s); [s[..n]] + SplitWords(s[n..])
  }

  /** `sep.join(parts)`. */
  function JoinWith(sep: string, parts: seq<string>): string {
    if |parts| == 0 then ""
    else if |parts| == 1 then parts[0]
    else parts[0] + sep + JoinWith(sep, parts[1..])
  }

  /** Text in normal form: no leading or trailing whitespace, and every
      whitespace character is a single ' ' between two non-whitespace ones. */
  predicate NormalForm(r: string) {
    (forall i :: 0 <= i < |r| && IsSpace(r[i]) ==> r[i] == ' ' && 0 < i < |r| - 1)
    && (forall i, j :: 0 <= i && j == i + 1 < |r| && IsSpace(r[i]) ==> !IsSpace(r[j]))
  }

  /** `" ".join(s.split())`. */
  function Normalize(s: string): (r: string)
    ensures NormalForm(r)
    ensures r == [] <==> SplitWords(s) == []
  {
    JoinNormal(SplitWords(s));
    JoinWith(" ", SplitWords(s))
  }

  /** Joining words with single spaces gives normal-form text that starts
      and ends with a non-space exactly when there is a word. */
  lemma {:induction false} JoinNormal(ws: seq<string>)
    requires forall i :: 0 <= i < |ws| ==> IsWord(ws[i])
    ensures NormalForm(JoinWith(" ", ws))
    ensures JoinWith(" ", ws) == [] <==> ws == []
    ensures ws != [] ==> !IsSpace(JoinWith(" ", ws)[0])
    ensures ws != [] ==> !IsSpace(JoinWith(" ", ws)[|JoinWith(" ", ws)| - 1])
  {
    if |ws| >= 2 {
      var rest := JoinWith(" ", ws[1..]);
      JoinNormal(ws[1..]);
      var w := ws[0];
      var j := w + " " + rest;
      assert j == JoinWith(" ", ws);
      assert forall i :: 0 <= i < |w| ==> j[i] == w[i];
      assert j[|w|] == ' ' && j[|w| + 1] == rest[0];
      assert forall i :: |w| < i < |j| ==> j[i] == rest[i - |w| - 1];
    }
  }

  /** A word followed by nothing or by whitespace splits off as one word. */
  lemma SplitWordThenRest(w: string, rest: string)
    requires IsWord(w)
    requires rest == [] || IsSpace(rest[0])
    ensures SplitWords(w + rest) == [w] + SplitWords(rest)
  {
    var s := w + rest;
    var n := WordLen(s);
    assert forall i :: 0 <= i < |w| ==> s[i] == w[i];
    assert rest != [] ==> s[|w|] == rest[0];
    assert n == |w|;
    assert s[..n] == w && s[n..] == rest;
  }

  /** `t` occurs in `s` starting at `off`. */
  predicate SliceAt(s: string, off: nat, t: string) {
    off + |t| <= |s| && s[off..off + |t|] == t
  }

  /** Every part occurs, as a contiguous slice, in the joined text. */
  lemma {:induction false} JoinContains(sep: string, parts: seq<string>, k: nat)
    requires k < |parts|
    ensures exists off: nat :: SliceAt(JoinWith(sep, parts), off, parts[k])
  {
    var j := JoinWith(sep, parts);
    if |parts| == 1 {
      assert j[0..|parts[k]|] == parts[k];
      assert SliceAt(j, 0, parts[k]);
    } else {
      var head := parts[0] + sep;
      var rest := JoinWith(sep, parts[1..]);
      assert j == head + rest;
      if k == 0 {
        assert j[0..|parts[0]|] == parts[0];
        assert SliceAt(j, 0, parts[k]);
      } else {
        JoinContains(sep, parts[1..], k - 1);
        var off: nat :| SliceAt(rest, off, parts[k]);
        assert j[|head| + off..|head| + off + |parts[k]|] == rest[off..off + |parts[k]|];
        assert SliceAt(j, |head| + off, parts[k]);
      }
    }
  }

  /** A string with no words is all whitespace. */
  lemma {:induction false} NoWordsAllSpace(s: string)
    requires SplitWords(s) == []
    ensures forall i :: 0 <= i < |s| ==> IsSpace(s[i])
    decreases |s|
  {
    if s != [] {
      NoWordsAllSpace(s[1..]);
      forall i | 0 < i < |s| ensures IsSpace(s[i]) { assert s[i] == s[1..][i - 1]; }
    }
  }

  /** `" ".join(...)` followed by `.split()` gives back the words. */
  lemma {:induction false} SplitJoin(ws: seq<string>)
    requires forall i :: 0 <= i < |ws| ==> IsWord(ws[i])
    ensures SplitWords(JoinWith(" ", ws)) == ws
  {
    if |ws| == 1 {
      SplitWordThenRest(ws[0], "");
      assert ws[0] + "" == ws[0];
    } else if |ws| >= 2 {
      SplitJoin(ws[1..]);
      SplitJoinStep(ws);
    }
  }

  /** One step of `SplitJoin`: the first word, then the rest. */
  lemma SplitJoinStep(ws: seq<string>)
    requires |ws| >= 2 && forall i :: 0 <= i < |ws| ==> IsWord(ws[i])
    requires SplitWords(JoinWith(" ", ws[1..])) == ws[1..]
    ensures SplitWords(JoinWith(" ", ws)) == ws
  {
    WordThenSpaced(ws[0], JoinWith(" ", ws[1..]), ws[1..]);
    assert [ws[0]] + ws[1..] == ws;
  }

  /** A word, a blank and a text split into the word and the text's words. */
  lemma WordThenSpaced(w: string, rest: string, tail: seq<string>)
    requires IsWord(w) && SplitWords(rest) == tail
    ensures SplitWords(w + " " + rest) == [w] + tail
  {
    SplitWordThenRest(w, " " + rest);
    assert w + " " + rest == w + (" " + rest);
    SplitAfterSpace(rest);
  }

  /** A leading space is not part of any word. */
  lemma SplitAfterSpace(rest: string)
    ensures SplitWords(" " + rest) == SplitWords(rest)
  {
    assert (" " + rest)[1..] == rest;
  }

  /** Whitespace normalisation is idempotent and keeps the words. */
  lemma NormalizeIdempotent(s: string)
    ensures SplitWords(Normalize(s)) == SplitWords(s)
    ensures Normalize(Normalize(s)) == Normalize(s)
  {
    SplitJoin(SplitWords(s));
  }

  // ---------------------------------------------------------------------------
  // str.strip()

  function StripLeading(s: string): (r: string)
    ensures r == [] || !IsSpace(r[0])
    decreases |s|
  {
    if s != [] && IsSpace(s[0]) then StripLeading(s[1..]) else s
  }

  function StripTrailing(s: string): (r: string)
    ensures r == [] || !IsSpace(r[|r| - 1])
    decreases |s|
  {
    if s != [] && IsSpace(s[|s| - 1]) then StripTrailing(s[..|s| - 1]) else s
  }

  /** `s.strip()`: the slice of `s` left once its leading and trailing
      whitespace is removed. */
  function Strip(s: string): (r: string)
    ensures r == [] || (!IsSpace(r[0]) && !IsSpace(r[|r| - 1]))
    ensures exists a, b :: 0 <= a <= b <= |s| && r == s[a..b]
              && (forall k :: 0 <= k < a ==> IsSpace(s[k]))
              && (forall k :: b <= k < |s| ==> IsSpace(s[k]))
  {
    StripSlice(s);
    var a := |s| - |StripLeading(s)|;
    var r := StripTrailing(StripLeading(s));
    assert r == s[a..a + |r|];
    r
  }

  /** Where the slice kept by `Strip` starts and ends. */
  lemma StripSlice(s: string)
    ensures var r := StripTrailing(StripLeading(s));
            var a := |s| - |StripLeading(s)|;
            0 <= a && a + |r| <= |s| && r == s[a..a + |r|]
            && (r == [] || !IsSpace(r[0]))
            && (forall k :: 0 <= k < a ==> IsSpace(s[k]))
            && (forall k :: a + |r| <= k < |s| ==> IsSpace(s[k]))
  {
    StripLeadingSuffix(s);
    StripTrailingPrefix(StripLeading(s));
    StrippedSlice(s, StripLeading(s), StripTrailing(StripLeading(s)));
  }

  /** A prefix `r` of a suffix `l` of `s`, each cut off by whitespace only. */
  lemma StrippedSlice(s: string, l: string, r: string)
    requires |l| <= |s| && l == s[|s| - |l|..] && forall k :: 0 <= k < |s| - |l| ==> IsSpace(s[k])
    requires |r| <= |l| && r == l[..|r|] && forall k :: |r| <= k < |l| ==> IsSpace(l[k])
    requires l == [] || !IsSpace(l[0])
    ensures var a := |s| - |l|;
            0 <= a && a + |r| <= |s| && r == s[a..a + |r|]
            && (r == [] || !IsSpace(r[0]))
            && (forall k :: 0 <= k < a ==> IsSpace(s[k]))
            && (forall k :: a + |r| <= k < |s| ==> IsSpace(s[k]))
  {
    var a := |s| - |l|;
    assert r != [] ==> r[0] == l[0];
    assert r == s[a..a + |r|];
    forall k | a + |r| <= k < |s| ensures IsSpace(s[k]) {
      assert s[k] == l[k - a];
    }
  }

  /** `lstrip` keeps a suffix and drops only whitespace. */
  lemma {:induction false} StripLeadingSuffix(s: string)
    ensures |StripLeading(s)| <= |s|
    ensures StripLeading(s) == s[|s| - |StripLeading(s)|..]
    ensures forall k :: 0 <= k < |s| - |StripLeading(s)| ==> IsSpace(s[k])
    decreases |s|
  {
    if s != [] && IsSpace(s[0]) {
      StripLeadingSuffix(s[1..]);
      assert s[1..][|s| - 1 - |StripLeading(s)|..] == s[|s| - |StripLeading(s)|..];
      forall k | 1 <= k < |s| - |StripLeading(s)| ensures IsSpace(s[k]) {
        assert s[k] == s[1..][k - 1];
      }
    }
  }

  /** `rstrip` keeps a prefix and drops only whitespace. */
  lemma {:induction false} StripTrailingPrefix(s: string)
    ensures |StripTrailing(s)| <= |s|
    ensures StripTrailing(s) == s[..|StripTrailing(s)|]
    ensures forall k :: |StripTrailing(s)| <= k < |s| ==> IsSpace(s[k])
    decreases |s|
  {
    if s != [] && IsSpace(s[|s| - 1]) {
      StripTrailingPrefix(s[..|s| - 1]);
      forall k | |StripTrailing(s)| <= k < |s| - 1 ensures IsSpace(s[k]) {
        assert s[k] == s[..|s| - 1][k];
      }
    }
  }

  /** Stripping text made of normal-form content with at most one space on
      either side gives back the content. */
  lemma StripPadded(j: string, lead: string, trail: string)
    requires NormalForm(j)
    requires j == [] || (!IsSpace(j[0]) && !IsSpace(j[|j| - 1]))
    requires lead == "" || lead == " "
    requires trail == "" || trail == " "
    requires j == [] ==> trail == ""
    ensures Strip(lead + j + trail) == j
  {
    var s := lead + j + trail;
    assert StripLeading(s) == j + trail by {
      if lead == " " {
        assert s[1..] == j + trail;
      } else {
        assert s == j + trail;
      }
    }
    if trail == " " {
      assert (j + trail)[..|j + trail| - 1] == j;
      assert StripTrailing(j) == j;
    } else {
      assert j + trail == j;
    }
  }
}
