/**
 * String helpers shared by the JavaScript and PHP parts of the model:
 * ASCII lower-casing (PHP strtolower), whitespace trimming (String.prototype.trim),
 * substring search, the '&amp;' rewrite of redirect URLs, the split behind
 * TListControlValidator's Required option, and decimal rendering of lengths.
 */
module Text {
  import opened Wrappers

  // ---------------------------------------------------------------- case

  function LowerChar(c: char): char {
    if 'A' <= c <= 'Z' then (c as int + 32) as char else c
  }

  /** strtolower in the default locale: ASCII capitals become lower case, nothing else changes. */
  function ToLower(s: string): (r: string)
    ensures |r| == |s|
    ensures forall i :: 0 <= i < |s| ==> r[i] == LowerChar(s[i])
  {
    if s == [] then [] else [LowerChar(s[0])] + ToLower(s[1..])
  }

  /** Lower-casing twice is lower-casing once. */
  lemma ToLowerIdempotent(s: string)
    ensures ToLower(ToLower(s)) == ToLower(s)
  {
    assert forall i :: 0 <= i < |s| ==> LowerChar(LowerChar(s[i])) == LowerChar(s[i]);
  }

  // ---------------------------------------------------------------- whitespace

  /** The ASCII white-space characters that JavaScript's trim and \s recognise. */
  predicate IsSpace(c: char) {
    c == ' ' || c == '\t' || c == '\n' || c == '\r' || c == '\U{B}' || c == '\U{C}'
  }

  /** Drops the white space at the start of s. */
  function TrimStart(s: string): (r: string)
    ensures |r| <= |s| && r == s[|s| - |r|..]
    ensures r == [] || !IsSpace(r[0])
  {
    if s != [] && IsSpace(s[0]) then TrimStart(s[1..]) else s
  }

  /** Drops the white space at the end of s. */
  function TrimEnd(s: string): (r: string)
    ensures |r| <= |s| && r == s[..|r|]
    ensures r == [] || !IsSpace(r[|r| - 1])
  {
    if s != [] && IsSpace(s[|s| - 1]) then TrimEnd(s[..|s| - 1]) else s
  }

  /** Only white space is dropped at the start. */
  lemma {:induction false} TrimStartDropsOnlySpace(s: string)
    ensures forall i :: 0 <= i < |s| - |TrimStart(s)| ==> IsSpace(s[i])
    decreases |s|
  {
    if s != [] && IsSpace(s[0]) {
      TrimStartDropsOnlySpace(s[1..]);
      assert forall i :: 1 <= i < |s| - |TrimStart(s)| ==> s[i] == s[1..][i - 1];
    }
  }

  /** Only white space is dropped at the end. */
  lemma {:induction false} TrimEndDropsOnlySpace(s: string)
    ensures forall i :: |TrimEnd(s)| <= i < |s| ==> IsSpace(s[i])
    decreases |s|
  {
    if s != [] && IsSpace(s[|s| - 1]) {
      TrimEndDropsOnlySpace(s[..|s| - 1]);
      assert forall i :: |TrimEnd(s)| <= i < |s| - 1 ==> s[i] == s[..|s| - 1][i];
    }
  }

  /** String.prototype.trim restricted to ASCII white space. */
  function Trim(s: string): string {
    TrimEnd(TrimStart(s))
  }

  // ---------------------------------------------------------------- search

  /** t occurs in s starting at position j. */
  predicate MatchesAt<T(==)>(s: seq<T>, t: seq<T>, j: int) {
    0 <= j && j + |t| <= |s| && forall k :: 0 <= k < |t| ==> s[j + k] == t[k]
  }

  /** The position of the first occurrence of t in s at or after j, if any. */
  function IndexFrom<T(==)>(s: seq<T>, t: seq<T>, j: nat): (r: Option<nat>)
    ensures r.Some? ==> j <= r.value && r.value + |t| <= |s|
    decreases |s| - j
  {
    if j + |t| > |s| then None
    else if MatchesAt(s, t, j) then Some(j)
    else IndexFrom(s, t, j + 1)
  }

  /** The position of the first occurrence of t in s, if any (an empty t occurs at 0). */
  function IndexOf<T(==)>(s: seq<T>, t: seq<T>): (r: Option<nat>)
    ensures r.Some? ==> r.value + |t| <= |s|
  {
    IndexFrom(s, t, 0)
  }

  /** The search answers the first occurrence at or after j, and None only when there is none. */
  lemma {:induction false} IndexFromIsFirst<T>(s: seq<T>, t: seq<T>, j: nat)
    ensures IndexFrom(s, t, j).Some? ==> MatchesAt(s, t, IndexFrom(s, t, j).value)
    ensures IndexFrom(s, t, j).Some? ==> forall i :: j <= i < IndexFrom(s, t, j).value ==> !MatchesAt(s, t, i)
    ensures IndexFrom(s, t, j).None? ==> forall i :: j <= i ==> !MatchesAt(s, t, i)
    decreases |s| - j
  {
    if j + |t| <= |s| && !MatchesAt(s, t, j) {
      IndexFromIsFirst(s, t, j + 1);
    }
  }

  /** IndexOf answers the first occurrence, and None only when there is none. */
  lemma IndexOfIsFirst<T>(s: seq<T>, t: seq<T>)
    ensures IndexOf(s, t).Some? ==> MatchesAt(s, t, IndexOf(s, t).value)
    ensures IndexOf(s, t).Some? ==> forall j :: 0 <= j < IndexOf(s, t).value ==> !MatchesAt(s, t, j)
    ensures IndexOf(s, t).None? ==> forall j :: !MatchesAt(s, t, j)
  {
    IndexFromIsFirst(s, t, 0);
  }

  /**
   * preg_replace with limit 1 and a literal pattern: the first occurrence of t
   * in s is replaced by v; without an occurrence s is returned as it is.
   */
  function ReplaceFirst<T(==)>(s: seq<T>, t: seq<T>, v: seq<T>): seq<T> {
    match IndexOf(s, t)
    case None => s
    case Some(i) => s[..i] + v + s[i + |t|..]
  }

  // ---------------------------------------------------------------- '&amp;'

  const EncodedAmp: string := "&amp;"

  /** str_replace('&amp;', '&', s): one left-to-right pass over non-overlapping occurrences. */
  function DecodeAmp(s: string): (r: string)
    ensures |r| <= |s|
    decreases |s|
  {
    if |s| >= 5 && s[..5] == EncodedAmp then "&" + DecodeAmp(s[5..])
    else if s == [] then []
    else [s[0]] + DecodeAmp(s[1..])
  }

  /** HTML-escapes every ampersand of s. */
  function EncodeAmp(s: string): string {
    if s == [] then []
    else (if s[0] == '&' then EncodedAmp else [s[0]]) + EncodeAmp(s[1..])
  }

  // ---------------------------------------------------------------- split

  /** Splits s at every comma; the pieces hold no comma. */
  function SplitComma(s: string): (parts: seq<string>)
    ensures |parts| >= 1
    decreases |s|
  {
    if ',' !in s then [s]
    else
      var i := FirstComma(s);
      [s[..i]] + SplitComma(s[i + 1..])
  }

  function FirstComma(s: string): (i: nat)
    requires ',' in s
    ensures i < |s| && s[i] == ',' && ',' !in s[..i]
  {
    if s[0] == ',' then 0 else 1 + FirstComma(s[1..])
  }

  /** Puts comma-free pieces back together with commas. */
  function JoinComma(parts: seq<string>): string
    requires |parts| >= 1
  {
    if |parts| == 1 then parts[0] else parts[0] + "," + JoinComma(parts[1..])
  }

  // ---------------------------------------------------------------- decimal

  function DigitChar(d: nat): char
    requires d < 10
  {
    ('0' as int + d) as char
  }

  predicate IsDigit(c: char) { '0' <= c <= '9' }

  /** The decimal rendering PHP gives an integer in string concatenation. */
  function NatToDecimal(n: nat): (s: string)
    ensures |s| >= 1 && forall i :: 0 <= i < |s| ==> IsDigit(s[i])
    ensures n > 0 <==> s[0] != '0'
  {
    if n < 10 then [DigitChar(n)] else NatToDecimal(n / 10) + [DigitChar(n % 10)]
  }

  /** The number a string of decimal digits stands for. */
  function DecimalValue(s: string): nat
    requires forall i :: 0 <= i < |s| ==> IsDigit(s[i])
  {
    if s == [] then 0
    else
      assert IsDigit(s[|s| - 1]);
      DecimalValue(s[..|s| - 1]) * 10 + (s[|s| - 1] as int - '0' as int)
  }

  // ---------------------------------------------------------------- lemmas

  /** Regrouping a concatenation, stated once so that callers do not pay for it in a larger context. */
  lemma AppendAssociates(a: string, b: string, c: string)
    ensures (a + b) + c == a + (b + c)
  {
  }

  /** Decoding undoes the HTML escaping of ampersands, whatever the URL holds. */
  lemma {:induction false} DecodeEncodeAmp(s: string)
    ensures DecodeAmp(EncodeAmp(s)) == s
    decreases |s|
  {
    if s != [] {
      var rest := EncodeAmp(s[1..]);
      DecodeEncodeAmp(s[1..]);
      if s[0] == '&' {
        assert EncodeAmp(s) == EncodedAmp + rest;
        assert (EncodedAmp + rest)[..5] == EncodedAmp;
        assert (EncodedAmp + rest)[5..] == rest;
      } else {
        assert EncodeAmp(s) == [s[0]] + rest;
        assert ([s[0]] + rest)[1..] == rest;
      }
    }
  }

  /** Text without an ampersand is left as it is. */
  lemma {:induction false} DecodeAmpWithoutAmpersand(s: string)
    requires '&' !in s
    ensures DecodeAmp(s) == s
    decreases |s|
  {
    if s != [] {
      assert s[0] != '&';
      assert !(|s| >= 5 && s[..5] == EncodedAmp) by {
        if |s| >= 5 {
          assert s[..5][0] == s[0];
        }
      }
      assert forall c :: c in s[1..] ==> c in s;
      DecodeAmpWithoutAmpersand(s[1..]);
    }
  }

  /** The rewrite is a single pass: a doubly escaped ampersand comes out singly escaped. */
  lemma DecodeAmpIsSinglePass()
    ensures DecodeAmp("&amp;amp;") == "&amp;"
  {
    var s := "&amp;amp;";
    assert s[..5] == EncodedAmp;
    assert s[5..] == "amp;";
    assert '&' !in "amp;";
    DecodeAmpWithoutAmpersand("amp;");
  }

  /** Rendering a count in decimal and reading it back gives the count. */
  lemma {:induction false} DecimalRoundTrip(n: nat)
    ensures DecimalValue(NatToDecimal(n)) == n
    decreases n
  {
    if n >= 10 {
      DecimalRoundTrip(n / 10);
      var s := NatToDecimal(n);
      assert s == NatToDecimal(n / 10) + [DigitChar(n % 10)];
      assert s[..|s| - 1] == NatToDecimal(n / 10);
      assert s[|s| - 1] as int - '0' as int == n % 10;
    }
  }

  lemma SplitAround(s: string, i: nat)
    requires i < |s| && s[i] == ','
    ensures s == s[..i] + "," + s[i + 1..]
  {
    assert s[..i] + [s[i]] == s[..i + 1];
    assert s[..i + 1] + s[i + 1..] == s;
  }

  /** No piece of a split holds a comma. */
  lemma {:induction false} SplitCommaPieces(s: string)
    ensures forall k :: 0 <= k < |SplitComma(s)| ==> ',' !in SplitComma(s)[k]
    decreases |s|
  {
    if ',' in s {
      var i := FirstComma(s);
      SplitCommaPieces(s[i + 1..]);
      assert SplitComma(s) == [s[..i]] + SplitComma(s[i + 1..]);
    }
  }

  /** Splitting at commas and joining with commas gives the original text back. */
  lemma {:induction false} SplitJoinComma(s: string)
    ensures JoinComma(SplitComma(s)) == s
    decreases |s|
  {
    if ',' in s {
      var i := FirstComma(s);
      var rest := SplitComma(s[i + 1..]);
      SplitJoinComma(s[i + 1..]);
      assert SplitComma(s) == [s[..i]] + rest;
      assert JoinComma([s[..i]] + rest) == s[..i] + "," + JoinComma(rest) by {
        assert ([s[..i]] + rest)[1..] == rest;
      }
      SplitAround(s, i);
    }
  }
}
