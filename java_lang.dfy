/**
 * The pieces of java.lang semantics the REST client relies on: 32-bit ints and
 * signed bytes, truncating integer division, Integer.toString, String.trim,
 * String.equalsIgnoreCase and the one-character form of String.split.
 */
module JavaLang {
  import opened Wrappers

  type Int32 = x: int | -0x8000_0000 <= x < 0x8000_0000
  type Byte = x: int | -128 <= x < 128

  // ---------------------------------------------------------------- division

  /** Java's `a / d` on ints: the quotient is rounded toward zero. */
  function Quotient(a: int, d: nat): (q: int)
    requires d > 0
    ensures a >= 0 ==> 0 <= q && q * d <= a < q * d + d
    ensures a < 0 ==> q <= 0 && q * d - d < a <= q * d
  {
    if a >= 0 then a / d else -((-a) / d)
  }

  // ------------------------------------------------------- Integer.toString

  function DigitChar(d: nat): (c: char)
    requires d < 10
    ensures '0' <= c <= '9' && c as int - '0' as int == d
  {
    (d + '0' as int) as char
  }

  predicate IsDigit(c: char) { '0' <= c <= '9' }

  /** Decimal digits of a natural number, most significant first, no leading zero. */
  function NatDigits(n: nat): (s: string)
    ensures |s| >= 1 && forall i :: 0 <= i < |s| ==> IsDigit(s[i])
  {
    if n < 10 then [DigitChar(n)] else NatDigits(n / 10) + [DigitChar(n % 10)]
  }

  /** Integer.toString: a minus sign for negative values, then the digits. */
  function IntToString(n: int): (s: string)
    ensures |s| >= 1
    ensures n < 0 <==> s[0] == '-'
  {
    if n < 0 then "-" + NatDigits(-n) else NatDigits(n)
  }

  /** Reads an unsigned decimal numeral; None if empty or not all digits. */
  function ParseNat(s: string): (r: Option<nat>)
    ensures r.Some? ==> |s| >= 1
  {
    if |s| == 0 || !IsDigit(s[|s| - 1]) then None
    else
      var d := s[|s| - 1] as int - '0' as int;
      if |s| == 1 then Some(d)
      else match ParseNat(s[..|s| - 1])
        case None => None
        case Some(v) => Some(v * 10 + d)
  }

  /** Reads an optionally signed decimal numeral. */
  function ParseInt(s: string): (r: Option<int>)
    ensures r.Some? ==> |s| >= 1
  {
    if |s| > 0 && s[0] == '-' then
      match ParseNat(s[1..])
      case None => None
      case Some(v) => Some(-(v as int))
    else
      match ParseNat(s)
      case None => None
      case Some(v) => Some(v)
  }

  lemma {:induction false} NatDigitsRoundTrip(n: nat)
    ensures ParseNat(NatDigits(n)) == Some(n)
  {
    if n >= 10 {
      NatDigitsRoundTrip(n / 10);
      var s := NatDigits(n);
      assert s[..|s| - 1] == NatDigits(n / 10);
    }
  }

  /** The decimal rendering of an int reads back as the same int. */
  lemma IntToStringRoundTrip(n: int)
    ensures ParseInt(IntToString(n)) == Some(n)
  {
    if n < 0 {
      var digits := NatDigits(-n);
      NatDigitsRoundTrip(-n);
      assert IntToString(n) == "-" + digits;
      assert IntToString(n)[1..] == digits;
    } else {
      NatDigitsRoundTrip(n);
    }
  }

  // ------------------------------------------------------------ String.trim

  /** String.trim removes every leading and trailing char at or below U+0020. */
  predicate IsTrimmed(c: char) { c <= ' ' }

  function LeadingTrimmed(s: string): (k: nat)
    ensures k <= |s|
    ensures forall i :: 0 <= i < k ==> IsTrimmed(s[i])
    ensures k < |s| ==> !IsTrimmed(s[k])
  {
    if |s| == 0 || !IsTrimmed(s[0]) then 0 else 1 + LeadingTrimmed(s[1..])
  }

  function TrailingTrimmed(s: string): (k: nat)
    ensures k <= |s|
    ensures forall i :: |s| - k <= i < |s| ==> IsTrimmed(s[i])
    ensures k < |s| ==> !IsTrimmed(s[|s| - 1 - k])
  {
    if |s| == 0 || !IsTrimmed(s[|s| - 1]) then 0 else 1 + TrailingTrimmed(s[..|s| - 1])
  }

  /** String.trim: the infix left after the blank ends are cut off. */
  function Trim(s: string): (r: string)
    ensures |r| == 0 || (!IsTrimmed(r[0]) && !IsTrimmed(r[|r| - 1]))
    ensures var a := LeadingTrimmed(s);
      a + |r| <= |s| && r == s[a..a + |r|] &&
      forall i :: a + |r| <= i < |s| ==> IsTrimmed(s[i])
  {
    var a := LeadingTrimmed(s);
    if a == |s| then [] else
      var t := s[a..];
      assert TrailingTrimmed(t) < |t|;
      t[..|t| - TrailingTrimmed(t)]
  }

  /** A string without blank ends is its own trim. */
  lemma TrimKeepsUnblankEnds(s: string)
    requires |s| > 0 && !IsTrimmed(s[0]) && !IsTrimmed(s[|s| - 1])
    ensures Trim(s) == s
  {
    assert LeadingTrimmed(s) == 0;
  }

  // -------------------------------------------------- String.equalsIgnoreCase

  /** Character.toUpperCase for ASCII letters and the two non-ASCII letters
      whose upper case is ASCII (dotless i, long s). */
  function ToUpperCase(c: char): char {
    if 'a' <= c <= 'z' then (c as int - 32) as char
    else if c == 'ı' then 'I'
    else if c == 'ſ' then 'S'
    else c
  }

  /** Character.toLowerCase for ASCII letters and the two non-ASCII letters
      whose lower case is ASCII (Kelvin sign, dotted capital I). */
  function ToLowerCase(c: char): char {
    if 'A' <= c <= 'Z' then (c as int + 32) as char
    else if c == 'K' then 'k'
    else if c == 'İ' then 'i'
    else c
  }

  /** The per-char test of String.regionMatches(ignoreCase = true). */
  predicate CharEqualsIgnoreCase(a: char, b: char) {
    a == b || ToUpperCase(a) == ToUpperCase(b) ||
    ToLowerCase(ToUpperCase(a)) == ToLowerCase(ToUpperCase(b))
  }

  predicate EqualsIgnoreCase(a: string, b: string) {
    |a| == |b| && forall i :: 0 <= i < |a| ==> CharEqualsIgnoreCase(a[i], b[i])
  }

  /** The case-folded form of a string: lower case of upper case, char by char. */
  function FoldCase(s: string): (r: string)
    ensures |r| == |s|
    ensures forall i :: 0 <= i < |s| ==> r[i] == ToLowerCase(ToUpperCase(s[i]))
  {
    if |s| == 0 then [] else [ToLowerCase(ToUpperCase(s[0]))] + FoldCase(s[1..])
  }

  /** equalsIgnoreCase is equality of folded forms, hence an equivalence relation. */
  lemma EqualsIgnoreCaseIffFolded(a: string, b: string)
    ensures EqualsIgnoreCase(a, b) <==> FoldCase(a) == FoldCase(b)
  {
    if FoldCase(a) == FoldCase(b) {
      forall i | 0 <= i < |a| ensures CharEqualsIgnoreCase(a[i], b[i]) {
        assert FoldCase(a)[i] == FoldCase(b)[i];
      }
    }
    if EqualsIgnoreCase(a, b) {
      assert forall i :: 0 <= i < |a| ==> FoldCase(a)[i] == FoldCase(b)[i];
    }
  }

  // ----------------------------------------------------------- String.split

  /** The index of the last occurrence of `c` in `s`. */
  function LastIndexOf(s: string, c: char): (i: nat)
    requires c in s
    ensures i < |s| && s[i] == c && c !in s[i + 1..]
  {
    if s[|s| - 1] == c then |s| - 1
    else
      assert c in s[..|s| - 1] by {
        var k :| 0 <= k < |s| && s[k] == c;
        assert s[..|s| - 1][k] == c;
      }
      LastIndexOf(s[..|s| - 1], c)
  }

  /** The pieces joined back together with `sep` between neighbours. */
  function Join(ps: seq<string>, sep: char): string {
    if |ps| == 0 then []
    else if |ps| == 1 then ps[0]
    else Join(ps[..|ps| - 1], sep) + [sep] + ps[|ps| - 1]
  }

  /** Every piece between separators, empty pieces included. */
  function Pieces(s: string, sep: char): (r: seq<string>)
    ensures |r| >= 1
    ensures forall k :: 0 <= k < |r| ==> sep !in r[k]
    ensures Join(r, sep) == s
    decreases |s|
  {
    if sep !in s then [s]
    else
      var i := LastIndexOf(s, sep);
      var front := Pieces(s[..i], sep);
      var r := front + [s[i + 1..]];
      assert r[..|r| - 1] == front;
      assert s[..i] + [sep] + s[i + 1..] == s;
      r
  }

  /** Drops the empty strings at the end of a sequence of pieces. */
  function DropTrailingEmpty(ps: seq<string>): (r: seq<string>)
    ensures |r| <= |ps| && r == ps[..|r|]
    ensures |r| == 0 || r[|r| - 1] != []
    ensures forall k :: |r| <= k < |ps| ==> ps[k] == []
  {
    if |ps| > 0 && ps[|ps| - 1] == [] then DropTrailingEmpty(ps[..|ps| - 1]) else ps
  }

  function Repeat(c: char, n: nat): (r: string)
    ensures |r| == n && forall i :: 0 <= i < n ==> r[i] == c
  {
    if n == 0 then [] else Repeat(c, n - 1) + [c]
  }

  /** Dropping trailing empty pieces only loses the separators that led to them. */
  lemma {:induction false} JoinDropTrailingEmpty(ps: seq<string>, sep: char)
    ensures var d := Join(DropTrailingEmpty(ps), sep);
      |d| <= |Join(ps, sep)| && Join(ps, sep) == d + Repeat(sep, |Join(ps, sep)| - |d|)
  {
    if |ps| > 0 && ps[|ps| - 1] == [] {
      var init := ps[..|ps| - 1];
      JoinDropTrailingEmpty(init, sep);
      assert DropTrailingEmpty(ps) == DropTrailingEmpty(init);
      var d := Join(DropTrailingEmpty(init), sep);
      var n := |Join(init, sep)| - |d|;
      if |ps| == 1 {
        assert Join(ps, sep) == [];
      } else {
        assert Join(ps, sep) == Join(init, sep) + [sep];
        assert Repeat(sep, n) + [sep] == Repeat(sep, n + 1);
      }
    }
  }

  /**
   * String.split with a one-character, non-metacharacter separator and limit 0:
   * no match gives the whole string; otherwise the pieces with the trailing
   * empty ones removed.
   */
  function Split(s: string, sep: char): (r: seq<string>)
    ensures forall k :: 0 <= k < |r| ==> sep !in r[k]
    ensures |r| == 0 || r[|r| - 1] != [] || r == [s] == [[]]
    ensures |Join(r, sep)| <= |s| && s == Join(r, sep) + Repeat(sep, |s| - |Join(r, sep)|)
    ensures sep !in s ==> r == [s]
    ensures s == [] ==> r == [[]]
  {
    if sep !in s then [s]
    else
      var ps := Pieces(s, sep);
      JoinDropTrailingEmpty(ps, sep);
      DropTrailingEmpty(ps)
  }

  /** One separator between two separator-free pieces, the second non-empty, splits into exactly those. */
  lemma SplitTwo(a: string, b: string, sep: char)
    requires sep !in a && sep !in b && b != []
    ensures Split(a + [sep] + b, sep) == [a, b]
  {
    var s := a + [sep] + b;
    assert s[|a|] == sep;
    var i := LastIndexOf(s, sep);
    assert s[..i] == a && s[i + 1..] == b;
    assert Pieces(a, sep) == [a];
    assert Pieces(s, sep) == [a, b];
  }
}
