/** The pieces of java.lang text handling the program relies on: String.trim,
    Integer.parseInt, the decimal rendering of String.valueOf / BigInteger.toString,
    and the zero padding of String.format's "%0Nd". Shared by the reader, the
    configuration and the duration formatting. */
module JavaText {
  import opened Wrappers

  const INT_MIN: int := -0x8000_0000
  const INT_MAX: int := 0x7fff_ffff

  /** A value of Java's 32-bit `int`. */
  predicate IsInt32(x: int) { INT_MIN <= x <= INT_MAX }

  type Int32 = x: int | IsInt32(x)

  /** Math.max */
  function Max(a: int, b: int): int
  {
    if a >= b then a else b
  }

  // ---------------------------------------------------------------------------
  // String.trim: strips every leading and trailing character whose code is at
  // most U+0020 (space and all control characters).

  predicate IsBlank(c: char) { c <= ' ' }

  predicate AllBlank(s: string) { forall i :: 0 <= i < |s| ==> IsBlank(s[i]) }

  /** Number of blank characters at the front of `s`. */
  function LeadingBlanks(s: string): (n: nat)
    ensures n <= |s|
    ensures AllBlank(s[..n])
    ensures n < |s| ==> !IsBlank(s[n])
  {
    if |s| > 0 && IsBlank(s[0]) then
      var n := 1 + LeadingBlanks(s[1..]);
      assert forall i :: 1 <= i < n ==> s[..n][i] == s[1..][..n - 1][i - 1];
      n
    else 0
  }

  /** Number of blank characters at the end of `s`. */
  function TrailingBlanks(s: string): (n: nat)
    ensures n <= |s|
    ensures AllBlank(s[|s| - n..])
    ensures n < |s| ==> !IsBlank(s[|s| - 1 - n])
  {
    if |s| > 0 && IsBlank(s[|s| - 1]) then
      var init := s[..|s| - 1];
      var n := 1 + TrailingBlanks(init);
      assert s[|s| - n..] == init[|init| - (n - 1)..] + [s[|s| - 1]];
      n
    else 0
  }

  /** String.trim: the text between the leading and the trailing blanks. */
  function Trim(s: string): string
  {
    var t := s[LeadingBlanks(s)..];
    t[..|t| - TrailingBlanks(t)]
  }

  /** The trimmed text is the slice that starts after the leading blanks, only
      blanks follow it, and its own ends are not blank. */
  lemma TrimShape(s: string)
    ensures var r := Trim(s);
      && LeadingBlanks(s) + |r| <= |s|
      && r == s[LeadingBlanks(s)..LeadingBlanks(s) + |r|]
      && AllBlank(s[LeadingBlanks(s) + |r|..])
      && (r == [] || (!IsBlank(r[0]) && !IsBlank(r[|r| - 1])))
  {
    TrimSlice(s);
    TrimTailBlank(s);
    TrimEnds(s);
  }

  /** The trimmed text is the slice of `s` right after its leading blanks. */
  lemma TrimSlice(s: string)
    ensures LeadingBlanks(s) + |Trim(s)| <= |s|
    ensures Trim(s) == s[LeadingBlanks(s)..LeadingBlanks(s) + |Trim(s)|]
  {
    var n := LeadingBlanks(s);
    var t := s[n..];
    var r := t[..|t| - TrailingBlanks(t)];
    assert Trim(s) == r;
    assert r == s[n..n + |r|];
  }

  /** Only blanks follow the trimmed text. */
  lemma TrimTailBlank(s: string)
    ensures LeadingBlanks(s) + |Trim(s)| <= |s|
    ensures AllBlank(s[LeadingBlanks(s) + |Trim(s)|..])
  {
    var n := LeadingBlanks(s);
    var t := s[n..];
    var m := TrailingBlanks(t);
    assert Trim(s) == t[..|t| - m];
    assert s[n + |t| - m..] == t[|t| - m..];
  }

  /** A non-empty trimmed text neither starts nor ends with a blank. */
  lemma TrimEnds(s: string)
    ensures Trim(s) == [] || (!IsBlank(Trim(s)[0]) && !IsBlank(Trim(s)[|Trim(s)| - 1]))
  {
    var n := LeadingBlanks(s);
    var t := s[n..];
    var m := TrailingBlanks(t);
    var r := t[..|t| - m];
    assert Trim(s) == r;
    if r != [] {
      assert r[0] == t[0] == s[n];
      assert r[|r| - 1] == t[|t| - 1 - m];
    }
  }

  /** The trimmed text is empty exactly when every character of the line is blank. */
  lemma TrimEmptyIffAllBlank(s: string)
    ensures Trim(s) == [] <==> AllBlank(s)
  {
    var n := LeadingBlanks(s);
    if Trim(s) == [] {
      assert s[..n] == s;
    } else {
      assert Trim(s)[0] == s[n] && !IsBlank(s[n]);
    }
  }

  /** Trimming an already trimmed string changes nothing. */
  lemma TrimIdempotent(s: string)
    ensures Trim(Trim(s)) == Trim(s)
  {
    var r := Trim(s);
    if r != [] {
      assert LeadingBlanks(r) == 0;
      assert TrailingBlanks(r) == 0;
    }
  }

  /** Trim removes exactly the blank padding around a text whose own ends are not
      blank. */
  lemma TrimStripsPadding(before: string, t: string, after: string)
    requires AllBlank(before) && AllBlank(after)
    requires |t| > 0 && !IsBlank(t[0]) && !IsBlank(t[|t| - 1])
    ensures Trim(before + t + after) == t
  {
    var s := before + t + after;
    assert s[..|before|] == before;
    LeadingBlanksIs(s, |before|);
    var rest := s[|before|..];
    assert rest == t + after;
    assert rest[|rest| - |after|..] == after;
    TrailingBlanksIs(rest, |after|);
    assert rest[..|rest| - |after|] == t;
  }

  /** LeadingBlanks counts up to the first character that is not blank. */
  lemma {:induction false} LeadingBlanksIs(s: string, k: nat)
    requires k <= |s| && AllBlank(s[..k])
    requires k < |s| ==> !IsBlank(s[k])
    ensures LeadingBlanks(s) == k
  {
    if k > 0 {
      assert s[..k][0] == s[0];
      assert s[1..][..k - 1] == s[..k][1..];
      LeadingBlanksIs(s[1..], k - 1);
    }
  }

  /** TrailingBlanks counts back to the last character that is not blank. */
  lemma {:induction false} TrailingBlanksIs(s: string, k: nat)
    requires k <= |s| && AllBlank(s[|s| - k..])
    requires k < |s| ==> !IsBlank(s[|s| - 1 - k])
    ensures TrailingBlanks(s) == k
  {
    if k > 0 {
      var init := s[..|s| - 1];
      var tail := s[|s| - k..];
      assert tail[k - 1] == s[|s| - 1];
      assert IsBlank(s[|s| - 1]);
      assert init[|init| - (k - 1)..] == tail[..k - 1];
      assert AllBlank(init[|init| - (k - 1)..]);
      assert k - 1 < |init| ==> init[|init| - 1 - (k - 1)] == s[|s| - 1 - k];
      TrailingBlanksIs(init, k - 1);
      assert TrailingBlanks(s) == 1 + TrailingBlanks(init);
    }
  }

  // ---------------------------------------------------------------------------
  // Integer.parseInt(s, 10): an optional '+' or '-', then one or more decimal
  // digits, and a value within [INT_MIN, INT_MAX]; anything else is a
  // NumberFormatException, modelled as None.

  predicate IsDigit(c: char) { '0' <= c <= '9' }

  predicate AllDigits(s: string) { forall i :: 0 <= i < |s| ==> IsDigit(s[i]) }

  function DigitValue(c: char): nat
    requires IsDigit(c)
  {
    c as int - '0' as int
  }

  function DigitChar(d: nat): (c: char)
    requires d < 10
    ensures IsDigit(c) && DigitValue(c) == d
  {
    ('0' as int + d) as char
  }

  /** The value of a string of decimal digits, most significant first. */
  function DigitsValue(s: string): nat
    requires AllDigits(s)
  {
    if |s| == 0 then 0 else 10 * DigitsValue(s[..|s| - 1]) + DigitValue(s[|s| - 1])
  }

  function ParseInt(s: string): (r: Option<Int32>)
    ensures r.Some? ==> |s| > 0 && !IsBlank(s[0]) && !IsBlank(s[|s| - 1])
  {
    if |s| == 0 then None
    else
      var signed := s[0] == '-' || s[0] == '+';
      var digits := if signed then s[1..] else s;
      if |digits| == 0 || !AllDigits(digits) then None
      else
        var magnitude := DigitsValue(digits);
        var v: int := if s[0] == '-' then -(magnitude as int) else magnitude;
        if IsInt32(v) then Some(v) else None
  }

  // ---------------------------------------------------------------------------
  // Decimal rendering, as String.valueOf(int) and BigInteger.toString() do it.

  function NatToString(n: nat): (s: string)
    ensures |s| > 0 && AllDigits(s)
    ensures DigitsValue(s) == n
    ensures |s| > 1 ==> s[0] != '0'
  {
    if n < 10 then [DigitChar(n)]
    else
      var front := NatToString(n / 10);
      var s := front + [DigitChar(n % 10)];
      assert s[..|s| - 1] == front;
      s
  }

  function IntToString(v: int): (s: string)
  {
    if v < 0 then "-" + NatToString(-v) else NatToString(v)
  }

  /** Integer.parseInt reads back every int that String.valueOf writes. */
  lemma ParseIntOfIntToString(v: Int32)
    ensures ParseInt(IntToString(v)) == Some(v)
  {
    var s := IntToString(v);
    if v < 0 {
      var m: nat := -(v as int);
      assert s[1..] == NatToString(m);
    } else {
      var d := NatToString(v);
      assert IsDigit(d[0]);
    }
  }

  /** Two ints render to the same text only when they are equal. */
  lemma IntToStringInjective(a: Int32, b: Int32)
    requires IntToString(a) == IntToString(b)
    ensures a == b
  {
    ParseIntOfIntToString(a);
    ParseIntOfIntToString(b);
  }

  // ---------------------------------------------------------------------------
  // The "0" flag of String.format: pad a non-negative number's digits on the
  // left with '0' up to the field width; wider numbers are left as they are.

  function Zeros(n: nat): (z: string)
    ensures |z| == n && AllDigits(z)
  {
    if n == 0 then [] else Zeros(n - 1) + ['0']
  }

  function ZeroPad(digits: string, width: nat): (r: string)
  {
    if |digits| >= width then digits else Zeros(width - |digits|) + digits
  }

  /** Leading zeros do not change the value of a digit string. */
  lemma {:induction false} ZerosPrefixValue(n: nat, digits: string)
    requires AllDigits(digits)
    ensures AllDigits(Zeros(n) + digits)
    ensures DigitsValue(Zeros(n) + digits) == DigitsValue(digits)
  {
    var s := Zeros(n) + digits;
    if |digits| == 0 {
      assert s == Zeros(n);
      ZerosValue(n);
    } else {
      var init := digits[..|digits| - 1];
      assert s[..|s| - 1] == Zeros(n) + init;
      ZerosPrefixValue(n, init);
    }
  }

  lemma {:induction false} ZerosValue(n: nat)
    ensures DigitsValue(Zeros(n)) == 0
  {
    if n > 0 {
      assert Zeros(n)[..n - 1] == Zeros(n - 1);
      ZerosValue(n - 1);
    }
  }

  /** A padded field is at least as wide as asked, made of digits, and reads back
      as the number it was made from. */
  lemma ZeroPadNat(n: nat, width: nat)
    ensures |ZeroPad(NatToString(n), width)| == if |NatToString(n)| >= width then |NatToString(n)| else width
    ensures AllDigits(ZeroPad(NatToString(n), width))
    ensures DigitsValue(ZeroPad(NatToString(n), width)) == n
  {
    var d := NatToString(n);
    var p := ZeroPad(d, width);
    if |d| < width {
      assert p == Zeros(width - |d|) + d;
      ZerosPrefixValue(width - |d|, d);
    } else {
      assert p == d;
    }
  }
}
