/** FactorialPipeline.format: the elapsed-time text of the final report,
    hours:minutes:seconds.millis with zero padding. */
module Pipeline {
  import opened JavaText

  const MILLIS_PER_SECOND: nat := 1000
  const MILLIS_PER_MINUTE: nat := 60_000
  const MILLIS_PER_HOUR: nat := 3_600_000

  /** The four fields format prints. */
  datatype Clock = Clock(hours: nat, minutes: nat, seconds: nat, millis: nat)

  function Total(c: Clock): nat
  {
    c.hours * MILLIS_PER_HOUR + c.minutes * MILLIS_PER_MINUTE + c.seconds * MILLIS_PER_SECOND + c.millis
  }

  /** The Duration chain of format on Duration.ofMillis(total): toHours, then
      minusHours(h).toMinutes, then minusMinutes(m).toSeconds, then
      minusSeconds(s).toMillis. The fields recombine to the total, and all but the
      hours stay below their unit. */
  function Split(total: nat): (c: Clock)
    ensures Total(c) == total
    ensures c.minutes < 60 && c.seconds < 60 && c.millis < 1000
  {
    var h := total / MILLIS_PER_HOUR;
    var afterHours := total - h * MILLIS_PER_HOUR;
    var m := afterHours / MILLIS_PER_MINUTE;
    var afterMinutes := afterHours - m * MILLIS_PER_MINUTE;
    var s := afterMinutes / MILLIS_PER_SECOND;
    var ms := afterMinutes - s * MILLIS_PER_SECOND;
    Clock(h, m, s, ms)
  }

  /** Those two facts pin the split down: it is the only clock reading with
      in-range fields for the total. */
  lemma SplitUnique(c: Clock)
    requires c.minutes < 60 && c.seconds < 60 && c.millis < 1000
    ensures Split(Total(c)) == c
  {
    var d := Split(Total(c));
    var lowC := c.minutes * MILLIS_PER_MINUTE + c.seconds * MILLIS_PER_SECOND + c.millis;
    var lowD := d.minutes * MILLIS_PER_MINUTE + d.seconds * MILLIS_PER_SECOND + d.millis;
    assert lowC < MILLIS_PER_HOUR && lowD < MILLIS_PER_HOUR;
    assert d.hours == c.hours;
    var secC := c.seconds * MILLIS_PER_SECOND + c.millis;
    var secD := d.seconds * MILLIS_PER_SECOND + d.millis;
    assert secC < MILLIS_PER_MINUTE && secD < MILLIS_PER_MINUTE;
    assert d.minutes == c.minutes;
    assert d.seconds == c.seconds;
  }

  /** String.format("%02d:%02d:%02d.%03d", h, m, s, ms). */
  function Format(total: nat): string
  {
    var c := Split(total);
    Layout(ZeroPad(NatToString(c.hours), 2), ZeroPad(NatToString(c.minutes), 2),
           ZeroPad(NatToString(c.seconds), 2), ZeroPad(NatToString(c.millis), 3))
  }

  function Layout(hh: string, mm: string, ss: string, mmm: string): string
  {
    hh + ":" + mm + ":" + ss + "." + mmm
  }

  /** Where the separators and the fields of a layout sit, counted from its end. */
  lemma LayoutSlices(hh: string, mm: string, ss: string, mmm: string)
    requires |mm| == 2 && |ss| == 2 && |mmm| == 3
    ensures var f := Layout(hh, mm, ss, mmm); var n := |f|;
      && n == |hh| + 10 && f[n - 10] == ':' && f[n - 7] == ':' && f[n - 4] == '.'
      && f[..n - 10] == hh && f[n - 9..n - 7] == mm && f[n - 6..n - 4] == ss && f[n - 3..] == mmm
  {
  }

  /** The text ends in ":MM:SS.mmm" after at least two hour digits, and reading
      the four digit fields back gives the elapsed milliseconds. */
  lemma FormatReadsBack(total: nat)
    ensures var f := Format(total); var n := |f|;
      && n >= 12 && f[n - 10] == ':' && f[n - 7] == ':' && f[n - 4] == '.'
      && AllDigits(f[..n - 10]) && AllDigits(f[n - 9..n - 7])
      && AllDigits(f[n - 6..n - 4]) && AllDigits(f[n - 3..])
      && DigitsValue(f[..n - 10]) * MILLIS_PER_HOUR + DigitsValue(f[n - 9..n - 7]) * MILLIS_PER_MINUTE
         + DigitsValue(f[n - 6..n - 4]) * MILLIS_PER_SECOND + DigitsValue(f[n - 3..]) == total
  {
    var c := Split(total);
    var hh := ZeroPad(NatToString(c.hours), 2);
    var mm := ZeroPad(NatToString(c.minutes), 2);
    var ss := ZeroPad(NatToString(c.seconds), 2);
    var mmm := ZeroPad(NatToString(c.millis), 3);
    ZeroPadNat(c.hours, 2);
    ZeroPadNat(c.minutes, 2);
    ZeroPadNat(c.seconds, 2);
    ZeroPadNat(c.millis, 3);
    NarrowField(c.minutes, 60, 2);
    NarrowField(c.seconds, 60, 2);
    NarrowField(c.millis, 1000, 3);
    LayoutSlices(hh, mm, ss, mmm);
    assert Format(total) == Layout(hh, mm, ss, mmm);
  }

  /** A number below 60 has at most two digits, one below 1000 at most three. */
  lemma NarrowField(v: nat, bound: nat, width: nat)
    requires v < bound && (bound == 60 || bound == 1000)
    requires bound == 60 ==> width == 2
    requires bound == 1000 ==> width == 3
    ensures |NatToString(v)| <= width
  {
    if v >= 10 {
      assert NatToString(v) == NatToString(v / 10) + [DigitChar(v % 10)];
      if v >= 100 {
        assert NatToString(v / 10) == NatToString(v / 100) + [DigitChar(v / 10 % 10)];
      }
    }
  }

  /** The text for a total given as in-range clock fields. */
  lemma FormatOfClock(c: Clock)
    requires c.minutes < 60 && c.seconds < 60 && c.millis < 1000
    ensures Format(Total(c)) == Layout(ZeroPad(NatToString(c.hours), 2), ZeroPad(NatToString(c.minutes), 2),
                                       ZeroPad(NatToString(c.seconds), 2), ZeroPad(NatToString(c.millis), 3))
  {
    SplitUnique(c);
  }

  /** A one-digit field is padded with one zero to width 2 and two to width 3. */
  lemma PadOneDigit(d: nat)
    requires d < 10
    ensures ZeroPad(NatToString(d), 2) == ['0', DigitChar(d)]
    ensures ZeroPad(NatToString(d), 3) == ['0', '0', DigitChar(d)]
  {
    assert NatToString(d) == [DigitChar(d)];
    assert Zeros(1) == ['0'];
    assert Zeros(2) == ['0', '0'];
  }

  /** A run under a millisecond prints all zeros. */
  lemma FormatZero()
    ensures Format(0) == "00:00:00.000"
  {
    FormatOfClock(Clock(0, 0, 0, 0));
    PadOneDigit(0);
    assert DigitChar(0) == '0';
  }

  /** An hour, two minutes, three seconds and four milliseconds. */
  lemma FormatMixed()
    ensures Format(3_723_004) == "01:02:03.004"
  {
    FormatOfClock(Clock(1, 2, 3, 4));
    PadOneDigit(1);
    PadOneDigit(2);
    PadOneDigit(3);
    PadOneDigit(4);
    assert DigitChar(1) == '1' && DigitChar(2) == '2' && DigitChar(3) == '3' && DigitChar(4) == '4';
  }
}
