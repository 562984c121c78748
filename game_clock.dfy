/**
 * The `mm:ss` clock text of the game: `formatTime` and the decimal
 * rendering it relies on (`Number.prototype.toString` of a non-negative
 * integer and `padStart(2, "0")`).
 */
module GameClock {

  predicate IsDigit(c: char)
  {
    '0' <= c <= '9'
  }

  predicate AllDigits(s: string)
  {
    forall k :: 0 <= k < |s| ==> IsDigit(s[k])
  }

  function DigitChar(d: nat): (c: char)
    requires d < 10
    ensures IsDigit(c)
  {
    (('0' as int) + d) as char
  }

  function DigitValue(c: char): (d: nat)
    requires IsDigit(c)
    ensures d < 10 && DigitChar(d) == c
  {
    (c as int) - ('0' as int)
  }

  /** The decimal text of n, most significant digit first, no leading zeros. */
  function Decimal(n: nat): (d: string)
    ensures |d| >= 1 && IsDigit(d[|d| - 1]) && DigitValue(d[|d| - 1]) == n % 10
    decreases n
  {
    if n < 10 then [DigitChar(n)] else Decimal(n / 10) + [DigitChar(n % 10)]
  }

  /** The number a string of decimal digits denotes. */
  function DecimalValue(s: string): nat
    requires AllDigits(s)
    decreases |s|
  {
    if s == [] then 0 else DecimalValue(s[..|s| - 1]) * 10 + DigitValue(s[|s| - 1])
  }

  /** `padStart(2, "0")`: prefix zeros up to length two; longer text is unchanged. */
  function PadStart2(s: string): (r: string)
    ensures |r| == if |s| < 2 then 2 else |s|
    ensures r[|r| - |s|..] == s
    ensures forall k :: 0 <= k < |r| - |s| ==> r[k] == '0'
  {
    if |s| >= 2 then s else seq(2 - |s|, _ => '0') + s
  }

  /** `formatTime(seconds)`: whole minutes and remaining seconds, each padded to two digits. */
  function FormatTime(seconds: nat): string
  {
    PadStart2(Decimal(seconds / 60)) + ":" + PadStart2(Decimal(seconds % 60))
  }

  /** Reads an `m...m:ss` clock text back into seconds. */
  function ClockSeconds(t: string): int
    requires |t| >= 3 && AllDigits(t[..|t| - 3]) && AllDigits(t[|t| - 2..])
  {
    DecimalValue(t[..|t| - 3]) * 60 + DecimalValue(t[|t| - 2..])
  }

  lemma {:induction false} DecimalDenotes(n: nat)
    ensures AllDigits(Decimal(n)) && 1 <= |Decimal(n)|
    ensures DecimalValue(Decimal(n)) == n
    ensures n < 10 ==> |Decimal(n)| == 1
    ensures n < 100 ==> |Decimal(n)| <= 2
    decreases n
  {
    if n >= 10 {
      DecimalDenotes(n / 10);
      var s := Decimal(n);
      assert s[..|s| - 1] == Decimal(n / 10);
    }
  }

  /** A leading zero does not change the value of a digit string. */
  lemma {:induction false} LeadingZero(s: string)
    requires AllDigits(s)
    ensures AllDigits(['0'] + s) && DecimalValue(['0'] + s) == DecimalValue(s)
    decreases |s|
  {
    var z := ['0'] + s;
    if s != [] {
      assert z[..|z| - 1] == ['0'] + s[..|s| - 1];
      LeadingZero(s[..|s| - 1]);
    }
  }

  lemma PadKeepsValue(s: string)
    requires AllDigits(s)
    ensures AllDigits(PadStart2(s)) && DecimalValue(PadStart2(s)) == DecimalValue(s)
  {
    if |s| == 1 {
      assert PadStart2(s) == ['0'] + s;
      LeadingZero(s);
    } else if |s| == 0 {
      assert PadStart2(s) == ['0'] + ['0'];
      LeadingZero(['0']);
    }
  }

  /** A padded field is at least two digits and denotes its number; below 100 it is exactly two. */
  lemma PaddedField(n: nat)
    ensures var p := PadStart2(Decimal(n));
      AllDigits(p) && |p| >= 2 && DecimalValue(p) == n && (n < 100 ==> |p| == 2)
  {
    DecimalDenotes(n);
    PadKeepsValue(Decimal(n));
  }

  /**
   * The clock text is minutes, a colon and exactly two second digits; the
   * minutes read back as `seconds / 60` (at least two digits) and the
   * seconds as `seconds % 60`, which is always below 60.
   */
  lemma FormatTimeFields(seconds: nat)
    ensures var t := FormatTime(seconds);
      && |t| >= 5
      && t[|t| - 3] == ':'
      && AllDigits(t[..|t| - 3]) && |t[..|t| - 3]| >= 2
      && AllDigits(t[|t| - 2..]) && |t[|t| - 2..]| == 2
      && DecimalValue(t[..|t| - 3]) == seconds / 60
      && DecimalValue(t[|t| - 2..]) == seconds % 60 < 60
    ensures seconds < 6000 ==> |FormatTime(seconds)| == 5
  {
    var mm := PadStart2(Decimal(seconds / 60));
    var ss := PadStart2(Decimal(seconds % 60));
    PaddedField(seconds / 60);
    PaddedField(seconds % 60);
    var t := FormatTime(seconds);
    assert t == mm + ":" + ss;
    assert t[..|t| - 3] == mm;
    assert t[|t| - 2..] == ss;
  }

  /** Reading the clock text back gives the seconds it was made from. */
  lemma FormatTimeRoundTrip(seconds: nat)
    ensures var t := FormatTime(seconds);
      |t| >= 3 && AllDigits(t[..|t| - 3]) && AllDigits(t[|t| - 2..]) && ClockSeconds(t) == seconds
  {
    FormatTimeFields(seconds);
  }

  /** Different second counts never show the same clock text. */
  lemma FormatTimeInjective(a: nat, b: nat)
    requires FormatTime(a) == FormatTime(b)
    ensures a == b
  {
    FormatTimeRoundTrip(a);
    FormatTimeRoundTrip(b);
  }

  lemma FormatTimeConstants()
    ensures FormatTime(0) == "00:00"
    ensures FormatTime(180) == "03:00"
  {
    assert Decimal(0) == "0";
    assert Decimal(3) == "3";
  }
}
