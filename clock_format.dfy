/**
 * `formatTime` of the countdown widget: whole seconds to the `HH:MM:SS`
 * text of the clock face. It is written with JavaScript's operators:
 * `Math.floor(x / d)` rounds down, `%` keeps the sign of its left operand,
 * and `padStart(2, "0")` fills with zeros on the left up to width 2.
 */
module ClockFormat {
  import opened Wrappers
  import opened Decimal

  /** `Math.floor(a / d)` for a positive divisor. */
  function FloorDiv(a: int, d: int): (q: int)
    requires d > 0
    ensures d * q <= a < d * q + d
  {
    a / d
  }

  /** JavaScript's `a % d` for a positive divisor: truncating, so the sign follows `a`. */
  function JsRem(a: int, d: int): (r: int)
    requires d > 0
    ensures -d < r < d
    ensures a >= 0 ==> r >= 0
    ensures a < 0 ==> r <= 0
  {
    if a >= 0 then a % d else -((-a) % d)
  }

  /** What `JsRem` leaves out of `a` is a whole number of `d`s. */
  lemma JsRemMultiple(a: int, d: int)
    requires d > 0
    ensures exists q :: a == d * q + JsRem(a, d)
  {
    if a >= 0 {
      assert a == d * (a / d) + JsRem(a, d);
    } else {
      var q := (-a) / d;
      assert -a == d * q + (-a) % d;
      assert a == d * -q + JsRem(a, d);
    }
  }

  /** `s.padStart(2, "0")`. */
  function PadStart2(s: string): (r: string)
    ensures |r| == if |s| < 2 then 2 else |s|
    ensures r[|r| - |s|..] == s
    ensures forall i :: 0 <= i < |r| - |s| ==> r[i] == '0'
  {
    if |s| < 2 then seq(2 - |s|, _ => '0') + s else s
  }

  datatype Fields = Fields(hrs: int, mins: int, secs: int)

  /** The three numbers `formatTime` computes before rendering them. */
  function ClockFields(time: int): Fields {
    Fields(FloorDiv(time, 3600), FloorDiv(JsRem(time, 3600), 60), JsRem(time, 60))
  }

  /** The three fields, each padded to width 2, separated by colons. */
  function Render(f: Fields): string {
    PadStart2(IntToString(f.hrs)) + ":" + PadStart2(IntToString(f.mins)) + ":" + PadStart2(IntToString(f.secs))
  }

  function FormatTime(time: int): string {
    Render(ClockFields(time))
  }

  /**
   * For a non-negative count the fields are hours, minutes in 0..59 and
   * seconds in 0..59, and they add back up to the count.
   */
  lemma ClockFieldsOfNat(t: nat)
    ensures var f := ClockFields(t);
      f.hrs >= 0 && 0 <= f.mins < 60 && 0 <= f.secs < 60 &&
      f.hrs * 3600 + f.mins * 60 + f.secs == t
  {
    var h, r := t / 3600, t % 3600;
    var m, s := r / 60, r % 60;
    assert t == 3600 * h + r;
    assert r == 60 * m + s;
    assert t == 60 * (60 * h + m) + s;
    assert t % 60 == s;
  }

  /** Any hours/minutes/seconds split with minutes and seconds below 60 is the one `ClockFields` gives. */
  lemma ClockFieldsUnique(t: nat, h: nat, m: nat, s: nat)
    requires m < 60 && s < 60 && h * 3600 + m * 60 + s == t
    ensures ClockFields(t) == Fields(h, m, s)
  {
    var r := m * 60 + s;
    assert 0 <= r < 3600 && t == 3600 * h + r;
    assert t / 3600 == h && t % 3600 == r;
    assert r / 60 == m;
    assert t == 60 * (60 * h + m) + s;
    assert t % 60 == s;
  }

  /** A field of a non-negative count, padded: digits only, worth the field's value. */
  lemma PaddedField(n: nat)
    ensures ParseDigits(PadStart2(NatToString(n))) == Some(n)
    ensures n < 100 ==> |PadStart2(NatToString(n))| == 2
  {
    var s := NatToString(n);
    if |s| < 2 {
      assert PadStart2(s) == "0" + s;
      LeadingZero(s);
    }
  }

  lemma FormatTimeZero()
    ensures FormatTime(0) == "00:00:00"
  {
    assert ClockFields(0) == Fields(0, 0, 0);
    assert IntToString(0) == "0";
  }

  lemma FormatTimeOneHourOneMinuteOneSecond()
    ensures FormatTime(3661) == "01:01:01"
  {
    assert ClockFields(3661) == Fields(1, 1, 1);
    assert IntToString(1) == "1";
  }

  lemma FormatTimeFiftyNine()
    ensures FormatTime(59) == "00:00:59"
  {
    assert ClockFields(59) == Fields(0, 0, 59);
    assert IntToString(0) == "0";
    assert IntToString(59) == "59";
  }

  /** Hours are not clamped to a day. */
  lemma FormatTimeHundredHours()
    ensures FormatTime(360000) == "100:00:00"
  {
    assert ClockFields(360000) == Fields(100, 0, 0);
    assert NatToString(10) == "10";
    assert NatToString(100) == "100";
    assert PadStart2(IntToString(100)) == "100";
    assert PadStart2(IntToString(0)) == "00";
    assert FormatTime(360000) == Render(Fields(100, 0, 0));
  }

  /** A negative count, as shown between starting from a negative field and the next tick. */
  lemma FormatTimeNegative()
    ensures FormatTime(-5) == "-1:-1:-5"
  {
    assert ClockFields(-5) == Fields(-1, -1, -5);
    assert IntToString(-1) == "-1" && IntToString(-5) == "-5";
  }
}
