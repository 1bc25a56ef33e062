/** `ClockReading.ReadClock` undoes `ClockFormat.FormatTime` on every non-negative count. */
module ClockRoundTrip {
  import opened Wrappers
  import opened Decimal
  import opened ClockReading
  import opened ClockFormat

  /** The padded renderings of non-negative fields read as their values. */
  lemma ReadPaddedFields(h: nat, m: nat, sec: nat)
    requires m < 60 && sec < 60
    ensures ReadFields(PadStart2(NatToString(h)), PadStart2(NatToString(m)), PadStart2(NatToString(sec)))
         == Some(h * 3600 + m * 60 + sec)
  {
    PaddedField(h);
    PaddedField(m);
    PaddedField(sec);
  }

  /** `ReadClock` finds the three padded fields of a rendering. */
  lemma ReadRenderSplit(h: nat, m: nat, sec: nat)
    requires m < 60 && sec < 60
    ensures ReadClock(Render(Fields(h, m, sec)))
         == ReadFields(PadStart2(NatToString(h)), PadStart2(NatToString(m)), PadStart2(NatToString(sec)))
  {
    var hh, mm, ss := PadStart2(NatToString(h)), PadStart2(NatToString(m)), PadStart2(NatToString(sec));
    assert Render(Fields(h, m, sec)) == hh + ":" + mm + ":" + ss;
    ReadSplit(hh, mm, ss);
  }

  /** A rendering of non-negative fields, minutes and seconds below 60, reads back as their total. */
  lemma ReadRender(h: nat, m: nat, sec: nat)
    requires m < 60 && sec < 60
    ensures ReadClock(Render(Fields(h, m, sec))) == Some(h * 3600 + m * 60 + sec)
  {
    ReadRenderSplit(h, m, sec);
    ReadPaddedFields(h, m, sec);
  }

  /** The clock face of a non-negative count reads back as that count: nothing is clamped or lost. */
  lemma FormatTimeReadBack(t: nat)
    ensures ReadClock(FormatTime(t)) == Some(t)
  {
    ClockFieldsOfNat(t);
    var f := ClockFields(t);
    ReadRender(f.hrs, f.mins, f.secs);
  }

  /** Two different non-negative counts never show the same clock face. */
  lemma FormatTimeInjective(a: nat, b: nat)
    requires FormatTime(a) == FormatTime(b)
    ensures a == b
  {
    FormatTimeReadBack(a);
    FormatTimeReadBack(b);
  }
}
