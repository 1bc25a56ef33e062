/**
 * Reading an `H..H:MM:SS` clock face back into seconds. It undoes
 * `ClockFormat.FormatTime`: the face of a non-negative count reads back as
 * that count.
 */
module ClockReading {
  import opened Wrappers
  import opened Decimal

  /**
   * Reads a clock face back: one or more hour digits, a colon, two minute
   * digits below 60, a colon, two second digits below 60.
   */
  function ReadClock(s: string): Option<int> {
    if |s| < 8 || s[|s| - 6] != ':' || s[|s| - 3] != ':' then None
    else ReadFields(s[..|s| - 6], s[|s| - 5..|s| - 3], s[|s| - 2..])
  }

  function ReadFields(hh: string, mm: string, ss: string): Option<int> {
    match (ParseDigits(hh), ParseDigits(mm), ParseDigits(ss))
    case (Some(h), Some(m), Some(sec)) => if m < 60 && sec < 60 then Some(h * 3600 + m * 60 + sec) else None
    case _ => None
  }

  /** `ReadClock` splits a face at its last two colons. */
  lemma ReadSplit(hh: string, mm: string, ss: string)
    requires |hh| >= 2 && |mm| == 2 && |ss| == 2
    ensures ReadClock(hh + ":" + mm + ":" + ss) == ReadFields(hh, mm, ss)
  {
    var text := hh + ":" + mm + ":" + ss;
    assert text[|text| - 6] == ':' && text[|text| - 3] == ':';
    assert text[..|text| - 6] == hh;
    assert text[|text| - 5..|text| - 3] == mm;
    assert text[|text| - 2..] == ss;
  }
}
