/** The integer formatters of lib/formatters.ts. */
module Formatters {
  import opened Wrappers
  import opened Text

  /** JavaScript's `%`: the remainder takes the sign of the dividend. */
  function JsRemainder(a: int, b: int): (r: int)
    requires b > 0
    ensures a >= 0 ==> 0 <= r < b
    ensures a < 0 ==> -b < r <= 0
  {
    if a >= 0 then a % b else -((-a) % b)
  }

  /** `s.padStart(2, '0')`. */
  function PadStart2(s: string): (r: string)
    ensures |r| == if |s| >= 2 then |s| else 2
    ensures r[|r| - |s|..] == s
    ensures forall i :: 0 <= i < |r| - |s| ==> r[i] == '0'
  {
    if |s| >= 2 then s else seq(2 - |s|, _ => '0') + s
  }

  /** `formatTimeRemaining`: minutes (floor division), a colon, then the
      remainder padded to two characters. */
  function FormatTimeRemaining(seconds: int): string
  {
    IntToString(seconds / 60) + ":" + PadStart2(IntToString(JsRemainder(seconds, 60)))
  }

  /** Reads `m:ss` back: a non-empty run of digits, a colon, two digits below 60. */
  function ParseClock(t: string): (r: Option<int>)
    ensures r.Some? ==> r.value >= 0
  {
    if |t| >= 4 && t[|t| - 3] == ':' then ParseClockParts(t[..|t| - 3], t[|t| - 2..]) else None
  }

  /** The minutes and the two-character seconds field, read as a count. */
  function ParseClockParts(minutes: string, field: string): (r: Option<int>)
    ensures r.Some? ==> r.value >= 0
  {
    if AllDigits(minutes) && AllDigits(field) && ParseNat(field) < 60
    then Some(60 * ParseNat(minutes) + ParseNat(field))
    else None
  }

  /** A two-character digit string reads as its tens and units. */
  lemma ParseTwoDigits(a: char, b: char)
    requires IsDigit(a) && IsDigit(b)
    ensures ParseNat([a, b]) == 10 * DigitValue(a) + DigitValue(b)
  {
    assert ParseNat([a]) == DigitValue(a) by {
      assert [a][..0] == [];
    }
    assert [a, b][..1] == [a];
  }

  /** The padded field of a seconds value below 60 is two digits reading back
      as that value. */
  lemma TwoDigitField(secs: nat)
    requires secs < 60
    ensures var f := PadStart2(NatToString(secs)); |f| == 2 && AllDigits(f) && ParseNat(f) == secs
  {
    var f := PadStart2(NatToString(secs));
    if secs >= 10 {
      assert NatToString(secs) == [DigitChar(secs / 10), DigitChar(secs % 10)];
      assert f == [DigitChar(secs / 10), DigitChar(secs % 10)];
      ParseTwoDigits(DigitChar(secs / 10), DigitChar(secs % 10));
    } else {
      assert NatToString(secs) == [DigitChar(secs)];
      assert f == ['0', DigitChar(secs)];
      ParseTwoDigits('0', DigitChar(secs));
    }
  }

  /** A non-negative count formats as its minutes, a colon, and its padded
      seconds within the minute. */
  lemma FormatShape(seconds: int)
    requires seconds >= 0
    ensures FormatTimeRemaining(seconds)
            == NatToString(seconds / 60) + ":" + PadStart2(NatToString(seconds % 60))
  {
    assert JsRemainder(seconds, 60) == seconds % 60;
  }

  /** The two-digit field of a non-negative time holds the seconds within the minute. */
  lemma SecondsField(seconds: int)
    requires seconds >= 0
    ensures var r := FormatTimeRemaining(seconds); |r| >= 2 && ParseNat(r[|r| - 2..]) == seconds % 60
  {
    var m := NatToString(seconds / 60);
    var f := PadStart2(NatToString(seconds % 60));
    FormatShape(seconds);
    TwoDigitField(seconds % 60);
    ClockSlices(m, f);
  }

  /** Reading `minutes:ss` back, for any digit strings of the right shape. */
  lemma ParseClockOf(minutes: string, field: string)
    requires |minutes| >= 1 && AllDigits(minutes)
    requires |field| == 2 && AllDigits(field) && ParseNat(field) < 60
    ensures ParseClock(minutes + ":" + field) == Some(60 * ParseNat(minutes) + ParseNat(field))
  {
    var t := minutes + ":" + field;
    ClockSlices(minutes, field);
    ParseClockSplit(t, minutes, field);
    ParseClockPartsOf(minutes, field);
  }

  lemma ParseClockPartsOf(minutes: string, field: string)
    requires AllDigits(minutes)
    requires AllDigits(field) && ParseNat(field) < 60
    ensures ParseClockParts(minutes, field) == Some(60 * ParseNat(minutes) + ParseNat(field))
  {
  }

  /** `ParseClock` reads whatever lies before and after the colon. */
  lemma ParseClockSplit(t: string, minutes: string, field: string)
    requires |t| >= 4 && t[|t| - 3] == ':'
    requires t[..|t| - 3] == minutes && t[|t| - 2..] == field
    ensures ParseClock(t) == ParseClockParts(minutes, field)
  {
  }

  /** Where the colon and the two fields sit in `minutes:ss`. */
  lemma ClockSlices(minutes: string, field: string)
    requires |field| == 2
    ensures var t := minutes + ":" + field;
      |t| == |minutes| + 3 && t[|t| - 3] == ':' && t[..|t| - 3] == minutes && t[|t| - 2..] == field
  {
    var t := minutes + ":" + field;
    assert t[..|t| - 3] == minutes;
    assert t[|t| - 2..] == field;
  }

  /** Minutes and a seconds value below 60, rendered as `m:ss`, read back as
      `60 * m + ss`. */
  lemma ClockPartsRoundTrip(m: nat, secs: nat)
    requires secs < 60
    ensures ParseClock(NatToString(m) + ":" + PadStart2(NatToString(secs))) == Some(60 * m + secs)
  {
    TwoDigitField(secs);
    ParseNatToString(m);
    ParseClockOf(NatToString(m), PadStart2(NatToString(secs)));
  }

  /** Formatting a non-negative number of seconds and reading it back gives the
      same number: `60 * minutes + seconds`. */
  lemma ClockRoundTrip(seconds: int)
    requires seconds >= 0
    ensures ParseClock(FormatTimeRemaining(seconds)) == Some(seconds)
  {
    FormatShape(seconds);
    ClockPartsRoundTrip(seconds / 60, seconds % 60);
  }

  lemma ClockExamples()
    ensures FormatTimeRemaining(300) == "5:00"
    ensures FormatTimeRemaining(65) == "1:05"
    ensures FormatTimeRemaining(0) == "0:00"
    ensures FormatTimeRemaining(-5) == "-1:-5"
  {
    assert NatToString(5) == "5";
    assert NatToString(1) == "1";
    assert NatToString(0) == "0";
  }

  /** The ordinal suffix: only exactly 1, 2 and 3 get "st", "nd", "rd". */
  /** The two-letter English ordinal suffix, applied without the 11-13 and
      21-23 exceptions. */
  function RankSuffix(rank: int): (r: string)
    ensures |r| == 2
    ensures r == "th" <==> !(1 <= rank <= 3)
  {
    if rank == 1 then "st" else if rank == 2 then "nd" else if rank == 3 then "rd" else "th"
  }

  /** `formatRank`: the decimal rank followed by a two-letter suffix. */
  function FormatRank(rank: int): (r: string)
    ensures |r| == |IntToString(rank)| + 2 && r[..|r| - 2] == IntToString(rank)
    ensures r[|r| - 2..] == "st" <==> rank == 1
    ensures r[|r| - 2..] == "nd" <==> rank == 2
    ensures r[|r| - 2..] == "rd" <==> rank == 3
    ensures r[|r| - 2..] == "th" <==> !(1 <= rank <= 3)
  {
    var suffix := RankSuffix(rank);
    assert (IntToString(rank) + suffix)[|IntToString(rank)|..] == suffix;
    IntToString(rank) + suffix
  }

  /** The suffix ignores the English rule for 11-13 and 21-23. */
  lemma RankExamples()
    ensures FormatRank(1) == "1st"
    ensures FormatRank(3) == "3rd"
    ensures FormatRank(11) == "11th"
    ensures FormatRank(21) == "21th"
  {
    assert NatToString(1) == "1";
    assert NatToString(3) == "3";
    assert NatToString(11) == "11";
    assert NatToString(21) == "21";
  }
}
