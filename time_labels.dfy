/**
 * The twelve-hour clock labels of the calendar's left-hand column: one per
 * hour in the overview grid, one per quarter hour in the staff view.
 */
module TimeLabels {
  import opened JsText

  /** The overview grid's label for an hour of the day, "12:00am" to "11:00pm". */
  function HourLabel(hour: int): (text: string)
    requires 0 <= hour < 24
    ensures text == NatToString(ClockHour(hour)) + ":00" + Suffix(hour)
  {
    assert NatToString(12) == "12";
    if hour == 0 then "12:00am"
    else if hour == 12 then "12:00pm"
    else if hour > 12 then NatToString(hour - 12) + ":00pm"
    else NatToString(hour) + ":00am"
  }

  /** The hour and minutes of quarter-hour slot `i` of the staff view. */
  function SlotHour(i: nat): nat { i / 4 }
  function SlotMinutes(i: nat): nat { (i % 4) * 15 }

  /** The staff view's label for slot `i`: the hour label on the hour, "h:mm" plus am/pm otherwise. */
  function SlotLabel(i: nat): (text: string)
    requires i < 96
    ensures text == NatToString(ClockHour(SlotHour(i))) + ":" + MinutesText(SlotMinutes(i)) + Suffix(SlotHour(i))
  {
    var hour, minutes := SlotHour(i), SlotMinutes(i);
    if minutes == 0 then HourLabel(hour)
    else
      NatToString(if hour == 0 then 12 else if hour == 12 then 12 else if hour > 12 then hour - 12 else hour)
      + ":" + NatToString(minutes) + (if hour >= 12 then "pm" else "am")
  }

  /**
   * Reads a label "h:mm" followed by "am" or "pm" back as minutes since
   * midnight; `None` for anything else.
   */
  function ParseClockLabel(s: string): Option<nat> {
    var d := LeadingDigits(s);
    var n := |d|;
    if n == 0 || |s| != n + 5 || s[n] != ':' || !AllDigits(s[n + 1..n + 3]) then None
    else
      var h12, mm, suffix := DigitsValue(d), DigitsValue(s[n + 1..n + 3]), s[n + 3..];
      if !(1 <= h12 <= 12) || mm >= 60 || (suffix != "am" && suffix != "pm") then None
      else Some((if suffix == "am" then h12 % 12 else h12 % 12 + 12) * 60 + mm)
  }

  // ---------------------------------------------------------------------------
  // Properties

  /** The twelve-hour number shown for `hour`. */
  function ClockHour(hour: nat): nat
    requires hour < 24
  {
    if hour == 0 || hour == 12 then 12 else if hour > 12 then hour - 12 else hour
  }

  function Suffix(hour: nat): string {
    if hour >= 12 then "pm" else "am"
  }

  function MinutesText(minutes: nat): string {
    if minutes == 0 then "00" else NatToString(minutes)
  }

  lemma MinutesTextDigits(minutes: nat)
    requires minutes == 0 || minutes == 15 || minutes == 30 || minutes == 45
    ensures |MinutesText(minutes)| == 2 && AllDigits(MinutesText(minutes))
    ensures DigitsValue(MinutesText(minutes)) == minutes
  {
    if minutes == 0 {
      assert DigitsValue("0") == 0;
    } else {
      assert |NatToString(minutes)| == 2 by {
        assert NatToString(minutes) == NatToString(minutes / 10) + [DigitChar(minutes % 10)];
      }
      DigitsValueOfNatToString(minutes);
    }
  }

  /** The twelve-hour number and the suffix together name the hour. */
  lemma ClockHourBack(hour: nat)
    requires hour < 24
    ensures 1 <= ClockHour(hour) <= 12
    ensures Suffix(hour) == "am" || Suffix(hour) == "pm"
    ensures (if Suffix(hour) == "am" then ClockHour(hour) % 12 else ClockHour(hour) % 12 + 12) == hour
  {
  }

  lemma {:induction false} ParseLabelOfParts(c: nat, mm: string, suffix: string)
    requires 1 <= c <= 12
    requires |mm| == 2 && AllDigits(mm) && DigitsValue(mm) < 60
    requires suffix == "am" || suffix == "pm"
    ensures ParseClockLabel(NatToString(c) + ":" + mm + suffix)
         == Some((if suffix == "am" then c % 12 else c % 12 + 12) * 60 + DigitsValue(mm))
  {
    var d := NatToString(c);
    var s := d + ":" + mm + suffix;
    assert s == d + (":" + mm + suffix);
    LeadingDigitsOfDigitsThen(d, ":" + mm + suffix);
    DigitsValueOfNatToString(c);
    var n := |d|;
    assert s[n] == ':';
    assert s[n + 1..n + 3] == mm;
    assert s[n + 3..] == suffix;
  }

  /** Reading a staff-view label gives back the slot's time of day: the labels are a faithful clock. */
  lemma SlotLabelRoundTrip(i: nat)
    requires i < 96
    ensures ParseClockLabel(SlotLabel(i)) == Some(SlotHour(i) * 60 + SlotMinutes(i))
  {
    var hour, minutes := SlotHour(i), SlotMinutes(i);
    assert hour < 24 && (minutes == 0 || minutes == 15 || minutes == 30 || minutes == 45);
    MinutesTextDigits(minutes);
    ClockHourBack(hour);
    ParseLabelOfParts(ClockHour(hour), MinutesText(minutes), Suffix(hour));
  }

  /** Distinct slots carry distinct labels. */
  lemma SlotLabelInjective(i: nat, j: nat)
    requires i < 96 && j < 96 && SlotLabel(i) == SlotLabel(j)
    ensures i == j
  {
    SlotLabelRoundTrip(i);
    SlotLabelRoundTrip(j);
  }

  /** The staff view's on-the-hour labels are the overview's hour labels. */
  lemma SlotLabelOnTheHour(hour: nat)
    requires hour < 24
    ensures SlotLabel(4 * hour) == HourLabel(hour)
  {
  }

  /** An hour label reads back as that hour, and says "am" exactly before noon. */
  lemma HourLabelMeaning(hour: nat)
    requires hour < 24
    ensures ParseClockLabel(HourLabel(hour)) == Some(hour * 60)
    ensures (HourLabel(hour)[|HourLabel(hour)| - 2..] == "am") <==> hour < 12
  {
    SlotLabelOnTheHour(hour);
    SlotLabelRoundTrip(4 * hour);
    var s := HourLabel(hour);
    assert s[|s| - 2..] == Suffix(hour);
  }
}
