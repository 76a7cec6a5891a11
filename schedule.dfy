/**
 * The availability resolver of the calendar view: the static weekly table
 * `SCHEDULE_DATA` and `isStaffAvailable` with its inner `parseTimeRange`.
 *
 * The resolver is stated over an arbitrary table (`AvailabilityIn`) so that
 * the blackout and missing-entry rules can be proved for every table, and
 * then instantiated with the fixed table (`IsStaffAvailable`).
 */
module Schedule {
  import opened JsText
  import Types

  /** A day's entry: one range string or a list of them (a split shift). */
  datatype Entry = Single(range: string) | Several(ranges: seq<string>)

  type DaySchedule = map<string, Entry>
  type StaffSchedule = map<string, DaySchedule>

  /** What a JavaScript call gives back: a value, or a thrown TypeError. */
  datatype Outcome<T> = Returned(value: T) | Threw

  datatype HourRange = HourRange(startHour: Num, endHour: Num)

  const ScheduleData: StaffSchedule := map[
    "Pharmacist1" := map[
      "Monday" := Several(["9:00-10:00", "11:00-5:00"]),
      "Wednesday" := Several(["9:00-10:00", "11:00-5:00"]),
      "Thursday" := Several(["9:00-10:00", "11:00-5:00"]),
      "Friday" := Several(["9:00-10:00", "11:00-5:00"]),
      "Saturday" := Several(["9:00-5:00"])
    ],
    "Pharmacist2" := map[
      "Sunday" := Single("9:00-5:00"),
      "Monday" := Single("2:00-5:00"),
      "Wednesday" := Single("9:00-5:00"),
      "Friday" := Single("9:00-5:00")
    ],
    "Technician" := map[
      "Monday" := Single("9:00-5:00"),
      "Tuesday" := Single("9:00-5:00"),
      "Wednesday" := Single("1:00-5:00"),
      "Thursday" := Single("9:00-5:00"),
      "Friday" := Single("9:00-5:00")
    ],
    "Assistant1" := map[
      "Sunday" := Single("9:00-5:00")
    ],
    "Assistant2" := map[
      "Monday" := Single("9:00-5:00"),
      "Tuesday" := Single("9:00-5:00"),
      "Thursday" := Single("1:00-5:00"),
      "Saturday" := Single("9:00-5:00")
    ]
  ]

  /** The roles that never work between 1am and 8am. */
  const BlackoutRoles: seq<string> := ["Pharmacist2", "Technician", "Assistant2"]

  predicate InBlackout(role: string, hour: int) {
    1 <= hour <= 8 && role in BlackoutRoles
  }

  /**
   * `parseTimeRange`: split on '-', read the leading integer of each side; an
   * end side of exactly "5:00" stands for 17. Without a '-' the end side is
   * undefined and reading it throws.
   */
  function ParseTimeRange(range: string): (r: Outcome<HourRange>)
    ensures r.Threw? <==> '-' !in range
  {
    SingleFieldIffNoSeparator(range, '-');
    var parts := Split(range, '-');
    if |parts| < 2 then Threw
    else
      var start, end := parts[0], parts[1];
      var startHour := ParseInt(Split(start, ':')[0]);
      var endHour := if end == "5:00" then Int(17) else ParseInt(Split(end, ':')[0]);
      Returned(HourRange(startHour, endHour))
  }

  /** `hour >= startHour && hour < endHour`. */
  predicate Contains(r: HourRange, hour: int) {
    AtLeast(hour, r.startHour) && Below(hour, r.endHour)
  }

  /** `ranges.some(...)`: parse and test each range in turn, stopping at the first hit. */
  function SomeContains(ranges: seq<string>, hour: int): Outcome<bool> {
    if ranges == [] then Returned(false)
    else match ParseTimeRange(ranges[0])
      case Threw => Threw
      case Returned(r) => if Contains(r, hour) then Returned(true) else SomeContains(ranges[1..], hour)
  }

  /** JavaScript truthiness of a day entry: only the empty string is falsy. */
  predicate Truthy(e: Entry) {
    !(e.Single? && e.range == "")
  }

  /** `isStaffAvailable` over a given table. */
  function AvailabilityIn(table: StaffSchedule, role: string, day: string, hour: int): (r: Outcome<bool>)
    ensures r == Returned(true) ==>
              !InBlackout(role, hour) && role in table && day in table[role] && Truthy(table[role][day])
  {
    if InBlackout(role, hour) then Returned(false)
    else if role !in table || day !in table[role] || !Truthy(table[role][day]) then Returned(false)
    else match table[role][day]
      case Several(ranges) => SomeContains(ranges, hour)
      case Single(range) =>
        match ParseTimeRange(range)
        case Threw => Threw
        case Returned(r) => Returned(Contains(r, hour))
  }

  // ---------------------------------------------------------------------------
  // Parsing the "H:MM-H:MM" literals

  /** The start hour is `parseInt` of the whole range string: both splits cut at a non-digit. */
  lemma ParseTimeRangeStart(range: string)
    requires '-' in range
    ensures ParseTimeRange(range).Returned?
    ensures ParseTimeRange(range).value.startHour == ParseInt(range)
  {
    ParseIntOfFirstField(range, '-');
    ParseIntOfFirstField(Split(range, '-')[0], ':');
  }

  /** `some` throws only when one of the ranges it reaches has no '-'. */
  lemma {:induction false} SomeContainsThrowsOnlyWithoutDash(ranges: seq<string>, hour: int)
    ensures SomeContains(ranges, hour).Threw? ==> exists k :: 0 <= k < |ranges| && '-' !in ranges[k]
  {
    if ranges != [] && '-' in ranges[0] && SomeContains(ranges, hour).Threw? {
      SomeContainsThrowsOnlyWithoutDash(ranges[1..], hour);
      var k :| 0 <= k < |ranges[1..]| && '-' !in ranges[1..][k];
      assert ranges[k + 1] == ranges[1..][k];
    }
  }

  /** A range string of the form "H:MM-H:MM" reads as its two leading hours, with "5:00" as 17. */
  lemma ParseClockRange(h1: nat, m1: string, h2: nat, m2: string)
    requires AllDigits(m1) && AllDigits(m2)
    ensures ParseTimeRange(NatToString(h1) + ":" + m1 + "-" + NatToString(h2) + ":" + m2)
         == Returned(HourRange(Int(h1), Int(if h2 == 5 && m2 == "00" then 17 else h2)))
  {
    var start := NatToString(h1) + ":" + m1;
    var end := NatToString(h2) + ":" + m2;
    assert NatToString(h1) + ":" + m1 + "-" + NatToString(h2) + ":" + m2 == start + ['-'] + end;
    assert '-' !in start by { assert forall i :: 0 <= i < |start| ==> start[i] == '-' ==> false; }
    assert '-' !in end by { assert forall i :: 0 <= i < |end| ==> end[i] == '-' ==> false; }
    SplitPair(start, end, '-');
    assert start == NatToString(h1) + [':'] + m1;
    assert end == NatToString(h2) + [':'] + m2;
    assert ':' !in NatToString(h1) by { assert AllDigits(NatToString(h1)); }
    assert ':' !in NatToString(h2) by { assert AllDigits(NatToString(h2)); }
    assert ':' !in m1 && ':' !in m2;
    SplitPair(NatToString(h1), m1, ':');
    SplitPair(NatToString(h2), m2, ':');
    ParseIntOfNatToString(h1, []);
    ParseIntOfNatToString(h2, []);
    assert NatToString(h1) + [] == NatToString(h1);
    assert NatToString(h2) + [] == NatToString(h2);
    if end == "5:00" {
      SplitPair("5", "00", ':');
      assert "5:00" == "5" + [':'] + "00";
      assert NatToString(h2) == "5" && m2 == "00";
      assert NatToString(5) == "5";
      NatToStringInjective(h2, 5);
    }
  }

  // ---------------------------------------------------------------------------
  // An independent reading of the table as integer shifts

  /** A half-open hour interval [startHour, endHour). */
  datatype Shift = Shift(startHour: int, endHour: int)

  predicate InSomeShift(shifts: seq<Shift>, hour: int) {
    exists k :: 0 <= k < |shifts| && shifts[k].startHour <= hour < shifts[k].endHour
  }

  /** Availability read off integer shifts: blackout first, then any shift of the day. */
  predicate ShiftAvailable(shifts: map<string, map<string, seq<Shift>>>, role: string, day: string, hour: int) {
    && !InBlackout(role, hour)
    && role in shifts && day in shifts[role]
    && InSomeShift(shifts[role][day], hour)
  }

  function EntryRanges(e: Entry): seq<string> {
    match e
    case Single(r) => [r]
    case Several(rs) => rs
  }

  /** The range string parses to the two bounds of the shift. */
  predicate ParsesTo(range: string, s: Shift) {
    ParseTimeRange(range) == Returned(HourRange(Int(s.startHour), Int(s.endHour)))
  }

  /** Every range string of the entry parses to the corresponding shift. */
  predicate EntryDenotes(e: Entry, shifts: seq<Shift>) {
    && Truthy(e)
    && |EntryRanges(e)| == |shifts|
    && forall k :: 0 <= k < |shifts| ==> ParsesTo(EntryRanges(e)[k], shifts[k])
  }

  predicate TableDenotes(table: StaffSchedule, shifts: map<string, map<string, seq<Shift>>>) {
    && table.Keys == shifts.Keys
    && forall role :: role in table ==>
         && table[role].Keys == shifts[role].Keys
         && forall day :: day in table[role] ==> EntryDenotes(table[role][day], shifts[role][day])
  }

  /** One step of `some`: a first range that parses to a shift decides or passes on. */
  lemma SomeContainsStep(ranges: seq<string>, first: Shift, hour: int)
    requires ranges != [] && ParsesTo(ranges[0], first)
    ensures SomeContains(ranges, hour)
         == if first.startHour <= hour < first.endHour then Returned(true) else SomeContains(ranges[1..], hour)
  {
  }

  lemma {:induction false} SomeContainsDenotes(ranges: seq<string>, shifts: seq<Shift>, hour: int)
    requires |ranges| == |shifts|
    requires forall k :: 0 <= k < |shifts| ==> ParsesTo(ranges[k], shifts[k])
    ensures SomeContains(ranges, hour) == Returned(InSomeShift(shifts, hour))
  {
    if ranges != [] {
      SomeContainsStep(ranges, shifts[0], hour);
      SomeContainsDenotes(ranges[1..], shifts[1..], hour);
      if !(shifts[0].startHour <= hour < shifts[0].endHour) {
        if InSomeShift(shifts, hour) {
          var k :| 0 <= k < |shifts| && shifts[k].startHour <= hour < shifts[k].endHour;
          assert shifts[1..][k - 1] == shifts[k];
        }
        if InSomeShift(shifts[1..], hour) {
          var k :| 0 <= k < |shifts[1..]| && shifts[1..][k].startHour <= hour < shifts[1..][k].endHour;
          assert shifts[k + 1] == shifts[1..][k];
        }
      }
    }
  }

  /**
   * A table whose range strings are all drawn from `known`, a dictionary of
   * strings already shown to parse, with the shifts that dictionary gives.
   */
  predicate EntryReads(e: Entry, shifts: seq<Shift>, known: map<string, Shift>) {
    && Truthy(e)
    && |EntryRanges(e)| == |shifts|
    && forall k :: 0 <= k < |shifts| ==> EntryRanges(e)[k] in known && known[EntryRanges(e)[k]] == shifts[k]
  }

  predicate RoleReads(days: DaySchedule, shifts: map<string, seq<Shift>>, known: map<string, Shift>) {
    && days.Keys == shifts.Keys
    && forall day :: day in days ==> EntryReads(days[day], shifts[day], known)
  }

  predicate KnownParse(known: map<string, Shift>) {
    forall range :: range in known ==> ParsesTo(range, known[range])
  }

  lemma TableReadsDenotes(table: StaffSchedule, shifts: map<string, map<string, seq<Shift>>>, known: map<string, Shift>)
    requires KnownParse(known)
    requires table.Keys == shifts.Keys
    requires forall role :: role in table ==> RoleReads(table[role], shifts[role], known)
    ensures TableDenotes(table, shifts)
  {
    forall role, day | role in table && day in table[role]
      ensures EntryDenotes(table[role][day], shifts[role][day])
    {
      assert RoleReads(table[role], shifts[role], known);
      var e, s := table[role][day], shifts[role][day];
      assert EntryReads(e, s, known);
      forall k | 0 <= k < |s| ensures ParsesTo(EntryRanges(e)[k], s[k]) {
        assert EntryRanges(e)[k] in known;
      }
    }
  }

  /**
   * On any table whose strings denote a shift table, the resolver never throws
   * and answers exactly the shift-table availability.
   */
  lemma AvailabilityDenotes(table: StaffSchedule, shifts: map<string, map<string, seq<Shift>>>,
                            role: string, day: string, hour: int)
    requires TableDenotes(table, shifts)
    ensures AvailabilityIn(table, role, day, hour) == Returned(ShiftAvailable(shifts, role, day, hour))
  {
    if !InBlackout(role, hour) && role in table && day in table[role] {
      var e := table[role][day];
      var s := shifts[role][day];
      assert EntryDenotes(e, s);
      match e
      case Several(rs) => SomeContainsDenotes(rs, s, hour);
      case Single(r) =>
        assert EntryRanges(e)[0] == r;
        if InSomeShift(s, hour) {
          var k :| 0 <= k < |s| && s[k].startHour <= hour < s[k].endHour;
          assert k == 0;
        }
    }
  }

  // ---------------------------------------------------------------------------
  // Properties

  /** The blackout rule wins over whatever the table says, even a malformed one. */
  lemma BlackoutPrecedence(table: StaffSchedule, role: string, day: string, hour: int)
    requires role in BlackoutRoles && 1 <= hour <= 8
    ensures AvailabilityIn(table, role, day, hour) == Returned(false)
  {
  }

  /** A role missing from the table, or a day missing for the role, means unavailable. */
  lemma MissingEntryUnavailable(table: StaffSchedule, role: string, day: string, hour: int)
    requires role !in table || day !in table[role]
    ensures AvailabilityIn(table, role, day, hour) == Returned(false)
  {
  }

}
