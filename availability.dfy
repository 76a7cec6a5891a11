/**
 * `isStaffAvailable` on the calendar's own table: the range strings of
 * `SCHEDULE_DATA` are read once and for all, and the resolver is shown to
 * agree with a table of integer shifts written out by hand.
 */
module StaffAvailability {
  import opened JsText
  import opened Schedule
  import Types

  /** The shifts the range strings are meant to denote, with "5:00" read as 17:00. */
  const ShiftHours: map<string, map<string, seq<Shift>>> := map[
    "Pharmacist1" := map[
      "Monday" := [Shift(9, 10), Shift(11, 17)],
      "Wednesday" := [Shift(9, 10), Shift(11, 17)],
      "Thursday" := [Shift(9, 10), Shift(11, 17)],
      "Friday" := [Shift(9, 10), Shift(11, 17)],
      "Saturday" := [Shift(9, 17)]
    ],
    "Pharmacist2" := map[
      "Sunday" := [Shift(9, 17)],
      "Monday" := [Shift(2, 17)],
      "Wednesday" := [Shift(9, 17)],
      "Friday" := [Shift(9, 17)]
    ],
    "Technician" := map[
      "Monday" := [Shift(9, 17)],
      "Tuesday" := [Shift(9, 17)],
      "Wednesday" := [Shift(1, 17)],
      "Thursday" := [Shift(9, 17)],
      "Friday" := [Shift(9, 17)]
    ],
    "Assistant1" := map[
      "Sunday" := [Shift(9, 17)]
    ],
    "Assistant2" := map[
      "Monday" := [Shift(9, 17)],
      "Tuesday" := [Shift(9, 17)],
      "Thursday" := [Shift(1, 17)],
      "Saturday" := [Shift(9, 17)]
    ]
  ]

  /** Reading one "H:00-H:00" literal of the table. */
  lemma ClockLiteral(h1: nat, h2: nat, literal: string)
    requires literal == NatToString(h1) + ":00-" + NatToString(h2) + ":00"
    ensures ParseTimeRange(literal) == Returned(HourRange(Int(h1), Int(if h2 == 5 then 17 else h2)))
  {
    ParseClockRange(h1, "00", h2, "00");
    assert NatToString(h1) + ":" + "00" + "-" + NatToString(h2) + ":" + "00" == literal;
  }

  // The five distinct range literals of the table and what they parse to.

  lemma ParseNineToTen()
    ensures ParseTimeRange("9:00-10:00") == Returned(HourRange(Int(9), Int(10)))
  {
    assert NatToString(9) == "9";
    assert NatToString(10) == "10";
    assert "9:00-10:00" == NatToString(9) + ":00-" + NatToString(10) + ":00";
    ClockLiteral(9, 10, "9:00-10:00");
  }

  lemma ParseElevenToFive()
    ensures ParseTimeRange("11:00-5:00") == Returned(HourRange(Int(11), Int(17)))
  {
    assert NatToString(11) == "11";
    assert NatToString(5) == "5";
    assert "11:00-5:00" == NatToString(11) + ":00-" + NatToString(5) + ":00";
    ClockLiteral(11, 5, "11:00-5:00");
  }

  lemma ParseNineToFive()
    ensures ParseTimeRange("9:00-5:00") == Returned(HourRange(Int(9), Int(17)))
  {
    assert NatToString(9) == "9";
    assert NatToString(5) == "5";
    assert "9:00-5:00" == NatToString(9) + ":00-" + NatToString(5) + ":00";
    ClockLiteral(9, 5, "9:00-5:00");
  }

  lemma ParseTwoToFive()
    ensures ParseTimeRange("2:00-5:00") == Returned(HourRange(Int(2), Int(17)))
  {
    assert NatToString(2) == "2";
    assert NatToString(5) == "5";
    assert "2:00-5:00" == NatToString(2) + ":00-" + NatToString(5) + ":00";
    ClockLiteral(2, 5, "2:00-5:00");
  }

  lemma ParseOneToFive()
    ensures ParseTimeRange("1:00-5:00") == Returned(HourRange(Int(1), Int(17)))
  {
    assert NatToString(1) == "1";
    assert NatToString(5) == "5";
    assert "1:00-5:00" == NatToString(1) + ":00-" + NatToString(5) + ":00";
    ClockLiteral(1, 5, "1:00-5:00");
  }

  /** The range strings that occur in the table, with the shift each one denotes. */
  const RangeLiterals: map<string, Shift> := map[
    "9:00-10:00" := Shift(9, 10),
    "11:00-5:00" := Shift(11, 17),
    "9:00-5:00" := Shift(9, 17),
    "2:00-5:00" := Shift(2, 17),
    "1:00-5:00" := Shift(1, 17)
  ]

  lemma KnownNineToTen(range: string)
    requires range == "9:00-10:00"
    ensures range in RangeLiterals && ParsesTo(range, RangeLiterals[range])
  {
    ParseNineToTen();
    assert RangeLiterals[range] == Shift(9, 10);
  }

  lemma KnownElevenToFive(range: string)
    requires range == "11:00-5:00"
    ensures range in RangeLiterals && ParsesTo(range, RangeLiterals[range])
  {
    ParseElevenToFive();
    assert RangeLiterals[range] == Shift(11, 17);
  }

  lemma KnownNineToFive(range: string)
    requires range == "9:00-5:00"
    ensures range in RangeLiterals && ParsesTo(range, RangeLiterals[range])
  {
    ParseNineToFive();
    assert RangeLiterals[range] == Shift(9, 17);
  }

  lemma KnownTwoToFive(range: string)
    requires range == "2:00-5:00"
    ensures range in RangeLiterals && ParsesTo(range, RangeLiterals[range])
  {
    ParseTwoToFive();
    assert RangeLiterals[range] == Shift(2, 17);
  }

  lemma KnownOneToFive(range: string)
    requires range == "1:00-5:00"
    ensures range in RangeLiterals && ParsesTo(range, RangeLiterals[range])
  {
    ParseOneToFive();
    assert RangeLiterals[range] == Shift(1, 17);
  }

  lemma RangeLiteralsParse()
    ensures KnownParse(RangeLiterals)
  {
    forall range | range in RangeLiterals ensures ParsesTo(range, RangeLiterals[range]) {
      if range == "9:00-10:00" {
        KnownNineToTen(range);
      } else if range == "11:00-5:00" {
        KnownElevenToFive(range);
      } else if range == "9:00-5:00" {
        KnownNineToFive(range);
      } else if range == "2:00-5:00" {
        KnownTwoToFive(range);
      } else {
        KnownOneToFive(range);
      }
    }
  }

  lemma Pharmacist1Reads()
    ensures RoleReads(ScheduleData["Pharmacist1"], ShiftHours["Pharmacist1"], RangeLiterals)
  {
    var days := ScheduleData["Pharmacist1"];
    var shifts := ShiftHours["Pharmacist1"];
    var split := Several(["9:00-10:00", "11:00-5:00"]);
    var splitShifts := [Shift(9, 10), Shift(11, 17)];
    assert days == map["Monday" := split, "Wednesday" := split, "Thursday" := split, "Friday" := split,
                       "Saturday" := Several(["9:00-5:00"])];
    assert shifts == map["Monday" := splitShifts, "Wednesday" := splitShifts, "Thursday" := splitShifts,
                         "Friday" := splitShifts, "Saturday" := [Shift(9, 17)]];
    assert days.Keys == shifts.Keys;
    assert EntryReads(split, splitShifts, RangeLiterals);
    assert EntryReads(Several(["9:00-5:00"]), [Shift(9, 17)], RangeLiterals);
    forall day | day in days ensures EntryReads(days[day], shifts[day], RangeLiterals) {
      if day != "Saturday" {
        assert days[day] == split && shifts[day] == splitShifts;
      }
    }
  }

  lemma Pharmacist2Reads()
    ensures RoleReads(ScheduleData["Pharmacist2"], ShiftHours["Pharmacist2"], RangeLiterals)
  {
    var days := ScheduleData["Pharmacist2"];
    var shifts := ShiftHours["Pharmacist2"];
    var usual := Single("9:00-5:00");
    var usualShifts := [Shift(9, 17)];
    assert days == map["Sunday" := usual, "Monday" := Single("2:00-5:00"), "Wednesday" := usual, "Friday" := usual];
    assert shifts == map["Sunday" := usualShifts, "Monday" := [Shift(2, 17)], "Wednesday" := usualShifts, "Friday" := usualShifts];
    assert days.Keys == shifts.Keys;
    assert EntryReads(usual, usualShifts, RangeLiterals);
    assert EntryReads(Single("2:00-5:00"), [Shift(2, 17)], RangeLiterals);
    forall day | day in days ensures EntryReads(days[day], shifts[day], RangeLiterals) {
      if day != "Monday" {
        assert days[day] == usual && shifts[day] == usualShifts;
      }
    }
  }

  lemma TechnicianReads()
    ensures RoleReads(ScheduleData["Technician"], ShiftHours["Technician"], RangeLiterals)
  {
    var days := ScheduleData["Technician"];
    var shifts := ShiftHours["Technician"];
    var usual := Single("9:00-5:00");
    var usualShifts := [Shift(9, 17)];
    assert days == map["Monday" := usual, "Tuesday" := usual, "Wednesday" := Single("1:00-5:00"), "Thursday" := usual, "Friday" := usual];
    assert shifts == map["Monday" := usualShifts, "Tuesday" := usualShifts, "Wednesday" := [Shift(1, 17)], "Thursday" := usualShifts, "Friday" := usualShifts];
    assert days.Keys == shifts.Keys;
    assert EntryReads(usual, usualShifts, RangeLiterals);
    assert EntryReads(Single("1:00-5:00"), [Shift(1, 17)], RangeLiterals);
    forall day | day in days ensures EntryReads(days[day], shifts[day], RangeLiterals) {
      if day != "Wednesday" {
        assert days[day] == usual && shifts[day] == usualShifts;
      }
    }
  }

  lemma Assistant1Reads()
    ensures RoleReads(ScheduleData["Assistant1"], ShiftHours["Assistant1"], RangeLiterals)
  {
    var days := ScheduleData["Assistant1"];
    var shifts := ShiftHours["Assistant1"];
    var usual := Single("9:00-5:00");
    var usualShifts := [Shift(9, 17)];
    assert days == map["Sunday" := usual];
    assert shifts == map["Sunday" := usualShifts];
    assert days.Keys == shifts.Keys;
    assert EntryReads(usual, usualShifts, RangeLiterals);
  }

  lemma Assistant2Reads()
    ensures RoleReads(ScheduleData["Assistant2"], ShiftHours["Assistant2"], RangeLiterals)
  {
    var days := ScheduleData["Assistant2"];
    var shifts := ShiftHours["Assistant2"];
    var usual := Single("9:00-5:00");
    var usualShifts := [Shift(9, 17)];
    assert days == map["Monday" := usual, "Tuesday" := usual, "Thursday" := Single("1:00-5:00"), "Saturday" := usual];
    assert shifts == map["Monday" := usualShifts, "Tuesday" := usualShifts, "Thursday" := [Shift(1, 17)], "Saturday" := usualShifts];
    assert days.Keys == shifts.Keys;
    assert EntryReads(usual, usualShifts, RangeLiterals);
    assert EntryReads(Single("1:00-5:00"), [Shift(1, 17)], RangeLiterals);
    forall day | day in days ensures EntryReads(days[day], shifts[day], RangeLiterals) {
      if day != "Thursday" {
        assert days[day] == usual && shifts[day] == usualShifts;
      }
    }
  }

  /** The fixed table's strings denote `ShiftHours`. */
  lemma ScheduleDataDenotesShiftHours()
    ensures TableDenotes(ScheduleData, ShiftHours)
  {
    RangeLiteralsParse();
    assert ScheduleData.Keys == ShiftHours.Keys;
    forall role | role in ScheduleData ensures RoleReads(ScheduleData[role], ShiftHours[role], RangeLiterals) {
      if role == "Pharmacist1" {
        Pharmacist1Reads();
      } else if role == "Pharmacist2" {
        Pharmacist2Reads();
      } else if role == "Technician" {
        TechnicianReads();
      } else if role == "Assistant1" {
        Assistant1Reads();
      } else {
        Assistant2Reads();
      }
    }
    TableReadsDenotes(ScheduleData, ShiftHours, RangeLiterals);
  }

  /** `isStaffAvailable` on the fixed table. */
  function IsStaffAvailable(role: string, day: string, hour: int): (available: bool)
    ensures available == ShiftAvailable(ShiftHours, role, day, hour)
  {
    ScheduleDataDenotesShiftHours();
    AvailabilityDenotes(ScheduleData, ShiftHours, role, day, hour);
    AvailabilityIn(ScheduleData, role, day, hour).value
  }

  // ---------------------------------------------------------------------------
  // Properties of the fixed table

  /** Pharmacist 1's Monday split shift: 9 and 11 to 16, a gap at 10, nothing from 17. */
  lemma Pharmacist1Monday(hour: int)
    ensures IsStaffAvailable("Pharmacist1", "Monday", hour) <==> hour == 9 || 11 <= hour <= 16
  {
    var s := ShiftHours["Pharmacist1"]["Monday"];
    if hour == 9 { assert s[0].startHour <= hour < s[0].endHour; }
    if 11 <= hour <= 16 { assert s[1].startHour <= hour < s[1].endHour; }
  }

  /** Pharmacist 1 across the week: the split shift on four weekdays, 9 to 16 on Saturday, never otherwise. */
  lemma Pharmacist1Week(day: string, hour: int)
    ensures IsStaffAvailable("Pharmacist1", day, hour)
        <==> || ((day == "Monday" || day == "Wednesday" || day == "Thursday" || day == "Friday")
                 && (hour == 9 || 11 <= hour <= 16))
             || (day == "Saturday" && 9 <= hour <= 16)
  {
    var days := ShiftHours["Pharmacist1"];
    assert days.Keys == {"Monday", "Wednesday", "Thursday", "Friday", "Saturday"};
    if day in days {
      var s := days[day];
      if day == "Saturday" {
        assert s == [Shift(9, 17)];
        if 9 <= hour <= 16 { assert s[0].startHour <= hour < s[0].endHour; }
      } else {
        assert s == [Shift(9, 10), Shift(11, 17)];
        if hour == 9 { assert s[0].startHour <= hour < s[0].endHour; }
        if 11 <= hour <= 16 { assert s[1].startHour <= hour < s[1].endHour; }
      }
    }
  }

  /**
   * The "1:00-5:00" and "2:00-5:00" entries of the blackout roles give exactly
   * the hours 9 to 16: the blackout removes 1 to 8 and hour 0 is before the start.
   */
  lemma EarlyStartsCutByBlackout(role: string, day: string, hour: int)
    requires (role, day) in {("Pharmacist2", "Monday"), ("Technician", "Wednesday"), ("Assistant2", "Thursday")}
    ensures IsStaffAvailable(role, day, hour) <==> 9 <= hour <= 16
  {
    var s := ShiftHours[role][day];
    if 9 <= hour <= 16 { assert s[0].startHour <= hour < s[0].endHour; }
  }

  /** An unknown role, or a day without an entry, is never available at any hour. */
  lemma UnscheduledNeverAvailable(role: string, day: string, hour: int)
    requires role !in ScheduleData || day !in ScheduleData[role]
    ensures !IsStaffAvailable(role, day, hour)
  {
  }

  /** Every role and day key of the table comes from the enumerations. */
  lemma TableKeysEnumerated()
    ensures forall role :: role in ScheduleData ==> role in Types.StaffRoles()
    ensures forall role, day :: role in ScheduleData && day in ScheduleData[role] ==> day in Types.DaysOfWeek
  {
    Types.StaffRolesEnumerated();
  }
}
