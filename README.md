# Pharmacy staff calendar: scheduling rules

A Dafny model of the rules inside a pharmacy's weekly staff calendar, a
React client:

- **Availability.** `isStaffAvailable` decides whether a staff member is on
  shift on a day at an hour. It works over the static table `SCHEDULE_DATA`,
  which maps role, then day, to one range string such as `"9:00-5:00"` or to
  a list of them for a split shift.
  - It applies a 1am–8am blackout for three roles before anything else.
  - It parses each range with `split` and `parseInt`, reading an end of
    exactly `"5:00"` as 17.
  - It tests half-open containment, OR-ed over a split shift's ranges.
- **Pharmacist 1's tasks.** `handleP1Click` is the hourly first-match rule
  list behind a click on a "P1" marker of the overview grid. The staff view
  has its own quarter-hour blocks for the same role.
- **Clock labels.** The twelve-hour labels of the hourly grid and of the
  quarter-hour staff view.
- **Dialog state.** The calendar's task dialog and add-schedule dialog, with
  the click handlers that fill them.
- **Notify Staff dialog.** A delivery method (SMS or Email) and a selection
  list that clicks toggle one role at a time, plus the Everyone and None
  actions.
- **Constant data.** The five staff members and the seven day names.

Modules, in dependency order:

- `JsText` (`js_text.dfy`): the JavaScript built-ins the rules use.
  - `split` on one character, with `Join` as its inverse.
  - `parseInt` on leading digits, with NaN where there are none. Comparisons
    with NaN are false.
  - The decimal rendering `${n}`, with a digit reader as its inverse.
- `Types` (`types.dfy`): `STAFF_LIST` and `DAYS_OF_WEEK`.
- `Schedule` (`schedule.dfy`): the table, `parseTimeRange` and the resolver.
  - The resolver is written over any table and answers a value or a thrown
    TypeError. A range without '-' leaves `end` undefined, and `end.split`
    throws.
  - It is proved equal to a plain reading of the table as integer shifts,
    whenever the table's strings denote those shifts.
- `StaffAvailability` (`availability.dfy`): the calendar's own table.
  - Its range strings are read once, and the resolver is shown equal to a
    hand-written table of integer shifts (`ShiftHours`).
  - `IsStaffAvailable` is specified by that table.
- `TimeLabels` (`time_labels.dfy`): the hour and quarter-hour labels, with a
  label reader as their inverse.
- `TaskRules` (`task_rules.dfy`): the hourly rules (`P1Task`) and the staff
  view's blocks (`SlotBlocks`).
  - The staff view's six independent conditions are proved to draw exactly
    an interval plan (`PlannedBlock`).
- `CalendarView` (`calendar_view.dfy`): class `CalendarState`, holding the
  task dialog and the add-schedule dialog, whose methods are the click
  handlers.
- `NotifyStaff` (`notify_staff.dfy`): class `NotifyStaffModal`, holding the
  method and the selected roles, with the toggle's laws as lemmas.

Pharmacist 1 is not available on Monday at 10:00: that hour falls outside
`"9:00-10:00"` and before `"11:00-5:00"`.

The hourly rules and the quarter-hour staff view do not agree everywhere.
Both are modelled as written. They differ in these places:

- On days other than Sunday, Tuesday and Saturday, 10:00 is a gap in the
  hourly rules but Dispensing in the staff view.
- On those same days, 13:00 is a gap in the hourly rules but Lunch, and from
  13:45 Dispensing, in the staff view. Pharmacist 1's marker is drawn at
  13:00, so this gap can be clicked.
- On Sunday and Tuesday, the hourly rules name a task at 9, 11, 12, 14, 15
  and 16, because they have no day exclusion. The staff view is empty on
  those days.
- On Saturday, the hourly rules give Dispensing at every hour before 9:00
  and after 16:00. The staff view is empty there.
- On Saturday at 16:00, the hourly rule is MedsCheck but the staff view shows
  Dispensing.

`ViewsAgreeExactly` proves that these are the only places the two views
differ. `HourlyAndQuartersDiffer` gives one instance of each.

## Model

| member | source | states |
|---|---|---|
| JsText.NatToString | client/src/components/calendar/Calendar.tsx:264-265 | `${n}` is a non-empty string of decimal digits with no leading zero, one digit exactly below 10 |
| JsText.DigitsValueOfNatToString | client/src/components/calendar/Calendar.tsx:264-265 | reading the decimal rendering of `n` back gives `n` |
| JsText.NatToStringInjective | client/src/components/calendar/Calendar.tsx:264-265 | different numbers render differently |
| JsText.ParseInt | client/src/components/calendar/Calendar.tsx:108-109 | `parseInt` gives NaN exactly when the string does not start with a digit, and otherwise a non-negative integer |
| JsText.ParseIntOfFirstField | client/src/components/calendar/Calendar.tsx:108 | `parseInt` of the first field of a split on a non-digit separator equals `parseInt` of the whole string |
| JsText.SingleFieldIffNoSeparator | client/src/components/calendar/Calendar.tsx:107 | a split gives a single field exactly when the separator does not occur |
| JsText.LeadingDigits | client/src/components/calendar/Calendar.tsx:108 | the part `parseInt` reads is the longest digit prefix: all digits, a prefix, and followed by a non-digit or the end |
| JsText.ParseIntOfNatToString | client/src/components/calendar/Calendar.tsx:108-109 | `parseInt` of a rendered number followed by a non-digit gives that number |
| JsText.Split | client/src/components/calendar/Calendar.tsx:107-109 | `split` gives at least one field and no field holds the separator |
| JsText.JoinSplit | client/src/components/calendar/Calendar.tsx:107 | joining the fields of a split with the separator gives the string back |
| JsText.SplitJoin | client/src/components/calendar/Calendar.tsx:107 | splitting a join of separator-free fields gives the fields back |
| JsText.SplitPair | client/src/components/calendar/Calendar.tsx:107-108 | `(a + "-" + b).split("-")` is `[a, b]` when neither side holds the separator |
| Types.StaffList | client/src/lib/types.ts:15-21 | the five staff members with id, display name, role and colour, as listed |
| Types.DaysOfWeek | client/src/lib/types.ts:23-25 | the seven day names, Sunday first |
| Types.StaffRoles | client/src/lib/types.ts:15-21 | `STAFF_LIST.map(s => s.role)`: one role per staff member, in list order |
| Types.StaffListIds | client/src/lib/types.ts:15-21 | five staff members with ids 1 to 5 in order |
| Types.StaffRolesEnumerated | client/src/lib/types.ts:16-20 | the roles are Pharmacist1, Pharmacist2, Technician, Assistant1, Assistant2, pairwise distinct, and entry 1 is Pharmacist2 |
| Types.DaysOfWeekEnumerated | client/src/lib/types.ts:23-25 | seven distinct day names, Sunday first and Saturday last |
| Schedule.ScheduleData | client/src/components/calendar/Calendar.tsx:16-46 | the weekly table as written, role by day, with split-shift days as lists |
| Schedule.ParseTimeRange | client/src/components/calendar/Calendar.tsx:106-111 | `parseTimeRange` throws exactly when the range has no '-' (then `end` is undefined) |
| Schedule.ParseTimeRangeStart | client/src/components/calendar/Calendar.tsx:107-108 | for a range with a '-', the start hour is `parseInt` of the whole range string |
| Schedule.SomeContainsThrowsOnlyWithoutDash | client/src/components/calendar/Calendar.tsx:114-117 | `some` over a split shift throws only if one of its ranges has no '-' |
| Schedule.AvailabilityIn | client/src/components/calendar/Calendar.tsx:94-122 | `isStaffAvailable` over any table answers true only outside the blackout, for a role and day present in the table with a truthy entry |
| Schedule.ParseClockRange | client/src/components/calendar/Calendar.tsx:106-111 | `"H:MM-H:MM"` parses to its two leading hours, with an end of exactly "5:00" read as 17 |
| Schedule.SomeContainsStep | client/src/components/calendar/Calendar.tsx:114-117 | one step of `some`: a first range containing the hour answers true, otherwise the rest decides |
| Schedule.SomeContainsDenotes | client/src/components/calendar/Calendar.tsx:113-117 | on a split shift whose ranges parse to shifts, `some` never throws and answers whether any shift contains the hour |
| Schedule.TableReadsDenotes | client/src/components/calendar/Calendar.tsx:12-46 | a table whose strings come from a dictionary of parsed ranges denotes the shifts that dictionary gives |
| Schedule.AvailabilityDenotes | client/src/components/calendar/Calendar.tsx:94-122 | on any table whose strings denote a shift table, the resolver never throws and equals blackout-then-any-shift availability |
| Schedule.BlackoutPrecedence | client/src/components/calendar/Calendar.tsx:96-100 | Pharmacist2, Technician and Assistant2 are unavailable from 1 to 8 whatever the table holds, even a malformed entry |
| Schedule.MissingEntryUnavailable | client/src/components/calendar/Calendar.tsx:102-104 | a role missing from the table, or a day missing for the role, is unavailable |
| StaffAvailability.ClockLiteral | client/src/components/calendar/Calendar.tsx:106-111 | a whole-hour literal `"h1:00-h2:00"` parses to h1 and h2, with 5 as the end read as 17 |
| StaffAvailability.ParseNineToTen | client/src/components/calendar/Calendar.tsx:106-111 | `"9:00-10:00"` parses to (9, 10) |
| StaffAvailability.ParseElevenToFive | client/src/components/calendar/Calendar.tsx:106-111 | `"11:00-5:00"` parses to (11, 17) |
| StaffAvailability.ParseNineToFive | client/src/components/calendar/Calendar.tsx:106-111 | `"9:00-5:00"` parses to (9, 17) |
| StaffAvailability.ParseTwoToFive | client/src/components/calendar/Calendar.tsx:106-111 | `"2:00-5:00"` parses to (2, 17) |
| StaffAvailability.ParseOneToFive | client/src/components/calendar/Calendar.tsx:106-111 | `"1:00-5:00"` parses to (1, 17) |
| StaffAvailability.ScheduleDataDenotesShiftHours | client/src/components/calendar/Calendar.tsx:16-46 | every range string of `SCHEDULE_DATA` parses to the hand-written integer shift at the same role, day and position |
| StaffAvailability.IsStaffAvailable | client/src/components/calendar/Calendar.tsx:94-122 | `isStaffAvailable` on the fixed table is exactly: not in the blackout, and some shift of that role and day contains the hour |
| StaffAvailability.Pharmacist1Monday | client/src/components/calendar/Calendar.tsx:113-121 | Pharmacist 1 on Monday is available exactly at 9 and at 11 to 16, not at 10 or 17 |
| StaffAvailability.Pharmacist1Week | client/src/components/calendar/Calendar.tsx:17-22 | Pharmacist 1 works 9 and 11–16 on Monday, Wednesday, Thursday and Friday, 9–16 on Saturday, and no other time |
| StaffAvailability.EarlyStartsCutByBlackout | client/src/components/calendar/Calendar.tsx:96-120 | the "1:00-5:00"/"2:00-5:00" days of the blackout roles are available at exactly 9 to 16 |
| StaffAvailability.UnscheduledNeverAvailable | client/src/components/calendar/Calendar.tsx:102-104 | a role or day with no entry in `SCHEDULE_DATA` is never available |
| StaffAvailability.TableKeysEnumerated | client/src/components/calendar/Calendar.tsx:16-46 | every role key of the table is a staff role and every day key a day name |
| TimeLabels.HourLabel | client/src/components/calendar/Calendar.tsx:262-265 | the hour label is the twelve-hour number (12 for 0 and 12), ":00", then "am" before noon and "pm" from noon |
| TimeLabels.SlotLabel | client/src/components/calendar/Calendar.tsx:398-406 | every staff-view label is twelve-hour number, colon, two minute digits ("00" on the hour), am/pm |
| TimeLabels.SlotLabelRoundTrip | client/src/components/calendar/Calendar.tsx:398-406 | reading slot i's label gives back `i/4` hours and `(i%4)*15` minutes |
| TimeLabels.SlotLabelInjective | client/src/components/calendar/Calendar.tsx:398-406 | no two of the 96 slots share a label |
| TimeLabels.SlotLabelOnTheHour | client/src/components/calendar/Calendar.tsx:403-404 | on the hour, the staff view's label is the overview's hour label |
| TimeLabels.HourLabelMeaning | client/src/components/calendar/Calendar.tsx:262-265 | an hour label reads back as that hour, and ends in "am" exactly before noon |
| TaskRules.P1Task | client/src/components/calendar/Calendar.tsx:124-185 | the rule list sets no task exactly on non-Saturday days outside 9, 11–12 and 14–16; every task is Dispensing, Flu Shot or MedsCheck with empty details |
| TaskRules.SlotBlocks | client/src/components/calendar/Calendar.tsx:413-437 | Sunday, Tuesday and slots outside 9:00–16:45 show nothing, and every block is Dispensing, Flu Shot, Lunch or MedsCheck |
| TaskRules.SlotBlocksFollowPlan | client/src/components/calendar/Calendar.tsx:413-437 | the six conditions of a staff-view cell draw exactly the interval plan's block, or nothing |
| TaskRules.AtMostOneBlock | client/src/components/calendar/Calendar.tsx:418-437 | a cell shows at most one block, and exactly one on days other than Sunday and Tuesday for slots 36 to 67 (9:00 to 16:45) |
| TaskRules.SaturdayOnlyDispensing | client/src/components/calendar/Calendar.tsx:420-437 | Saturday shows Dispensing and never Flu Shot, Lunch or MedsCheck |
| TaskRules.MedsCheckFirst | client/src/components/calendar/Calendar.tsx:126-137 | hour 16 gives MedsCheck "4:00pm-5:00pm" on every day, Saturday included |
| TaskRules.SaturdayDispensing | client/src/components/calendar/Calendar.tsx:139-151 | any other Saturday hour gives Dispensing "9:00am-5:00pm" for "Pharmacist 2" |
| TaskRules.WeekdayTaskHours | client/src/components/calendar/Calendar.tsx:153-184 | on days other than Saturday a task is set exactly at 9, 11–12 and 14–16, with the whole record for each band: Dispensing "9:00am-11:00am", Flu Shot "11:00am to 1:00pm", Dispensing "2:00pm to 4:00pm" and MedsCheck "4:00pm-5:00pm", all for "Pharmacist 1" with empty details; other hours leave the dialog alone |
| TaskRules.ViewsAgreeExactly | client/src/components/calendar/Calendar.tsx:124-185 | the hourly task and the quarter-hour blocks agree at every day, hour and quarter except exactly: Sunday/Tuesday at 9, 11–12, 14–16; Saturday before 9 and from 16; 10 and 13 on the other days |
| TaskRules.HourlyAndQuartersDiffer | client/src/components/calendar/Calendar.tsx:418-437 | one instance of each difference: Monday 10:00 and 13:00 have no hourly task but Dispensing, Lunch and Dispensing by the quarter; Saturday 16:00 is MedsCheck hourly but Dispensing by the quarter; Saturday 3:00 and Sunday 9:00 have an hourly task but an empty cell |
| CalendarView.CalendarState.constructor | client/src/components/calendar/Calendar.tsx:51-84 | both dialogs start closed with empty records and undefined details |
| CalendarView.CalendarState.HandleP1Click | client/src/components/calendar/Calendar.tsx:124-185 | opens the task dialog on the rule list's record, or leaves both dialogs untouched |
| CalendarView.CalendarState.MarkerClick | client/src/components/calendar/Calendar.tsx:287-331 | a P1 marker runs the rule list; any other marker opens an empty task for that staff member |
| CalendarView.CalendarState.WeekCellClick | client/src/components/calendar/Calendar.tsx:355-368 | a cell with no truthy entry opens the add-schedule dialog with the name, "Day, Dec nth" and "2pm-4pm"; a scheduled cell changes nothing |
| CalendarView.CalendarState.ShiftClick | client/src/components/calendar/Calendar.tsx:375-386 | only Pharmacist 1's week shift opens the task dialog, with Dispensing 9:00am-5:00pm |
| CalendarView.CalendarState.SetTaskModalOpen | client/src/components/calendar/Calendar.tsx:506 | opening or closing the task dialog keeps its record |
| CalendarView.CalendarState.SetAddScheduleOpen | client/src/components/calendar/Calendar.tsx:515 | opening or closing the add-schedule dialog keeps its request |
| CalendarView.MarkerTask | client/src/components/calendar/Calendar.tsx:287-331 | a marker of any role other than Pharmacist1 opens a task exactly for the four other roles, with empty task and time |
| CalendarView.AddScheduleRequest | client/src/components/calendar/Calendar.tsx:355-368 | the add-schedule dialog is offered exactly for a cell with no truthy entry, with a date that starts with the day and the time "2pm-4pm" |
| CalendarView.AddScheduleDateReadsBack | client/src/components/calendar/Calendar.tsx:363 | the date text is the day, ", Dec ", then the day of the month as `parseInt` reads it back |
| CalendarView.ShiftTask | client/src/components/calendar/Calendar.tsx:375-386 | a week-view shift opens a task exactly for the staff member named "Pharmacist 1", as Dispensing under that name |
| CalendarView.OnlyPharmacist1ShiftOpensTask | client/src/components/calendar/Calendar.tsx:375-386 | of the five listed staff members only the first one's shift opens a task, Dispensing "9:00am-5:00pm" |
| CalendarView.MarkerNamesStaff | client/src/components/calendar/Calendar.tsx:290-330 | the four non-P1 markers open a task under exactly that staff member's display name |
| CalendarView.AddScheduleNames | client/src/components/calendar/Calendar.tsx:362 | the add-schedule dialog shows display names for Pharmacist 1, Pharmacist 2 and Assistant 1, and the bare roles "Technician" and "Assistant2" for the other two |
| CalendarView.EmptyCellsAreFreeAtNine | client/src/components/calendar/Calendar.tsx:356-367 | a week-view cell offers to add a schedule exactly when that staff member is not on shift at 9:00 that day |
| CalendarView.P1MarkerOpensTask | client/src/components/calendar/Calendar.tsx:280-289 | wherever a P1 marker is drawn, clicking it sets a task, except at 13:00 on a weekday |
| NotifyStaff.Toggled | client/src/components/calendar/NotifyStaffModal.tsx:22-28 | a toggle flips the membership of the toggled role and of no other |
| NotifyStaff.TriggerLabel | client/src/components/calendar/NotifyStaffModal.tsx:61 | the trigger says "Everyone" exactly when as many entries are selected as the staff list has |
| NotifyStaff.NotifyStaffModal.IsChecked | client/src/components/calendar/NotifyStaffModal.tsx:85 | in a valid state, a ticked row is one of the five roles |
| NotifyStaff.RemoveRole | client/src/components/calendar/NotifyStaffModal.tsx:24 | `filter` drops the role and keeps every other entry |
| NotifyStaff.NotifyStaffModal.constructor | client/src/components/calendar/NotifyStaffModal.tsx:19-20 | the dialog opens on SMS with all five roles selected in list order |
| NotifyStaff.NotifyStaffModal.ToggleStaffSelection | client/src/components/calendar/NotifyStaffModal.tsx:22-28 | the selection becomes the toggled list; the method stays, and no duplicates appear |
| NotifyStaff.NotifyStaffModal.SelectEveryone | client/src/components/calendar/NotifyStaffModal.tsx:65 | "Everyone" selects all five roles in list order |
| NotifyStaff.NotifyStaffModal.SelectNone | client/src/components/calendar/NotifyStaffModal.tsx:68 | "None" empties the selection |
| NotifyStaff.NotifyStaffModal.ChooseSms | client/src/components/calendar/NotifyStaffModal.tsx:49 | the method becomes SMS and the selection stays |
| NotifyStaff.NotifyStaffModal.ChooseEmail | client/src/components/calendar/NotifyStaffModal.tsx:50 | the method becomes Email and the selection stays |
| NotifyStaff.RemoveKeepsOrder | client/src/components/calendar/NotifyStaffModal.tsx:24 | removing a role at index k leaves exactly the entries before and after it, in order |
| NotifyStaff.ToggledKeepsDistinct | client/src/components/calendar/NotifyStaffModal.tsx:22-28 | a toggle keeps the selection free of duplicates and made of roles |
| NotifyStaff.ToggleShape | client/src/components/calendar/NotifyStaffModal.tsx:23-26 | an unselected role is appended at the end; a selected one is cut out in place |
| NotifyStaff.ToggleTwice | client/src/components/calendar/NotifyStaffModal.tsx:22-28 | toggling twice gives the same roles back; the very same list when the role was unselected, the role moved to the end otherwise |
| NotifyStaff.EveryoneMeansAll | client/src/components/calendar/NotifyStaffModal.tsx:61 | the trigger says "Everyone" exactly for five entries, and with no duplicates five entries are all the roles |
| NotifyStaff.TriggerCountReadsBack | client/src/components/calendar/NotifyStaffModal.tsx:61 | below five, the trigger starts with the selection size, as `parseInt` reads it back |

## Left out

- Date handling is not modelled: week navigation with `addWeeks`/`subWeeks`,
  the `Intl.DateTimeFormat` month header and the `Date.setDate` column
  offsets. These are library date arithmetic. `WeekCellClick` takes the day of
  the month as a parameter instead.
- The `view` state and its switching, and all rendering: the grids, the month
  view, the marker badges ("P1", "T1", …) and CSS classes.
- The open flags of the add-staff and notify dialogs. They are plain boolean
  setters with no rule.
- `parseInt` is modelled for strings that start with digits or with no digit
  at all. Leading whitespace, signs and radix prefixes are not modelled,
  because the table holds only `"H:MM-H:MM"` literals.
- Look-ups of inherited object keys (`SCHEDULE_DATA["toString"]`) are not
  modelled. The table is a finite map.
- `isStaffAvailable` takes a staff object in the code. The model takes its
  role, the only field it reads.
- React's deferred state updates are not modelled. A handler's assignments
  take effect at once, so the toggle's `includes` test and its `prev`-based
  update see the same list.
- NotifyStaff.NotifyStaffModal.ToggleStaffSelection: requires the role to be
  one of the five. The dialog's only call site passes `staff.role` from the
  staff list, and this keeps the "only roles" part of the invariant.
- The `TimeSlot` interface of `types.ts` is not modelled. Nothing in the rules
  uses it.
- The server routes, database schema, and the add-staff, staff-list and
  task/add-schedule dialog components are not part of this model. They are
  I/O or rendering.
