/**
 * The calendar view's dialog state and the click handlers that set it: the
 * task dialog (opened from a staff marker of the overview grid or from a
 * shift of the week view) and the add-schedule dialog (opened from an empty
 * cell of the week view).
 */
module CalendarView {
  import opened JsText
  import Types
  import opened Schedule
  import opened StaffAvailability
  import opened TaskRules

  datatype TaskModal = TaskModal(open: bool, data: TaskDetails)

  /** What the add-schedule dialog is pre-filled with. */
  datatype ScheduleRequest = ScheduleRequest(staffMember: string, date: string, time: string)

  datatype AddScheduleModal = AddScheduleModal(open: bool, data: ScheduleRequest)

  /** What a click on a staff marker of the overview grid puts in the task dialog. */
  function MarkerTask(role: string, day: string, hour: int): (t: Option<TaskDetails>)
    ensures role != "Pharmacist1" ==> (t.Some? <==> role in Types.StaffRoles())
    ensures role != "Pharmacist1" && t.Some? ==> t.value.task == "" && t.value.time == ""
  {
    Types.StaffRolesEnumerated();
    if role == "Pharmacist1" then P1Task(day, hour)
    else if role == "Pharmacist2" then Some(TaskDetails("Pharmacist 2", "", "", Some("")))
    else if role == "Technician" then Some(TaskDetails("Technician 1", "", "", Some("")))
    else if role == "Assistant1" then Some(TaskDetails("Assistant 1", "", "", Some("")))
    else if role == "Assistant2" then Some(TaskDetails("Assistant 2", "", "", Some("")))
    else None
  }

  /** A week-view cell with no truthy table entry: the one that offers to add a schedule. */
  predicate CellEmpty(role: string, day: string) {
    role !in ScheduleData || day !in ScheduleData[role] || !Truthy(ScheduleData[role][day])
  }

  /** The name the add-schedule dialog shows for a role; roles not singled out are shown as they are. */
  function AddScheduleName(role: string): string {
    if role == "Pharmacist1" then "Pharmacist 1"
    else if role == "Pharmacist2" then "Pharmacist 2"
    else if role == "Assistant1" then "Assistant 1"
    else role
  }

  /**
   * What a click on a week-view cell puts in the add-schedule dialog, given the
   * day of the month the cell's column falls on; `None` for a scheduled cell.
   */
  function AddScheduleRequest(role: string, day: string, dateOfMonth: nat): (r: Option<ScheduleRequest>)
    ensures r.Some? <==> CellEmpty(role, day)
    ensures r.Some? ==> day <= r.value.date && r.value.time == "2pm-4pm"
  {
    if CellEmpty(role, day) then
      Some(ScheduleRequest(AddScheduleName(role), day + ", Dec " + NatToString(dateOfMonth) + "th", "2pm-4pm"))
    else None
  }

  /** What a click on the shift drawn in a week-view cell puts in the task dialog. */
  function ShiftTask(staff: Types.Staff): (t: Option<TaskDetails>)
    ensures t.Some? <==> staff.name == "Pharmacist 1"
    ensures t.Some? ==> t.value.staffMember == staff.name && t.value.task == "Dispensing"
  {
    if staff.name == "Pharmacist 1" then Some(TaskDetails(staff.name, "Dispensing", "9:00am-5:00pm", Some("")))
    else None
  }

  /** The dialog state of the calendar view. */
  class CalendarState {
    var taskModal: TaskModal
    var addScheduleModal: AddScheduleModal

    constructor()
      ensures taskModal == TaskModal(false, TaskDetails("", "", "", None))
      ensures addScheduleModal == AddScheduleModal(false, ScheduleRequest("", "", ""))
    {
      taskModal := TaskModal(false, TaskDetails("", "", "", None));
      addScheduleModal := AddScheduleModal(false, ScheduleRequest("", "", ""));
    }

    /** `handleP1Click`: opens the task dialog on the first matching rule, or changes nothing. */
    method HandleP1Click(day: string, hour: int)
      modifies this
      ensures taskModal == if P1Task(day, hour).Some? then TaskModal(true, P1Task(day, hour).value) else old(taskModal)
      ensures addScheduleModal == old(addScheduleModal)
    {
      if hour == 16 {
        taskModal := TaskModal(true, TaskDetails("Pharmacist 1", "MedsCheck", "4:00pm-5:00pm", Some("")));
        return;
      }
      if day == "Saturday" {
        var member := if Types.StaffList[1].role == "Pharmacist2" then "Pharmacist 2" else "Pharmacist 1";
        taskModal := TaskModal(true, TaskDetails(member, "Dispensing", "9:00am-5:00pm", Some("")));
        return;
      }
      if hour == 9 {
        taskModal := TaskModal(true, TaskDetails("Pharmacist 1", "Dispensing", "9:00am-11:00am", Some("")));
      } else if 11 <= hour < 13 {
        taskModal := TaskModal(true, TaskDetails("Pharmacist 1", "Flu Shot", "11:00am to 1:00pm", Some("")));
      } else if 14 <= hour < 16 {
        taskModal := TaskModal(true, TaskDetails("Pharmacist 1", "Dispensing", "2:00pm to 4:00pm", Some("")));
      }
    }

    /** A click on a staff marker of the overview grid. */
    method MarkerClick(role: string, day: string, hour: int)
      modifies this
      ensures taskModal == if MarkerTask(role, day, hour).Some? then TaskModal(true, MarkerTask(role, day, hour).value)
                           else old(taskModal)
      ensures addScheduleModal == old(addScheduleModal)
    {
      if role == "Pharmacist1" {
        HandleP1Click(day, hour);
      } else if role == "Pharmacist2" {
        taskModal := TaskModal(true, TaskDetails("Pharmacist 2", "", "", Some("")));
      } else if role == "Technician" {
        taskModal := TaskModal(true, TaskDetails("Technician 1", "", "", Some("")));
      } else if role == "Assistant1" {
        taskModal := TaskModal(true, TaskDetails("Assistant 1", "", "", Some("")));
      } else if role == "Assistant2" {
        taskModal := TaskModal(true, TaskDetails("Assistant 2", "", "", Some("")));
      }
    }

    /** A click on a week-view cell: an empty cell opens the add-schedule dialog. */
    method WeekCellClick(role: string, day: string, dateOfMonth: nat)
      modifies this
      ensures addScheduleModal == if AddScheduleRequest(role, day, dateOfMonth).Some?
                                  then AddScheduleModal(true, AddScheduleRequest(role, day, dateOfMonth).value)
                                  else old(addScheduleModal)
      ensures taskModal == old(taskModal)
    {
      if CellEmpty(role, day) {
        addScheduleModal := AddScheduleModal(true, ScheduleRequest(AddScheduleName(role), day + ", Dec " + NatToString(dateOfMonth) + "th", "2pm-4pm"));
      }
    }

    /** A click on the shift drawn in a week-view cell: only Pharmacist 1's opens the task dialog. */
    method ShiftClick(staff: Types.Staff)
      modifies this
      ensures taskModal == if ShiftTask(staff).Some? then TaskModal(true, ShiftTask(staff).value) else old(taskModal)
      ensures addScheduleModal == old(addScheduleModal)
    {
      if staff.name == "Pharmacist 1" {
        taskModal := TaskModal(true, TaskDetails(staff.name, "Dispensing", "9:00am-5:00pm", Some("")));
      }
    }

    /** The task dialog opened or closed from inside: the record stays. */
    method SetTaskModalOpen(open: bool)
      modifies this
      ensures taskModal == TaskModal(open, old(taskModal.data))
      ensures addScheduleModal == old(addScheduleModal)
    {
      taskModal := taskModal.(open := open);
    }

    /** The add-schedule dialog opened or closed from inside: the request stays. */
    method SetAddScheduleOpen(open: bool)
      modifies this
      ensures addScheduleModal == AddScheduleModal(open, old(addScheduleModal.data))
      ensures taskModal == old(taskModal)
    {
      addScheduleModal := addScheduleModal.(open := open);
    }
  }

  // ---------------------------------------------------------------------------
  // Properties

  /** Every marker other than Pharmacist 1's opens an empty task for that staff member's display name. */
  lemma MarkerNamesStaff(k: nat, day: string, hour: int)
    requires 1 <= k < |Types.StaffList|
    ensures MarkerTask(Types.StaffList[k].role, day, hour)
         == Some(TaskDetails(Types.StaffList[k].name, "", "", Some("")))
  {
  }

  /**
   * The add-schedule dialog shows the display name for Pharmacist 1,
   * Pharmacist 2 and Assistant 1, but the bare role for the Technician and
   * Assistant 2.
   */
  lemma AddScheduleNames(k: nat)
    requires k < |Types.StaffList|
    ensures AddScheduleName(Types.StaffList[k].role)
         == if k == 2 || k == 4 then Types.StaffList[k].role else Types.StaffList[k].name
    ensures AddScheduleName(Types.StaffList[2].role) == "Technician"
    ensures AddScheduleName(Types.StaffList[4].role) == "Assistant2"
  {
  }

  /** The date text names the day, then "Dec", then the day of the month as `parseInt` reads it back. */
  lemma AddScheduleDateReadsBack(role: string, day: string, dateOfMonth: nat)
    requires CellEmpty(role, day)
    ensures |AddScheduleRequest(role, day, dateOfMonth).value.date| > |day| + 6
    ensures AddScheduleRequest(role, day, dateOfMonth).value.date[|day|..|day| + 6] == ", Dec "
    ensures ParseInt(AddScheduleRequest(role, day, dateOfMonth).value.date[|day| + 6..]) == Int(dateOfMonth)
  {
    var date := AddScheduleRequest(role, day, dateOfMonth).value.date;
    assert date == day + ", Dec " + (NatToString(dateOfMonth) + "th");
    assert date[|day| + 6..] == NatToString(dateOfMonth) + "th";
    ParseIntOfNatToString(dateOfMonth, "th");
  }

  /** Of the five staff members, only Pharmacist 1's shift in the week view opens a task. */
  lemma OnlyPharmacist1ShiftOpensTask(k: nat)
    requires k < |Types.StaffList|
    ensures ShiftTask(Types.StaffList[k]).Some? <==> k == 0
    ensures k == 0 ==> ShiftTask(Types.StaffList[k]) == Some(TaskDetails("Pharmacist 1", "Dispensing", "9:00am-5:00pm", Some("")))
  {
  }

  /**
   * On the calendar's table a week-view cell offers to add a schedule exactly
   * when the staff member is not on shift at 9:00 that day: every entry of the
   * table covers 9:00.
   */
  lemma EmptyCellsAreFreeAtNine(role: string, day: string, dateOfMonth: nat)
    ensures AddScheduleRequest(role, day, dateOfMonth).Some? <==> !IsStaffAvailable(role, day, 9)
  {
    ScheduleDataDenotesShiftHours();
    if !CellEmpty(role, day) {
      assert EntryDenotes(ScheduleData[role][day], ShiftHours[role][day]);
      var s := ShiftHours[role][day];
      assert s[0].startHour <= 9 < s[0].endHour by { FirstShiftsCoverNine(role, day); }
    }
  }

  lemma FirstShiftsCoverNine(role: string, day: string)
    requires role in ShiftHours && day in ShiftHours[role]
    ensures |ShiftHours[role][day]| >= 1
    ensures ShiftHours[role][day][0].startHour <= 9 < ShiftHours[role][day][0].endHour
  {
  }

  /**
   * Wherever a "P1" marker is drawn, clicking it opens a task, except at 13:00
   * on a weekday, the lunch hour the hourly rules have no entry for.
   */
  lemma P1MarkerOpensTask(day: string, hour: int)
    requires IsStaffAvailable("Pharmacist1", day, hour)
    ensures MarkerTask("Pharmacist1", day, hour).None? <==> day != "Saturday" && hour == 13
  {
    Pharmacist1Week(day, hour);
  }
}
