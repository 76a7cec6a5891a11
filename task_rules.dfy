/**
 * What Pharmacist 1 is doing when: the hourly rule list behind a click on a
 * "P1" marker of the overview grid, and the quarter-hour blocks drawn in the
 * staff view.
 */
module TaskRules {
  import opened JsText
  import Types
  import opened TimeLabels

  /** The record the task dialog shows; `details` is left undefined before the first click. */
  datatype TaskDetails = TaskDetails(staffMember: string, task: string, time: string, details: Option<string>)

  /**
   * `handleP1Click` as a first-match rule list: the record it puts in the task
   * dialog, or `None` when the hour matches no rule and the dialog is left alone.
   */
  function P1Task(day: string, hour: int): (t: Option<TaskDetails>)
    ensures t.None? <==> day != "Saturday" && !(hour == 9 || 11 <= hour <= 12 || 14 <= hour <= 16)
    ensures t.Some? ==> t.value.details == Some("")
    ensures t.Some? ==> t.value.task == "Dispensing" || t.value.task == "Flu Shot" || t.value.task == "MedsCheck"
  {
    if hour == 16 then
      Some(TaskDetails("Pharmacist 1", "MedsCheck", "4:00pm-5:00pm", Some("")))
    else if day == "Saturday" then
      Some(TaskDetails(if Types.StaffList[1].role == "Pharmacist2" then "Pharmacist 2" else "Pharmacist 1",
                       "Dispensing", "9:00am-5:00pm", Some("")))
    else if hour == 9 then
      Some(TaskDetails("Pharmacist 1", "Dispensing", "9:00am-11:00am", Some("")))
    else if 11 <= hour < 13 then
      Some(TaskDetails("Pharmacist 1", "Flu Shot", "11:00am to 1:00pm", Some("")))
    else if 14 <= hour < 16 then
      Some(TaskDetails("Pharmacist 1", "Dispensing", "2:00pm to 4:00pm", Some("")))
    else
      None
  }

  /**
   * The blocks drawn in cell `i` of a day column of the staff view: each of the
   * six conditions of the grid contributes its label when it holds, so a cell
   * could in principle show several.
   */
  function SlotBlocks(day: string, i: nat): (blocks: seq<string>)
    requires i < 96
    ensures (day == "Sunday" || day == "Tuesday" || i < 36 || i >= 68) ==> blocks == []
    ensures forall b :: b in blocks ==> b == "Dispensing" || b == "Flu Shot" || b == "Lunch" || b == "MedsCheck"
  {
    var hour, minutes := SlotHour(i), SlotMinutes(i);
    if day == "Sunday" || day == "Tuesday" then []
    else
      (if (hour == 9 && minutes >= 0) || (hour == 10 && minutes <= 45) then ["Dispensing"] else [])
      + (if day != "Saturday" && ((hour == 11 && minutes >= 0) || (hour == 12 && minutes <= 45)) then ["Flu Shot"] else [])
      + (if day != "Saturday" && ((hour == 13 && minutes == 0) || (hour == 13 && minutes == 15) || (hour == 13 && minutes == 30))
         then ["Lunch"] else [])
      + (if day == "Saturday" && ((hour >= 11 && hour < 16) || (hour == 16 && minutes <= 45)) then ["Dispensing"] else [])
      + (if day != "Saturday" && ((hour == 13 && minutes == 45) || hour == 14 || (hour == 15 && minutes <= 45))
         then ["Dispensing"] else [])
      + (if day != "Saturday" && hour == 16 && minutes >= 0 && minutes <= 45 then ["MedsCheck"] else [])
  }

  // ---------------------------------------------------------------------------
  // The day plan the staff view draws, as intervals of quarter-hour slots

  /**
   * Pharmacist 1's plan: nothing on Sunday and Tuesday; from 9:00 to 17:00
   * Dispensing, Flu Shot (11:00), Lunch (13:00), Dispensing (13:45) and
   * MedsCheck (16:00), except Saturday, which is Dispensing throughout.
   */
  function PlannedBlock(day: string, i: nat): Option<string> {
    if day == "Sunday" || day == "Tuesday" || i < 36 || i >= 68 then None
    else if i < 44 || day == "Saturday" then Some("Dispensing")
    else if i < 52 then Some("Flu Shot")
    else if i < 55 then Some("Lunch")
    else if i < 64 then Some("Dispensing")
    else Some("MedsCheck")
  }

  /** The staff view draws exactly the plan: one block where the plan has one, none elsewhere. */
  lemma SlotBlocksFollowPlan(day: string, i: nat)
    requires i < 96
    ensures SlotBlocks(day, i) == if PlannedBlock(day, i).Some? then [PlannedBlock(day, i).value] else []
  {
    var hour, minutes := SlotHour(i), SlotMinutes(i);
    assert minutes == 0 || minutes == 15 || minutes == 30 || minutes == 45;
    assert 36 <= i < 44 <==> hour == 9 || hour == 10;
    assert 44 <= i < 52 <==> hour == 11 || hour == 12;
    assert 52 <= i < 55 <==> hour == 13 && minutes <= 30;
    assert 55 <= i < 64 <==> (hour == 13 && minutes == 45) || hour == 14 || hour == 15;
    assert 64 <= i < 68 <==> hour == 16;
  }

  /** A cell shows at most one block, and one exactly on the open days between 9:00 and 16:45. */
  lemma AtMostOneBlock(day: string, i: nat)
    requires i < 96
    ensures |SlotBlocks(day, i)| <= 1
    ensures |SlotBlocks(day, i)| == 1 <==> day != "Sunday" && day != "Tuesday" && 36 <= i < 68
  {
    SlotBlocksFollowPlan(day, i);
  }

  /** Saturday shows Dispensing and nothing else. */
  lemma SaturdayOnlyDispensing(i: nat)
    requires i < 96
    ensures forall b :: b in SlotBlocks("Saturday", i) ==> b == "Dispensing"
  {
    SlotBlocksFollowPlan("Saturday", i);
  }

  // ---------------------------------------------------------------------------
  // The hourly rules

  /** MedsCheck at 16:00 wins on every day, Saturday included. */
  lemma MedsCheckFirst(day: string)
    ensures P1Task(day, 16) == Some(TaskDetails("Pharmacist 1", "MedsCheck", "4:00pm-5:00pm", Some("")))
  {
  }

  /** Any other Saturday hour is Dispensing for the second list entry, "Pharmacist 2". */
  lemma SaturdayDispensing(hour: int)
    requires hour != 16
    ensures P1Task("Saturday", hour) == Some(TaskDetails("Pharmacist 2", "Dispensing", "9:00am-5:00pm", Some("")))
  {
    Types.StaffRolesEnumerated();
  }

  /** On other days a task is set exactly at 9, 11, 12, 14, 15 and 16; other hours leave the dialog alone. */
  lemma WeekdayTaskHours(day: string, hour: int)
    requires day != "Saturday"
    ensures P1Task(day, hour).Some? <==> hour == 9 || 11 <= hour <= 12 || 14 <= hour <= 16
    ensures hour == 9 ==> P1Task(day, hour) == Some(TaskDetails("Pharmacist 1", "Dispensing", "9:00am-11:00am", Some("")))
    ensures 11 <= hour <= 12 ==> P1Task(day, hour) == Some(TaskDetails("Pharmacist 1", "Flu Shot", "11:00am to 1:00pm", Some("")))
    ensures 14 <= hour <= 15 ==> P1Task(day, hour) == Some(TaskDetails("Pharmacist 1", "Dispensing", "2:00pm to 4:00pm", Some("")))
    ensures hour == 16 ==> P1Task(day, hour) == Some(TaskDetails("Pharmacist 1", "MedsCheck", "4:00pm-5:00pm", Some("")))
  {
  }

  /**
   * The hourly rules and the quarter-hour view agree on slot `q` of `hour`
   * when the rule's task is the block drawn there, or when there is neither.
   */
  predicate ViewsAgree(day: string, hour: nat, q: nat)
    requires hour < 24 && q < 4
  {
    if P1Task(day, hour).Some? then SlotBlocks(day, 4 * hour + q) == [P1Task(day, hour).value.task]
    else SlotBlocks(day, 4 * hour + q) == []
  }

  /**
   * The views agree everywhere except: Sunday and Tuesday at the hours the
   * rules name a task (the view draws nothing on those days); Saturday before
   * 9:00 and from 16:00 (all-day Dispensing and MedsCheck against an empty
   * or Dispensing cell); and 10:00 and 13:00 on the other days (no task
   * against Dispensing, Lunch and Dispensing again).
   */
  lemma ViewsAgreeExactly(day: string, hour: nat, q: nat)
    requires hour < 24 && q < 4
    ensures !ViewsAgree(day, hour, q) <==>
              || ((day == "Sunday" || day == "Tuesday") && (hour == 9 || 11 <= hour <= 12 || 14 <= hour <= 16))
              || (day == "Saturday" && (hour < 9 || hour >= 16))
              || (day != "Sunday" && day != "Tuesday" && day != "Saturday" && (hour == 10 || hour == 13))
  {
    SlotBlocksFollowPlan(day, 4 * hour + q);
  }

  /** One instance of each kind of difference between the two views. */
  lemma HourlyAndQuartersDiffer()
    ensures P1Task("Monday", 10) == None && SlotBlocks("Monday", 40) == ["Dispensing"]
    ensures P1Task("Monday", 13) == None && SlotBlocks("Monday", 52) == ["Lunch"] && SlotBlocks("Monday", 55) == ["Dispensing"]
    ensures P1Task("Saturday", 16).value.task == "MedsCheck" && SlotBlocks("Saturday", 64) == ["Dispensing"]
    ensures P1Task("Saturday", 3).Some? && SlotBlocks("Saturday", 12) == []
    ensures P1Task("Sunday", 9).Some? && SlotBlocks("Sunday", 36) == []
  {
    SlotBlocksFollowPlan("Monday", 40);
    SlotBlocksFollowPlan("Monday", 52);
    SlotBlocksFollowPlan("Monday", 55);
    SlotBlocksFollowPlan("Saturday", 64);
  }
}
