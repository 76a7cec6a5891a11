/**
 * The constant data the calendar is keyed on: the five staff members and the
 * seven day names, in the order the views lay them out.
 */
module Types {

  /** A staff member; `role` is the key into the weekly schedule table. */
  datatype Staff = Staff(id: int, name: string, role: string, color: string)

  const StaffList: seq<Staff> := [
    Staff(1, "Pharmacist 1", "Pharmacist1", "bg-blue-100"),
    Staff(2, "Pharmacist 2", "Pharmacist2", "bg-green-100"),
    Staff(3, "Technician 1", "Technician", "bg-orange-100"),
    Staff(4, "Assistant 1", "Assistant1", "bg-yellow-100"),
    Staff(5, "Assistant 2", "Assistant2", "bg-pink-100")
  ]

  const DaysOfWeek: seq<string> :=
    ["Sunday", "Monday", "Tuesday", "Wednesday", "Thursday", "Friday", "Saturday"]

  /** `STAFF_LIST.map(s => s.role)`. */
  function StaffRoles(): (roles: seq<string>)
    ensures |roles| == |StaffList|
    ensures forall i :: 0 <= i < |StaffList| ==> roles[i] == StaffList[i].role
  {
    seq(|StaffList|, i requires 0 <= i < |StaffList| => StaffList[i].role)
  }

  predicate Distinct<T(==)>(s: seq<T>) {
    forall i, j :: 0 <= i < j < |s| ==> s[i] != s[j]
  }

  /** Five staff members, numbered 1 to 5 in list order. */
  lemma StaffListIds()
    ensures |StaffList| == 5
    ensures forall i :: 0 <= i < |StaffList| ==> StaffList[i].id == i + 1
  {
  }

  /** The roles are the five enumerated ones, each exactly once. */
  lemma StaffRolesEnumerated()
    ensures StaffRoles() == ["Pharmacist1", "Pharmacist2", "Technician", "Assistant1", "Assistant2"]
    ensures Distinct(StaffRoles())
    ensures StaffList[1].role == "Pharmacist2"
  {
    var r := StaffRoles();
    assert r == ["Pharmacist1", "Pharmacist2", "Technician", "Assistant1", "Assistant2"];
  }

  /** Seven distinct day names, Sunday first and Saturday last. */
  lemma DaysOfWeekEnumerated()
    ensures |DaysOfWeek| == 7 && Distinct(DaysOfWeek)
    ensures DaysOfWeek[0] == "Sunday" && DaysOfWeek[6] == "Saturday"
  {
  }
}
