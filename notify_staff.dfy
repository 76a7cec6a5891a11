/**
 * The "Notify Staff" dialog: a delivery method and a list of selected roles,
 * kept as a list without duplicates that a click toggles one role at a time.
 */
module NotifyStaff {
  import opened JsText
  import opened Types

  /** `list.filter(r => r !== role)`: the list without `role`, in the same order. */
  function RemoveRole(list: seq<string>, role: string): (rest: seq<string>)
    ensures forall x :: x in rest <==> x in list && x != role
    ensures |rest| <= |list|
  {
    if list == [] then []
    else if list[0] == role then RemoveRole(list[1..], role)
    else [list[0]] + RemoveRole(list[1..], role)
  }

  /** `toggleStaffSelection`: drop the role if it is selected, append it otherwise. */
  function Toggled(selected: seq<string>, role: string): (toggled: seq<string>)
    ensures forall x :: x in toggled <==> if x == role then role !in selected else x in selected
  {
    if role in selected then RemoveRole(selected, role) else selected + [role]
  }

  /** The text of the staff drop-down's trigger. */
  function TriggerLabel(selected: seq<string>): (text: string)
    ensures text == "Everyone" <==> |selected| == |StaffList|
  {
    if |selected| == |StaffList| then "Everyone" else NatToString(|selected|) + " Selected"
  }

  /** Every selected entry is one of the five roles. */
  predicate OnlyRoles(selected: seq<string>) {
    forall i :: 0 <= i < |selected| ==> selected[i] in StaffRoles()
  }

  /** The dialog's state. */
  class NotifyStaffModal {
    var deliveryMethod: string
    var selectedStaff: seq<string>

    /** The delivery method is SMS or Email, and the selection lists each role at most once. */
    predicate Valid()
      reads this
    {
      (deliveryMethod == "SMS" || deliveryMethod == "Email") && Distinct(selectedStaff) && OnlyRoles(selectedStaff)
    }

    /** The dialog opens on SMS with everyone selected, in list order. */
    constructor()
      ensures Valid()
      ensures deliveryMethod == "SMS" && selectedStaff == StaffRoles()
    {
      deliveryMethod := "SMS";
      selectedStaff := StaffRoles();
      new;
      StaffRolesEnumerated();
    }

    method ToggleStaffSelection(role: string)
      requires Valid() && role in StaffRoles()
      modifies this
      ensures Valid()
      ensures selectedStaff == Toggled(old(selectedStaff), role)
      ensures deliveryMethod == old(deliveryMethod)
    {
      ToggledKeepsDistinct(selectedStaff, role);
      if role in selectedStaff {
        selectedStaff := RemoveRole(selectedStaff, role);
      } else {
        selectedStaff := selectedStaff + [role];
      }
    }

    /** The "Everyone" item. */
    method SelectEveryone()
      requires Valid()
      modifies this
      ensures Valid()
      ensures selectedStaff == StaffRoles() && deliveryMethod == old(deliveryMethod)
    {
      selectedStaff := StaffRoles();
      StaffRolesEnumerated();
    }

    /** The "None" item. */
    method SelectNone()
      requires Valid()
      modifies this
      ensures Valid()
      ensures selectedStaff == [] && deliveryMethod == old(deliveryMethod)
    {
      selectedStaff := [];
    }

    method ChooseSms()
      requires Valid()
      modifies this
      ensures Valid()
      ensures deliveryMethod == "SMS" && selectedStaff == old(selectedStaff)
    {
      deliveryMethod := "SMS";
    }

    method ChooseEmail()
      requires Valid()
      modifies this
      ensures Valid()
      ensures deliveryMethod == "Email" && selectedStaff == old(selectedStaff)
    {
      deliveryMethod := "Email";
    }

    /** Whether the role's row shows a tick. */
    function IsChecked(role: string): (checked: bool)
      reads this
      ensures Valid() && checked ==> role in StaffRoles()
    {
      role in selectedStaff
    }

    function Trigger(): string
      reads this
    {
      TriggerLabel(selectedStaff)
    }
  }

  // ---------------------------------------------------------------------------
  // Properties

  /** Removing a role that sits once at index `k` keeps the others in their order. */
  lemma {:induction false} RemoveKeepsOrder(list: seq<string>, role: string, k: nat)
    requires Distinct(list) && k < |list| && list[k] == role
    ensures RemoveRole(list, role) == list[..k] + list[k + 1..]
  {
    if k == 0 {
      RemoveAbsent(list[1..], role);
    } else {
      assert Distinct(list[1..]);
      RemoveKeepsOrder(list[1..], role, k - 1);
      assert list[1..][..k - 1] == list[1..k];
      assert list[1..][k..] == list[k + 1..];
      assert [list[0]] + list[1..k] == list[..k];
    }
  }

  /** Filtering out a role that is absent leaves the list as it is. */
  lemma {:induction false} RemoveAbsent(list: seq<string>, role: string)
    requires role !in list
    ensures RemoveRole(list, role) == list
  {
    if list != [] {
      RemoveAbsent(list[1..], role);
      assert [list[0]] + list[1..] == list;
    }
  }

  lemma {:induction false} RemoveKeepsDistinct(list: seq<string>, role: string)
    requires Distinct(list)
    ensures Distinct(RemoveRole(list, role))
  {
    if list != [] {
      assert Distinct(list[1..]);
      RemoveKeepsDistinct(list[1..], role);
      var rest := RemoveRole(list[1..], role);
      if list[0] != role {
        assert list[0] !in list[1..];
        assert list[0] !in rest;
        var r := [list[0]] + rest;
        forall i, j | 0 <= i < j < |r| ensures r[i] != r[j] {
          if i == 0 { assert r[j] in rest; }
          else { assert r[i] == rest[i - 1] && r[j] == rest[j - 1]; }
        }
      }
    }
  }

  /** A toggle keeps the selection free of duplicates and made of roles. */
  lemma ToggledKeepsDistinct(selected: seq<string>, role: string)
    requires Distinct(selected) && OnlyRoles(selected) && role in StaffRoles()
    ensures Distinct(Toggled(selected, role)) && OnlyRoles(Toggled(selected, role))
  {
    if role in selected {
      RemoveKeepsDistinct(selected, role);
      var r := RemoveRole(selected, role);
      forall i | 0 <= i < |r| ensures r[i] in StaffRoles() {
        assert r[i] in selected;
      }
    } else {
      var r := selected + [role];
      forall i, j | 0 <= i < j < |r| ensures r[i] != r[j] {
        if j == |selected| { assert r[i] in selected; }
      }
    }
  }

  /** Toggling an unselected role appends it; toggling a selected one drops it in place. */
  lemma ToggleShape(selected: seq<string>, role: string)
    requires Distinct(selected)
    ensures role !in selected ==> Toggled(selected, role) == selected + [role]
    ensures forall k :: 0 <= k < |selected| && selected[k] == role ==>
              Toggled(selected, role) == selected[..k] + selected[k + 1..]
  {
    forall k | 0 <= k < |selected| && selected[k] == role
      ensures Toggled(selected, role) == selected[..k] + selected[k + 1..]
    {
      RemoveKeepsOrder(selected, role, k);
    }
  }

  /**
   * Toggling twice gives back the same roles; an unselected role gives back
   * the very same list, a selected one moves to the end.
   */
  lemma ToggleTwice(selected: seq<string>, role: string)
    ensures forall x :: x in Toggled(Toggled(selected, role), role) <==> x in selected
    ensures role !in selected ==> Toggled(Toggled(selected, role), role) == selected
    ensures role in selected && Distinct(selected) ==>
              Toggled(Toggled(selected, role), role) == RemoveRole(selected, role) + [role]
  {
    if role !in selected {
      RemoveAppended(selected, role);
    }
  }

  /** Filtering out a role that was just appended to a list without it gives the list back. */
  lemma {:induction false} RemoveAppended(list: seq<string>, role: string)
    requires role !in list
    ensures RemoveRole(list + [role], role) == list
  {
    if list == [] {
      assert [] + [role] == [role];
    } else {
      assert (list + [role])[1..] == list[1..] + [role];
      RemoveAppended(list[1..], role);
      assert [list[0]] + list[1..] == list;
    }
  }

  /** A list without duplicates has as many distinct elements as entries. */
  lemma {:induction false} DistinctCard(list: seq<string>)
    requires Distinct(list)
    ensures |set x | x in list| == |list|
  {
    if list != [] {
      assert Distinct(list[1..]);
      DistinctCard(list[1..]);
      assert (set x | x in list) == {list[0]} + (set x | x in list[1..]);
      assert list[0] !in list[1..];
    }
  }

  /**
   * The trigger says "Everyone" exactly when five entries are selected, and
   * then, with no duplicates and only roles, every role is selected.
   */
  lemma EveryoneMeansAll(selected: seq<string>)
    requires Distinct(selected) && OnlyRoles(selected)
    ensures TriggerLabel(selected) == "Everyone" <==> |selected| == 5
    ensures |selected| == 5 ==> forall role :: role in StaffRoles() ==> role in selected
  {
    StaffRolesEnumerated();
    if |selected| == 5 {
      var chosen := set x | x in selected;
      var all := set x | x in StaffRoles();
      DistinctCard(selected);
      DistinctCard(StaffRoles());
      assert chosen <= all;
      assert all - chosen == {} by {
        assert |all - chosen| == |all| - |chosen|;
      }
      forall role | role in StaffRoles() ensures role in selected {
        assert role in all;
      }
    }
  }

  /** Below five, the trigger starts with the selection size as `parseInt` would read it back. */
  lemma TriggerCountReadsBack(selected: seq<string>)
    requires |selected| != |StaffList|
    ensures ParseInt(TriggerLabel(selected)) == Int(|selected|)
  {
    ParseIntOfNatToString(|selected|, " Selected");
  }
}
