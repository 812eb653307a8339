/** The team directory of src/views/TeamView.jsx: the member editor's
    form and its validation, the create-or-update dispatch of a saved form,
    and the listing of members grouped by department. */
module TeamDirectory {
  import opened Base
  import opened Strings
  import opened Grouping
  import opened Sorting
  import opened Records

  /** The editor's form state. */
  datatype MemberForm = MemberForm(id: Option<string>, name: string, email: string, role: string, department: string)

  /** The `useState` initialiser of `TeamMemberEditor`. */
  function InitialMemberForm(initial: Option<Member>): MemberForm
  {
    match initial
    case None => MemberForm(None, "", "", "", "")
    case Some(m) => MemberForm(Some(m.id), m.name, m.email, m.role, m.department)
  }

  /** The object `onSave` receives: the form as it stands, untrimmed. */
  function AsInput(form: MemberForm): MemberInput
  {
    MemberInput(form.id, Some(form.name), Some(form.email), Some(form.role), Some(form.department))
  }

  /** `TeamMemberEditor.handleSubmit`: a blank name is refused (`None`, with
      an alert); otherwise the form goes to `onSave`. */
  function EditorSubmit(form: MemberForm): (r: Option<MemberInput>)
  {
    if IsBlank(form.name) then None else Some(AsInput(form))
  }

  /** The editor saves exactly when the name is not blank, and it passes
      every field through unchanged. */
  lemma EditorSubmitMeaning(form: MemberForm)
    ensures EditorSubmit(form).Some? <==> !IsBlank(form.name)
    ensures EditorSubmit(form).Some? ==>
      var r := EditorSubmit(form).value;
      r.id == form.id && r.name == Some(form.name) && r.email == Some(form.email) &&
      r.role == Some(form.role) && r.department == Some(form.department)
  {
  }

  /** Opening the editor on a member and saving at once hands back that
      member's id and fields, when the name is not blank. */
  lemma EditUnchanged(m: Member)
    requires !IsBlank(m.name)
    ensures EditorSubmit(InitialMemberForm(Some(m))) ==
      Some(MemberInput(Some(m.id), Some(m.name), Some(m.email), Some(m.role), Some(m.department)))
  {
  }

  /** The service call `handleSave` makes. */
  datatype SaveCall = UpdateCall(id: string, input: MemberInput) | CreateCall(input: MemberInput)

  /** `handleSave(memberInput)`: update when the input has an id, create
      otherwise. */
  function HandleSave(input: MemberInput): SaveCall
  {
    if Truthy(input.id) then UpdateCall(input.id.value, input) else CreateCall(input)
  }

  /** The dispatch updates exactly when the input carries a non-empty id,
      under that id, and passes the input through either way. */
  lemma HandleSaveMeaning(input: MemberInput)
    ensures HandleSave(input).UpdateCall? <==> input.id.Some? && input.id.value != ""
    ensures HandleSave(input).input == input
    ensures HandleSave(input).UpdateCall? ==> Some(HandleSave(input).id) == input.id
  {
  }

  /** A new member's form has no id and so is created; an existing
      member's form is an update of that member. */
  lemma NewFormCreates(initial: Option<Member>)
    requires !IsBlank(InitialMemberForm(initial).name)
    requires initial.Some? ==> initial.value.id != ""
    ensures HandleSave(EditorSubmit(InitialMemberForm(initial)).value).UpdateCall? <==> initial.Some?
  {
  }

  /** `member.department || 'Unassigned'` */
  function DepartmentOf(m: Member): string
  {
    if m.department == "" then "Unassigned" else m.department
  }

  /** `membersByDepartment`: the `reduce` that appends each member to the
      list under its department, creating the list on first use. */
  method GroupByDepartment(members: seq<Member>) returns (groups: map<string, seq<Member>>)
    ensures forall d :: d in groups <==> d in Keys(members, DepartmentOf)
    ensures forall d :: d in groups ==> groups[d] == Filter(members, DepartmentOf, d)
  {
    groups := map[];
    for i := 0 to |members|
      invariant forall d :: d in groups <==> d in Keys(members[..i], DepartmentOf)
      invariant forall d :: d in groups ==> groups[d] == Filter(members[..i], DepartmentOf, d)
    {
      var m := members[i];
      var d := DepartmentOf(m);
      assert members[..i + 1] == members[..i] + [m];
      if d !in groups {
        NoKeyNoGroup(members[..i], DepartmentOf, d);
        groups := groups[d := []];
      }
      groups := groups[d := groups[d] + [m]];
      forall k ensures Filter(members[..i + 1], DepartmentOf, k) ==
        Filter(members[..i], DepartmentOf, k) + (if DepartmentOf(m) == k then [m] else [])
      {
        FilterAppend(members[..i], m, DepartmentOf, k);
      }
    }
    assert members[..|members|] == members;
  }

  /** Every member lands in the group of its department and in no other;
      a member with no department lands under `'Unassigned'`. */
  lemma GroupOfMember(members: seq<Member>, m: Member, d: string)
    requires m in members
    ensures m in Filter(members, DepartmentOf, DepartmentOf(m))
    ensures d != DepartmentOf(m) ==> m !in Filter(members, DepartmentOf, d)
    ensures m.department == "" ==> DepartmentOf(m) == "Unassigned"
  {
  }

  /** The group sizes add up to the number of members. */
  lemma GroupSizesTotal(members: seq<Member>)
    ensures GroupSizes(Keys(members, DepartmentOf), members, DepartmentOf) == |members|
  {
    GroupsPartition(members, DepartmentOf);
  }

  function Ident(s: string): string
  {
    s
  }

  /** `Object.keys(membersByDepartment).sort()`: the departments in
      ascending order, each once. */
  function Departments(members: seq<Member>): (r: seq<string>)
    ensures multiset(r) == multiset(Keys(members, DepartmentOf))
    ensures forall d :: d in r <==> exists m :: m in members && DepartmentOf(m) == d
    ensures SortedBy(r, Ident, false)
  {
    var ks := Keys(members, DepartmentOf);
    var r := SortBy(ks, Ident, false);
    SortBySorted(ks, Ident, false);
    assert forall d :: d in r <==> d in multiset(r);
    assert forall d :: d in ks <==> d in multiset(ks);
    r
  }
}
