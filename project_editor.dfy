/** The project editor form of src/components/ProjectEditor.jsx: the form
    state built from the project being edited, the index-based edits of its
    artifact and team-member lists, and the record `handleSubmit` passes to
    `onSave`. The fresh ids the add handlers draw from `Date.now()` and
    `Math.random()` are parameters. */
module ProjectEditor {
  import opened Base
  import opened Strings
  import opened Records

  datatype Form = Form(
    id: Option<string>,
    name: string,
    client: string,
    status: string,
    priority: string,
    discoveryTargetCompleteDate: string,
    discoveryActualCompleteDate: string,
    discoveryNotes: string,
    discoveryRequiredArtifacts: seq<Artifact>,
    devStartDate: string,
    devTargetReleaseDate: string,
    devActualReleaseDate: string,
    onHoldReason: string,
    notes: string,
    teamMembers: seq<Assignment>)

  /** The `useState` initialiser: every field from the project, `''` (or the
      default status and priority, or an empty list) when it is missing. */
  function InitialForm(initial: Option<Project>): Form
  {
    match initial
    case None =>
      Form(None, "", "", "discovery", "medium", "", "", "", [], "", "", "", "", "", [])
    case Some(p) =>
      var d := p.discovery.OrElse(NoDiscovery);
      var v := p.development.OrElse(NoDevelopment);
      Form(Some(p.id), p.name, p.client, p.status, p.priority,
           d.targetCompleteDate.OrElse(""), d.actualCompleteDate.OrElse(""), d.notes.OrElse(""),
           d.requiredArtifacts.OrElse([]),
           v.startDate.OrElse(""), v.targetReleaseDate.OrElse(""), v.actualReleaseDate.OrElse(""),
           p.onHoldReason, p.notes, p.teamMembers.OrElse([]))
  }

  // ---------------------------------------------------------------------------
  // List edits

  /** `copy.splice(index, 1)`: an index past the end removes nothing. */
  function RemoveAt<T>(s: seq<T>, i: nat): (r: seq<T>)
    ensures i < |s| ==> |r| == |s| - 1
    ensures i < |s| ==> forall j :: 0 <= j < i ==> r[j] == s[j]
    ensures i < |s| ==> forall j :: i <= j < |r| ==> r[j] == s[j + 1]
    ensures i >= |s| ==> r == s
  {
    if i < |s| then s[..i] + s[i + 1..] else s
  }

  /** The input fields of an artifact row. */
  datatype ArtifactField = ArtifactName | Owner | DueDate | ReceivedDate | FileUrl

  function ArtifactFieldOf(a: Artifact, f: ArtifactField): Option<string>
  {
    match f
    case ArtifactName => a.name
    case Owner => a.owner
    case DueDate => a.dueDate
    case ReceivedDate => a.receivedDate
    case FileUrl => a.fileUrl
  }

  /** `{ ...artifact, [field]: value }` */
  function WithArtifactField(a: Artifact, f: ArtifactField, v: string): Artifact
  {
    match f
    case ArtifactName => a.(name := Some(v))
    case Owner => a.(owner := Some(v))
    case DueDate => a.(dueDate := Some(v))
    case ReceivedDate => a.(receivedDate := Some(v))
    case FileUrl => a.(fileUrl := Some(v))
  }

  /** Setting a field and reading it back gives the value; the id and every
      other field are untouched. */
  lemma ArtifactFieldRoundTrip(a: Artifact, f: ArtifactField, v: string)
    ensures ArtifactFieldOf(WithArtifactField(a, f, v), f) == Some(v)
    ensures forall g :: g != f ==> ArtifactFieldOf(WithArtifactField(a, f, v), g) == ArtifactFieldOf(a, g)
    ensures WithArtifactField(a, f, v).id == a.id
  {
  }

  /** `handleArtifactChange(index, field, value)` for a row on screen. */
  function HandleArtifactChange(form: Form, i: nat, f: ArtifactField, v: string): (r: Form)
    requires i < |form.discoveryRequiredArtifacts|
    ensures r == form.(discoveryRequiredArtifacts := r.discoveryRequiredArtifacts)
    ensures |r.discoveryRequiredArtifacts| == |form.discoveryRequiredArtifacts|
    ensures forall j :: 0 <= j < |form.discoveryRequiredArtifacts| && j != i ==>
      r.discoveryRequiredArtifacts[j] == form.discoveryRequiredArtifacts[j]
    ensures ArtifactFieldOf(r.discoveryRequiredArtifacts[i], f) == Some(v)
    ensures forall g :: g != f ==>
      ArtifactFieldOf(r.discoveryRequiredArtifacts[i], g) == ArtifactFieldOf(form.discoveryRequiredArtifacts[i], g)
    ensures r.discoveryRequiredArtifacts[i].id == form.discoveryRequiredArtifacts[i].id
  {
    var arts := form.discoveryRequiredArtifacts;
    ArtifactFieldRoundTrip(arts[i], f, v);
    form.(discoveryRequiredArtifacts := arts[i := WithArtifactField(arts[i], f, v)])
  }

  /** The row `handleAddArtifact` appends. */
  function BlankArtifact(id: string): Artifact
  {
    Artifact(id, Some(""), Some(""), Some(""), None, Some(""))
  }

  /** `handleAddArtifact()` with a fresh id. */
  function HandleAddArtifact(form: Form, id: string): Form
  {
    form.(discoveryRequiredArtifacts := form.discoveryRequiredArtifacts + [BlankArtifact(id)])
  }

  /** `handleRemoveArtifact(index)` */
  function HandleRemoveArtifact(form: Form, i: nat): Form
  {
    form.(discoveryRequiredArtifacts := RemoveAt(form.discoveryRequiredArtifacts, i))
  }

  /** Adding a row appends exactly one blank, not yet received artifact;
      removing that row again gives back the form. */
  lemma AddRemoveArtifact(form: Form, id: string)
    ensures var r := HandleAddArtifact(form, id);
      var n := |form.discoveryRequiredArtifacts|;
      |r.discoveryRequiredArtifacts| == n + 1 &&
      r.discoveryRequiredArtifacts[..n] == form.discoveryRequiredArtifacts &&
      r.discoveryRequiredArtifacts[n].receivedDate.None? &&
      r.discoveryRequiredArtifacts[n].id == id &&
      HandleRemoveArtifact(r, n) == form
  {
    var n := |form.discoveryRequiredArtifacts|;
    var r := HandleAddArtifact(form, id);
    assert r.discoveryRequiredArtifacts[..n] == form.discoveryRequiredArtifacts;
  }

  /** The input fields of a team-member row. */
  datatype MemberField = MemberName | MemberRole

  /** `handleTeamMemberChange(index, field, value)` for a row on screen. */
  function HandleTeamMemberChange(form: Form, i: nat, f: MemberField, v: string): (r: Form)
    requires i < |form.teamMembers|
    ensures r == form.(teamMembers := r.teamMembers)
    ensures |r.teamMembers| == |form.teamMembers|
    ensures forall j :: 0 <= j < |form.teamMembers| && j != i ==> r.teamMembers[j] == form.teamMembers[j]
    ensures f == MemberName ==> r.teamMembers[i] == form.teamMembers[i].(name := Some(v))
    ensures f == MemberRole ==> r.teamMembers[i] == form.teamMembers[i].(role := Some(v))
  {
    var m := form.teamMembers[i];
    form.(teamMembers := form.teamMembers[i := if f == MemberName then m.(name := Some(v)) else m.(role := Some(v))])
  }

  /** `handleAddTeamMember()` with a fresh id. */
  function HandleAddTeamMember(form: Form, id: string): Form
  {
    form.(teamMembers := form.teamMembers + [Assignment(Some(id), Some(""), Some(""), None)])
  }

  /** `handleRemoveTeamMember(index)` */
  function HandleRemoveTeamMember(form: Form, i: nat): Form
  {
    form.(teamMembers := RemoveAt(form.teamMembers, i))
  }

  /** Adding a row appends exactly one unnamed member; removing it again
      gives back the form. */
  lemma AddRemoveTeamMember(form: Form, id: string)
    ensures var r := HandleAddTeamMember(form, id);
      var n := |form.teamMembers|;
      |r.teamMembers| == n + 1 && r.teamMembers[..n] == form.teamMembers &&
      r.teamMembers[n].name == Some("") && r.teamMembers[n].id == Some(id) &&
      HandleRemoveTeamMember(r, n) == form
  {
    var n := |form.teamMembers|;
    var r := HandleAddTeamMember(form, id);
    assert r.teamMembers[..n] == form.teamMembers;
  }

  // ---------------------------------------------------------------------------
  // Submit

  /** `x?.trim?.() || x || ''` for a string `x`: the trimmed text, or the
      text as it was when it is blank. */
  function TrimmedOrAsIs(x: string): (r: string)
    ensures Trim(x) != [] ==> r == Trim(x)
    ensures Trim(x) == [] ==> r == x
  {
    if Trim(x) != [] then Trim(x) else x
  }

  /** `x?.trim?.() || x || null` for a string `x`. */
  function TrimmedOrNull(x: string): (r: Option<string>)
    ensures r.None? <==> x == []
    ensures Trim(x) != [] ==> r == Some(Trim(x))
    ensures Trim(x) == [] && x != [] ==> r == Some(x)
  {
    if Trim(x) != [] then Some(Trim(x)) else if x != [] then Some(x) else None
  }

  /** `x?.trim() || null` */
  function TrimOrNull(x: Option<string>): Option<string>
  {
    if x.Some? && Trim(x.value) != [] then Some(Trim(x.value)) else None
  }

  /** A date field of the form as the saved record holds it:
      `form.x || null`, so the empty string becomes null. */
  predicate StoredDate(field: string, stored: Option<string>)
  {
    stored == if field == "" then None else Some(field)
  }

  /** One artifact as `handleSubmit` stores it. */
  function CleanArtifact(a: Artifact): Artifact
    requires !IsBlankOpt(a.name)
  {
    a.(name := Some(Trim(a.name.value)),
       owner := Some(TrimOrEmpty(a.owner)),
       dueDate := OrNull(a.dueDate),
       receivedDate := OrNull(a.receivedDate),
       fileUrl := TrimOrNull(a.fileUrl))
  }

  /** `.filter((a) => a.name?.trim()).map(clean)` */
  function CleanArtifacts(arts: seq<Artifact>): (r: seq<Artifact>)
    ensures |r| <= |arts|
    ensures forall x :: x in r ==> exists a :: a in arts && !IsBlankOpt(a.name) && x == CleanArtifact(a)
    ensures forall a :: a in arts && !IsBlankOpt(a.name) ==> CleanArtifact(a) in r
  {
    if arts == [] then []
    else
      var init := CleanArtifacts(arts[..|arts| - 1]);
      var last := arts[|arts| - 1];
      assert forall a :: a in arts <==> a in arts[..|arts| - 1] || a == last;
      if !IsBlankOpt(last.name) then init + [CleanArtifact(last)] else init
  }

  /** A stored artifact keeps its id and has a non-empty trimmed name and
      a trimmed owner. */
  lemma CleanArtifactText(a: Artifact)
    requires !IsBlankOpt(a.name)
    ensures var c := CleanArtifact(a);
      c.id == a.id && c.name.Some? && c.name.value != [] && Trim(c.name.value) == c.name.value &&
      c.owner.Some? && Trim(c.owner.value) == c.owner.value &&
      (c.fileUrl.Some? ==> c.fileUrl.value != [] && Trim(c.fileUrl.value) == c.fileUrl.value)
  {
    var c := CleanArtifact(a);
    TrimIdempotent(a.name.value);
    assert c.name == Some(Trim(a.name.value));
    TrimOrEmptyNormal(a.owner);
    assert c.owner == Some(TrimOrEmpty(a.owner));
    if a.fileUrl.Some? && Trim(a.fileUrl.value) != [] {
      TrimIdempotent(a.fileUrl.value);
      assert c.fileUrl == Some(Trim(a.fileUrl.value));
    } else {
      assert c.fileUrl.None?;
    }
  }

  /** An empty date is stored as null and any other is kept. */
  lemma CleanArtifactDates(a: Artifact)
    requires !IsBlankOpt(a.name)
    ensures var c := CleanArtifact(a);
      (c.dueDate.None? <==> !Truthy(a.dueDate)) && (c.dueDate.Some? ==> c.dueDate == a.dueDate) &&
      (c.receivedDate.None? <==> !Truthy(a.receivedDate)) &&
      (c.receivedDate.Some? ==> c.receivedDate == a.receivedDate)
  {
  }

  /** Cleaning a cleaned artifact changes nothing. */
  lemma CleanArtifactIdempotent(a: Artifact)
    requires !IsBlankOpt(a.name)
    ensures !IsBlankOpt(CleanArtifact(a).name)
    ensures CleanArtifact(CleanArtifact(a)) == CleanArtifact(a)
  {
    var c := CleanArtifact(a);
    CleanArtifactText(a);
    TrimIdempotent(a.name.value);
    assert c.name.value == Trim(a.name.value);
    assert !IsBlank(c.name.value);
    assert c.name == Some(Trim(c.name.value));
    assert c.owner == Some(TrimOrEmpty(c.owner));
    assert c.fileUrl == TrimOrNull(c.fileUrl);
    assert c.dueDate == OrNull(c.dueDate);
    assert c.receivedDate == OrNull(c.receivedDate);
  }

  /** Submitting a list that was already submitted stores it unchanged. */
  lemma {:induction false} CleanArtifactsIdempotent(arts: seq<Artifact>)
    ensures CleanArtifacts(CleanArtifacts(arts)) == CleanArtifacts(arts)
  {
    if arts != [] {
      var init, last := arts[..|arts| - 1], arts[|arts| - 1];
      CleanArtifactsIdempotent(init);
      var c := CleanArtifacts(init);
      if !IsBlankOpt(last.name) {
        CleanArtifactIdempotent(last);
        var r := c + [CleanArtifact(last)];
        assert r[..|r| - 1] == c;
      }
    }
  }

  /** The cleaned list keeps the named artifacts in their order: cleaning
      two halves is cleaning each. */
  lemma {:induction false} CleanArtifactsAppend(a: seq<Artifact>, b: seq<Artifact>)
    ensures CleanArtifacts(a + b) == CleanArtifacts(a) + CleanArtifacts(b)
  {
    if b == [] {
      assert a + b == a;
    } else {
      var init, last := b[..|b| - 1], b[|b| - 1];
      assert a + b == (a + init) + [last];
      assert b == init + [last];
      CleanArtifactsAppend(a, init);
      CleanArtifactsSnoc(a + init, last);
      CleanArtifactsSnoc(init, last);
    }
  }

  /** One more element at the end: cleaned and appended when named. */
  lemma CleanArtifactsSnoc(s: seq<Artifact>, x: Artifact)
    ensures CleanArtifacts(s + [x]) == CleanArtifacts(s) + (if IsBlankOpt(x.name) then [] else [CleanArtifact(x)])
  {
    assert (s + [x])[..|s + [x]| - 1] == s;
  }

  /** One artifact: dropped when its name is blank, cleaned otherwise. */
  lemma CleanArtifactsSingle(x: Artifact)
    ensures CleanArtifacts([x]) == if IsBlankOpt(x.name) then [] else [CleanArtifact(x)]
  {
    assert [x][..0] == [];
  }

  /** One team member as `handleSubmit` stores it; the rest of the row
      (id, allocation) is kept. */
  function CleanMember(m: Assignment): Assignment
    requires !IsBlankOpt(m.name)
  {
    m.(name := Some(Trim(m.name.value)), role := Some(TrimOrEmpty(m.role)))
  }

  /** `.filter((m) => m.name?.trim()).map(clean)` */
  function CleanMembers(ms: seq<Assignment>): (r: seq<Assignment>)
    ensures |r| <= |ms|
    ensures forall x :: x in r ==> exists m :: m in ms && !IsBlankOpt(m.name) && x == CleanMember(m)
    ensures forall m :: m in ms && !IsBlankOpt(m.name) ==> CleanMember(m) in r
  {
    if ms == [] then []
    else
      var init := CleanMembers(ms[..|ms| - 1]);
      var last := ms[|ms| - 1];
      assert forall m :: m in ms <==> m in ms[..|ms| - 1] || m == last;
      if !IsBlankOpt(last.name) then init + [CleanMember(last)] else init
  }

  /** The cleaned list keeps the named members in their order: cleaning two
      halves is cleaning each. */
  lemma {:induction false} CleanMembersAppend(a: seq<Assignment>, b: seq<Assignment>)
    ensures CleanMembers(a + b) == CleanMembers(a) + CleanMembers(b)
  {
    if b == [] {
      assert a + b == a;
    } else {
      var init, last := b[..|b| - 1], b[|b| - 1];
      assert a + b == (a + init) + [last];
      assert b == init + [last];
      CleanMembersAppend(a, init);
      CleanMembersSnoc(a + init, last);
      CleanMembersSnoc(init, last);
    }
  }

  /** One more element at the end: cleaned and appended when named. */
  lemma CleanMembersSnoc(s: seq<Assignment>, x: Assignment)
    ensures CleanMembers(s + [x]) == CleanMembers(s) + (if IsBlankOpt(x.name) then [] else [CleanMember(x)])
  {
    assert (s + [x])[..|s + [x]| - 1] == s;
  }

  /** One member: dropped when the name is blank, cleaned otherwise. */
  lemma CleanMembersSingle(x: Assignment)
    ensures CleanMembers([x]) == if IsBlankOpt(x.name) then [] else [CleanMember(x)]
  {
    assert [x][..0] == [];
  }

  /** Every stored member has a non-empty trimmed name and a trimmed role,
      and keeps its id and allocation. */
  lemma CleanMembersFields(ms: seq<Assignment>)
    ensures forall x :: x in CleanMembers(ms) ==>
      x.name.Some? && x.name.value != [] && Trim(x.name.value) == x.name.value &&
      x.role.Some? && Trim(x.role.value) == x.role.value &&
      exists m :: m in ms && m.id == x.id && m.allocation == x.allocation
  {
    forall x | x in CleanMembers(ms)
      ensures x.name.Some? && x.name.value != [] && Trim(x.name.value) == x.name.value &&
              x.role.Some? && Trim(x.role.value) == x.role.value &&
              exists m :: m in ms && m.id == x.id && m.allocation == x.allocation
    {
      var m :| m in ms && !IsBlankOpt(m.name) && x == CleanMember(m);
      TrimIdempotent(m.name.value);
      TrimOrEmptyNormal(m.role);
    }
  }

  /** `handleSubmit`: nothing when the name is blank; otherwise the record
      passed to `onSave`. The development object spreads the project's own,
      so its releases survive. */
  function HandleSubmit(form: Form, initial: Option<Project>): Option<ProjectInput>
  {
    if IsBlank(form.name) then None else Some(Submitted(form, initial))
  }

  /** The record `handleSubmit` builds from a form with a name. */
  function Submitted(form: Form, initial: Option<Project>): ProjectInput
  {
    var baseDev := if initial.Some? then initial.value.development.OrElse(NoDevelopment) else NoDevelopment;
    ProjectInput(
      form.id,
      Some(Trim(form.name)),
      Some(Trim(form.client)),
      Some(form.status),
      Some(form.priority),
      Some(if form.status == "on_hold" then Trim(form.onHoldReason) else ""),
      Some(TrimmedOrAsIs(form.notes)),
      Some(Discovery(
        OrNull(Some(form.discoveryTargetCompleteDate)),
        OrNull(Some(form.discoveryActualCompleteDate)),
        TrimmedOrNull(form.discoveryNotes),
        Some(CleanArtifacts(form.discoveryRequiredArtifacts)))),
      Some(baseDev.(
        startDate := OrNull(Some(form.devStartDate)),
        targetReleaseDate := OrNull(Some(form.devTargetReleaseDate)),
        actualReleaseDate := OrNull(Some(form.devActualReleaseDate)))),
      Some(CleanMembers(form.teamMembers)),
      None)
  }

  /** A blank name saves nothing; a saved record has a non-blank trimmed
      name. */
  lemma SubmitName(form: Form, initial: Option<Project>)
    ensures IsBlank(form.name) <==> HandleSubmit(form, initial).None?
    ensures HandleSubmit(form, initial).Some? ==>
      var r := HandleSubmit(form, initial).value;
      r.name == Some(Trim(form.name)) && !IsBlankOpt(r.name) && Trim(r.name.value) == r.name.value
  {
    if IsBlank(form.name) {
      assert HandleSubmit(form, initial).None?;
    } else {
      TrimmedNotBlank(form.name);
      assert HandleSubmit(form, initial) == Some(Submitted(form, initial));
    }
  }

  /** A name that is not blank trims to a non-blank, trimmed name. */
  lemma TrimmedNotBlank(s: string)
    requires !IsBlank(s)
    ensures Trim(s) != [] && Trim(Trim(s)) == Trim(s) && !IsBlank(Trim(s))
  {
    TrimIdempotent(s);
  }

  /** A saved record keeps the form's id, status and priority; it has a
      trimmed client, the notes trimmed unless they are blank, an on-hold
      reason only when the status is `'on_hold'`, exactly the named
      artifacts and members, cleaned, and the releases of the project being
      edited; it carries no meeting minutes, so an update keeps the stored
      ones. */
  lemma SubmitFields(form: Form, initial: Option<Project>)
    requires !IsBlank(form.name)
    ensures HandleSubmit(form, initial).Some?
    ensures var r := HandleSubmit(form, initial).value;
      r.id == form.id && r.status == Some(form.status) && r.priority == Some(form.priority) &&
      r.client == Some(Trim(form.client)) && Trim(r.client.value) == r.client.value &&
      (!IsBlank(form.notes) ==> r.notes == Some(Trim(form.notes))) &&
      (IsBlank(form.notes) ==> r.notes == Some(form.notes)) &&
      (form.status != "on_hold" ==> r.onHoldReason == Some("")) &&
      (form.status == "on_hold" ==> r.onHoldReason == Some(Trim(form.onHoldReason))) &&
      r.discovery.Some? && r.discovery.value.requiredArtifacts == Some(CleanArtifacts(form.discoveryRequiredArtifacts)) &&
      r.teamMembers == Some(CleanMembers(form.teamMembers)) &&
      r.development.Some? &&
      (initial.Some? && initial.value.development.Some? ==>
        r.development.value.releases == initial.value.development.value.releases) &&
      (initial.None? || initial.value.development.None? ==> r.development.value.releases.None?) &&
      r.meetingMinutes.None?
  {
    TrimIdempotent(form.client);
  }

  /** A saved record holds each date of the form, with an empty date as
      null, and the discovery notes trimmed, kept as typed when blank, and
      null when empty. */
  lemma SubmitDates(form: Form, initial: Option<Project>)
    requires !IsBlank(form.name)
    ensures HandleSubmit(form, initial).Some?
    ensures var r := HandleSubmit(form, initial).value;
      r.discovery.Some? && r.development.Some? &&
      StoredDate(form.discoveryTargetCompleteDate, r.discovery.value.targetCompleteDate) &&
      StoredDate(form.discoveryActualCompleteDate, r.discovery.value.actualCompleteDate) &&
      StoredDate(form.devStartDate, r.development.value.startDate) &&
      StoredDate(form.devTargetReleaseDate, r.development.value.targetReleaseDate) &&
      StoredDate(form.devActualReleaseDate, r.development.value.actualReleaseDate) &&
      (form.discoveryNotes == [] <==> r.discovery.value.notes.None?) &&
      (!IsBlank(form.discoveryNotes) ==> r.discovery.value.notes == Some(Trim(form.discoveryNotes))) &&
      (IsBlank(form.discoveryNotes) && form.discoveryNotes != [] ==> r.discovery.value.notes == Some(form.discoveryNotes))
  {
  }

  /** Opening the editor on a project and saving at once keeps its id,
      status and priority, its releases, and its team members and
      artifacts that have names; each date is kept, except that an empty
      date becomes null. */
  lemma SubmitUnchangedForm(p: Project)
    requires !IsBlank(p.name)
    ensures HandleSubmit(InitialForm(Some(p)), Some(p)).Some?
    ensures var r := HandleSubmit(InitialForm(Some(p)), Some(p)).value;
      var d := p.discovery.OrElse(NoDiscovery);
      var v := p.development.OrElse(NoDevelopment);
      r.id == Some(p.id) && r.status == Some(p.status) && r.priority == Some(p.priority) &&
      r.name == Some(Trim(p.name)) && r.client == Some(Trim(p.client)) &&
      r.discovery.Some? && r.development.Some? &&
      r.discovery.value.targetCompleteDate == OrNull(d.targetCompleteDate) &&
      r.discovery.value.actualCompleteDate == OrNull(d.actualCompleteDate) &&
      r.discovery.value.requiredArtifacts == Some(CleanArtifacts(d.requiredArtifacts.OrElse([]))) &&
      r.development.value.startDate == OrNull(v.startDate) &&
      r.development.value.targetReleaseDate == OrNull(v.targetReleaseDate) &&
      r.development.value.actualReleaseDate == OrNull(v.actualReleaseDate) &&
      r.development.value.releases == v.releases &&
      r.teamMembers == Some(CleanMembers(p.teamMembers.OrElse([])))
  {
    var form := InitialForm(Some(p));
    var d := p.discovery.OrElse(NoDiscovery);
    var v := p.development.OrElse(NoDevelopment);
    assert HandleSubmit(form, Some(p)) == Some(Submitted(form, Some(p)));
    var r := Submitted(form, Some(p));
    OrNullOfField(d.targetCompleteDate);
    OrNullOfField(d.actualCompleteDate);
    OrNullOfField(v.startDate);
    OrNullOfField(v.targetReleaseDate);
    OrNullOfField(v.actualReleaseDate);
  }

  /** A missing date shown in the form as `''` is stored back as null. */
  lemma OrNullOfField(x: Option<string>)
    ensures OrNull(Some(x.OrElse(""))) == OrNull(x)
  {
  }
}
