/** The older pieces of src/App.jsx: its own `computeProjectDerived` with a
    three-way overall risk, the list filter over status and risk, the
    create-or-update dispatch into the project store, and its simpler
    project editor. Dates and the current time are as in `ProjectUtils`. */
module LegacyApp {
  import opened Base
  import opened Strings
  import opened Grouping
  import opened Records
  import opened ProjectUtils
  import opened ProjectEditor
  import opened FilterCounts
  import opened ProjectStore

  // ---------------------------------------------------------------------------
  // computeProjectDerived

  datatype LegacyDerived = LegacyDerived(
    hasMissingArtifacts: bool,
    hasLateArtifacts: bool,
    discoveryIsLate: bool,
    devIsLate: bool,
    overallRisk: string,
    riskFlags: seq<string>,
    discoveryDaysLate: Option<int>,
    devDaysLate: Option<int>)

  const DevLateFlag := "Development past target release"

  function DevTarget(p: Project, parse: string -> Option<int>): Option<int>
  {
    if p.development.Some? then ParseDate(parse, p.development.value.targetReleaseDate) else None
  }

  function DevActual(p: Project, parse: string -> Option<int>): Option<int>
  {
    if p.development.Some? then ParseDate(parse, p.development.value.actualReleaseDate) else None
  }

  /** Not done, with a valid target before now. */
  predicate PhaseLate(actual: Option<int>, target: Option<int>, now: int)
  {
    actual.None? && target.Some? && target.value < now
  }

  /** The flags in the order they are pushed. */
  function LegacyFlags(lateArtifacts: bool, discoveryLate: bool, devLate: bool): seq<string>
  {
    (if lateArtifacts then [LateArtifactsFlag] else []) +
    (if discoveryLate then [DiscoveryLateFlag] else []) +
    (if devLate then [DevLateFlag] else [])
  }

  /** `riskFlags.length === 0 ? 'on-track' : priority === 'high' ? 'at-risk' : 'watch'` */
  function LegacyRisk(flags: seq<string>, priority: string): string
  {
    if |flags| == 0 then "on-track" else if priority == "high" then "at-risk" else "watch"
  }

  /** Everything the legacy `computeProjectDerived(project)` returns at
      time `now`. */
  function LegacyDerivedOf(p: Project, parse: string -> Option<int>, now: int): LegacyDerived
  {
    var arts := ArtifactsOf(p);
    var missing := AnyMissing(arts);
    var lateArts := AnyLate(arts, parse, now);
    var discTarget := DiscoveryTarget(p, parse);
    var discLate := PhaseLate(DiscoveryActual(p, parse), discTarget, now);
    var devTarget := DevTarget(p, parse);
    var devLate := PhaseLate(DevActual(p, parse), devTarget, now);
    var flags := LegacyFlags(lateArts, discLate, devLate);
    LegacyDerived(
      missing, lateArts, discLate, devLate,
      LegacyRisk(flags, p.priority),
      flags,
      if discLate then DaysBetween(discTarget, Some(now)) else None,
      if devLate then DaysBetween(devTarget, Some(now)) else None)
  }

  /** The legacy `computeProjectDerived(project)`, pushing its flags one at
      a time. */
  method ComputeLegacyDerived(p: Project, parse: string -> Option<int>, now: int) returns (d: LegacyDerived)
    ensures d == LegacyDerivedOf(p, parse, now)
  {
    var discoveryTarget := DiscoveryTarget(p, parse);
    var discoveryActual := DiscoveryActual(p, parse);
    var devTarget := DevTarget(p, parse);
    var devActual := DevActual(p, parse);
    var arts := ArtifactsOf(p);
    var hasMissingArtifacts := AnyMissing(arts);
    var hasLateArtifacts := AnyLate(arts, parse, now);
    var discoveryIsLate := discoveryActual.None? && discoveryTarget.Some? && discoveryTarget.value < now;
    var devIsLate := devActual.None? && devTarget.Some? && devTarget.value < now;
    var flags: seq<string> := [];
    if hasLateArtifacts {
      flags := flags + [LateArtifactsFlag];
    }
    if discoveryIsLate {
      flags := flags + [DiscoveryLateFlag];
    }
    if devIsLate {
      flags := flags + [DevLateFlag];
    }
    var risk := if |flags| == 0 then "on-track" else if p.priority == "high" then "at-risk" else "watch";
    d := LegacyDerived(
      hasMissingArtifacts, hasLateArtifacts, discoveryIsLate, devIsLate, risk, flags,
      if discoveryIsLate then DaysBetween(discoveryTarget, Some(now)) else None,
      if devIsLate then DaysBetween(devTarget, Some(now)) else None);
  }

  /** On track exactly when nothing is flagged; otherwise at risk for a
      high-priority project and on watch for any other. */
  lemma LegacyRiskIff(p: Project, parse: string -> Option<int>, now: int)
    ensures var d := LegacyDerivedOf(p, parse, now);
      (d.overallRisk == "on-track" <==> d.riskFlags == []) &&
      (d.overallRisk == "at-risk" <==> d.riskFlags != [] && p.priority == "high") &&
      (d.overallRisk == "watch" <==> d.riskFlags != [] && p.priority != "high")
  {
  }

  /** Where a flag sits in the fixed order. */
  function Rank(flag: string): nat
  {
    if flag == LateArtifactsFlag then 0 else if flag == DiscoveryLateFlag then 1 else 2
  }

  /** At most three flags, each present exactly when its condition holds,
      in the order artifacts, discovery, development. */
  lemma LegacyFlagsShape(lateArtifacts: bool, discoveryLate: bool, devLate: bool)
    ensures var f := LegacyFlags(lateArtifacts, discoveryLate, devLate);
      |f| <= 3 &&
      (LateArtifactsFlag in f <==> lateArtifacts) &&
      (DiscoveryLateFlag in f <==> discoveryLate) &&
      (DevLateFlag in f <==> devLate) &&
      forall i, j :: 0 <= i < j < |f| ==> Rank(f[i]) < Rank(f[j])
  {
  }

  /** The derived flags are laid out as `LegacyFlagsShape` says. */
  lemma LegacyFlagsLayout(p: Project, parse: string -> Option<int>, now: int)
    ensures var d := LegacyDerivedOf(p, parse, now);
      d.riskFlags == LegacyFlags(d.hasLateArtifacts, d.discoveryIsLate, d.devIsLate) &&
      |d.riskFlags| <= 3 &&
      (DevLateFlag in d.riskFlags <==> d.devIsLate)
  {
    var d := LegacyDerivedOf(p, parse, now);
    LegacyFlagsShape(d.hasLateArtifacts, d.discoveryIsLate, d.devIsLate);
  }

  /** A late artifact has not been received, so it is also missing. */
  lemma LegacyLateArtifactsAreMissing(p: Project, parse: string -> Option<int>, now: int)
    ensures LegacyDerivedOf(p, parse, now).hasLateArtifacts ==> LegacyDerivedOf(p, parse, now).hasMissingArtifacts
  {
    var d := LegacyDerivedOf(p, parse, now);
    var arts := ArtifactsOf(p);
    if d.hasLateArtifacts {
      var i :| 0 <= i < |arts| && ArtifactLate(arts[i], parse, now);
      assert ArtifactMissing(arts[i]);
    }
  }

  /** A count of days late is given exactly when the phase is late, and it
      is then never negative. */
  lemma LegacyDaysLateIff(p: Project, parse: string -> Option<int>, now: int)
    ensures var d := LegacyDerivedOf(p, parse, now);
      (d.discoveryDaysLate.Some? <==> d.discoveryIsLate) &&
      (d.devDaysLate.Some? <==> d.devIsLate) &&
      (d.discoveryDaysLate.Some? ==> d.discoveryDaysLate.value >= 0) &&
      (d.devDaysLate.Some? ==> d.devDaysLate.value >= 0)
  {
  }

  // ---------------------------------------------------------------------------
  // The list filter

  /** A project with its derived values, as in `projectsWithDerived`. */
  datatype Listed = Listed(project: Project, derived: LegacyDerived)

  /** `projects.map((p) => ({ ...p, derived: computeProjectDerived(p) }))` */
  function WithDerived(projects: seq<Project>, parse: string -> Option<int>, now: int): (r: seq<Listed>)
    ensures |r| == |projects|
    ensures forall i :: 0 <= i < |r| ==> r[i].project == projects[i]
    ensures forall i :: 0 <= i < |r| ==> r[i].derived == LegacyDerivedOf(projects[i], parse, now)
  {
    seq(|projects|, i requires 0 <= i < |projects| => Listed(projects[i], LegacyDerivedOf(projects[i], parse, now)))
  }

  /** The callback of `filtered`: each selection other than `'all'` must
      match. */
  predicate Passes(x: Listed, sel: Selection)
  {
    (sel.status == "all" || x.project.status == sel.status) &&
    (sel.risk == "all" || x.derived.overallRisk == sel.risk)
  }

  /** `filtered` */
  function Filtered(xs: seq<Listed>, sel: Selection): seq<Listed>
  {
    if xs == [] then []
    else Filtered(xs[..|xs| - 1], sel) + (if Passes(xs[|xs| - 1], sel) then [xs[|xs| - 1]] else [])
  }

  /** The filter keeps exactly the items that pass, and it keeps their
      order: filtering two lists joined is joining their filtered lists. */
  lemma {:induction false} FilteredMeaning(xs: seq<Listed>, ys: seq<Listed>, sel: Selection)
    ensures forall x :: x in Filtered(xs, sel) <==> x in xs && Passes(x, sel)
    ensures Filtered(xs + ys, sel) == Filtered(xs, sel) + Filtered(ys, sel)
    decreases |ys|, |xs|
  {
    if xs != [] {
      FilteredMeaning(xs[..|xs| - 1], [], sel);
      assert forall x :: x in xs <==> x in xs[..|xs| - 1] || x == xs[|xs| - 1];
    }
    if ys == [] {
      assert xs + ys == xs;
    } else {
      var init := ys[..|ys| - 1];
      FilteredMeaning(xs, init, sel);
      assert (xs + ys)[..|xs + ys| - 1] == xs + init;
    }
  }

  /** With both selections `'all'`, every project is shown. */
  lemma {:induction false} FilteredAll(xs: seq<Listed>)
    ensures Filtered(xs, ClearFilters()) == xs
  {
    if xs != [] {
      FilteredAll(xs[..|xs| - 1]);
    }
  }

  function ShownStatus(x: Listed): string
  {
    x.project.status
  }

  function ShownRisk(x: Listed): string
  {
    x.derived.overallRisk
  }

  /** Selecting a status shows the projects `Filter` groups under it. */
  lemma {:induction false} FilteredByStatus(xs: seq<Listed>, k: string)
    requires k != "all"
    ensures Filtered(xs, Selection(k, "all")) == Filter(xs, ShownStatus, k)
  {
    if xs != [] {
      FilteredByStatus(xs[..|xs| - 1], k);
    }
  }

  /** Selecting a risk shows the projects `Filter` groups under it. */
  lemma {:induction false} FilteredByRisk(xs: seq<Listed>, k: string)
    requires k != "all"
    ensures Filtered(xs, Selection("all", k)) == Filter(xs, ShownRisk, k)
  {
    if xs != [] {
      FilteredByRisk(xs[..|xs| - 1], k);
    }
  }

  /** A status chip's count is the number of projects that selecting it
      leaves on screen. */
  lemma StatusChipMatchesList(projects: seq<Project>, parse: string -> Option<int>, now: int, k: string)
    requires k != "all"
    ensures Shown(CountsOf(projects, StatusOf), k) ==
      |Filtered(WithDerived(projects, parse, now), Selection(k, "all"))|
  {
    var xs := WithDerived(projects, parse, now);
    CountsMeaning(projects, StatusOf, k);
    FilteredByStatus(xs, k);
    FilterSizeAlong(projects, xs, StatusOf, ShownStatus, k);
  }

  /** A risk chip's count is the number of projects that selecting it
      leaves on screen. */
  lemma RiskChipMatchesList(projects: seq<Project>, parse: string -> Option<int>, now: int, k: string)
    requires k != "all"
    ensures var xs := WithDerived(projects, parse, now);
      Shown(CountsOf(Risks(xs), RiskOf), k) == |Filtered(xs, Selection("all", k))|
  {
    var xs := WithDerived(projects, parse, now);
    forall i | 0 <= i < |xs| ensures xs[i].derived.overallRisk != "" {
      LegacyRiskIff(projects[i], parse, now);
    }
    RiskChipCount(xs, k);
  }

  /** The risk chips count what the risk filter shows, for any list whose
      overall risks are never empty. */
  lemma RiskChipCount(xs: seq<Listed>, k: string)
    requires k != "all"
    requires forall i :: 0 <= i < |xs| ==> xs[i].derived.overallRisk != ""
    ensures Shown(CountsOf(Risks(xs), RiskOf), k) == |Filtered(xs, Selection("all", k))|
  {
    var rs := Risks(xs);
    assert forall i :: 0 <= i < |xs| ==> ShownRisk(xs[i]) == RiskOf(rs[i]);
    CountsMeaning(rs, RiskOf, k);
    FilteredByRisk(xs, k);
    FilterSizeAlong(xs, rs, ShownRisk, RiskOf, k);
  }

  /** The overall risks the filter bar counts. */
  function Risks(xs: seq<Listed>): (r: seq<Option<string>>)
    ensures |r| == |xs|
    ensures forall i :: 0 <= i < |r| ==> r[i] == Some(xs[i].derived.overallRisk)
  {
    seq(|xs|, i requires 0 <= i < |xs| => Some(xs[i].derived.overallRisk))
  }

  /** Two lists whose keys agree position by position have groups of the
      same sizes. */
  lemma {:induction false} FilterSizeAlong<A, B>(a: seq<A>, b: seq<B>, ka: A -> string, kb: B -> string, k: string)
    requires |a| == |b|
    requires forall i :: 0 <= i < |a| ==> ka(a[i]) == kb(b[i])
    ensures |Filter(a, ka, k)| == |Filter(b, kb, k)|
  {
    if a != [] {
      FilterSizeAlong(a[..|a| - 1], b[..|b| - 1], ka, kb, k);
    }
  }

  // ---------------------------------------------------------------------------
  // handleSave

  /** `handleSave(projectInput)`: update the project the input names, or
      create one when it has no id. */
  method HandleSave(svc: DataService, input: ProjectInput, freshId: string, now: string, save: SaveResult)
    returns (r: Result<Project>)
    modifies svc`projects, svc`storage, svc`notified
    ensures Truthy(input.id) ==> |svc.projects| == |old(svc.projects)|
    ensures Truthy(input.id) && FindProject(old(svc.projects), input.id.value).None? ==>
      r == Err(NotFound(input.id.value)) && svc.projects == old(svc.projects)
    ensures Truthy(input.id) && FindProject(old(svc.projects), input.id.value).Some? && !IsBlankOpt(input.name) ==>
      var i := FindProject(old(svc.projects), input.id.value).value;
      svc.projects == old(svc.projects)[i := UpdatedProject(old(svc.projects)[i], input, now)] &&
      (save.Saved? ==> r == Ok(svc.projects[i])) &&
      (save.SaveFailed? ==> r == Err(StorageFailure))
    ensures !Truthy(input.id) && !IsBlankOpt(input.name) ==>
      svc.projects == old(svc.projects) + [NewProject(input, freshId, now)] &&
      (save.Saved? ==> r == Ok(NewProject(input, freshId, now))) &&
      (save.SaveFailed? ==> r == Err(StorageFailure))
    ensures IsBlankOpt(input.name) ==>
      r.Err? && svc.projects == old(svc.projects) &&
      svc.storage == old(svc.storage) && svc.notified == old(svc.notified)
    ensures IsBlankOpt(input.name) && (!Truthy(input.id) || FindProject(old(svc.projects), input.id.value).Some?) ==>
      r == Err(NameRequired)
  {
    if Truthy(input.id) {
      r := svc.UpdateProject(input.id.value, input, now, save);
    } else {
      r := svc.CreateProject(input, freshId, now, save);
    }
  }

  // ---------------------------------------------------------------------------
  // The legacy editor

  datatype LegacyForm = LegacyForm(
    id: Option<string>,
    name: string,
    client: string,
    status: string,
    priority: string,
    discoveryTargetCompleteDate: string,
    discoveryActualCompleteDate: string,
    discoveryNotes: string,
    devStartDate: string,
    devTargetReleaseDate: string,
    devActualReleaseDate: string,
    onHoldReason: string,
    notes: string)

  /** The `useState` initialiser of the legacy editor. */
  function LegacyInitialForm(initial: Option<Project>): LegacyForm
  {
    match initial
    case None => LegacyForm(None, "", "", "discovery", "medium", "", "", "", "", "", "", "", "")
    case Some(p) =>
      var d := p.discovery.OrElse(NoDiscovery);
      var v := p.development.OrElse(NoDevelopment);
      LegacyForm(Some(p.id), p.name, p.client, p.status, p.priority,
                 d.targetCompleteDate.OrElse(""), d.actualCompleteDate.OrElse(""), d.notes.OrElse(""),
                 v.startDate.OrElse(""), v.targetReleaseDate.OrElse(""), v.actualReleaseDate.OrElse(""),
                 p.onHoldReason, p.notes)
  }

  /** `handleSubmit`: nothing for a blank name; otherwise the record passed
      to `onSave`. Both phase objects spread the project's own. */
  function LegacySubmit(form: LegacyForm, initial: Option<Project>): Option<ProjectInput>
  {
    if IsBlank(form.name) then None else Some(LegacySubmitted(form, initial))
  }

  /** The record built from a form with a name: its name is the trimmed,
      non-blank form name. */
  function LegacySubmitted(form: LegacyForm, initial: Option<Project>): (r: ProjectInput)
    requires !IsBlank(form.name)
    ensures r.name == Some(Trim(form.name)) && !IsBlankOpt(r.name) && Trim(r.name.value) == r.name.value
  {
    TrimmedNotBlank(form.name);
    var disc := if initial.Some? then initial.value.discovery.OrElse(NoDiscovery) else NoDiscovery;
    var dev := if initial.Some? then initial.value.development.OrElse(NoDevelopment) else NoDevelopment;
    ProjectInput(
      form.id,
      Some(Trim(form.name)),
      Some(Trim(form.client)),
      Some(form.status),
      Some(form.priority),
      Some(if form.status == "on_hold" then Trim(form.onHoldReason) else ""),
      Some(Trim(form.notes)),
      Some(disc.(
        targetCompleteDate := OrNull(Some(form.discoveryTargetCompleteDate)),
        actualCompleteDate := OrNull(Some(form.discoveryActualCompleteDate)),
        notes := TrimOrNull(Some(form.discoveryNotes)))),
      Some(dev.(
        startDate := OrNull(Some(form.devStartDate)),
        targetReleaseDate := OrNull(Some(form.devTargetReleaseDate)),
        actualReleaseDate := OrNull(Some(form.devActualReleaseDate)))),
      None,
      None)
  }

  /** A blank name saves nothing; a saved record has an on-hold reason only
      for status `'on_hold'`, keeps the project's artifacts and releases,
      and carries no team members or minutes, so an update keeps the
      stored ones. */
  lemma LegacySubmitMeaning(form: LegacyForm, initial: Option<Project>)
    ensures LegacySubmit(form, initial).None? <==> IsBlank(form.name)
    ensures LegacySubmit(form, initial).Some? ==>
      var r := LegacySubmit(form, initial).value;
      (form.status != "on_hold" ==> r.onHoldReason == Some("")) &&
      r.discovery.Some? && r.development.Some? &&
      (initial.Some? && initial.value.discovery.Some? ==>
        r.discovery.value.requiredArtifacts == initial.value.discovery.value.requiredArtifacts) &&
      (initial.Some? && initial.value.development.Some? ==>
        r.development.value.releases == initial.value.development.value.releases) &&
      r.teamMembers.None? && r.meetingMinutes.None?
  {
    if !IsBlank(form.name) {
      var r := LegacySubmitted(form, initial);
      assert LegacySubmit(form, initial) == Some(r);
    }
  }

  /** A saved record keeps the form's id, status and priority; it has the
      client and notes trimmed, the discovery notes trimmed or null, and
      each date of the form, with an empty date as null. */
  lemma LegacySubmitDates(form: LegacyForm, initial: Option<Project>)
    requires !IsBlank(form.name)
    ensures LegacySubmit(form, initial).Some?
    ensures var r := LegacySubmit(form, initial).value;
      r.id == form.id && r.status == Some(form.status) && r.priority == Some(form.priority) &&
      r.client == Some(Trim(form.client)) && r.notes == Some(Trim(form.notes)) &&
      r.discovery.Some? && r.development.Some? &&
      (IsBlank(form.discoveryNotes) ==> r.discovery.value.notes.None?) &&
      (!IsBlank(form.discoveryNotes) ==> r.discovery.value.notes == Some(Trim(form.discoveryNotes))) &&
      StoredDate(form.discoveryTargetCompleteDate, r.discovery.value.targetCompleteDate) &&
      StoredDate(form.discoveryActualCompleteDate, r.discovery.value.actualCompleteDate) &&
      StoredDate(form.devStartDate, r.development.value.startDate) &&
      StoredDate(form.devTargetReleaseDate, r.development.value.targetReleaseDate) &&
      StoredDate(form.devActualReleaseDate, r.development.value.actualReleaseDate)
  {
    var r := LegacySubmitted(form, initial);
    assert LegacySubmit(form, initial) == Some(r);
  }

  /** Saving a legacy edit through the store keeps the project's team
      members, meeting minutes, required artifacts and releases. */
  lemma LegacyEditKeepsTeam(form: LegacyForm, p: Project, now: string)
    requires !IsBlank(form.name)
    ensures var u := UpdatedProject(p, LegacySubmit(form, Some(p)).value, now);
      u.teamMembers == p.teamMembers && u.meetingMinutes == p.meetingMinutes &&
      u.discovery.Some? && u.development.Some? &&
      (p.discovery.Some? ==> u.discovery.value.requiredArtifacts == p.discovery.value.requiredArtifacts) &&
      (p.development.Some? ==> u.development.value.releases == p.development.value.releases)
  {
    var input := LegacySubmitted(form, Some(p));
    assert LegacySubmit(form, Some(p)) == Some(input);
    assert input.teamMembers.None? && input.meetingMinutes.None?;
  }
}
