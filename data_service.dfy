/** The project store backed by `localStorage` (src/services/dataService.js).
    The storage slot is a field of the service; every `setItem` is replaced by
    the outcome it settles with, passed in by the caller. The ids and
    timestamps the code draws from `Date.now()`, `Math.random()` and
    `new Date()` are parameters. */
module ProjectStore {
  import opened Base
  import opened Strings
  import opened Grouping
  import opened Records

  // ---------------------------------------------------------------------------
  // Record construction

  /** The record `createProject` builds from valid input. Team members and
      minutes carried by the input are not copied. */
  function NewProject(input: ProjectInput, id: string, now: string): Project
    requires !IsBlankOpt(input.name)
  {
    Project(id, Trim(input.name.value), TrimOrEmpty(input.client),
            StrOr(input.status, "discovery"), StrOr(input.priority, "medium"),
            TrimOrEmpty(input.onHoldReason), TrimOrEmpty(input.notes),
            Some(input.discovery.OrElse(NoDiscovery)),
            Some(input.development.OrElse(NoDevelopment)),
            None, None, Some(now), Some(now))
  }

  /** A key of the spread `...projectData`: present in the input, it wins. */
  function Override<T>(existing: Option<T>, given: Option<T>): Option<T>
  {
    if given.Some? then given else existing
  }

  /** `{ ...existing, ...projectData, name, client, onHoldReason, notes, updatedAt }` */
  function UpdatedProject(existing: Project, input: ProjectInput, now: string): Project
    requires !IsBlankOpt(input.name)
  {
    Project(
      input.id.OrElse(existing.id),
      Trim(input.name.value),
      TrimOrEmpty(input.client),
      input.status.OrElse(existing.status),
      input.priority.OrElse(existing.priority),
      TrimOrEmpty(input.onHoldReason),
      TrimOrEmpty(input.notes),
      Override(existing.discovery, input.discovery),
      Override(existing.development, input.development),
      Override(existing.teamMembers, input.teamMembers),
      Override(existing.meetingMinutes, input.meetingMinutes),
      existing.createdAt,
      Some(now))
  }

  /** A created project has a non-empty trimmed name and trimmed text fields. */
  lemma NewProjectText(input: ProjectInput, id: string, now: string)
    requires !IsBlankOpt(input.name)
    ensures var p := NewProject(input, id, now);
      p.name != [] && Trim(p.name) == p.name &&
      Trim(p.client) == p.client && Trim(p.onHoldReason) == p.onHoldReason &&
      Trim(p.notes) == p.notes
  {
    TrimIdempotent(input.name.value);
    TrimOrEmptyNormal(input.client);
    TrimOrEmptyNormal(input.onHoldReason);
    TrimOrEmptyNormal(input.notes);
  }

  /** A created project has a status and priority that are the input's when
      given and the defaults otherwise, both phase objects, no team or
      minutes, and equal creation and update stamps. */
  lemma NewProjectDefaults(input: ProjectInput, id: string, now: string)
    requires !IsBlankOpt(input.name)
    ensures var p := NewProject(input, id, now);
      p.id == id && p.status != [] && p.priority != [] &&
      (Truthy(input.status) ==> p.status == input.status.value) &&
      (!Truthy(input.status) ==> p.status == "discovery") &&
      (Truthy(input.priority) ==> p.priority == input.priority.value) &&
      (!Truthy(input.priority) ==> p.priority == "medium") &&
      p.discovery == Some(input.discovery.OrElse(NoDiscovery)) &&
      p.development == Some(input.development.OrElse(NoDevelopment)) &&
      p.teamMembers.None? && p.meetingMinutes.None? &&
      p.createdAt == p.updatedAt == Some(now)
  {
  }

  /** An update keeps the creation stamp; it takes the id, status,
      priority, phases, team and minutes from the input when the input
      carries them and from the stored project otherwise; the text fields
      `client`, `onHoldReason` and `notes` become `''` when the input lacks
      them. */
  lemma UpdatedProjectFields(existing: Project, input: ProjectInput, now: string)
    requires !IsBlankOpt(input.name)
    ensures var u := UpdatedProject(existing, input, now);
      u.name != [] && Trim(u.name) == u.name &&
      u.createdAt == existing.createdAt && u.updatedAt == Some(now) &&
      (input.id.None? ==> u.id == existing.id) &&
      (input.status.None? ==> u.status == existing.status) &&
      (input.priority.None? ==> u.priority == existing.priority) &&
      (input.discovery.None? ==> u.discovery == existing.discovery) &&
      (input.development.None? ==> u.development == existing.development) &&
      (input.teamMembers.None? ==> u.teamMembers == existing.teamMembers) &&
      (input.meetingMinutes.None? ==> u.meetingMinutes == existing.meetingMinutes) &&
      (input.client.None? ==> u.client == "") &&
      (input.onHoldReason.None? ==> u.onHoldReason == "") &&
      (input.notes.None? ==> u.notes == "") &&
      (input.id.Some? ==> u.id == input.id.value) &&
      (input.status.Some? ==> u.status == input.status.value) &&
      (input.priority.Some? ==> u.priority == input.priority.value) &&
      (input.discovery.Some? ==> u.discovery == input.discovery) &&
      (input.development.Some? ==> u.development == input.development) &&
      (input.teamMembers.Some? ==> u.teamMembers == input.teamMembers) &&
      (input.meetingMinutes.Some? ==> u.meetingMinutes == input.meetingMinutes)
  {
    TrimIdempotent(input.name.value);
  }

  /** An update stores the client, on-hold reason and notes it is given
      trimmed, so every one of them is its own trim. */
  lemma UpdatedProjectText(existing: Project, input: ProjectInput, now: string)
    requires !IsBlankOpt(input.name)
    ensures var u := UpdatedProject(existing, input, now);
      (input.client.Some? ==> u.client == Trim(input.client.value)) &&
      (input.onHoldReason.Some? ==> u.onHoldReason == Trim(input.onHoldReason.value)) &&
      (input.notes.Some? ==> u.notes == Trim(input.notes.value)) &&
      Trim(u.client) == u.client && Trim(u.onHoldReason) == u.onHoldReason &&
      Trim(u.notes) == u.notes
  {
    var u := UpdatedProject(existing, input, now);
    assert u.client == TrimOrEmpty(input.client);
    assert u.onHoldReason == TrimOrEmpty(input.onHoldReason);
    assert u.notes == TrimOrEmpty(input.notes);
    TrimOrEmptyNormal(input.client);
    TrimOrEmptyNormal(input.onHoldReason);
    TrimOrEmptyNormal(input.notes);
  }

  function ProjectId(p: Project): string
  {
    p.id
  }

  /** `findIndex((p) => p.id === id)` */
  function FindProject(ps: seq<Project>, id: string): Option<nat>
  {
    IndexOf(ps, ProjectId, id)
  }

  /** `newProjects.map((p) => ({ ...p, updatedAt }))` */
  function StampedProjects(ps: seq<Project>, now: string): (r: seq<Project>)
    ensures |r| == |ps|
    ensures forall i :: 0 <= i < |ps| ==> r[i] == ps[i].(updatedAt := Some(now))
  {
    seq(|ps|, i requires 0 <= i < |ps| => ps[i].(updatedAt := Some(now)))
  }

  /** A replacement keeps every record, in order, and changes nothing but the
      `updatedAt` stamp. */
  lemma StampedProjectsKeepRecords(ps: seq<Project>, now: string)
    ensures |StampedProjects(ps, now)| == |ps|
    ensures forall i :: 0 <= i < |ps| ==>
      StampedProjects(ps, now)[i].(updatedAt := ps[i].updatedAt) == ps[i] &&
      StampedProjects(ps, now)[i].updatedAt == Some(now)
  {
  }

  /** Stamping twice with the same time is stamping once. */
  lemma StampedProjectsIdempotent(ps: seq<Project>, now: string)
    ensures StampedProjects(StampedProjects(ps, now), now) == StampedProjects(ps, now)
  {
  }

  // ---------------------------------------------------------------------------
  // DataService

  /** What `localStorage.getItem('pm-projects')` and `JSON.parse` yield: no
      item (or `''`), text that does not parse (or a `getItem` that throws),
      a value that is not an array, or an array of projects. */
  datatype StoredRead = NothingStored | StoredCorrupt | StoredNonArray | StoredArray(items: seq<Project>)

  /** How `localStorage.setItem` settles: it returns, or throws (quota, private mode). */
  datatype SaveResult = Saved | SaveFailed

  /** The text `importFromJSON` is given, as `JSON.parse` sees it. */
  datatype JsonText = NotJson | JsonNonArray | JsonArray(items: seq<Project>)

  class DataService {
    var projects: seq<Project>
    var listeners: seq<ListenerId>
    var initialized: bool
    /** The `'pm-projects'` slot of `localStorage`. */
    var storage: StoredRead
    /** Every listener call made so far. */
    var notified: seq<Notice<seq<Project>>>

    /** A fresh service over whatever the browser has stored. */
    constructor (stored: StoredRead)
      ensures projects == [] && listeners == [] && !initialized
      ensures storage == stored && notified == []
    {
      projects := [];
      listeners := [];
      initialized := false;
      storage := stored;
      notified := [];
    }

    /** `notifyListeners()`: every subscriber is called with the current list. */
    method NotifyListeners()
      modifies this`notified
      ensures notified == old(notified) + Deliveries(listeners, projects)
    {
      var i := 0;
      while i < |listeners|
        invariant 0 <= i <= |listeners|
        invariant notified == old(notified) + Deliveries(listeners[..i], projects)
      {
        notified := notified + [Notice(listeners[i], projects)];
        i := i + 1;
        assert Deliveries(listeners[..i], projects)
            == Deliveries(listeners[..i - 1], projects) + [Notice(listeners[i - 1], projects)];
      }
      assert listeners[..i] == listeners;
    }

    /** `subscribe(listener)` */
    method Subscribe(l: ListenerId)
      modifies this`listeners
      ensures listeners == old(listeners) + [l]
    {
      listeners := listeners + [l];
    }

    /** The closure `subscribe` returns: drops every registration of `l`. */
    method Unsubscribe(l: ListenerId)
      modifies this`listeners
      ensures listeners == Without(old(listeners), l)
    {
      listeners := Without(listeners, l);
    }

    /** `saveToStorage()`: writes the current list, or rethrows. */
    method SaveToStorage(save: SaveResult) returns (r: Result<()>)
      modifies this`storage
      ensures save.Saved? ==> r == Ok(()) && storage == StoredArray(projects)
      ensures save.SaveFailed? ==> r == Err(StorageFailure) && storage == old(storage)
    {
      if save.SaveFailed? {
        return Err(StorageFailure);
      }
      storage := StoredArray(projects);
      r := Ok(());
    }

    /** `initialize()`: a stored array wins; otherwise the bundled data
        (`None` when it is not an array) is loaded and saved, and a failed
        save leaves the list empty. Once initialized, nothing is reloaded. */
    method Initialize(bundled: Option<seq<Project>>, save: SaveResult) returns (r: seq<Project>)
      modifies this`projects, this`initialized, this`storage, this`notified
      ensures initialized && r == projects
      ensures old(initialized) ==>
        projects == old(projects) && storage == old(storage) && notified == old(notified)
      ensures !old(initialized) ==> notified == old(notified) + Deliveries(listeners, projects)
      ensures !old(initialized) && old(storage).StoredArray? ==>
        projects == old(storage).items && storage == old(storage)
      ensures !old(initialized) && !old(storage).StoredArray? && save.Saved? ==>
        projects == bundled.OrElse([]) && storage == StoredArray(projects)
      ensures !old(initialized) && !old(storage).StoredArray? && save.SaveFailed? ==>
        projects == [] && storage == old(storage)
    {
      if initialized {
        return projects;
      }
      if storage.StoredArray? {
        projects := storage.items;
        initialized := true;
        NotifyListeners();
        return projects;
      }
      projects := bundled.OrElse([]);
      initialized := true;
      var saved := SaveToStorage(save);
      if saved.Err? {
        projects := [];
        NotifyListeners();
        return projects;
      }
      NotifyListeners();
      r := projects;
    }

    /** `getAllProjects()`: a copy of the list, in stored order. */
    function GetAllProjects(): (r: seq<Project>)
      reads this
      ensures |r| == |projects| && forall i :: 0 <= i < |r| ==> r[i] == projects[i]
    {
      projects
    }

    /** `getProjectById(id)`: the first project with that id, or null. */
    function GetProjectById(id: string): (r: Option<Project>)
      reads this
      ensures r.Some? ==> exists i :: 0 <= i < |projects| && projects[i] == r.value &&
                                      r.value.id == id &&
                                      forall j :: 0 <= j < i ==> projects[j].id != id
      ensures r.None? <==> forall j :: 0 <= j < |projects| ==> projects[j].id != id
    {
      match FindProject(projects, id)
      case None => None
      case Some(i) => Some(projects[i])
    }

    /** `createProject(projectData)` with a fresh id and timestamp. The record
        is appended before the save, so a failed save keeps it in memory,
        notifies nobody and throws. */
    method CreateProject(input: ProjectInput, id: string, now: string, save: SaveResult)
      returns (r: Result<Project>)
      modifies this`projects, this`storage, this`notified
      ensures IsBlankOpt(input.name) ==>
        r == Err(NameRequired) && projects == old(projects) &&
        storage == old(storage) && notified == old(notified)
      ensures !IsBlankOpt(input.name) ==>
        projects == old(projects) + [NewProject(input, id, now)]
      ensures !IsBlankOpt(input.name) && save.Saved? ==>
        r == Ok(NewProject(input, id, now)) && storage == StoredArray(projects) &&
        notified == old(notified) + Deliveries(listeners, projects)
      ensures !IsBlankOpt(input.name) && save.SaveFailed? ==>
        r == Err(StorageFailure) && storage == old(storage) && notified == old(notified)
    {
      if IsBlankOpt(input.name) {
        return Err(NameRequired);
      }
      var newProject := NewProject(input, id, now);
      projects := projects + [newProject];
      var saved := SaveToStorage(save);
      if saved.Err? {
        return Err(saved.error);
      }
      NotifyListeners();
      r := Ok(newProject);
    }

    /** `updateProject(id, projectData)`: not-found is checked before the
        name; the record at the found index is replaced before the save. */
    method UpdateProject(id: string, input: ProjectInput, now: string, save: SaveResult)
      returns (r: Result<Project>)
      modifies this`projects, this`storage, this`notified
      ensures FindProject(old(projects), id).None? ==>
        r == Err(NotFound(id)) && projects == old(projects) &&
        storage == old(storage) && notified == old(notified)
      ensures FindProject(old(projects), id).Some? && IsBlankOpt(input.name) ==>
        r == Err(NameRequired) && projects == old(projects) &&
        storage == old(storage) && notified == old(notified)
      ensures FindProject(old(projects), id).Some? && !IsBlankOpt(input.name) ==>
        var i := FindProject(old(projects), id).value;
        projects == old(projects)[i := UpdatedProject(old(projects)[i], input, now)]
      ensures FindProject(old(projects), id).Some? && !IsBlankOpt(input.name) && save.Saved? ==>
        r == Ok(projects[FindProject(old(projects), id).value]) && storage == StoredArray(projects) &&
        notified == old(notified) + Deliveries(listeners, projects)
      ensures FindProject(old(projects), id).Some? && !IsBlankOpt(input.name) && save.SaveFailed? ==>
        r == Err(StorageFailure) && storage == old(storage) && notified == old(notified)
    {
      var index := FindProject(projects, id);
      if index.None? {
        return Err(NotFound(id));
      }
      if IsBlankOpt(input.name) {
        return Err(NameRequired);
      }
      r := StoreAt(index.value, UpdatedProject(projects[index.value], input, now), save);
    }

    /** `this.projects[index] = updated`, then save and notify. */
    method StoreAt(i: nat, p: Project, save: SaveResult) returns (r: Result<Project>)
      requires i < |projects|
      modifies this`projects, this`storage, this`notified
      ensures projects == old(projects)[i := p]
      ensures save.Saved? ==>
        r == Ok(p) && storage == StoredArray(projects) &&
        notified == old(notified) + Deliveries(listeners, projects)
      ensures save.SaveFailed? ==>
        r == Err(StorageFailure) && storage == old(storage) && notified == old(notified)
    {
      projects := projects[i := p];
      var saved := SaveToStorage(save);
      if saved.Err? {
        return Err(saved.error);
      }
      NotifyListeners();
      r := Ok(p);
    }

    /** `deleteProject(id)`: removes the first project with that id and
        returns it; the removal happens before the save. */
    method DeleteProject(id: string, save: SaveResult) returns (r: Result<Project>)
      modifies this`projects, this`storage, this`notified
      ensures FindProject(old(projects), id).None? ==>
        r == Err(NotFound(id)) && projects == old(projects) &&
        storage == old(storage) && notified == old(notified)
      ensures FindProject(old(projects), id).Some? ==>
        var i := FindProject(old(projects), id).value;
        projects == old(projects)[..i] + old(projects)[i + 1..] &&
        |projects| == |old(projects)| - 1 &&
        (save.Saved? ==>
          r == Ok(old(projects)[i]) && storage == StoredArray(projects) &&
          notified == old(notified) + Deliveries(listeners, projects)) &&
        (save.SaveFailed? ==>
          r == Err(StorageFailure) && storage == old(storage) && notified == old(notified))
    {
      var index := FindProject(projects, id);
      if index.None? {
        return Err(NotFound(id));
      }
      var deleted := projects[index.value];
      projects := projects[..index.value] + projects[index.value + 1..];
      var saved := SaveToStorage(save);
      if saved.Err? {
        return Err(saved.error);
      }
      NotifyListeners();
      r := Ok(deleted);
    }

    /** `replaceAllProjects(newProjects)`; `None` stands for a value that is
        not an array. */
    method ReplaceAllProjects(newProjects: Option<seq<Project>>, now: string, save: SaveResult)
      returns (r: Result<seq<Project>>)
      modifies this`projects, this`storage, this`notified
      ensures newProjects.None? ==>
        r == Err(NotAnArray) && projects == old(projects) &&
        storage == old(storage) && notified == old(notified)
      ensures newProjects.Some? ==>
        projects == StampedProjects(newProjects.value, now) &&
        (save.Saved? ==>
          r == Ok(projects) && storage == StoredArray(projects) &&
          notified == old(notified) + Deliveries(listeners, projects)) &&
        (save.SaveFailed? ==>
          r == Err(StorageFailure) && storage == old(storage) && notified == old(notified))
    {
      if newProjects.None? {
        return Err(NotAnArray);
      }
      projects := StampedProjects(newProjects.value, now);
      var saved := SaveToStorage(save);
      if saved.Err? {
        return Err(saved.error);
      }
      NotifyListeners();
      r := Ok(projects);
    }

    /** `exportToJSON()`: the whole list as one JSON array. */
    function ExportToJson(): (r: JsonText)
      reads this
      ensures r.JsonArray? && |r.items| == |projects|
      ensures forall i :: 0 <= i < |projects| ==> r.items[i] == projects[i]
    {
      JsonArray(projects)
    }

    /** `importFromJSON(jsonString)`: a replace-all of a parsed array; every
        error, including the shape check, is wrapped as an import failure. */
    method ImportFromJson(text: JsonText, now: string, save: SaveResult)
      returns (r: Result<seq<Project>>)
      modifies this`projects, this`storage, this`notified
      ensures !text.JsonArray? ==>
        r == Err(ImportFailed(if text.NotJson? then Unparseable else NotAnArray)) &&
        projects == old(projects) && storage == old(storage) && notified == old(notified)
      ensures text.JsonArray? ==>
        projects == StampedProjects(text.items, now) &&
        (save.Saved? ==>
          r == Ok(projects) && storage == StoredArray(projects) &&
          notified == old(notified) + Deliveries(listeners, projects)) &&
        (save.SaveFailed? ==>
          r == Err(ImportFailed(StorageFailure)) && storage == old(storage) &&
          notified == old(notified))
    {
      if text.NotJson? {
        return Err(ImportFailed(Unparseable));
      }
      if text.JsonNonArray? {
        return Err(ImportFailed(NotAnArray));
      }
      var replaced := ReplaceAllProjects(Some(text.items), now, save);
      if replaced.Err? {
        return Err(ImportFailed(replaced.error));
      }
      r := replaced;
    }
  }

  /** Importing what was exported gives back every project, in order, with
      only the `updatedAt` stamp refreshed. */
  method ExportImportRoundTrip(svc: DataService, now: string)
    modifies svc
    ensures |svc.projects| == |old(svc.projects)|
    ensures forall i :: 0 <= i < |svc.projects| ==>
      svc.projects[i].(updatedAt := old(svc.projects)[i].updatedAt) == old(svc.projects)[i] &&
      svc.projects[i].updatedAt == Some(now)
  {
    ghost var before := svc.projects;
    var exported := svc.ExportToJson();
    assert exported.items == before;
    var r := svc.ImportFromJson(exported, now, Saved);
    StampedProjectsKeepRecords(before, now);
  }

  /** What a successful save writes is what the next session loads: a fresh
      service over the same storage starts with the same list. */
  method ReloadAfterSave(svc: DataService, save: SaveResult, bundled: Option<seq<Project>>)
    returns (next: DataService)
    modifies svc
    ensures save.Saved? ==> next.projects == svc.projects == old(svc.projects)
  {
    var r := svc.SaveToStorage(save);
    next := new DataService(svc.storage);
    var loaded := next.Initialize(bundled, SaveFailed);
  }

  /** Deleting the project just created restores the previous list. */
  method CreateThenDelete(svc: DataService, input: ProjectInput, id: string, now: string)
    requires !IsBlankOpt(input.name)
    requires FindProject(svc.projects, id).None?
    modifies svc
    ensures svc.projects == old(svc.projects)
  {
    var c := svc.CreateProject(input, id, now, Saved);
    assert svc.projects[|svc.projects| - 1].id == id;
    var d := svc.DeleteProject(id, Saved);
  }
}
