/** The team-member store backed by Firestore (src/services/teamService.js):
    the `undefined`-to-`null` sanitiser and the `TeamService` class. Every
    Firestore call is replaced by the outcome it settles with, passed in by the
    caller; snapshot callbacks that fire while a write is awaited are passed in
    as `echoes`. */
module TeamStore {
  import opened Base
  import opened Strings
  import opened Sorting
  import opened Grouping
  import opened Records

  // ---------------------------------------------------------------------------
  // sanitizeForFirestore

  /** A JavaScript value as `sanitizeForFirestore` sees it; an object is its
      `Object.entries` list. */
  datatype JsValue =
    | Undefined
    | Null
    | Bool(b: bool)
    | Number(n: int)
    | Str(s: string)
    | Array(items: seq<JsValue>)
    | Object(entries: seq<(string, JsValue)>)

  /** No `undefined` anywhere in the value, at any depth. */
  predicate Defined(v: JsValue)
  {
    match v
    case Undefined => false
    case Array(items) => forall i :: 0 <= i < |items| ==> Defined(items[i])
    case Object(entries) => forall i :: 0 <= i < |entries| ==> Defined(entries[i].1)
    case _ => true
  }

  /** `r` is `v` with `undefined` turned into `null`: `null` and primitives
      are kept, arrays keep their length and positions, objects keep their
      keys in order. */
  predicate SanitizedFrom(v: JsValue, r: JsValue)
  {
    match v
    case Undefined => r == Null
    case Array(items) =>
      r.Array? && |r.items| == |items| &&
      forall i :: 0 <= i < |items| ==> SanitizedFrom(items[i], r.items[i])
    case Object(entries) =>
      r.Object? && |r.entries| == |entries| &&
      forall i :: 0 <= i < |entries| ==>
        r.entries[i].0 == entries[i].0 && SanitizedFrom(entries[i].1, r.entries[i].1)
    case _ => r == v
  }

  /** `sanitizeForFirestore(obj)` */
  function Sanitize(v: JsValue): (r: JsValue)
    ensures Defined(r)
    ensures SanitizedFrom(v, r)
  {
    match v
    case Undefined => Null
    case Array(items) =>
      Array(seq(|items|, i requires 0 <= i < |items| => Sanitize(items[i])))
    case Object(entries) =>
      Object(seq(|entries|, i requires 0 <= i < |entries| => (entries[i].0, Sanitize(entries[i].1))))
    case _ => v
  }

  /** A value without `undefined` passes through unchanged. */
  lemma {:induction false} SanitizeDefined(v: JsValue)
    requires Defined(v)
    ensures Sanitize(v) == v
  {
    match v
    case Array(items) =>
      forall i | 0 <= i < |items| ensures Sanitize(items[i]) == items[i] {
        SanitizeDefined(items[i]);
      }
      assert Sanitize(v).items == items;
    case Object(entries) =>
      forall i | 0 <= i < |entries| ensures Sanitize(entries[i].1) == entries[i].1 {
        SanitizeDefined(entries[i].1);
      }
      assert Sanitize(v).entries == entries;
    case _ =>
  }

  /** Sanitizing a sanitized value changes nothing. */
  lemma SanitizeIdempotent(v: JsValue)
    ensures Sanitize(Sanitize(v)) == Sanitize(v)
  {
    SanitizeDefined(Sanitize(v));
  }

  // ---------------------------------------------------------------------------
  // Record construction

  /** The record `createTeamMember` builds from valid input. */
  function NewMember(input: MemberInput, id: string, now: string): Member
    requires !IsBlankOpt(input.name)
  {
    Member(id, Trim(input.name.value), TrimOrEmpty(input.email), TrimOrEmpty(input.role),
           TrimOrEmpty(input.department), now, now)
  }

  /** `{ ...existing, ...memberData, name, email, role, department, updatedAt }` */
  function UpdatedMember(existing: Member, input: MemberInput, now: string): Member
    requires !IsBlankOpt(input.name)
  {
    Member(input.id.OrElse(existing.id), Trim(input.name.value), TrimOrEmpty(input.email),
           TrimOrEmpty(input.role), TrimOrEmpty(input.department), existing.createdAt, now)
  }

  /** A string is stored in normal form when trimming it changes nothing. */
  predicate Normal(s: string)
  {
    Trim(s) == s
  }

  /** Created and updated members hold a non-empty trimmed name and trimmed
      contact fields; the creation stamp survives an update. */
  lemma MemberFieldsNormal(input: MemberInput, existing: Member, id: string, now: string)
    requires !IsBlankOpt(input.name)
    ensures var m := NewMember(input, id, now);
      m.name != [] && Normal(m.name) && Normal(m.email) && Normal(m.role) && Normal(m.department) &&
      m.id == id && m.createdAt == now && m.updatedAt == now
    ensures var u := UpdatedMember(existing, input, now);
      u.name != [] && Normal(u.name) && Normal(u.email) && Normal(u.role) && Normal(u.department) &&
      u.createdAt == existing.createdAt && u.updatedAt == now &&
      (input.id.None? ==> u.id == existing.id)
  {
    TrimIdempotent(input.name.value);
    TrimOrEmptyNormal(input.email);
    TrimOrEmptyNormal(input.role);
    TrimOrEmptyNormal(input.department);
  }

  function MemberId(m: Member): string
  {
    m.id
  }

  /** `findIndex((m) => m.id === id)` */
  function FindIndex(ms: seq<Member>, id: string): Option<nat>
  {
    IndexOf(ms, MemberId, id)
  }

  /** Every record of an import, with `updatedAt` refreshed. */
  function Stamped(ms: seq<Member>, now: string): (r: seq<Member>)
    ensures |r| == |ms|
    ensures forall i :: 0 <= i < |ms| ==> r[i] == ms[i].(updatedAt := now)
  {
    seq(|ms|, i requires 0 <= i < |ms| => ms[i].(updatedAt := now))
  }

  function NameKey(m: Member): string
  {
    m.name
  }

  // ---------------------------------------------------------------------------
  // TeamService

  /** The Firestore scope of a signed-in user: their uid. */
  type UserId = string

  /** How an awaited Firestore call settles. */
  datatype RemoteResult = Written | Rejected

  /** How the initial `getDocs` of a sign-in settles. */
  datatype FetchResult = Fetched(docs: seq<Member>) | FetchRejected

  /** A snapshot delivered to the `onSnapshot` callback watching `scope`. */
  datatype Snapshot = Snapshot(scope: UserId, docs: seq<Member>)

  class TeamService {
    var teamMembers: seq<Member>
    var listeners: seq<ListenerId>
    var initialized: bool
    var currentUser: Option<UserId>
    var firestoreEnabled: bool
    /** `unsubTeamMembers`: the scope whose listener it would cancel. */
    var unsubTeamMembers: Option<UserId>
    /** The scopes whose `onSnapshot` callbacks are installed and not cancelled. */
    var liveSnapshots: seq<UserId>
    var pendingWrites: nat
    /** Every listener call made so far. */
    var notified: seq<Notice<seq<Member>>>

    /** Remote sync is on exactly when a user is signed in, and the only live
        snapshot callback is the one the handle cancels, for that user. */
    ghost predicate Valid()
      reads this
    {
      (firestoreEnabled <==> currentUser.Some?) &&
      liveSnapshots == (if unsubTeamMembers.Some? then [unsubTeamMembers.value] else []) &&
      (unsubTeamMembers.Some? ==> currentUser == unsubTeamMembers)
    }

    /** Whether mutations go to Firestore first. */
    predicate RemoteActive()
      reads this
    {
      firestoreEnabled && currentUser.Some?
    }

    constructor ()
      ensures Valid()
      ensures teamMembers == [] && listeners == [] && !initialized
      ensures currentUser == None && !firestoreEnabled && unsubTeamMembers == None
      ensures liveSnapshots == [] && pendingWrites == 0 && notified == []
    {
      teamMembers := [];
      listeners := [];
      initialized := false;
      currentUser := None;
      firestoreEnabled := false;
      unsubTeamMembers := None;
      liveSnapshots := [];
      pendingWrites := 0;
      notified := [];
    }

    /** `notifyListeners()`: every subscriber is called with the current list. */
    method NotifyListeners()
      modifies this`notified
      ensures notified == old(notified) + Deliveries(listeners, teamMembers)
    {
      var i := 0;
      while i < |listeners|
        invariant 0 <= i <= |listeners|
        invariant notified == old(notified) + Deliveries(listeners[..i], teamMembers)
      {
        notified := notified + [Notice(listeners[i], teamMembers)];
        i := i + 1;
        assert Deliveries(listeners[..i], teamMembers)
            == Deliveries(listeners[..i - 1], teamMembers) + [Notice(listeners[i - 1], teamMembers)];
      }
      assert listeners[..i] == listeners;
    }

    /** `subscribe(listener)` */
    method Subscribe(l: ListenerId)
      modifies this`listeners
      ensures listeners == old(listeners) + [l]
    {
      listeners := listeners + [l];
    }

    /** The closure `subscribe` returns: drops every registration of `l`. */
    method Unsubscribe(l: ListenerId)
      modifies this`listeners
      ensures listeners == Without(old(listeners), l)
    {
      listeners := Without(listeners, l);
    }

    /** `initialize()`: only the first call resets the list. */
    method Initialize() returns (r: seq<Member>)
      modifies this`teamMembers, this`initialized, this`notified
      ensures initialized
      ensures old(initialized) ==> r == teamMembers == old(teamMembers) && notified == old(notified)
      ensures !old(initialized) ==> r == teamMembers == [] &&
                                    notified == old(notified) + Deliveries(listeners, [])
    {
      if initialized {
        return teamMembers;
      }
      teamMembers := [];
      initialized := true;
      NotifyListeners();
      r := teamMembers;
    }

    /** The `onSnapshot` callback: applied only by a live callback and only
        when no write of this session is pending. */
    method OnSnapshot(snap: Snapshot)
      modifies this`teamMembers, this`notified
      ensures snap.scope in liveSnapshots && pendingWrites == 0 ==>
                teamMembers == snap.docs &&
                notified == old(notified) + Deliveries(listeners, snap.docs)
      ensures !(snap.scope in liveSnapshots && pendingWrites == 0) ==>
                teamMembers == old(teamMembers) && notified == old(notified)
    {
      if snap.scope !in liveSnapshots {
        return;
      }
      if pendingWrites > 0 {
        return;
      }
      teamMembers := snap.docs;
      NotifyListeners();
    }

    /** The await of a remote write: the snapshots that fire meanwhile reach
        the callback while the counter is raised, and are all discarded. */
    method AwaitRemote(echoes: seq<Snapshot>)
      requires pendingWrites > 0
      modifies this`teamMembers, this`notified
      ensures teamMembers == old(teamMembers) && notified == old(notified)
    {
      var i := 0;
      while i < |echoes|
        invariant 0 <= i <= |echoes|
        invariant teamMembers == old(teamMembers) && notified == old(notified)
      {
        OnSnapshot(echoes[i]);
        i := i + 1;
      }
    }

    /** The Firestore half of a mutation when sync is on: the write is
        awaited with the counter raised, and its outcome is `remote`. With
        sync off nothing happens and the local update goes ahead. */
    method RemoteWrite(remote: RemoteResult, echoes: seq<Snapshot>) returns (written: bool)
      modifies this`teamMembers, this`notified, this`pendingWrites
      ensures written <==> !RemoteActive() || remote.Written?
      ensures teamMembers == old(teamMembers) && notified == old(notified)
      ensures pendingWrites == old(pendingWrites)
    {
      written := true;
      if firestoreEnabled && currentUser.Some? {
        pendingWrites := pendingWrites + 1;
        AwaitRemote(echoes);
        pendingWrites := pendingWrites - 1;
        written := remote.Written?;
      }
    }

    /** `setUser(user)`, with the previous snapshot listener cancelled before
        a new one is installed (see SetUserAsWritten for the code as written). */
    method SetUser(user: Option<UserId>, fetch: FetchResult) returns (r: Result<()>)
      requires Valid()
      modifies this
      ensures Valid()
      ensures listeners == old(listeners) && pendingWrites == old(pendingWrites)
      ensures initialized == old(initialized)
      ensures currentUser == user && firestoreEnabled == user.Some?
      ensures user.None? ==>
        r == Ok(()) && teamMembers == [] && unsubTeamMembers == None && liveSnapshots == [] &&
        notified == old(notified) + Deliveries(listeners, [])
      ensures user.Some? && fetch.FetchRejected? ==>
        r == Err(RemoteFailure) && teamMembers == old(teamMembers) &&
        unsubTeamMembers == None && liveSnapshots == [] && notified == old(notified)
      ensures user.Some? && fetch.Fetched? ==>
        r == Ok(()) && teamMembers == fetch.docs &&
        unsubTeamMembers == user && liveSnapshots == [user.value] &&
        notified == old(notified) + Deliveries(listeners, fetch.docs)
    {
      // Cancel the current listener before anything else.
      if unsubTeamMembers.Some? {
        liveSnapshots := [];
        unsubTeamMembers := None;
      }
      if user.Some? {
        currentUser := user;
        firestoreEnabled := true;
        r := StartFirestoreSync(fetch);
      } else {
        currentUser := None;
        firestoreEnabled := false;
        teamMembers := [];
        NotifyListeners();
        r := Ok(());
      }
    }

    /** `startFirestoreSync()`: load the user's collection, then watch it. */
    method StartFirestoreSync(fetch: FetchResult) returns (r: Result<()>)
      requires currentUser.Some?
      modifies this`teamMembers, this`notified, this`unsubTeamMembers, this`liveSnapshots
      ensures fetch.FetchRejected? ==>
        r == Err(RemoteFailure) && teamMembers == old(teamMembers) && notified == old(notified) &&
        unsubTeamMembers == old(unsubTeamMembers) && liveSnapshots == old(liveSnapshots)
      ensures fetch.Fetched? ==>
        r == Ok(()) && teamMembers == fetch.docs &&
        notified == old(notified) + Deliveries(listeners, fetch.docs) &&
        unsubTeamMembers == currentUser && liveSnapshots == old(liveSnapshots) + [currentUser.value]
    {
      if fetch.FetchRejected? {
        return Err(RemoteFailure);
      }
      teamMembers := fetch.docs;
      NotifyListeners();
      unsubTeamMembers := currentUser;
      liveSnapshots := liveSnapshots + [currentUser.value];
      r := Ok(());
    }

    /** `setUser(user)` as written: signing in while a listener is installed
        overwrites the handle without cancelling that listener, which then
        keeps delivering snapshots. */
    method SetUserAsWritten(user: Option<UserId>, fetch: FetchResult) returns (r: Result<()>)
      modifies this
      ensures listeners == old(listeners) && pendingWrites == old(pendingWrites)
      ensures initialized == old(initialized)
      ensures currentUser == user && firestoreEnabled == user.Some?
      ensures user.None? ==>
        r == Ok(()) && teamMembers == [] && unsubTeamMembers == None &&
        liveSnapshots == (if old(unsubTeamMembers).Some?
                          then Drop(old(liveSnapshots), old(unsubTeamMembers).value)
                          else old(liveSnapshots)) &&
        notified == old(notified) + Deliveries(listeners, [])
      ensures user.Some? && fetch.FetchRejected? ==>
        r == Err(RemoteFailure) && teamMembers == old(teamMembers) &&
        unsubTeamMembers == old(unsubTeamMembers) && liveSnapshots == old(liveSnapshots) &&
        notified == old(notified)
      ensures user.Some? && fetch.Fetched? ==>
        r == Ok(()) && teamMembers == fetch.docs && unsubTeamMembers == user &&
        liveSnapshots == old(liveSnapshots) + [user.value] &&
        notified == old(notified) + Deliveries(listeners, fetch.docs)
    {
      if user.Some? {
        currentUser := user;
        firestoreEnabled := true;
        r := StartFirestoreSync(fetch);
      } else {
        currentUser := None;
        firestoreEnabled := false;
        if unsubTeamMembers.Some? {
          liveSnapshots := Drop(liveSnapshots, unsubTeamMembers.value);
          unsubTeamMembers := None;
        }
        teamMembers := [];
        NotifyListeners();
        r := Ok(());
      }
    }

    /** `getAllTeamMembers()`: a copy sorted by name; the stored list is not touched. */
    function GetAllTeamMembers(): (r: seq<Member>)
      reads this
      ensures multiset(r) == multiset(teamMembers)
      ensures SortedBy(r, NameKey, false)
      ensures forall k :: Filter(r, NameKey, k) == Filter(teamMembers, NameKey, k)
    {
      SortBySorted(teamMembers, NameKey, false);
      forall k ensures Filter(SortBy(teamMembers, NameKey, false), NameKey, k) == Filter(teamMembers, NameKey, k) {
        SortByStable(teamMembers, NameKey, false, k);
      }
      SortBy(teamMembers, NameKey, false)
    }

    /** `getTeamMemberById(id)`: the first member with that id, or null. */
    function GetTeamMemberById(id: string): (r: Option<Member>)
      reads this
      ensures r.Some? ==> exists i :: 0 <= i < |teamMembers| && teamMembers[i] == r.value &&
                                      r.value.id == id &&
                                      forall j :: 0 <= j < i ==> teamMembers[j].id != id
      ensures r.None? <==> forall j :: 0 <= j < |teamMembers| ==> teamMembers[j].id != id
    {
      match FindIndex(teamMembers, id)
      case None => None
      case Some(i) => Some(teamMembers[i])
    }

    /** `createTeamMember(memberData)` with a fresh id and timestamp. */
    method CreateTeamMember(input: MemberInput, id: string, now: string,
                            remote: RemoteResult, echoes: seq<Snapshot>)
      returns (r: Result<Member>)
      modifies this`teamMembers, this`notified, this`pendingWrites
      ensures pendingWrites == old(pendingWrites)
      ensures IsBlankOpt(input.name) ==>
        r == Err(NameRequired) && teamMembers == old(teamMembers) && notified == old(notified)
      ensures !IsBlankOpt(input.name) && RemoteActive() && remote.Rejected? ==>
        r == Err(RemoteFailure) && teamMembers == old(teamMembers) && notified == old(notified)
      ensures !IsBlankOpt(input.name) && (!RemoteActive() || remote.Written?) ==>
        r == Ok(NewMember(input, id, now)) &&
        teamMembers == old(teamMembers) + [r.value] &&
        notified == old(notified) + Deliveries(listeners, teamMembers)
    {
      if IsBlankOpt(input.name) {
        return Err(NameRequired);
      }
      var newMember := NewMember(input, id, now);
      var written := RemoteWrite(remote, echoes);
      if !written {
        return Err(RemoteFailure);
      }
      teamMembers := teamMembers + [newMember];
      NotifyListeners();
      r := Ok(newMember);
    }

    /** `updateTeamMember(id, memberData)`: not-found is checked before the name. */
    method UpdateTeamMember(id: string, input: MemberInput, now: string,
                            remote: RemoteResult, echoes: seq<Snapshot>)
      returns (r: Result<Member>)
      modifies this`teamMembers, this`notified, this`pendingWrites
      ensures pendingWrites == old(pendingWrites)
      ensures FindIndex(old(teamMembers), id).None? ==>
        r == Err(NotFound(id)) && teamMembers == old(teamMembers) && notified == old(notified)
      ensures FindIndex(old(teamMembers), id).Some? && IsBlankOpt(input.name) ==>
        r == Err(NameRequired) && teamMembers == old(teamMembers) && notified == old(notified)
      ensures FindIndex(old(teamMembers), id).Some? && !IsBlankOpt(input.name) &&
              RemoteActive() && remote.Rejected? ==>
        r == Err(RemoteFailure) && teamMembers == old(teamMembers) && notified == old(notified)
      ensures FindIndex(old(teamMembers), id).Some? && !IsBlankOpt(input.name) &&
              (!RemoteActive() || remote.Written?) ==>
        var i := FindIndex(old(teamMembers), id).value;
        r == Ok(UpdatedMember(old(teamMembers)[i], input, now)) &&
        teamMembers == old(teamMembers)[i := r.value] &&
        notified == old(notified) + Deliveries(listeners, teamMembers)
    {
      var index := FindIndex(teamMembers, id);
      if index.None? {
        return Err(NotFound(id));
      }
      if IsBlankOpt(input.name) {
        return Err(NameRequired);
      }
      ghost var before := teamMembers;
      var updated := UpdatedMember(teamMembers[index.value], input, now);
      var written := RemoteWrite(remote, echoes);
      if !written {
        return Err(RemoteFailure);
      }
      teamMembers := teamMembers[index.value := updated];
      NotifyListeners();
      r := Ok(updated);
      assert before == old(teamMembers) && teamMembers == before[index.value := updated];
    }

    /** `deleteTeamMember(id)`: removes the first member with that id and returns it. */
    method DeleteTeamMember(id: string, remote: RemoteResult, echoes: seq<Snapshot>)
      returns (r: Result<Member>)
      modifies this`teamMembers, this`notified, this`pendingWrites
      ensures pendingWrites == old(pendingWrites)
      ensures FindIndex(old(teamMembers), id).None? ==>
        r == Err(NotFound(id)) && teamMembers == old(teamMembers) && notified == old(notified)
      ensures FindIndex(old(teamMembers), id).Some? && RemoteActive() && remote.Rejected? ==>
        r == Err(RemoteFailure) && teamMembers == old(teamMembers) && notified == old(notified)
      ensures FindIndex(old(teamMembers), id).Some? && (!RemoteActive() || remote.Written?) ==>
        var i := FindIndex(old(teamMembers), id).value;
        r == Ok(old(teamMembers)[i]) &&
        teamMembers == old(teamMembers)[..i] + old(teamMembers)[i + 1..] &&
        notified == old(notified) + Deliveries(listeners, teamMembers)
    {
      var index := FindIndex(teamMembers, id);
      if index.None? {
        return Err(NotFound(id));
      }
      var deleted := teamMembers[index.value];
      var written := RemoteWrite(remote, echoes);
      if !written {
        return Err(RemoteFailure);
      }
      teamMembers := teamMembers[..index.value] + teamMembers[index.value + 1..];
      NotifyListeners();
      r := Ok(deleted);
    }

    /** `replaceAllTeamMembers(newMembers)`; `None` stands for a value that is
        not an array. Both Firestore batches are one awaited outcome here. */
    method ReplaceAllTeamMembers(newMembers: Option<seq<Member>>, now: string,
                                 remote: RemoteResult, echoes: seq<Snapshot>)
      returns (r: Result<seq<Member>>)
      modifies this`teamMembers, this`notified, this`pendingWrites
      ensures pendingWrites == old(pendingWrites)
      ensures newMembers.None? ==>
        r == Err(NotAnArray) && teamMembers == old(teamMembers) && notified == old(notified)
      ensures newMembers.Some? && RemoteActive() && remote.Rejected? ==>
        r == Err(RemoteFailure) && teamMembers == old(teamMembers) && notified == old(notified)
      ensures newMembers.Some? && (!RemoteActive() || remote.Written?) ==>
        r == Ok(Stamped(newMembers.value, now)) && teamMembers == r.value &&
        notified == old(notified) + Deliveries(listeners, teamMembers)
    {
      if newMembers.None? {
        return Err(NotAnArray);
      }
      var timestamped := Stamped(newMembers.value, now);
      var written := RemoteWrite(remote, echoes);
      if !written {
        return Err(RemoteFailure);
      }
      teamMembers := timestamped;
      NotifyListeners();
      r := Ok(timestamped);
    }
  }

  /** The first occurrence of `x` removed: cancelling one listener. */
  function Drop(s: seq<UserId>, x: UserId): (r: seq<UserId>)
    ensures x in s ==> |r| == |s| - 1 && multiset(r) == multiset(s) - multiset{x}
    ensures x !in s ==> r == s
  {
    if s == [] then []
    else
      assert s == [s[0]] + s[1..];
      if s[0] == x then s[1..] else [s[0]] + Drop(s[1..], x)
  }

  /** An import keeps every record, in order, and changes nothing but the
      `updatedAt` stamp. */
  lemma StampedKeepsRecords(ms: seq<Member>, now: string)
    ensures |Stamped(ms, now)| == |ms|
    ensures forall i :: 0 <= i < |ms| ==>
      Stamped(ms, now)[i].(updatedAt := ms[i].updatedAt) == ms[i] &&
      Stamped(ms, now)[i].updatedAt == now
  {
  }

  /** Signing out as written leaves a listener of the first account live when
      the user signed in twice in a row; a later snapshot of that account's
      collection then replaces the cleared list although nobody is signed in. */
  method StaleListenerAfterAccountSwitch(alice: seq<Member>, bob: seq<Member>, later: seq<Member>)
    returns (svc: TeamService)
    ensures svc.currentUser == None && svc.liveSnapshots == ["alice"]
    ensures svc.teamMembers == later
  {
    svc := new TeamService();
    var r := svc.SetUserAsWritten(Some("alice"), Fetched(alice));
    r := svc.SetUserAsWritten(Some("bob"), Fetched(bob));
    r := svc.SetUserAsWritten(None, FetchRejected);
    assert svc.teamMembers == [];
    svc.OnSnapshot(Snapshot("alice", later));
  }

  /** With the corrected `setUser`, signing out leaves no live listener, so
      no later snapshot can change the cleared list. */
  method NoListenerAfterSignOut(alice: seq<Member>, bob: seq<Member>, later: seq<Member>)
    returns (svc: TeamService)
    ensures svc.currentUser == None && svc.liveSnapshots == []
    ensures svc.teamMembers == []
  {
    svc := new TeamService();
    var r := svc.SetUser(Some("alice"), Fetched(alice));
    r := svc.SetUser(Some("bob"), Fetched(bob));
    r := svc.SetUser(None, FetchRejected);
    svc.OnSnapshot(Snapshot("alice", later));
  }
}
