/** The allocation aggregation of src/views/TeamAllocationView.jsx: one group
    per project with named members, sorted by project name; per-person totals
    keyed by the trimmed, lower-cased name; the summary figures; and the
    search filter. */
module TeamAllocation {
  import opened Base
  import opened Strings
  import opened Grouping
  import opened Sorting
  import opened Records

  /** One row of a project group. */
  datatype AllocMember = AllocMember(name: string, role: string, allocation: int)

  datatype ProjectGroup = ProjectGroup(
    projectId: string,
    projectName: string,
    projectStatus: string,
    members: seq<AllocMember>)

  /** A value of the `totals` map. */
  datatype AllocEntry = AllocEntry(name: string, role: string, total: int)

  datatype Stats = Stats(totalMembers: nat, overAllocated: nat, underAllocated: nat, avgAllocation: int)

  // ---------------------------------------------------------------------------
  // Members and their keys

  /** `m.name?.trim()` is truthy. */
  predicate Named(m: Assignment)
  {
    !IsBlankOpt(m.name)
  }

  /** `teamMembers.filter((m) => m.name?.trim())` */
  function NamedMembers(ms: seq<Assignment>): (r: seq<Assignment>)
    ensures |r| <= |ms|
    ensures forall m :: m in r <==> m in ms && Named(m)
  {
    if ms == [] then []
    else
      var init := NamedMembers(ms[..|ms| - 1]);
      var last := ms[|ms| - 1];
      assert forall m :: m in ms <==> m in ms[..|ms| - 1] || m == last;
      if Named(last) then init + [last] else init
  }

  /** One more element at the end is kept exactly when its name is not blank. */
  lemma NamedMembersSnoc(s: seq<Assignment>, x: Assignment)
    ensures NamedMembers(s + [x]) == NamedMembers(s) +
      (if Named(x) then [x] else [])
  {
    assert (s + [x])[..|s + [x]| - 1] == s;
  }

  /** The filter keeps order and duplicates: filtering two halves is
      filtering each. */
  lemma {:induction false} NamedMembersAppend(a: seq<Assignment>, b: seq<Assignment>)
    ensures NamedMembers(a + b) == NamedMembers(a) + NamedMembers(b)
  {
    if b == [] {
      assert a + b == a;
    } else {
      var init, last := b[..|b| - 1], b[|b| - 1];
      assert a + b == (a + init) + [last];
      assert b == init + [last];
      NamedMembersAppend(a, init);
      NamedMembersSnoc(a + init, last);
      NamedMembersSnoc(init, last);
    }
  }

  /** The members of one project that count. */
  function NamedOf(p: Project): seq<Assignment>
  {
    if p.teamMembers.Some? then NamedMembers(p.teamMembers.value) else []
  }

  /** Every member that counts, project after project. */
  function AllNamed(ps: seq<Project>): seq<Assignment>
  {
    if ps == [] then [] else AllNamed(ps[..|ps| - 1]) + NamedOf(ps[|ps| - 1])
  }

  /** `m.name.trim().toLowerCase()` */
  function Key(m: Assignment): string
  {
    ToLower(Trim(m.name.OrElse("")))
  }

  /** `m.name.trim()`: the name an entry is created with. */
  function Label(m: Assignment): string
  {
    Trim(m.name.OrElse(""))
  }

  /** `m.allocation ?? 100` */
  function AllocOf(m: Assignment): int
  {
    m.allocation.OrElse(100)
  }

  // ---------------------------------------------------------------------------
  // Per-person totals

  /** One turn of the inner loop: create the entry on first sight, adopt the
      first non-empty role, add the allocation. The key function is a
      parameter; the view uses `Key`. */
  function AddMember(t: map<string, AllocEntry>, m: Assignment, key: Assignment -> string,
                     labelOf: Assignment -> string): map<string, AllocEntry>
  {
    var k := key(m);
    var e := if k in t then t[k] else AllocEntry(labelOf(m), StrOr(m.role, ""), 0);
    var e' := if e.role == "" && Truthy(m.role) then e.(role := m.role.value) else e;
    t[k := e'.(total := e'.total + AllocOf(m))]
  }

  /** The `totals` map after the members `ms`, in order. */
  function TotalsOf(ms: seq<Assignment>, key: Assignment -> string, labelOf: Assignment -> string): map<string, AllocEntry>
  {
    if ms == [] then map[] else AddMember(TotalsOf(ms[..|ms| - 1], key, labelOf), ms[|ms| - 1], key, labelOf)
  }

  lemma TotalsStep(ms: seq<Assignment>, m: Assignment, key: Assignment -> string, labelOf: Assignment -> string)
    ensures TotalsOf(ms + [m], key, labelOf) == AddMember(TotalsOf(ms, key, labelOf), m, key, labelOf)
    ensures Keys(ms + [m], key) ==
      if key(m) in TotalsOf(ms, key, labelOf) then Keys(ms, key) else Keys(ms, key) + [key(m)]
  {
    assert (ms + [m])[..|ms|] == ms;
    TotalsDomain(ms, key, labelOf);
  }

  /** The sum of `allocation ?? 100` over `ms`. */
  function SumAlloc(ms: seq<Assignment>): int
  {
    if ms == [] then 0 else SumAlloc(ms[..|ms| - 1]) + AllocOf(ms[|ms| - 1])
  }

  /** The first non-empty role among `ms`, or `''`. */
  function FirstRole(ms: seq<Assignment>): (r: string)
    ensures r == "" <==> forall i :: 0 <= i < |ms| ==> !Truthy(ms[i].role)
    ensures r != "" ==> exists i :: 0 <= i < |ms| && Truthy(ms[i].role) && r == ms[i].role.value &&
                                    forall j :: 0 <= j < i ==> !Truthy(ms[j].role)
  {
    if ms == [] then ""
    else
      var r := FirstRole(ms[..|ms| - 1]);
      if r != "" then r else StrOr(ms[|ms| - 1].role, "")
  }

  /** What the map holds for a key: an entry exactly when some member has
      that key; its total is the sum of their allocations, its role the
      first non-empty role among them, its name the first one's trimmed name. */
  lemma {:induction false} TotalsMeaning(ms: seq<Assignment>, key: Assignment -> string,
                                         labelOf: Assignment -> string, k: string)
    ensures k in TotalsOf(ms, key, labelOf) <==> Filter(ms, key, k) != []
    ensures k in TotalsOf(ms, key, labelOf) ==>
      var fs := Filter(ms, key, k);
      TotalsOf(ms, key, labelOf)[k] == AllocEntry(labelOf(fs[0]), FirstRole(fs), SumAlloc(fs))
  {
    if ms != [] {
      var init, m := ms[..|ms| - 1], ms[|ms| - 1];
      assert ms == init + [m];
      TotalsMeaning(init, key, labelOf, k);
      TotalsMeaningStep(init, m, key, labelOf, k);
    }
  }

  /** The entry under `k` as `TotalsMeaning` describes it. */
  predicate EntryAgrees(t: map<string, AllocEntry>, ms: seq<Assignment>, key: Assignment -> string,
                        labelOf: Assignment -> string, k: string)
  {
    var fs := Filter(ms, key, k);
    (k in t <==> fs != []) &&
    (k in t ==> t[k] == AllocEntry(labelOf(fs[0]), FirstRole(fs), SumAlloc(fs)))
  }

  lemma TotalsMeaningStep(init: seq<Assignment>, m: Assignment, key: Assignment -> string,
                          labelOf: Assignment -> string, k: string)
    requires EntryAgrees(TotalsOf(init, key, labelOf), init, key, labelOf, k)
    ensures EntryAgrees(TotalsOf(init + [m], key, labelOf), init + [m], key, labelOf, k)
  {
    var ms := init + [m];
    assert ms[..|init|] == init;
    assert TotalsOf(ms, key, labelOf) == AddMember(TotalsOf(init, key, labelOf), m, key, labelOf);
    FilterAppend(init, m, key, k);
    if key(m) == k {
      AddSameKey(TotalsOf(init, key, labelOf), init, m, key, labelOf, k);
    }
  }

  /** A member under `k` extends the entry under `k` as the sums say. */
  lemma AddSameKey(t: map<string, AllocEntry>, init: seq<Assignment>, m: Assignment, key: Assignment -> string,
                   labelOf: Assignment -> string, k: string)
    requires key(m) == k
    requires EntryAgrees(t, init, key, labelOf, k)
    requires Filter(init + [m], key, k) == Filter(init, key, k) + [m]
    ensures EntryAgrees(AddMember(t, m, key, labelOf), init + [m], key, labelOf, k)
  {
    var fs0, fs := Filter(init, key, k), Filter(init + [m], key, k);
    assert fs[..|fs| - 1] == fs0;
    if fs0 == [] {
      assert fs == [m];
    } else {
      assert fs[0] == fs0[0];
    }
  }

  /** The map's keys are the distinct member keys. */
  lemma {:induction false} TotalsDomain(ms: seq<Assignment>, key: Assignment -> string, labelOf: Assignment -> string)
    ensures forall k :: k in TotalsOf(ms, key, labelOf) <==> k in Keys(ms, key)
  {
    if ms != [] {
      TotalsDomain(ms[..|ms| - 1], key, labelOf);
    }
  }

  /** `getMemberTotal(name)`: the total under `name.toLowerCase()`, or 0. */
  function MemberTotal(totals: map<string, AllocEntry>, name: string): int
  {
    if ToLower(name) in totals then totals[ToLower(name)].total else 0
  }

  /** For a trimmed name, the total shown is the sum of the allocations of
      every member with that name in any letter case, 0 when there is none. */
  lemma MemberTotalIsSum(ms: seq<Assignment>, name: string)
    ensures MemberTotal(TotalsOf(ms, Key, Label), Trim(name)) == SumAlloc(Filter(ms, Key, ToLower(Trim(name))))
  {
    TotalsMeaning(ms, Key, Label, ToLower(Trim(name)));
  }

  // ---------------------------------------------------------------------------
  // Groups

  /** The group a project with named members contributes. */
  function GroupOf(p: Project): ProjectGroup
  {
    var ms := NamedOf(p);
    ProjectGroup(p.id, p.name, p.status,
      seq(|ms|, i requires 0 <= i < |ms| =>
        AllocMember(Trim(ms[i].name.OrElse("")), StrOr(ms[i].role, ""), AllocOf(ms[i]))))
  }

  /** The groups in project order, before the sort. */
  function GroupsOf(ps: seq<Project>): seq<ProjectGroup>
  {
    if ps == [] then []
    else GroupsOf(ps[..|ps| - 1]) + (if NamedOf(ps[|ps| - 1]) != [] then [GroupOf(ps[|ps| - 1])] else [])
  }

  /** Exactly the projects with a named member have a group, and no group
      is empty. */
  lemma {:induction false} GroupsOfMeaning(ps: seq<Project>)
    ensures |GroupsOf(ps)| <= |ps|
    ensures forall g :: g in GroupsOf(ps) ==> g.members != [] && exists p :: p in ps && NamedOf(p) != [] && g == GroupOf(p)
    ensures forall p :: p in ps && NamedOf(p) != [] ==> GroupOf(p) in GroupsOf(ps)
  {
    if ps != [] {
      var init, p := ps[..|ps| - 1], ps[|ps| - 1];
      GroupsOfMeaning(init);
      assert ps == init + [p];
      var gs := GroupsOf(ps);
      assert gs == GroupsOf(init) + (if NamedOf(p) != [] then [GroupOf(p)] else []);
      assert |GroupOf(p).members| == |NamedOf(p)|;
      forall g | g in gs
        ensures g.members != [] && exists q :: q in ps && NamedOf(q) != [] && g == GroupOf(q)
      {
        if g in GroupsOf(init) {
          var q :| q in init && NamedOf(q) != [] && g == GroupOf(q);
          assert q in ps;
        } else {
          assert g == GroupOf(p) && p in ps;
        }
      }
      forall q | q in ps && NamedOf(q) != [] ensures GroupOf(q) in gs {
        if q != p {
          assert q in init;
        }
      }
    }
  }

  function GroupName(g: ProjectGroup): string
  {
    g.projectName
  }

  /** The members of one project, added to the map in order. */
  method AddMembers(totals: map<string, AllocEntry>, order: seq<string>,
                    ghost seen: seq<Assignment>, members: seq<Assignment>,
                    key: Assignment -> string, labelOf: Assignment -> string)
    returns (totals': map<string, AllocEntry>, order': seq<string>)
    requires totals == TotalsOf(seen, key, labelOf) && order == Keys(seen, key)
    ensures totals' == TotalsOf(seen + members, key, labelOf) && order' == Keys(seen + members, key)
  {
    totals', order' := totals, order;
    var j := 0;
    assert seen + members[..0] == seen;
    while j < |members|
      invariant 0 <= j <= |members|
      invariant totals' == TotalsOf(seen + members[..j], key, labelOf) && order' == Keys(seen + members[..j], key)
    {
      var m := members[j];
      MembersStep(seen, members, j, key, labelOf);
      totals', order' := Tally(totals', order', m, key, labelOf);
      j := j + 1;
    }
    assert members[..j] == members;
  }

  /** `TotalsStep` for the prefixes of `members` the inner loop walks. */
  lemma MembersStep(seen: seq<Assignment>, members: seq<Assignment>, j: nat,
                    key: Assignment -> string, labelOf: Assignment -> string)
    requires j < |members|
    ensures var before, m := seen + members[..j], members[j];
      TotalsOf(seen + members[..j + 1], key, labelOf) == AddMember(TotalsOf(before, key, labelOf), m, key, labelOf) &&
      Keys(seen + members[..j + 1], key) ==
        if key(m) in TotalsOf(before, key, labelOf) then Keys(before, key) else Keys(before, key) + [key(m)]
  {
    assert seen + members[..j + 1] == (seen + members[..j]) + [members[j]];
    TotalsStep(seen + members[..j], members[j], key, labelOf);
  }

  /** The body of the inner loop for one member. */
  method Tally(totals: map<string, AllocEntry>, order: seq<string>, m: Assignment,
               key: Assignment -> string, labelOf: Assignment -> string)
    returns (totals': map<string, AllocEntry>, order': seq<string>)
    ensures totals' == AddMember(totals, m, key, labelOf)
    ensures order' == if key(m) in totals then order else order + [key(m)]
  {
    totals', order' := totals, order;
    var k := key(m);
    if k !in totals' {
      totals' := totals'[k := AllocEntry(labelOf(m), StrOr(m.role, ""), 0)];
      order' := order' + [k];
    }
    var entry := totals'[k];
    if entry.role == "" && Truthy(m.role) {
      entry := entry.(role := m.role.value);
    }
    entry := entry.(total := entry.total + AllocOf(m));
    totals' := totals'[k := entry];
  }

  lemma AggregateStep(ps: seq<Project>, i: nat)
    requires i < |ps|
    ensures GroupsOf(ps[..i + 1]) == GroupsOf(ps[..i]) + (if NamedOf(ps[i]) != [] then [GroupOf(ps[i])] else [])
    ensures AllNamed(ps[..i + 1]) == AllNamed(ps[..i]) + NamedOf(ps[i])
  {
    assert ps[..i + 1][..i] == ps[..i];
  }

  /** One turn of the loop over projects. */
  method AddProject(p: Project, unsorted: seq<ProjectGroup>, totals: map<string, AllocEntry>,
                    order: seq<string>, ghost seen: seq<Assignment>,
                    key: Assignment -> string, labelOf: Assignment -> string)
    returns (unsorted': seq<ProjectGroup>, totals': map<string, AllocEntry>, order': seq<string>)
    requires totals == TotalsOf(seen, key, labelOf) && order == Keys(seen, key)
    ensures unsorted' == unsorted + (if NamedOf(p) != [] then [GroupOf(p)] else [])
    ensures totals' == TotalsOf(seen + NamedOf(p), key, labelOf) && order' == Keys(seen + NamedOf(p), key)
  {
    unsorted', totals', order' := unsorted, totals, order;
    if p.teamMembers.Some? && |p.teamMembers.value| > 0 {
      var members := NamedMembers(p.teamMembers.value);
      if members != [] {
        totals', order' := AddMembers(totals, order, seen, members, key, labelOf);
        unsorted' := unsorted + [GroupOf(p)];
        return;
      }
    }
    assert NamedOf(p) == [];
    assert seen + [] == seen;
  }

  /** The `projectGroups` / `memberTotals` computation: groups sorted by
      project name, the totals map, and its keys in insertion order. */
  method Aggregate(projects: seq<Project>)
    returns (groups: seq<ProjectGroup>, totals: map<string, AllocEntry>, order: seq<string>)
    ensures groups == SortBy(GroupsOf(projects), GroupName, false)
    ensures totals == TotalsOf(AllNamed(projects), Key, Label)
    ensures order == Keys(AllNamed(projects), Key)
  {
    var unsorted;
    unsorted, totals, order := Collect(projects, Key, Label);
    groups := SortBy(unsorted, GroupName, false);
  }

  /** The loop over projects, for any way of keying and labelling members. */
  method Collect(projects: seq<Project>, key: Assignment -> string, labelOf: Assignment -> string)
    returns (unsorted: seq<ProjectGroup>, totals: map<string, AllocEntry>, order: seq<string>)
    ensures unsorted == GroupsOf(projects)
    ensures totals == TotalsOf(AllNamed(projects), key, labelOf)
    ensures order == Keys(AllNamed(projects), key)
  {
    unsorted, totals, order := [], map[], [];
    ghost var seen: seq<Assignment> := [];
    var i := 0;
    while i < |projects|
      invariant 0 <= i <= |projects|
      invariant unsorted == GroupsOf(projects[..i])
      invariant seen == AllNamed(projects[..i])
      invariant totals == TotalsOf(seen, key, labelOf) && order == Keys(seen, key)
    {
      AggregateStep(projects, i);
      unsorted, totals, order := AddProject(projects[i], unsorted, totals, order, seen, key, labelOf);
      seen := seen + NamedOf(projects[i]);
      i := i + 1;
    }
    assert projects[..i] == projects;
  }

  /** The sorted groups are the unsorted ones, ordered by project name, with
      groups of equal names in project order. */
  lemma GroupsSorted(ps: seq<Project>)
    ensures var gs := SortBy(GroupsOf(ps), GroupName, false);
      multiset(gs) == multiset(GroupsOf(ps)) && SortedBy(gs, GroupName, false) &&
      forall k :: Filter(gs, GroupName, k) == Filter(GroupsOf(ps), GroupName, k)
  {
    SortBySorted(GroupsOf(ps), GroupName, false);
    forall k ensures Filter(SortBy(GroupsOf(ps), GroupName, false), GroupName, k) == Filter(GroupsOf(ps), GroupName, k) {
      SortByStable(GroupsOf(ps), GroupName, false, k);
    }
  }

  // ---------------------------------------------------------------------------
  // Summary figures

  function CountOver(es: seq<AllocEntry>): nat
  {
    if es == [] then 0 else CountOver(es[..|es| - 1]) + (if es[|es| - 1].total > 100 then 1 else 0)
  }

  function CountUnder(es: seq<AllocEntry>): nat
  {
    if es == [] then 0 else CountUnder(es[..|es| - 1]) + (if es[|es| - 1].total < 100 then 1 else 0)
  }

  function CountFull(es: seq<AllocEntry>): nat
  {
    if es == [] then 0 else CountFull(es[..|es| - 1]) + (if es[|es| - 1].total == 100 then 1 else 0)
  }

  function SumTotals(es: seq<AllocEntry>): int
  {
    if es == [] then 0 else SumTotals(es[..|es| - 1]) + es[|es| - 1].total
  }

  /** `Math.round(a / n)` for `n > 0`: halves rounded up. */
  function RoundDiv(a: int, n: int): int
    requires n > 0
  {
    (2 * a + n) / (2 * n)
  }

  /** `RoundDiv` is the nearest whole number to `a / n`, ties going up. */
  lemma RoundDivNearest(a: int, n: int)
    requires n > 0
    ensures 2 * RoundDiv(a, n) * n - n <= 2 * a < 2 * RoundDiv(a, n) * n + n
  {
    var q := (2 * a + n) / (2 * n);
    assert (2 * n) * q + (2 * a + n) % (2 * n) == 2 * a + n;
    assert 2 * q * n == (2 * n) * q;
  }

  /** `stats`, over the map's entries in insertion order. */
  method ComputeStats(entries: seq<AllocEntry>) returns (s: Stats)
    ensures s.totalMembers == |entries|
    ensures s.overAllocated == CountOver(entries) && s.underAllocated == CountUnder(entries)
    ensures s.avgAllocation == if |entries| > 0 then RoundDiv(SumTotals(entries), |entries|) else 0
  {
    var over, under, totalAlloc := 0, 0, 0;
    var i := 0;
    while i < |entries|
      invariant 0 <= i <= |entries|
      invariant over == CountOver(entries[..i]) && under == CountUnder(entries[..i])
      invariant totalAlloc == SumTotals(entries[..i])
    {
      assert entries[..i + 1][..i] == entries[..i];
      totalAlloc := totalAlloc + entries[i].total;
      if entries[i].total > 100 {
        over := over + 1;
      }
      if entries[i].total < 100 {
        under := under + 1;
      }
      i := i + 1;
    }
    assert entries[..i] == entries;
    var n := |entries|;
    s := Stats(n, over, under, if n > 0 then RoundDiv(totalAlloc, n) else 0);
  }

  /** Every person is over, under or exactly full, and only one of them:
      the over and under counts leave out exactly those at 100. */
  lemma {:induction false} StatsPartition(es: seq<AllocEntry>)
    ensures CountOver(es) + CountUnder(es) + CountFull(es) == |es|
    ensures CountOver(es) + CountUnder(es) <= |es|
  {
    if es != [] {
      StatsPartition(es[..|es| - 1]);
    }
  }

  /** The entries of the map, in insertion order. */
  function EntriesOf(totals: map<string, AllocEntry>, order: seq<string>): (es: seq<AllocEntry>)
    requires forall k :: k in order ==> k in totals
    ensures |es| == |order|
  {
    seq(|order|, i requires 0 <= i < |order| => totals[order[i]])
  }

  /** The summary counts each person once: the number of members is the
      number of distinct keys, and the average is 0 without members. */
  lemma StatsOfAggregate(ms: seq<Assignment>)
    ensures var order := Keys(ms, Key);
      (forall k :: k in order ==> k in TotalsOf(ms, Key, Label)) &&
      |EntriesOf(TotalsOf(ms, Key, Label), order)| == |order| &&
      (forall i, j :: 0 <= i < j < |order| ==> order[i] != order[j]) &&
      (ms == [] ==> order == [])
  {
    TotalsDomain(ms, Key, Label);
  }

  /** `getAllocationClass(total)` */
  function AllocationClass(total: int): (r: string)
    ensures r == "allocation-over" <==> total > 100
    ensures r == "allocation-full" <==> total == 100
    ensures r == "allocation-under" <==> total < 100
  {
    if total > 100 then "allocation-over"
    else if total == 100 then "allocation-full"
    else "allocation-under"
  }

  // ---------------------------------------------------------------------------
  // Search

  predicate MemberMatches(m: AllocMember, term: string)
  {
    Includes(ToLower(m.name), term) || Includes(ToLower(m.role), term)
  }

  predicate NameMatches(g: ProjectGroup, term: string)
  {
    Includes(ToLower(g.projectName), term)
  }

  /** `group.members.filter(matches)` */
  function MatchingMembers(ms: seq<AllocMember>, term: string): (r: seq<AllocMember>)
    ensures |r| <= |ms|
    ensures forall m :: m in r <==> m in ms && MemberMatches(m, term)
  {
    if ms == [] then []
    else
      var init := MatchingMembers(ms[..|ms| - 1], term);
      var last := ms[|ms| - 1];
      assert forall m :: m in ms <==> m in ms[..|ms| - 1] || m == last;
      if MemberMatches(last, term) then init + [last] else init
  }

  /** One more element at the end is kept exactly when it matches. */
  lemma MatchingMembersSnoc(s: seq<AllocMember>, x: AllocMember, term: string)
    ensures MatchingMembers(s + [x], term) == MatchingMembers(s, term) +
      (if MemberMatches(x, term) then [x] else [])
  {
    assert (s + [x])[..|s + [x]| - 1] == s;
  }

  /** The filter keeps order and duplicates: filtering two halves is
      filtering each. */
  lemma {:induction false} MatchingMembersAppend(a: seq<AllocMember>, b: seq<AllocMember>, term: string)
    ensures MatchingMembers(a + b, term) == MatchingMembers(a, term) + MatchingMembers(b, term)
  {
    if b == [] {
      assert a + b == a;
    } else {
      var init, last := b[..|b| - 1], b[|b| - 1];
      assert a + b == (a + init) + [last];
      assert b == init + [last];
      MatchingMembersAppend(a, init, term);
      MatchingMembersSnoc(a + init, last, term);
      MatchingMembersSnoc(init, last, term);
    }
  }

  /** What the `map` callback returns for one group. */
  function GroupHit(g: ProjectGroup, term: string): Option<ProjectGroup>
  {
    if NameMatches(g, term) then Some(g)
    else
      var ms := MatchingMembers(g.members, term);
      if ms != [] then Some(g.(members := ms)) else None
  }

  /** `.map(hit).filter(Boolean)` */
  function SearchGroups(gs: seq<ProjectGroup>, term: string): (r: seq<ProjectGroup>)
    ensures |r| <= |gs|
    ensures forall x :: x in r <==> exists g :: g in gs && GroupHit(g, term) == Some(x)
  {
    if gs == [] then []
    else
      var init := SearchGroups(gs[..|gs| - 1], term);
      var last := gs[|gs| - 1];
      assert forall g :: g in gs <==> g in gs[..|gs| - 1] || g == last;
      match GroupHit(last, term)
      case None => init
      case Some(x) => init + [x]
  }

  /** One more group at the end contributes its hit, if it has one. */
  lemma SearchGroupsSnoc(s: seq<ProjectGroup>, x: ProjectGroup, term: string)
    ensures SearchGroups(s + [x], term) ==
      SearchGroups(s, term) + (match GroupHit(x, term) case None => [] case Some(h) => [h])
  {
    assert (s + [x])[..|s + [x]| - 1] == s;
  }

  /** The search keeps the order of the groups: searching two halves is
      searching each. */
  lemma {:induction false} SearchGroupsAppend(a: seq<ProjectGroup>, b: seq<ProjectGroup>, term: string)
    ensures SearchGroups(a + b, term) == SearchGroups(a, term) + SearchGroups(b, term)
  {
    if b == [] {
      assert a + b == a;
    } else {
      var init, last := b[..|b| - 1], b[|b| - 1];
      assert a + b == (a + init) + [last];
      assert b == init + [last];
      SearchGroupsAppend(a, init, term);
      SearchGroupsSnoc(a + init, last, term);
      SearchGroupsSnoc(init, last, term);
    }
  }

  /** Every hit carries the name of a searched group. */
  lemma {:induction false} SearchGroupsNames(gs: seq<ProjectGroup>, term: string)
    ensures forall x :: x in SearchGroups(gs, term) ==> exists i :: 0 <= i < |gs| && gs[i].projectName == x.projectName
  {
    if gs != [] {
      var init := gs[..|gs| - 1];
      SearchGroupsNames(init, term);
      assert forall i :: 0 <= i < |init| ==> gs[i] == init[i];
    }
  }

  /** A hit keeps its group's name, so the search keeps the name order the
      groups were sorted in. */
  lemma {:induction false} SearchKeepsNameOrder(gs: seq<ProjectGroup>, term: string)
    requires SortedBy(gs, GroupName, false)
    ensures SortedBy(SearchGroups(gs, term), GroupName, false)
  {
    if gs != [] {
      var init, last := gs[..|gs| - 1], gs[|gs| - 1];
      assert SortedBy(init, GroupName, false);
      SearchKeepsNameOrder(init, term);
      SearchGroupsNames(init, term);
      var r0 := SearchGroups(init, term);
      var hit := GroupHit(last, term);
      if hit.Some? {
        var h := hit.value;
        var r := r0 + [h];
        assert SearchGroups(gs, term) == r;
        forall i | 0 <= i < |r0|
          ensures InOrder(GroupName(r0[i]), GroupName(h), false)
        {
          assert r0[i] in r0;
          var k :| 0 <= k < |init| && init[k].projectName == r0[i].projectName;
          assert gs[k] == init[k];
        }
      }
    }
  }

  /** `filteredGroups`: the term is lower-cased, but only its blankness is
      judged after trimming. */
  function FilteredGroups(gs: seq<ProjectGroup>, searchTerm: string): seq<ProjectGroup>
  {
    if IsBlank(searchTerm) then gs else SearchGroups(gs, ToLower(searchTerm))
  }

  /** Every result of a search for `t` is a group whose name matches,
      returned whole, or a group whose name does not match cut down to a
      non-empty list of its matching members, in order; and every group
      whose name or some member matches is there. */
  lemma SearchMeaning(gs: seq<ProjectGroup>, t: string)
    ensures var r := SearchGroups(gs, t);
      (forall x :: x in r ==>
         exists g :: g in gs &&
           ((NameMatches(g, t) && x == g) ||
            (!NameMatches(g, t) && x.members != [] &&
             x == g.(members := MatchingMembers(g.members, t))))) &&
      (forall g :: g in gs && NameMatches(g, t) ==> g in r) &&
      (forall g, m :: g in gs && !NameMatches(g, t) && m in g.members && MemberMatches(m, t) ==>
         g.(members := MatchingMembers(g.members, t)) in r)
  {
    forall g, m | g in gs && !NameMatches(g, t) && m in g.members && MemberMatches(m, t)
      ensures g.(members := MatchingMembers(g.members, t)) in SearchGroups(gs, t)
    {
      assert m in MatchingMembers(g.members, t);
      assert GroupHit(g, t) == Some(g.(members := MatchingMembers(g.members, t)));
    }
  }

  /** A blank search returns the groups unchanged; any other is a search
      for the lower-cased term, as `SearchMeaning` describes. */
  lemma FilteredGroupsMeaning(gs: seq<ProjectGroup>, searchTerm: string)
    ensures IsBlank(searchTerm) ==> FilteredGroups(gs, searchTerm) == gs
    ensures !IsBlank(searchTerm) ==>
      var t := ToLower(searchTerm);
      var r := FilteredGroups(gs, searchTerm);
      (forall x :: x in r ==>
         exists g :: g in gs &&
           ((NameMatches(g, t) && x == g) ||
            (!NameMatches(g, t) && x.members != [] &&
             x == g.(members := MatchingMembers(g.members, t))))) &&
      (forall g :: g in gs && NameMatches(g, t) ==> g in r) &&
      (forall g, m :: g in gs && !NameMatches(g, t) && m in g.members && MemberMatches(m, t) ==>
         g.(members := MatchingMembers(g.members, t)) in r)
  {
    if !IsBlank(searchTerm) {
      var t := ToLower(searchTerm);
      assert FilteredGroups(gs, searchTerm) == SearchGroups(gs, t);
      SearchMeaning(gs, t);
    }
  }
}
