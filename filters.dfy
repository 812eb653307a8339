/** The filter bar of src/components/Filters.jsx: the per-status and
    per-risk counts shown on its chips, whether a filter is active, and
    clearing the filters. A count dictionary is a `map`; a JavaScript
    object's missing key reads as `undefined`, which `|| 0` turns into 0. */
module FilterCounts {
  import opened Base
  import opened Grouping
  import opened Records

  /** `counts[key] || 0` */
  function Shown(counts: map<string, nat>, k: string): nat
  {
    if k in counts then counts[k] else 0
  }

  /** The dictionary after `counts[key(x)] = (counts[key(x)] || 0) + 1`
      for every `x` of `s` in turn, starting from `start`. */
  function Tally<T>(s: seq<T>, key: T -> string, start: map<string, nat>): map<string, nat>
  {
    if s == [] then start
    else
      var m := Tally(s[..|s| - 1], key, start);
      var k := key(s[|s| - 1]);
      m[k := Shown(m, k) + 1]
  }

  /** The counts of `items` by `key`, with `all` starting at the length. */
  function CountsOf<T>(items: seq<T>, key: T -> string): map<string, nat>
  {
    Tally(items, key, map["all" := |items|])
  }

  /** The `useMemo` body: a loop over the items that bumps one entry each. */
  method CountBy<T>(items: seq<T>, key: T -> string) returns (counts: map<string, nat>)
    ensures counts == CountsOf(items, key)
  {
    var start := map["all" := |items|];
    counts := start;
    for i := 0 to |items|
      invariant counts == Tally(items[..i], key, start)
    {
      var k := key(items[i]);
      counts := counts[k := Shown(counts, k) + 1];
      assert items[..i + 1][..i] == items[..i];
    }
    assert items[..|items|] == items;
  }

  /** Each shown count is the number of items under that key, plus what the
      starting dictionary held; the keys are those of the start and of the
      items. */
  lemma {:induction false} TallyMeaning<T>(s: seq<T>, key: T -> string, start: map<string, nat>)
    ensures forall k :: Shown(Tally(s, key, start), k) == Shown(start, k) + |Filter(s, key, k)|
    ensures forall k :: k in Tally(s, key, start) <==> k in start || k in Keys(s, key)
  {
    if s != [] {
      var init, x := s[..|s| - 1], s[|s| - 1];
      TallyMeaning(init, key, start);
      assert s == init + [x];
      forall k ensures Filter(s, key, k) == Filter(init, key, k) + (if key(x) == k then [x] else []) {
        FilterAppend(init, x, key, k);
      }
    }
  }

  /** `statusCounts.all` (and every other count) as the chips show it: the
      number of items under the key, plus the length for the key `all`. A
      key no item has shows 0. */
  lemma CountsMeaning<T>(items: seq<T>, key: T -> string, k: string)
    ensures Shown(CountsOf(items, key), k) == |Filter(items, key, k)| + (if k == "all" then |items| else 0)
    ensures k != "all" && k !in Keys(items, key) ==> Shown(CountsOf(items, key), k) == 0
  {
    TallyMeaning(items, key, map["all" := |items|]);
    if k !in Keys(items, key) {
      NoKeyNoGroup(items, key, k);
    }
  }

  /** The total of the counts under the keys `ks`. */
  function SumShown(counts: map<string, nat>, ks: seq<string>): nat
  {
    if ks == [] then 0 else SumShown(counts, ks[..|ks| - 1]) + Shown(counts, ks[|ks| - 1])
  }

  lemma {:induction false} SumShownIsGroupSizes<T>(items: seq<T>, key: T -> string, ks: seq<string>)
    requires "all" !in ks
    ensures SumShown(CountsOf(items, key), ks) == GroupSizes(ks, items, key)
  {
    if ks != [] {
      SumShownIsGroupSizes(items, key, ks[..|ks| - 1]);
      CountsMeaning(items, key, ks[|ks| - 1]);
    }
  }

  /** The per-key counts, `all` left aside, add up to the number of items,
      provided no item's key is literally `all` (one that is also bumps
      `counts.all`). */
  lemma CountsPartition<T>(items: seq<T>, key: T -> string)
    requires "all" !in Keys(items, key)
    ensures SumShown(CountsOf(items, key), Keys(items, key)) == |items|
  {
    SumShownIsGroupSizes(items, key, Keys(items, key));
    GroupsPartition(items, key);
  }

  function StatusOf(p: Project): string
  {
    p.status
  }

  /** `p.derived?.overallRisk || 'on-track'`, for the overall risk of an
      item's derived object (`None` when it has none). */
  function RiskOf(risk: Option<string>): string
  {
    if Truthy(risk) then risk.value else "on-track"
  }

  /** An item counts as on track exactly when its risk is missing, empty or
      `'on-track'`. */
  lemma RiskDefault(risk: Option<string>)
    ensures RiskOf(risk) == "on-track" <==> !Truthy(risk) || risk == Some("on-track")
  {
  }

  /** `statusCounts` */
  method StatusCounts(projects: seq<Project>) returns (counts: map<string, nat>)
    ensures counts == CountsOf(projects, StatusOf)
  {
    counts := CountBy(projects, StatusOf);
  }

  /** `riskCounts`, over the overall risks of `projectsWithDerived`. */
  method RiskCounts(risks: seq<Option<string>>) returns (counts: map<string, nat>)
    ensures counts == CountsOf(risks, RiskOf)
  {
    counts := CountBy(risks, RiskOf);
  }

  /** The filter selection: a status key and a risk key, `'all'` for none. */
  datatype Selection = Selection(status: string, risk: string)

  /** `hasActiveFilters` */
  predicate HasActiveFilters(f: Selection)
  {
    f.status != "all" || f.risk != "all"
  }

  /** `handleClearFilters`: both keys back to `'all'`. */
  function ClearFilters(): Selection
  {
    Selection("all", "all")
  }

  /** A filter is active exactly when the selection differs from the cleared
      one, so clearing always leaves none active. */
  lemma ActiveIffNotCleared(f: Selection)
    ensures HasActiveFilters(f) <==> f != ClearFilters()
    ensures !HasActiveFilters(ClearFilters())
  {
  }
}
