/** The date helpers, avatar helpers and derived-risk computation of
    src/utils/projectUtils.js. A date is a time in milliseconds; turning a
    date string into one (`new Date(value)`) is the function `parse`, which
    yields `None` for an invalid date. The current time is the parameter
    `now`. */
module ProjectUtils {
  import opened Base
  import opened Strings
  import opened Records

  // ---------------------------------------------------------------------------
  // Dates

  /** `1000 * 60 * 60 * 24` */
  const DayMs: int := 86400000

  /** `parseDate(value)`: a falsy value is null; otherwise the parsed time,
      null when it is invalid. */
  function ParseDate(parse: string -> Option<int>, value: Option<string>): (r: Option<int>)
    ensures !Truthy(value) ==> r.None?
    ensures Truthy(value) ==> r == parse(value.value)
  {
    if Truthy(value) then parse(value.value) else None
  }

  /** `Math.round(ms / DayMs)`: the nearest whole day, halves rounded up. */
  function RoundDays(ms: int): int
  {
    (2 * ms + DayMs) / (2 * DayMs)
  }

  /** `RoundDays` is the rounding `Math.round` performs: the result is the
      whole number of days nearest to `ms`, ties going up. */
  lemma RoundDaysNearest(ms: int)
    ensures var r := RoundDays(ms);
      2 * r * DayMs - DayMs <= 2 * ms < 2 * r * DayMs + DayMs
  {
    var q := (2 * ms + DayMs) / (2 * DayMs);
    assert 2 * DayMs * q <= 2 * ms + DayMs < 2 * DayMs * q + 2 * DayMs;
  }

  /** A whole number of days is returned as it is. */
  lemma RoundDaysExact(k: int)
    ensures RoundDays(k * DayMs) == k
  {
    RoundDaysNearest(k * DayMs);
  }

  /** `daysBetween(start, end)`: null when either end is missing. */
  function DaysBetween(start: Option<int>, end: Option<int>): (r: Option<int>)
    ensures r.Some? <==> start.Some? && end.Some?
    ensures r.Some? ==> 2 * r.value * DayMs - DayMs <= 2 * (end.value - start.value) < 2 * r.value * DayMs + DayMs
  {
    if start.None? || end.None? then None
    else
      RoundDaysNearest(end.value - start.value);
      Some(RoundDays(end.value - start.value))
  }

  /** Midnight at the start of the day holding `t`. */
  function StartOfDay(t: int): int
  {
    t - t % DayMs
  }

  /** `isPast(date)`: the date's day lies before today. An invalid date
      compares as NaN, which is never less. */
  predicate IsPast(parse: string -> Option<int>, date: Option<string>, now: int)
  {
    Truthy(date) && parse(date.value).Some? &&
    StartOfDay(parse(date.value).value) < StartOfDay(now)
  }

  /** A date is past exactly when it falls before today's midnight; it is
      then before `now`. */
  lemma IsPastBeforeToday(parse: string -> Option<int>, date: Option<string>, now: int)
    ensures IsPast(parse, date, now) <==>
      Truthy(date) && parse(date.value).Some? && parse(date.value).value < StartOfDay(now)
    ensures IsPast(parse, date, now) ==> parse(date.value).value < now
  {
    if Truthy(date) && parse(date.value).Some? {
      var d := parse(date.value).value;
      assert StartOfDay(d) == DayMs * (d / DayMs);
      assert StartOfDay(now) == DayMs * (now / DayMs);
      assert StartOfDay(d) <= d < StartOfDay(d) + DayMs;
      assert StartOfDay(now) <= now;
    }
  }

  // ---------------------------------------------------------------------------
  // Avatars

  /** The eight avatar colours, in order. */
  const Palette: seq<string> :=
    ["#4f46e5", "#3b82f6", "#8b5cf6", "#ec4899", "#f59e0b", "#10b981", "#ef4444", "#14b8a6"]

  /** `ToInt32(x)`: `x` modulo 2^32, read as a signed 32-bit value. */
  function Wrap32(x: int): (r: int)
    ensures -0x8000_0000 <= r < 0x8000_0000
    ensures (r - x) % 0x1_0000_0000 == 0
  {
    var m := x % 0x1_0000_0000;
    if m >= 0x8000_0000 then m - 0x1_0000_0000 else m
  }

  function Abs(x: int): nat
  {
    if x < 0 then -x else x
  }

  /** The value of `hash` after the loop has read all the code units `us`:
      `hash = charCode + ((hash << 5) - hash)`, where `<<` wraps to 32 bits
      and the subtraction and addition do not. */
  function Hash(us: seq<int>): int
  {
    if us == [] then 0
    else
      var h := Hash(us[..|us| - 1]);
      us[|us| - 1] + (Wrap32(h * 32) - h)
  }

  /** The hash grows by less than 2^31 + 2^16 per code unit. */
  lemma {:induction false} HashBound(us: seq<int>)
    requires forall i :: 0 <= i < |us| ==> 0 <= us[i] < 0x1_0000
    ensures Abs(Hash(us)) <= |us| * (0x8000_0000 + 0x1_0000)
  {
    if us != [] {
      HashBound(us[..|us| - 1]);
    }
  }

  /** `getAvatarColor(name)`: the loop runs over the code units of the name. */
  method GetAvatarColor(name: Option<string>) returns (color: string)
    ensures color == Palette[Abs(Hash(CodeUnits(StrOr(name, "")))) % |Palette|]
    ensures color in Palette
  {
    var s := CodeUnits(StrOr(name, ""));
    var hash := 0;
    var i := 0;
    while i < |s|
      invariant 0 <= i <= |s|
      invariant hash == Hash(s[..i])
    {
      assert s[..i + 1][..i] == s[..i];
      hash := s[i] + (Wrap32(hash * 32) - hash);
      i := i + 1;
    }
    assert s[..i] == s;
    color := Palette[Abs(hash) % |Palette|];
  }

  /** A character beyond the Basic Multilingual Plane is hashed as its two
      surrogates: U+1F600 reads 0xD83D then 0xDE00, giving 1772899 and the
      fourth colour. */
  lemma AvatarColorSurrogatePair()
    ensures CodeUnits("\U{1F600}") == [0xD83D, 0xDE00]
    ensures Palette[Abs(Hash(CodeUnits("\U{1F600}"))) % |Palette|] == "#ec4899"
  {
    var s := "\U{1F600}";
    assert s[..0] == [];
    assert CodeUnits(s) == Utf16(s[0]);
    var us := [0xD83D, 0xDE00];
    assert us[..1][..0] == [];
    assert Hash(us[..1]) == 0xD83D;
    assert Wrap32(0xD83D * 32) == 1771424;
    assert Hash(us) == 1772899;
  }

  // ---------------------------------------------------------------------------
  // Initials

  /** The end of the first word: the first white-space position, or `|t|`. */
  function FirstSpace(t: string): (k: nat)
    ensures k <= |t|
    ensures forall j :: 0 <= j < k ==> !IsSpace(t[j])
    ensures k < |t| ==> IsSpace(t[k])
  {
    if t == [] || IsSpace(t[0]) then 0 else 1 + FirstSpace(t[1..])
  }

  /** The length of the white-space run at the front of `t`. */
  function SpaceRun(t: string): (k: nat)
    ensures k <= |t|
    ensures forall j :: 0 <= j < k ==> IsSpace(t[j])
    ensures k < |t| ==> !IsSpace(t[k])
  {
    if t == [] || !IsSpace(t[0]) then 0 else 1 + SpaceRun(t[1..])
  }

  /** `parts[1]?.[0] || ''` for `parts = t.split(/\s+/)`: the first character
      of the second word, if there is one. */
  function SecondInitial(t: string): string
  {
    var k := FirstSpace(t);
    if k == |t| then []
    else
      var rest := t[k..];
      var j := SpaceRun(rest);
      if j < |rest| then [rest[j]] else []
  }

  /** `getInitials(name)` as written: a name of white space only trims to
      `''`, which splits into `['']`, so `parts[0][0]` is `undefined` and the
      result is the text `'UNDEFINED'`. */
  function GetInitialsAsWritten(name: Option<string>): string
  {
    if !Truthy(name) then "?"
    else
      var t := Trim(name.value);
      if t == [] then ToUpper("undefined")
      else ToUpper([t[0]] + SecondInitial(t))
  }

  /** `getInitials(name)` with a blank name treated like a missing one. */
  function GetInitials(name: Option<string>): string
  {
    if IsBlankOpt(name) then "?"
    else
      var t := Trim(name.value);
      ToUpper([t[0]] + SecondInitial(t))
  }

  /** Any name of white space only comes out as the text `'UNDEFINED'`. */
  lemma BlankInitialsAsWritten(s: string)
    requires s != [] && AllSpace(s)
    ensures GetInitialsAsWritten(Some(s)) == "UNDEFINED"
  {
    BlankIffAllSpace(s);
  }

  /** The two definitions differ only on blank names. */
  lemma InitialsAgreeOnNonBlank(name: Option<string>)
    requires name.None? || !IsBlank(name.value)
    ensures GetInitials(name) == GetInitialsAsWritten(name)
  {
  }

  /** A trimmed string has a second word exactly when it holds white space. */
  lemma SecondInitialIff(t: string)
    requires t != [] && !IsSpace(t[|t| - 1])
    ensures |SecondInitial(t)| <= 1
    ensures SecondInitial(t) != [] <==> exists j :: 0 <= j < |t| && IsSpace(t[j])
    ensures SecondInitial(t) != [] ==> !IsSpace(SecondInitial(t)[0])
  {
  }

  /** `?` for a missing or blank name; otherwise one or two upper-cased
      characters: the first non-blank character, then the first character of
      the second word when the trimmed name has one. */
  lemma InitialsShape(name: Option<string>)
    ensures IsBlankOpt(name) ==> GetInitials(name) == "?"
    ensures !IsBlankOpt(name) ==>
      var t := Trim(name.value);
      var r := GetInitials(name);
      1 <= |r| <= 2 && r[0] == UpperChar(t[0]) && !IsSpace(t[0]) &&
      (|r| == 2 <==> exists j :: 0 <= j < |t| && IsSpace(t[j])) &&
      forall i :: 0 <= i < |r| ==> 'a' > r[i] || r[i] > 'z'
  {
    if !IsBlankOpt(name) {
      var t := Trim(name.value);
      TrimBounds(name.value);
      SecondInitialIff(t);
    }
  }

  // ---------------------------------------------------------------------------
  // Derived risk

  /** What `computeProjectDerived` returns. `discoveryIsLate` is kept as its
      truth value. */
  datatype Derived = Derived(
    hasMissingArtifacts: bool,
    hasLateArtifacts: bool,
    discoveryIsLate: bool,
    devIsLate: bool,
    lateReleases: seq<Release>,
    nextRelease: Option<Release>,
    overallRisk: string,
    riskFlags: seq<string>,
    discoveryDaysLate: Option<int>,
    devDaysLate: Option<int>)

  const LateArtifactsFlag := "Late client artifacts"
  const DiscoveryLateFlag := "Discovery past target date"

  /** `` `Release "${rel.name || 'Unnamed'}" past target date` `` */
  function ReleaseFlag(rel: Release): string
  {
    "Release \"" + StrOr(rel.name, "Unnamed") + "\" past target date"
  }

  /** `project.discovery?.requiredArtifacts`, empty when absent. */
  function ArtifactsOf(p: Project): seq<Artifact>
  {
    if p.discovery.Some? && p.discovery.value.requiredArtifacts.Some?
    then p.discovery.value.requiredArtifacts.value else []
  }

  /** `project.development?.releases || []` */
  function ReleasesOf(p: Project): seq<Release>
  {
    if p.development.Some? && p.development.value.releases.Some?
    then p.development.value.releases.value else []
  }

  function DiscoveryTarget(p: Project, parse: string -> Option<int>): Option<int>
  {
    if p.discovery.Some? then ParseDate(parse, p.discovery.value.targetCompleteDate) else None
  }

  function DiscoveryActual(p: Project, parse: string -> Option<int>): Option<int>
  {
    if p.discovery.Some? then ParseDate(parse, p.discovery.value.actualCompleteDate) else None
  }

  predicate ArtifactMissing(a: Artifact)
  {
    !Truthy(a.receivedDate)
  }

  /** `a.dueDate && isPast(a.dueDate) && !a.receivedDate` */
  predicate ArtifactLate(a: Artifact, parse: string -> Option<int>, now: int)
  {
    Truthy(a.dueDate) && IsPast(parse, a.dueDate, now) && !Truthy(a.receivedDate)
  }

  /** Not released, with a valid end date before now. */
  predicate ReleaseLate(rel: Release, parse: string -> Option<int>, now: int)
  {
    ParseDate(parse, rel.actualEndDate).None? &&
    ParseDate(parse, rel.endDate).Some? && ParseDate(parse, rel.endDate).value < now
  }

  /** `releases.filter(late)` */
  function LateReleases(rs: seq<Release>, parse: string -> Option<int>, now: int): (r: seq<Release>)
    ensures |r| <= |rs|
    ensures forall x :: x in r <==> x in rs && ReleaseLate(x, parse, now)
  {
    if rs == [] then []
    else
      var init := LateReleases(rs[..|rs| - 1], parse, now);
      assert forall x :: x in rs <==> x in rs[..|rs| - 1] || x == rs[|rs| - 1];
      if ReleaseLate(rs[|rs| - 1], parse, now) then init + [rs[|rs| - 1]] else init
  }

  /** One more element at the end is kept exactly when it is late. */
  lemma LateReleasesSnoc(s: seq<Release>, x: Release, parse: string -> Option<int>, now: int)
    ensures LateReleases(s + [x], parse, now) == LateReleases(s, parse, now) +
      (if ReleaseLate(x, parse, now) then [x] else [])
  {
    assert (s + [x])[..|s + [x]| - 1] == s;
  }

  /** The filter keeps order and duplicates: filtering two halves is
      filtering each. */
  lemma {:induction false} LateReleasesAppend(a: seq<Release>, b: seq<Release>, parse: string -> Option<int>, now: int)
    ensures LateReleases(a + b, parse, now) == LateReleases(a, parse, now) + LateReleases(b, parse, now)
  {
    if b == [] {
      assert a + b == a;
    } else {
      var init, last := b[..|b| - 1], b[|b| - 1];
      assert a + b == (a + init) + [last];
      assert b == init + [last];
      LateReleasesAppend(a, init, parse, now);
      LateReleasesSnoc(a + init, last, parse, now);
      LateReleasesSnoc(init, last, parse, now);
    }
  }

  /** `!rel.actualEndDate && rel.endDate`: a release still to come. */
  predicate Upcoming(rel: Release)
  {
    !Truthy(rel.actualEndDate) && Truthy(rel.endDate)
  }

  /** `a` sorts strictly before `b` by end date; an end date that does not
      parse sorts after every one that does. */
  predicate EndsBefore(a: Release, b: Release, parse: string -> Option<int>)
  {
    var ka, kb := ParseDate(parse, a.endDate), ParseDate(parse, b.endDate);
    ka.Some? && (kb.None? || ka.value < kb.value)
  }

  /** The position of `upcomingReleases[0]`: the stable sort by end date puts
      first the earliest upcoming release, the first of them on a tie. */
  function NextIndex(rs: seq<Release>, parse: string -> Option<int>): (r: Option<nat>)
    ensures r.Some? ==> r.value < |rs| && Upcoming(rs[r.value])
    ensures r.None? <==> forall i :: 0 <= i < |rs| ==> !Upcoming(rs[i])
  {
    if rs == [] then None
    else
      var m := NextIndex(rs[..|rs| - 1], parse);
      var last := |rs| - 1;
      if !Upcoming(rs[last]) then m
      else if m.None? || EndsBefore(rs[last], rs[m.value], parse) then Some(last)
      else m
  }

  /** The next release is no later than any upcoming release, and every
      upcoming release listed before it ends strictly later. */
  lemma {:induction false} NextIndexFirstMinimal(rs: seq<Release>, parse: string -> Option<int>)
    ensures var r := NextIndex(rs, parse);
      r.Some? ==>
        (forall i :: 0 <= i < |rs| && Upcoming(rs[i]) ==> !EndsBefore(rs[i], rs[r.value], parse)) &&
        (forall i :: 0 <= i < r.value && Upcoming(rs[i]) ==> EndsBefore(rs[r.value], rs[i], parse))
  {
    if rs != [] {
      var init := rs[..|rs| - 1];
      NextIndexFirstMinimal(init, parse);
      var m := NextIndex(init, parse);
      assert forall i :: 0 <= i < |init| ==> rs[i] == init[i];
    }
  }

  /** `Math.max(...xs)` for a non-empty list. */
  function MaxOf(xs: seq<int>): (r: int)
    requires xs != []
    ensures r in xs
    ensures forall x :: x in xs ==> x <= r
  {
    if |xs| == 1 then xs[0]
    else
      var m := MaxOf(xs[..|xs| - 1]);
      assert forall x :: x in xs ==> x in xs[..|xs| - 1] || x == xs[|xs| - 1];
      if xs[|xs| - 1] > m then xs[|xs| - 1] else m
  }

  /** `daysBetween(parseDate(rel.endDate), now)`; `Math.max` reads null as 0. */
  function DaysLate(rel: Release, parse: string -> Option<int>, now: int): int
  {
    DaysBetween(ParseDate(parse, rel.endDate), Some(now)).OrElse(0)
  }

  function ReleaseFlags(late: seq<Release>): (r: seq<string>)
    ensures |r| == |late|
    ensures forall i :: 0 <= i < |late| ==> r[i] == ReleaseFlag(late[i])
  {
    seq(|late|, i requires 0 <= i < |late| => ReleaseFlag(late[i]))
  }

  /** The flags in the order they are pushed. */
  function RiskFlags(hasLateArtifacts: bool, discoveryIsLate: bool, late: seq<Release>): seq<string>
  {
    (if hasLateArtifacts then [LateArtifactsFlag] else []) +
    (if discoveryIsLate then [DiscoveryLateFlag] else []) +
    ReleaseFlags(late)
  }

  /** `artifacts.some(missing)` */
  predicate AnyMissing(arts: seq<Artifact>)
  {
    exists i :: 0 <= i < |arts| && ArtifactMissing(arts[i])
  }

  /** `artifacts.some(late)` */
  predicate AnyLate(arts: seq<Artifact>, parse: string -> Option<int>, now: int)
  {
    exists i :: 0 <= i < |arts| && ArtifactLate(arts[i], parse, now)
  }

  /** `Math.max(...lateReleases.map(daysLate))`, for a non-empty list. */
  function MaxDaysLate(late: seq<Release>, parse: string -> Option<int>, now: int): int
    requires late != []
  {
    MaxOf(seq(|late|, i requires 0 <= i < |late| => DaysLate(late[i], parse, now)))
  }

  /** Everything `computeProjectDerived(project)` returns, at time `now`. */
  function DerivedOf(p: Project, parse: string -> Option<int>, now: int): Derived
  {
    var arts := ArtifactsOf(p);
    var missing := AnyMissing(arts);
    var lateArts := AnyLate(arts, parse, now);
    var target := DiscoveryTarget(p, parse);
    var discLate := DiscoveryActual(p, parse).None? && target.Some? && target.value < now;
    var rs := ReleasesOf(p);
    var late := LateReleases(rs, parse, now);
    var next := NextIndex(rs, parse);
    var flags := RiskFlags(lateArts, discLate, late);
    Derived(
      missing, lateArts, discLate, late != [], late,
      if next.Some? then Some(rs[next.value]) else None,
      if |flags| == 0 then "on-track" else "at-risk",
      flags,
      if discLate then DaysBetween(target, Some(now)) else None,
      if late != [] then Some(MaxDaysLate(late, parse, now)) else None)
  }

  /** `computeProjectDerived(project)`: the flags are pushed one at a time. */
  method ComputeProjectDerived(p: Project, parse: string -> Option<int>, now: int) returns (d: Derived)
    ensures d == DerivedOf(p, parse, now)
  {
    var discoveryTarget := DiscoveryTarget(p, parse);
    var discoveryActual := DiscoveryActual(p, parse);
    var arts := ArtifactsOf(p);
    var hasMissingArtifacts := AnyMissing(arts);
    var hasLateArtifacts := AnyLate(arts, parse, now);
    var discoveryIsLate := discoveryActual.None? && discoveryTarget.Some? && discoveryTarget.value < now;
    var releases := ReleasesOf(p);
    var lateReleases := LateReleases(releases, parse, now);
    var devIsLate := |lateReleases| > 0;
    var next := NextIndex(releases, parse);
    var nextRelease := if next.Some? then Some(releases[next.value]) else None;
    var riskFlags := PushRiskFlags(hasLateArtifacts, discoveryIsLate, lateReleases);
    var overallRisk := if |riskFlags| == 0 then "on-track" else "at-risk";
    var devDaysLate := if devIsLate then Some(MaxDaysLate(lateReleases, parse, now)) else None;
    d := Derived(
      hasMissingArtifacts, hasLateArtifacts, discoveryIsLate, devIsLate, lateReleases, nextRelease,
      overallRisk, riskFlags,
      if discoveryIsLate then DaysBetween(discoveryTarget, Some(now)) else None,
      devDaysLate);
  }

  /** The `riskFlags.push` sequence of `computeProjectDerived`. */
  method PushRiskFlags(hasLateArtifacts: bool, discoveryIsLate: bool, late: seq<Release>)
    returns (flags: seq<string>)
    ensures flags == RiskFlags(hasLateArtifacts, discoveryIsLate, late)
  {
    flags := [];
    if hasLateArtifacts {
      flags := flags + [LateArtifactsFlag];
    }
    if discoveryIsLate {
      flags := flags + [DiscoveryLateFlag];
    }
    ghost var head := flags;
    if late != [] {
      var i := 0;
      while i < |late|
        invariant 0 <= i <= |late|
        invariant flags == head + ReleaseFlags(late[..i])
      {
        flags := flags + [ReleaseFlag(late[i])];
        i := i + 1;
        assert ReleaseFlags(late[..i]) == ReleaseFlags(late[..i - 1]) + [ReleaseFlag(late[i - 1])];
      }
      assert late[..i] == late;
    } else {
      assert ReleaseFlags(late) == [];
    }
  }

  /** `overallRisk` is `'on-track'` exactly when there are no flags, and
      `'at-risk'` otherwise. */
  lemma OverallRiskIff(p: Project, parse: string -> Option<int>, now: int)
    ensures var d := DerivedOf(p, parse, now);
      (d.overallRisk == "on-track" <==> d.riskFlags == []) &&
      (d.overallRisk != "on-track" ==> d.overallRisk == "at-risk")
  {
  }

  /** A late artifact has no received date, so it is also missing. */
  lemma LateArtifactsAreMissing(p: Project, parse: string -> Option<int>, now: int)
    ensures var d := DerivedOf(p, parse, now);
      d.hasLateArtifacts ==> d.hasMissingArtifacts
  {
    var arts := ArtifactsOf(p);
    if exists i :: 0 <= i < |arts| && ArtifactLate(arts[i], parse, now) {
      var i :| 0 <= i < |arts| && ArtifactLate(arts[i], parse, now);
      assert ArtifactMissing(arts[i]);
    }
  }

  /** Development is late exactly when some release is late, and only then
      is there a number of days late, which is then the largest of the late
      releases' and is not negative. */
  lemma DevLateIff(p: Project, parse: string -> Option<int>, now: int)
    ensures var d := DerivedOf(p, parse, now);
      (d.devIsLate <==> d.lateReleases != []) &&
      (d.devDaysLate.None? <==> d.lateReleases == []) &&
      (d.devDaysLate.Some? ==>
        d.devDaysLate.value >= 0 &&
        (forall rel :: rel in d.lateReleases ==> DaysLate(rel, parse, now) <= d.devDaysLate.value) &&
        (exists rel :: rel in d.lateReleases && DaysLate(rel, parse, now) == d.devDaysLate.value))
  {
    var d := DerivedOf(p, parse, now);
    var late := d.lateReleases;
    if late != [] {
      var days := seq(|late|, i requires 0 <= i < |late| => DaysLate(late[i], parse, now));
      assert d.devDaysLate == Some(MaxOf(days));
      var m := MaxOf(days);
      forall rel | rel in late ensures DaysLate(rel, parse, now) <= m {
        var i :| 0 <= i < |late| && late[i] == rel;
        assert days[i] in days;
      }
      var k :| 0 <= k < |days| && days[k] == m;
      assert late[k] in late;
      var t := ParseDate(parse, late[k].endDate).value;
      assert t < now;
      RoundDaysNearest(now - t);
    }
  }

  /** The flags are those of the late-artifacts fact, the discovery fact
      and the late releases, laid out as `RiskFlagsShape` states. */
  lemma RiskFlagsLayout(p: Project, parse: string -> Option<int>, now: int)
    ensures var d := DerivedOf(p, parse, now);
      d.riskFlags == RiskFlags(d.hasLateArtifacts, d.discoveryIsLate, d.lateReleases)
  {
  }

  /** The flags are the late-artifacts flag, then the discovery flag, then
      one flag per late release in release order: their number is the sum. */
  lemma RiskFlagsShape(lateArts: bool, discLate: bool, late: seq<Release>)
    ensures var flags := RiskFlags(lateArts, discLate, late);
      var a := if lateArts then 1 else 0;
      var b := if discLate then 1 else 0;
      |flags| == a + b + |late| &&
      (lateArts ==> flags[0] == LateArtifactsFlag) &&
      (discLate ==> flags[a] == DiscoveryLateFlag) &&
      forall i :: 0 <= i < |late| ==> flags[a + b + i] == ReleaseFlag(late[i])
  {
  }

  /** Discovery with a valid actual completion date is never late and has
      no days late. */
  lemma DiscoveryDoneNotLate(p: Project, parse: string -> Option<int>, now: int)
    requires DiscoveryActual(p, parse).Some?
    ensures !DerivedOf(p, parse, now).discoveryIsLate
    ensures DerivedOf(p, parse, now).discoveryDaysLate.None?
  {
  }

  /** Days late for discovery exist exactly when discovery is late, and are
      then not negative. */
  lemma DiscoveryDaysLateIff(p: Project, parse: string -> Option<int>, now: int)
    ensures var d := DerivedOf(p, parse, now);
      (d.discoveryDaysLate.Some? <==> d.discoveryIsLate) &&
      (d.discoveryDaysLate.Some? ==> d.discoveryDaysLate.value >= 0)
  {
    var target := DiscoveryTarget(p, parse);
    if target.Some? {
      RoundDaysNearest(now - target.value);
    }
  }

  /** The late releases are exactly the late ones among the project's
      releases, and the next release is an upcoming one, the earliest, and
      the first listed among equally early ones. */
  lemma ReleasesDerived(p: Project, parse: string -> Option<int>, now: int)
    ensures var d := DerivedOf(p, parse, now);
      var rs := ReleasesOf(p);
      (forall rel :: rel in d.lateReleases <==> rel in rs && ReleaseLate(rel, parse, now)) &&
      (d.nextRelease.None? <==> forall i :: 0 <= i < |rs| ==> !Upcoming(rs[i])) &&
      (d.nextRelease.Some? ==>
        exists k :: 0 <= k < |rs| && rs[k] == d.nextRelease.value && Upcoming(rs[k]) &&
          (forall i :: 0 <= i < |rs| && Upcoming(rs[i]) ==> !EndsBefore(rs[i], rs[k], parse)) &&
          (forall i :: 0 <= i < k && Upcoming(rs[i]) ==> EndsBefore(rs[k], rs[i], parse)))
  {
    NextIndexFirstMinimal(ReleasesOf(p), parse);
  }
}
