# Project tracker core, modelled in Dafny

This project models the core logic of a small single-page project tracker.

- **Project store.** A browser-side store keeps the list of projects in `localStorage` and tells its subscribers about every change.
- **Team store.** A second store keeps the team members in Firestore once a user signs in, and in memory before that.
- **Project risk.** Each project's risk is derived from its dates: late client artifacts, a discovery phase past its target, and late releases.
- **Views.** Several views compute what they show from those lists:
  - the allocation of people across projects;
  - the counts on the filter chips and the filtered project list;
  - the team directory grouped by department;
  - the preview text and the save and delete logic of meeting minutes;
  - the project and team-member editors, which clean a form into the record they save.

The stores are Dafny classes whose methods change their fields. Every outside outcome is a parameter of the method, and the method's `ensures` states the new state for each outcome. The outside outcomes are:
- the `localStorage` write, with `SaveResult`;
- what was stored before, with `StoredRead`;
- the Firestore write, with `RemoteResult`;
- the first fetch after a sign-in, with `FetchResult`;
- the snapshots that arrive while a write is awaited, as `echoes`.

Listener calls are recorded in a `notified` field.

The views are pure functions. Where the source loops while updating variables, the model is a method proved against such a function. The properties proved are:
- the meaning of each computed value (an if-and-only-if where the source decides something);
- round trips and idempotence;
- stability and ordering of the sorts;
- partition laws for the counts;
- what each store operation leaves unchanged.

Modules, one per source file, plus shared helpers:

- `Base`, `Strings`, `Grouping`, `Sorting`, `Records`: the JavaScript semantics the core relies on.
  - Truthiness, `||`, `??` and `trim()` with the exact JavaScript white-space set.
  - ASCII `toLowerCase`/`toUpperCase`, and `localeCompare` as code-point order.
  - The UTF-16 code units `charCodeAt` reads, for the avatar hash.
  - A stable `Array.prototype.sort`.
  - `filter` by key.
  - The records themselves.
- `TeamStore` (src/services/teamService.js), `ProjectStore` (src/services/dataService.js).
- `ProjectUtils` (src/utils/projectUtils.js), `TeamAllocation` (src/views/TeamAllocationView.jsx).
- `ProjectEditor` (src/components/ProjectEditor.jsx), `MeetingMinutes` (src/components/MeetingMinutesPanel.jsx).
- `FilterCounts` (src/components/Filters.jsx), `TeamDirectory` (src/views/TeamView.jsx).
- `LegacyApp` (the older logic still inside src/App.jsx).

Times are whole milliseconds. A date string becomes a time through a function parameter `parse`, which stands for `new Date(s)` followed by the `NaN` check. The current time `now` is a parameter. Ids and timestamps that the source generates are parameters too.

## Model

| member | source | states |
|---|---|---|
| `Base.StrOr` | src/utils/projectUtils.js:26 | `x \|\| d` on an optional string: the string when it is non-empty, the default otherwise |
| `Base.OrNull` | src/components/ProjectEditor.jsx:135-136 | `x \|\| null`: present exactly when the string is non-empty, and then unchanged |
| `Base.Deliveries` | src/services/dataService.js:206-214 | notifying calls every listener, in subscription order, once each, with the same payload |
| `Base.Without` | src/services/dataService.js:196-201 | the unsubscribe closure removes the listener and keeps every other one, adding none |
| `Base.WithoutAppend` | src/services/dataService.js:196-201 | the filter keeps the remaining listeners in their order and number: filtering two halves is filtering each |
| `Base.WithoutAbsentListener` | src/services/dataService.js:196-201 | unsubscribing a listener that is not registered changes nothing |
| `Base.WithoutSingle` | src/services/dataService.js:196-201 | a single listener is dropped exactly when it is the one unsubscribed |
| `Strings.TrimStart` | src/components/ProjectEditor.jsx:124 | the leading part of `trim()`: a suffix of the input, everything cut off is white space, and the result does not start with white space |
| `Strings.TrimEnd` | src/components/ProjectEditor.jsx:124 | the trailing part of `trim()`: a prefix, everything cut off is white space, and the result does not end with white space |
| `Strings.TrimBounds` | src/components/ProjectEditor.jsx:124 | a trimmed string is empty or starts and ends with non-white-space, and is a slice of the input |
| `Strings.TrimSlice` | src/components/ProjectEditor.jsx:124 | `trim()` returns a contiguous slice of its input |
| `Strings.TrimStartEmptyIffAllSpace` | src/components/ProjectEditor.jsx:124 | trimming the front leaves nothing exactly when the string is all white space |
| `Strings.BlankIffAllSpace` | src/components/ProjectEditor.jsx:124 | `!s.trim()` holds exactly when every character is white space |
| `Strings.TrimIdempotent` | src/services/teamService.js:121-129 | trimming twice is trimming once |
| `Strings.TrimFixed` | src/services/teamService.js:121-129 | a string with no white space at either end is its own trim |
| `Strings.TrimOrEmptyNormal` | src/services/teamService.js:121-129 | `(x \|\| '').trim()` is already trimmed |
| `Strings.ToLower` | src/views/TeamAllocationView.jsx:22 | `toLowerCase()` maps each character and keeps the length |
| `Strings.ToUpper` | src/utils/projectUtils.js:35 | `toUpperCase()` maps each character and keeps the length |
| `Strings.LeReflexive` | src/views/TeamView.jsx:183 | the order standing for the default `sort()` is reflexive |
| `Strings.LeTotal` | src/views/TeamView.jsx:183 | any two strings are comparable |
| `Strings.LeAntisymmetric` | src/views/TeamView.jsx:183 | strings ordered both ways are equal |
| `Strings.LeTransitive` | src/views/TeamView.jsx:183 | the order is transitive |
| `Grouping.IndexOf` | src/services/dataService.js:113 | `findIndex`: the first position whose key matches, or none exactly when no element matches |
| `Grouping.Filter` | src/views/TeamView.jsx:174-181 | the elements under a key are exactly the elements of the list with that key |
| `Grouping.Keys` | src/views/TeamView.jsx:174-183 | the keys of a grouping are the keys that occur, each once |
| `Grouping.FilterAppend` | src/views/TeamView.jsx:179 | pushing an element extends exactly its own group |
| `Grouping.GroupSizesAppend` | src/views/TeamView.jsx:174-181 | one more element adds one to the total group size exactly when its key is counted |
| `Grouping.GroupsPartition` | src/views/TeamView.jsx:174-181 | the groups partition the list: their sizes add up to its length |
| `Grouping.NoKeyNoGroup` | src/views/TeamView.jsx:176-178 | a key that no element has has an empty group |
| `Sorting.Insert` | src/views/TeamAllocationView.jsx:44 | one insertion step adds exactly the inserted element |
| `Sorting.SortBy` | src/views/TeamAllocationView.jsx:44 | the sort is a permutation of its input |
| `Sorting.InOrderTotal` | src/views/TeamAllocationView.jsx:44 | the comparison is total, ascending or descending |
| `Sorting.InOrderTransitive` | src/views/TeamAllocationView.jsx:44 | the comparison is transitive |
| `Sorting.InsertSorted` | src/views/TeamAllocationView.jsx:44 | inserting into a sorted list keeps it sorted |
| `Sorting.SortBySorted` | src/views/TeamAllocationView.jsx:44 | the result is sorted by the key |
| `Sorting.InsertStable` | src/views/TeamAllocationView.jsx:44 | insertion puts the element ahead of the others with its key |
| `Sorting.FilterCons` | src/views/TeamAllocationView.jsx:44 | the group of a list with an element in front is that element, if its key matches, followed by the rest's group |
| `Sorting.SortByStable` | src/views/TeamAllocationView.jsx:44 | the sort is stable: elements with equal keys keep their relative order |
| `TeamStore.Sanitize` | src/services/teamService.js:15-24 | the sanitized value has no `undefined` anywhere; it is the input with every `undefined` turned into `null`, at any depth, leaving the other values and the keys alone |
| `TeamStore.SanitizeDefined` | src/services/teamService.js:15-24 | a value without `undefined` passes through unchanged |
| `TeamStore.SanitizeIdempotent` | src/services/teamService.js:15-24 | sanitizing twice is sanitizing once |
| `TeamStore.MemberFieldsNormal` | src/services/teamService.js:121-129 | created and updated members have a non-empty trimmed name and trimmed email, role and department; an update keeps the id and the creation stamp |
| `TeamStore.Stamped` | src/services/teamService.js:237-240 | a replace-all stamps each record with the time and keeps the order |
| `TeamStore.StampedKeepsRecords` | src/services/teamService.js:237-240 | stamping changes `updatedAt` and nothing else, record by record |
| `TeamStore.Drop` | src/services/teamService.js:57-74 | cancelling a snapshot listener removes exactly one registration of that scope |
| `TeamStore.TeamService.constructor` | src/services/teamService.js:31-41 | a new store is empty, signed out, not initialized and has no listeners |
| `TeamStore.TeamService.NotifyListeners` | src/services/teamService.js:287-295 | each subscriber is called once with the current list |
| `TeamStore.TeamService.Subscribe` | src/services/teamService.js:277-282 | appends the listener |
| `TeamStore.TeamService.Unsubscribe` | src/services/teamService.js:277-282 | the closure removes that listener and keeps the rest |
| `TeamStore.TeamService.Initialize` | src/services/teamService.js:46-52 | the first call empties the list and notifies; later calls change nothing and return the list |
| `TeamStore.TeamService.OnSnapshot` | src/services/teamService.js:91-96 | a snapshot replaces the list and notifies only when its listener is live and no write of this store is pending; otherwise nothing changes |
| `TeamStore.TeamService.AwaitRemote` | src/services/teamService.js:131-143 | snapshots that arrive while a write is pending change neither the list nor the notifications |
| `TeamStore.TeamService.RemoteWrite` | src/services/teamService.js:131-143 | the remote half of a mutation succeeds exactly when sync is off or the write went through, and leaves the list alone |
| `TeamStore.TeamService.SetUser` | src/services/teamService.js:57-74 | signing in cancels any earlier listener, loads the user's members and installs exactly one live listener; signing out clears the list, cancels the listener and notifies; the validity invariant is kept |
| `TeamStore.TeamService.StartFirestoreSync` | src/services/teamService.js:79-97 | a fetched collection replaces the list and a listener for the user is installed; a rejected fetch reports an error and installs none |
| `TeamStore.TeamService.SetUserAsWritten` | src/services/teamService.js:57-74 | `setUser` as the source has it: signing in keeps the earlier listener and adds one on a successful fetch, replacing the list and notifying; a rejected fetch changes only the user; signing out cancels the latest listener, empties the list and notifies |
| `TeamStore.TeamService.GetAllTeamMembers` | src/services/teamService.js:102-104 | a permutation of the members sorted by name, stable among equal names, leaving the stored order alone |
| `TeamStore.TeamService.GetTeamMemberById` | src/services/teamService.js:109-111 | the first member with the id, or none exactly when no member has it |
| `TeamStore.TeamService.CreateTeamMember` | src/services/teamService.js:116-150 | a blank name is refused with nothing changed; a rejected remote write changes nothing; otherwise the new trimmed record is appended and listeners are notified |
| `TeamStore.TeamService.UpdateTeamMember` | src/services/teamService.js:155-195 | not-found is reported before the name check; a blank name is refused; a rejected write changes nothing; otherwise only that position is replaced, by the merged trimmed record |
| `TeamStore.TeamService.DeleteTeamMember` | src/services/teamService.js:200-227 | not-found is reported; a rejected write changes nothing; otherwise the first member with the id is removed and returned |
| `TeamStore.TeamService.ReplaceAllTeamMembers` | src/services/teamService.js:232-272 | a non-array is refused; a rejected write changes nothing; otherwise the list becomes the stamped input |
| `TeamStore.StaleListenerAfterAccountSwitch` | src/services/teamService.js:57-74 | with `setUser` as written, signing in twice and then out leaves the first account's listener live, and its snapshot overwrites the signed-out list |
| `TeamStore.NoListenerAfterSignOut` | src/services/teamService.js:57-74 | with the corrected `setUser`, the same sequence leaves no live listener and an empty list |
| `ProjectStore.NewProjectText` | src/services/dataService.js:89-101 | a created project has a non-empty trimmed name and trimmed client, notes and on-hold reason, with the given id and stamps |
| `ProjectStore.NewProjectDefaults` | src/services/dataService.js:89-101 | status and priority are the input's when non-empty and `discovery` and `medium` otherwise; each phase is the input's or an empty object; team members and minutes are always dropped; both stamps are the creation time |
| `ProjectStore.UpdatedProjectFields` | src/services/dataService.js:123-131 | an update keeps the creation stamp and stamps the time; id, status, priority, phases, team and minutes come from the input when it carries them and from the stored project otherwise; a missing client, on-hold reason or notes becomes `''`; the name is trimmed and non-empty |
| `ProjectStore.UpdatedProjectText` | src/services/dataService.js:126-128 | a given client, on-hold reason or notes is stored trimmed, and all three are their own trim |
| `ProjectStore.StampedProjects` | src/services/dataService.js:157-169 | a replace-all stamps each record and keeps the order |
| `ProjectStore.StampedProjectsKeepRecords` | src/services/dataService.js:157-169 | stamping changes `updatedAt` and nothing else |
| `ProjectStore.StampedProjectsIdempotent` | src/services/dataService.js:157-169 | stamping twice with the same time is stamping once |
| `ProjectStore.DataService.constructor` | src/services/dataService.js:10-14 | a new store is empty and not initialized, over what the browser stored |
| `ProjectStore.DataService.NotifyListeners` | src/services/dataService.js:206-214 | each subscriber is called once with the current list |
| `ProjectStore.DataService.Subscribe` | src/services/dataService.js:196-201 | appends the listener |
| `ProjectStore.DataService.Unsubscribe` | src/services/dataService.js:196-201 | the closure removes that listener |
| `ProjectStore.DataService.SaveToStorage` | src/services/dataService.js:58-65 | a successful write stores exactly the current list; a failed one keeps the old storage and reports the failure |
| `ProjectStore.DataService.Initialize` | src/services/dataService.js:19-53 | the first call loads a stored array; otherwise it loads the bundled data (or nothing) and saves it, and a failed save leaves the list empty; the first call notifies; later calls change nothing |
| `ProjectStore.DataService.GetAllProjects` | src/services/dataService.js:70-72 | a copy of the list in stored order |
| `ProjectStore.DataService.GetProjectById` | src/services/dataService.js:77-79 | the first project with the id, or none exactly when no project has it |
| `ProjectStore.DataService.CreateProject` | src/services/dataService.js:84-107 | a blank name is refused with nothing changed; otherwise the new record is appended, and it stays appended even when the save then fails, which is reported |
| `ProjectStore.DataService.UpdateProject` | src/services/dataService.js:112-137 | not-found comes before the name check; otherwise only that position is replaced, by the merged record |
| `ProjectStore.DataService.StoreAt` | src/services/dataService.js:132-136 | writes one position, saves, and notifies on success |
| `ProjectStore.DataService.DeleteProject` | src/services/dataService.js:142-152 | not-found is reported; otherwise the first project with the id is removed and returned, and the rest keep their order |
| `ProjectStore.DataService.ReplaceAllProjects` | src/services/dataService.js:157-169 | a non-array is refused; otherwise the list becomes the stamped input |
| `ProjectStore.DataService.ExportToJson` | src/services/dataService.js:174-176 | the export is an array holding exactly the projects, in order |
| `ProjectStore.DataService.ImportFromJson` | src/services/dataService.js:181-191 | text that is not an array is refused with nothing changed; an array replaces the list, stamped |
| `ProjectStore.ExportImportRoundTrip` | src/services/dataService.js:174-191 | importing what was exported gives back every project with only `updatedAt` changed |
| `ProjectStore.ReloadAfterSave` | src/services/dataService.js:19-65 | what a successful save writes is what a fresh store loads |
| `ProjectStore.CreateThenDelete` | src/services/dataService.js:84-152 | deleting the project just created restores the previous list |
| `ProjectUtils.ParseDate` | src/utils/projectUtils.js:1-5 | a falsy value is null; otherwise the parsed time, null when it is not a valid date |
| `ProjectUtils.RoundDaysNearest` | src/utils/projectUtils.js:10 | `Math.round(ms / day)` is the nearest whole day, halves rounding up |
| `ProjectUtils.RoundDaysExact` | src/utils/projectUtils.js:10 | a whole number of days rounds to itself |
| `ProjectUtils.DaysBetween` | src/utils/projectUtils.js:7-11 | null exactly when either end is missing; otherwise the difference rounded to the nearest day |
| `ProjectUtils.IsPastBeforeToday` | src/utils/projectUtils.js:13-21 | a date is past exactly when it is valid and its day starts before today's; it is then before now |
| `ProjectUtils.Wrap32` | src/utils/projectUtils.js:27 | the 32-bit wrap of `<<` and `-`: a signed 32-bit value congruent to the input |
| `Strings.Utf16` | src/utils/projectUtils.js:26-28 | one code unit inside the Basic Multilingual Plane, two beyond it, each below 2^16 |
| `Strings.Utf16RoundTrip` | src/utils/projectUtils.js:26-28 | a character beyond the Basic Multilingual Plane becomes a high then a low surrogate that decode back to it |
| `Strings.CodeUnits` | src/utils/projectUtils.js:26-28 | the code units `length` counts: at least one per character, each below 2^16 |
| `Strings.CodeUnitsBmp` | src/utils/projectUtils.js:26-28 | inside the Basic Multilingual Plane the code units are the characters themselves |
| `ProjectUtils.HashBound` | src/utils/projectUtils.js:25-28 | each code unit moves the hash by a bounded amount |
| `ProjectUtils.GetAvatarColor` | src/utils/projectUtils.js:23-30 | the loop over the name's UTF-16 code units computes the wrapped hash, and the colour is the palette entry at its absolute value modulo eight, always one of the palette |
| `ProjectUtils.AvatarColorSurrogatePair` | src/utils/projectUtils.js:23-30 | a character beyond the Basic Multilingual Plane is hashed as its two surrogates: U+1F600 gets `#ec4899` |
| `ProjectUtils.FirstSpace` | src/utils/projectUtils.js:34 | the end of the first word: no white space before it, and white space at it |
| `ProjectUtils.SpaceRun` | src/utils/projectUtils.js:34 | the white-space run that `split(/\s+/)` removes |
| `ProjectUtils.BlankInitialsAsWritten` | src/utils/projectUtils.js:32-36 | as written, a name of white space only gives `UNDEFINED` |
| `ProjectUtils.InitialsAgreeOnNonBlank` | src/utils/projectUtils.js:32-36 | the corrected initials equal the source's on every name that is missing or not blank |
| `ProjectUtils.SecondInitialIff` | src/utils/projectUtils.js:34-35 | a trimmed name has a second initial exactly when it holds white space, and that initial is not white space |
| `ProjectUtils.InitialsShape` | src/utils/projectUtils.js:32-36 | `?` for a missing or blank name; otherwise one or two upper-cased characters, the first being the first non-blank character, two exactly when there is a second word |
| `ProjectUtils.LateReleases` | src/utils/projectUtils.js:56-61 | exactly the releases not yet released whose valid end date is before now |
| `ProjectUtils.NextIndex` | src/utils/projectUtils.js:66-69 | the next release is an upcoming one, and there is none exactly when no release is upcoming |
| `ProjectUtils.NextIndexFirstMinimal` | src/utils/projectUtils.js:66-69 | no upcoming release ends before the next one, and those listed before it end strictly later, as the stable sort gives |
| `ProjectUtils.MaxOf` | src/utils/projectUtils.js:84 | `Math.max` is an element that bounds all others |
| `ProjectUtils.LateReleasesSnoc` | src/utils/projectUtils.js:57-61 | one more release at the end is kept exactly when it is late |
| `ProjectUtils.LateReleasesAppend` | src/utils/projectUtils.js:57-61 | the late releases keep the order and number of the project's releases: filtering two halves is filtering each |
| `ProjectUtils.ReleaseFlags` | src/utils/projectUtils.js:74-78 | one flag per late release, in release order |
| `ProjectUtils.ComputeProjectDerived` | src/utils/projectUtils.js:38-100 | the method, computing each fact from the project and pushing flags one at a time, returns the derived record |
| `ProjectUtils.PushRiskFlags` | src/utils/projectUtils.js:71-78 | the push sequence builds the flag list |
| `ProjectUtils.OverallRiskIff` | src/utils/projectUtils.js:80 | on track exactly when there are no flags, at risk otherwise |
| `ProjectUtils.LateArtifactsAreMissing` | src/utils/projectUtils.js:44-50 | a late artifact is also a missing one |
| `ProjectUtils.DevLateIff` | src/utils/projectUtils.js:63-85 | development is late exactly when a release is late; only then is there a days-late figure, which is the largest of the late releases' and not negative |
| `ProjectUtils.RiskFlagsLayout` | src/utils/projectUtils.js:71-78 | the flags are built from the late-artifacts fact, the discovery fact and the late releases |
| `ProjectUtils.RiskFlagsShape` | src/utils/projectUtils.js:71-78 | late artifacts first, discovery second, then one flag per late release in order; the count is the sum |
| `ProjectUtils.DiscoveryDoneNotLate` | src/utils/projectUtils.js:52-53 | discovery with a valid completion date is not late and has no days late |
| `ProjectUtils.DiscoveryDaysLateIff` | src/utils/projectUtils.js:96-97 | discovery days late exist exactly when discovery is late, and are then not negative |
| `ProjectUtils.ReleasesDerived` | src/utils/projectUtils.js:56-69 | the late releases are exactly the late ones; the next release is the earliest upcoming one, first among equals, and absent exactly when none is upcoming |
| `TeamAllocation.NamedMembers` | src/views/TeamAllocationView.jsx:17 | exactly the members whose trimmed name is non-empty |
| `TeamAllocation.NamedMembersSnoc` | src/views/TeamAllocationView.jsx:17 | one more member at the end is kept exactly when its name is not blank |
| `TeamAllocation.NamedMembersAppend` | src/views/TeamAllocationView.jsx:17 | the named members keep their order and number: filtering two halves is filtering each |
| `TeamAllocation.TotalsStep` | src/views/TeamAllocationView.jsx:21-29 | the totals after one more member are one inner-loop turn applied to the previous totals |
| `TeamAllocation.FirstRole` | src/views/TeamAllocationView.jsx:24-27 | an entry's role is the first non-empty role among its members, or empty when there is none |
| `TeamAllocation.TotalsMeaning` | src/views/TeamAllocationView.jsx:21-29 | a key has an entry exactly when some member has it; the entry holds the first member's trimmed name, the first non-empty role and the sum of `allocation ?? 100` |
| `TeamAllocation.TotalsMeaningStep` | src/views/TeamAllocationView.jsx:21-29 | one inner-loop turn keeps each entry as that description says |
| `TeamAllocation.AddSameKey` | src/views/TeamAllocationView.jsx:26-28 | a member under a key extends that key's entry by its allocation and role |
| `TeamAllocation.TotalsDomain` | src/views/TeamAllocationView.jsx:21-29 | the map's keys are the distinct member keys |
| `TeamAllocation.MemberTotalIsSum` | src/views/TeamAllocationView.jsx:93-96 | the total shown for a trimmed name is the sum of the allocations of the members with that name, ignoring case |
| `TeamAllocation.GroupsOfMeaning` | src/views/TeamAllocationView.jsx:14-40 | exactly the projects with a named member contribute a group, and no group is empty |
| `TeamAllocation.AddMembers` | src/views/TeamAllocationView.jsx:21-29 | the inner loop extends the totals and their insertion order by one project's members |
| `TeamAllocation.MembersStep` | src/views/TeamAllocationView.jsx:21-29 | the totals over one more prefix are one more turn |
| `TeamAllocation.Tally` | src/views/TeamAllocationView.jsx:22-28 | one turn updates the entry of the member's key, and appends the key to the order only on first sight |
| `TeamAllocation.AggregateStep` | src/views/TeamAllocationView.jsx:14-41 | one more project adds its group if it has named members, and adds its named members |
| `TeamAllocation.AddProject` | src/views/TeamAllocationView.jsx:14-41 | one turn of the outer loop |
| `TeamAllocation.Aggregate` | src/views/TeamAllocationView.jsx:10-47 | the groups, sorted by project name, and the totals over every named member |
| `TeamAllocation.Collect` | src/views/TeamAllocationView.jsx:14-41 | the outer loop yields the groups in project order and the totals |
| `TeamAllocation.GroupsSorted` | src/views/TeamAllocationView.jsx:44 | the sorted groups are the unsorted ones, ordered by name and stable among equal names |
| `TeamAllocation.RoundDivNearest` | src/views/TeamAllocationView.jsx:66 | `Math.round(a / n)` is the nearest whole number, ties going up |
| `TeamAllocation.ComputeStats` | src/views/TeamAllocationView.jsx:50-68 | the loop counts the people over and under 100 and averages the totals, giving 0 for nobody |
| `TeamAllocation.StatsPartition` | src/views/TeamAllocationView.jsx:56-60 | over, under and full partition the people |
| `TeamAllocation.EntriesOf` | src/views/TeamAllocationView.jsx:56 | iterating the map gives one entry per key, in insertion order |
| `TeamAllocation.StatsOfAggregate` | src/views/TeamAllocationView.jsx:50-68 | the member count is the number of distinct names, each person counted once |
| `TeamAllocation.AllocationClass` | src/views/TeamAllocationView.jsx:87-91 | over, full or under exactly as the total is above, at or below 100 |
| `TeamAllocation.MatchingMembers` | src/views/TeamAllocationView.jsx:77-79 | exactly the members whose name or role contains the term |
| `TeamAllocation.MatchingMembersSnoc` | src/views/TeamAllocationView.jsx:77-79 | one more member at the end is kept exactly when it matches the term |
| `TeamAllocation.MatchingMembersAppend` | src/views/TeamAllocationView.jsx:77-79 | the matching members keep their order and number: filtering two halves is filtering each |
| `TeamAllocation.SearchGroups` | src/views/TeamAllocationView.jsx:74-84 | exactly the groups that the map callback keeps |
| `TeamAllocation.SearchGroupsSnoc` | src/views/TeamAllocationView.jsx:74-84 | one more group at the end contributes its hit, if it has one |
| `TeamAllocation.SearchGroupsAppend` | src/views/TeamAllocationView.jsx:74-84 | the search keeps the order of the groups: searching two halves is searching each |
| `TeamAllocation.SearchGroupsNames` | src/views/TeamAllocationView.jsx:74-84 | every hit carries the name of a searched group |
| `TeamAllocation.SearchKeepsNameOrder` | src/views/TeamAllocationView.jsx:44-84 | groups sorted by name stay sorted by name after the search |
| `TeamAllocation.SearchMeaning` | src/views/TeamAllocationView.jsx:74-84 | each result is a group whose name matches, kept whole, or a group cut down to its non-empty matching members |
| `TeamAllocation.FilteredGroupsMeaning` | src/views/TeamAllocationView.jsx:71-85 | a blank term returns the groups unchanged; any other term searches with the lower-cased term |
| `ProjectEditor.RemoveAt` | src/components/ProjectEditor.jsx:84-90 | `splice(i, 1)` removes exactly position `i` and shifts the rest; past the end nothing changes |
| `ProjectEditor.ArtifactFieldRoundTrip` | src/components/ProjectEditor.jsx:56-65 | setting a field reads back the value and leaves the id and the other fields alone |
| `ProjectEditor.HandleArtifactChange` | src/components/ProjectEditor.jsx:56-65 | only the field of that row changes |
| `ProjectEditor.AddRemoveArtifact` | src/components/ProjectEditor.jsx:67-90 | adding appends one blank, unreceived artifact; removing it again restores the form |
| `ProjectEditor.HandleTeamMemberChange` | src/components/ProjectEditor.jsx:106-112 | only the name or role of that row changes |
| `ProjectEditor.AddRemoveTeamMember` | src/components/ProjectEditor.jsx:92-120 | adding appends one unnamed member; removing it again restores the form |
| `ProjectEditor.TrimmedOrAsIs` | src/components/ProjectEditor.jsx:132 | the trimmed text, or the text itself when that is blank |
| `ProjectEditor.TrimmedOrNull` | src/components/ProjectEditor.jsx:137 | null exactly for the empty string; the trimmed text when not blank |
| `ProjectEditor.CleanArtifacts` | src/components/ProjectEditor.jsx:138-147 | every named artifact, cleaned, and nothing else |
| `ProjectEditor.CleanArtifactsAppend` | src/components/ProjectEditor.jsx:138-147 | the named artifacts keep their order and number: cleaning two halves is cleaning each |
| `ProjectEditor.CleanArtifactsSnoc` | src/components/ProjectEditor.jsx:138-147 | one more artifact at the end is cleaned and appended when it has a name, and dropped otherwise |
| `ProjectEditor.CleanArtifactsSingle` | src/components/ProjectEditor.jsx:138-147 | a single artifact is dropped exactly when its name is blank |
| `ProjectEditor.CleanArtifactText` | src/components/ProjectEditor.jsx:138-147 | a stored artifact keeps its id and has a non-empty trimmed name and trimmed text |
| `ProjectEditor.CleanArtifactDates` | src/components/ProjectEditor.jsx:144-145 | empty dates become null; other dates are kept |
| `ProjectEditor.CleanArtifactIdempotent` | src/components/ProjectEditor.jsx:138-147 | cleaning a cleaned artifact changes nothing |
| `ProjectEditor.CleanArtifactsIdempotent` | src/components/ProjectEditor.jsx:138-147 | submitting an already submitted list stores it unchanged |
| `ProjectEditor.CleanMembers` | src/components/ProjectEditor.jsx:155-161 | every named member, cleaned, and nothing else |
| `ProjectEditor.CleanMembersAppend` | src/components/ProjectEditor.jsx:155-161 | the named members keep their order and number: cleaning two halves is cleaning each |
| `ProjectEditor.CleanMembersSnoc` | src/components/ProjectEditor.jsx:155-161 | one more member at the end is cleaned and appended when named, and dropped otherwise |
| `ProjectEditor.CleanMembersSingle` | src/components/ProjectEditor.jsx:155-161 | a single member is dropped exactly when its name is blank |
| `ProjectEditor.CleanMembersFields` | src/components/ProjectEditor.jsx:155-161 | every stored member has a non-empty trimmed name and a trimmed role, and keeps its id and allocation |
| `ProjectEditor.SubmitName` | src/components/ProjectEditor.jsx:122-130 | a blank name saves nothing, and only a blank name; a saved record has the trimmed non-blank name |
| `ProjectEditor.TrimmedNotBlank` | src/components/ProjectEditor.jsx:124-126 | a non-blank name trims to a non-blank trimmed name |
| `ProjectEditor.SubmitFields` | src/components/ProjectEditor.jsx:122-164 | id, status and priority as in the form; the client trimmed; the notes trimmed unless blank; the on-hold reason only for `on_hold`; the cleaned artifacts and members; the edited project's releases; no minutes |
| `ProjectEditor.StoredDate` | src/components/ProjectEditor.jsx:135-136 | a form date as stored: null for `''`, the date otherwise |
| `ProjectEditor.SubmitDates` | src/components/ProjectEditor.jsx:133-153 | each discovery and development date of the form is stored, with `''` as null; the discovery notes are trimmed, kept when blank, null when empty |
| `ProjectEditor.SubmitUnchangedForm` | src/components/ProjectEditor.jsx:7-164 | opening a project and saving at once keeps its id, status, priority and releases, trims its name and client, keeps each date except that a `''` date becomes null, and keeps the named artifacts and members, cleaned |
| `ProjectEditor.OrNullOfField` | src/components/ProjectEditor.jsx:13-21 | a missing date shown as `''` in the form is stored back as null, like an empty one |
| `MeetingMinutes.CloseAt` | src/components/MeetingMinutesPanel.jsx:6 | the first `>` of the text |
| `MeetingMinutes.RemoveTags` | src/components/MeetingMinutesPanel.jsx:6 | `replace(/<[^>]*>/g, '')` leaves no tag and adds no character |
| `MeetingMinutes.Collapse` | src/components/MeetingMinutesPanel.jsx:6 | `replace(/\s+/g, ' ')` leaves plain spaces and characters of the input that are not white space |
| `MeetingMinutes.CollapseTagFree` | src/components/MeetingMinutesPanel.jsx:6 | collapsing keeps a text tag-free |
| `MeetingMinutes.CollapseSpaces` | src/components/MeetingMinutesPanel.jsx:6 | after collapsing, all white space is single plain spaces |
| `MeetingMinutes.TrimKeeps` | src/components/MeetingMinutesPanel.jsx:6 | trimming keeps a text tag-free and collapsed |
| `MeetingMinutes.StripHtmlShape` | src/components/MeetingMinutesPanel.jsx:4-7 | the preview has no tag, no white space at either end and only single plain spaces; missing notes give `''` |
| `MeetingMinutes.RemoveTagsFixed` | src/components/MeetingMinutesPanel.jsx:6 | a tag-free text passes tag removal unchanged |
| `MeetingMinutes.CollapseFixed` | src/components/MeetingMinutesPanel.jsx:6 | a collapsed text passes collapsing unchanged |
| `MeetingMinutes.StripHtmlIdempotent` | src/components/MeetingMinutesPanel.jsx:4-7 | stripping a preview again gives the same preview |
| `MeetingMinutes.Sorted` | src/components/MeetingMinutesPanel.jsx:29 | a permutation of the minutes, newest date first, stable among equal dates |
| `MeetingMinutes.ReplaceById` | src/components/MeetingMinutesPanel.jsx:48 | every record with the edited id is replaced and every other is kept |
| `MeetingMinutes.WithoutId` | src/components/MeetingMinutesPanel.jsx:63 | the filter removes records and adds none |
| `MeetingMinutes.SaveBlankTitle` | src/components/MeetingMinutesPanel.jsx:45 | a blank title saves nothing, and only a blank title |
| `MeetingMinutes.SaveExisting` | src/components/MeetingMinutesPanel.jsx:47-48 | saving an edited record replaces it in place and keeps the length |
| `MeetingMinutes.SaveNew` | src/components/MeetingMinutesPanel.jsx:49-56 | saving a new record puts one record with the fresh id and creation time in front |
| `MeetingMinutes.SaveNewThenDelete` | src/components/MeetingMinutesPanel.jsx:44-66 | a confirmed delete of the record just added restores the list |
| `MeetingMinutes.WithoutIdMembers` | src/components/MeetingMinutesPanel.jsx:63 | a delete keeps exactly the records with another id |
| `MeetingMinutes.WithoutAbsent` | src/components/MeetingMinutesPanel.jsx:63 | deleting an id that no record has changes nothing |
| `MeetingMinutes.DeleteKeepsOrder` | src/components/MeetingMinutesPanel.jsx:63 | the delete filter distributes over concatenation and keeps the order |
| `FilterCounts.CountBy` | src/components/Filters.jsx:6-21 | the counting loop produces the tally that starts with `all` set to the length |
| `FilterCounts.TallyMeaning` | src/components/Filters.jsx:8-10 | each count is the starting value plus the number of items under the key; the keys are those of the start and of the items |
| `FilterCounts.CountsMeaning` | src/components/Filters.jsx:6-21 | a chip shows the number of items under its key, plus the length for `all`; a key that no item has shows 0 |
| `FilterCounts.SumShownIsGroupSizes` | src/components/Filters.jsx:6-12 | the counts under any keys other than `all` add up to those keys' group sizes |
| `FilterCounts.CountsPartition` | src/components/Filters.jsx:6-12 | the per-key counts add up to the number of items when no key is literally `all` |
| `FilterCounts.RiskDefault` | src/components/Filters.jsx:17 | on track exactly when the risk is missing, empty or `on-track` |
| `FilterCounts.StatusCounts` | src/components/Filters.jsx:6-12 | the status counts |
| `FilterCounts.RiskCounts` | src/components/Filters.jsx:14-21 | the risk counts, with the default risk |
| `FilterCounts.ActiveIffNotCleared` | src/components/Filters.jsx:23-27 | a filter is active exactly when the selection is not the cleared one, and clearing leaves none active |
| `TeamDirectory.EditorSubmitMeaning` | src/views/TeamView.jsx:21-28 | the editor saves exactly when the name is not blank, and passes every field through untrimmed |
| `TeamDirectory.EditUnchanged` | src/views/TeamView.jsx:6-28 | opening a member and saving at once hands back that member's id and fields |
| `TeamDirectory.HandleSaveMeaning` | src/views/TeamView.jsx:156-171 | an update exactly when the input has a non-empty id, under that id; the input is passed through |
| `TeamDirectory.NewFormCreates` | src/views/TeamView.jsx:156-164 | a new member's form creates; an existing member's form updates |
| `TeamDirectory.GroupByDepartment` | src/views/TeamView.jsx:174-181 | the reduce yields one group per department present, holding exactly that department's members in list order |
| `TeamDirectory.GroupOfMember` | src/views/TeamView.jsx:175-179 | each member is in its department's group and in no other; no department means `Unassigned` |
| `TeamDirectory.GroupSizesTotal` | src/views/TeamView.jsx:174-181 | the group sizes add up to the number of members |
| `TeamDirectory.Departments` | src/views/TeamView.jsx:183 | the departments present, each once, in ascending order |
| `LegacyApp.ComputeLegacyDerived` | src/App.jsx:48-88 | the legacy computation, computing each fact from the project and pushing its flags, returns the legacy derived record |
| `LegacyApp.LegacyRiskIff` | src/App.jsx:74-75 | on track exactly when nothing is flagged; otherwise at risk for a high-priority project and watch for any other |
| `LegacyApp.LegacyFlagsShape` | src/App.jsx:69-72 | at most three flags, each present exactly when its condition holds, in fixed order |
| `LegacyApp.LegacyFlagsLayout` | src/App.jsx:54-72 | the flags are built from the three late facts |
| `LegacyApp.LegacyLateArtifactsAreMissing` | src/App.jsx:54-60 | a late artifact is also missing |
| `LegacyApp.LegacyDaysLateIff` | src/App.jsx:84-86 | a days-late figure exists exactly when its phase is late, and it is then not negative |
| `LegacyApp.WithDerived` | src/App.jsx:917-924 | each project paired with its derived values, in order |
| `LegacyApp.FilteredMeaning` | src/App.jsx:926-934 | the filter keeps exactly the items that pass, in order |
| `LegacyApp.FilteredAll` | src/App.jsx:926-934 | with both selections `all`, everything is shown |
| `LegacyApp.FilteredByStatus` | src/App.jsx:929 | selecting a status shows exactly that status's projects |
| `LegacyApp.FilteredByRisk` | src/App.jsx:930 | selecting a risk shows exactly that risk's projects |
| `LegacyApp.StatusChipMatchesList` | src/App.jsx:926-934 | a status chip's count is the length of the list that selecting it shows |
| `LegacyApp.RiskChipMatchesList` | src/App.jsx:928-931 | a risk chip's count is the length of the list that selecting it shows |
| `LegacyApp.RiskChipCount` | src/components/Filters.jsx:14-21 | for any list with non-empty risks, the risk chip counts what the risk filter shows |
| `LegacyApp.Risks` | src/components/Filters.jsx:16-17 | the overall risks, one per listed project |
| `LegacyApp.FilterSizeAlong` | src/components/Filters.jsx:6-21 | lists whose keys agree position by position have groups of equal size |
| `LegacyApp.HandleSave` | src/App.jsx:1003-1018 | an input with an id replaces the found project by its update, or reports not-found; one without an id appends the new project; each returns the saved project or the storage failure; a blank name is refused with nothing changed |
| `LegacyApp.LegacySubmitted` | src/App.jsx:686-711 | the saved name is trimmed and not blank |
| `LegacyApp.LegacySubmitMeaning` | src/App.jsx:686-711 | a blank name saves nothing, and only then; the on-hold reason is empty unless `on_hold`; the project's artifacts and releases are kept; no team or minutes are sent |
| `LegacyApp.LegacySubmitDates` | src/App.jsx:686-711 | id, status and priority as in the form; client and notes trimmed; discovery notes trimmed or null; each date stored with `''` as null |
| `LegacyApp.LegacyEditKeepsTeam` | src/App.jsx:686-711 | saving a legacy edit through the store keeps the project's team members, minutes, required artifacts and releases |

## Left out

- I/O:
  - The `localStorage` and Firestore calls themselves are left out. Their outcomes are parameters of the store methods: `StoredRead`, `SaveResult`, `RemoteResult`, `FetchResult` and the snapshots that arrive during an awaited write.
  - JSON text is represented by what `JSON.parse` yields (`JsonText`); serialization and parsing themselves are left out.
  - Console logging and `alert` are left out; errors are `Result` values.
- Ids and time:
  - Ids from `Date.now()`/`Math.random()` and `toISOString()` timestamps are parameters.
  - `new Date()` is the parameter `now`.
  - Date-string parsing is the parameter `parse`.
  - `ProjectUtils.IsPast` and `ProjectUtils.StartOfDay` take day boundaries in UTC; `setHours(0, 0, 0, 0)` uses the local time zone, which is outside the model.
- Strings:
  - `localeCompare` is modelled as code-point order. Locale collation is outside the model.
  - `toLowerCase`/`toUpperCase` map ASCII letters only; full Unicode case mapping is left out.
  - Strings are sequences of Unicode code points. Only the avatar hash reads UTF-16 code units (`Strings.CodeUnits`).
  - `formatDate` in the meeting-minutes panel only formats text for display, and is left out.
- Sorting and numbers:
  - `ProjectUtils.NextIndex`: the comparator `new Date(a) - new Date(b)` yields `NaN` for an invalid end date, and the order the engine then picks is unspecified. The model treats an invalid end date as never sorting first.
  - Floating-point division is replaced by exact rounding of integers (`Math.round` of a quotient of whole milliseconds or whole percentages), which agrees for the values involved.
- Objects and listeners:
  - A listener that throws is left out: the source catches and logs it, and the others still run, so the recorded call list is unchanged.
  - Keys that come from `Object.prototype` in the count dictionaries are left out: maps start empty.
  - Explicit `undefined` values in spread objects are left out: an `Option` field is either given or absent.
- `Strings.Le`: compares code points, while the default `sort()` compares UTF-16 code units. The two disagree only when one string has a character beyond U+FFFF where the other has one from U+E000 to U+FFFF: U+1F600 sorts after U+FF21 here and before it in JavaScript.
- `ProjectUtils.InitialsShape`: the first initial is the first code point of the name. JavaScript's `parts[0][0]` takes only the high surrogate of a character beyond U+FFFF, a lone code unit that this model cannot represent.
- `ProjectEditor.HandleArtifactChange`: requires the row index to be on screen. With an index past the end, JavaScript would write a new sparse row, which the UI never does.
- `ProjectEditor.HandleTeamMemberChange`: requires the row index to be on screen, for the same reason.
- `ProjectUtils.ComputeProjectDerived`: `discoveryIsLate` is `false` where the source's `&&` chain yields `null`, which happens when there is no valid target date. Only its truthiness is used downstream.
- `LegacyApp.ComputeLegacyDerived`: the same holds for its `discoveryIsLate` and `devIsLate`.
- Confirm dialogs and the chip `onChange` handler are left out. `window.confirm` is the parameter `confirmed` of `MeetingMinutes.DeleteMinute`, and clearing the filters is modelled by `FilterCounts.ClearFilters`.
- Rendering (JSX, styling, routing, modal open/close state) is left out.

## Findings

| source | as written | input that shows it | evidently intended | confidence | as-written member | corrected member |
|---|---|---|---|---|---|---|
| src/utils/projectUtils.js:32-36 | a name of white space only passes the `!name` check; it trims to `''`, `parts[0][0]` is `undefined`, and the result is the text `UNDEFINED` | `getInitials("  ")` | a blank name gives `?`, like a missing one | high (not executed) | `ProjectUtils.BlankInitialsAsWritten` | `ProjectUtils.InitialsShape` |
| src/services/teamService.js:57-74 | `setUser` starts a new Firestore sync without cancelling the previous snapshot listener, and on sign-out cancels only the latest one | sign in as `alice`, sign in as `bob`, sign out; then a snapshot for `alice` arrives | each sign-in cancels the earlier listener, so after sign-out none is live and the list stays empty | high (not executed) | `TeamStore.StaleListenerAfterAccountSwitch` | `TeamStore.NoListenerAfterSignOut` |
