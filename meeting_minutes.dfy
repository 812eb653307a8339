/** The meeting-minutes panel of src/components/MeetingMinutesPanel.jsx:
    the plain-text preview of a rich-text note, the date-descending listing,
    saving a new or edited record and deleting one. The fresh id and the
    creation time of a new record, and the answer to the confirmation
    dialog, are parameters. */
module MeetingMinutes {
  import opened Base
  import opened Strings
  import opened Grouping
  import opened Sorting
  import opened Records

  // ---------------------------------------------------------------------------
  // stripHtml

  /** No `<` is followed, anywhere later, by a `>`: nothing in the text can
      still be read as a tag. */
  predicate TagFree(s: string)
  {
    forall i, j :: 0 <= i < j < |s| && s[i] == '<' ==> s[j] != '>'
  }

  /** Every white-space character is a plain space and no two are adjacent. */
  predicate SpacesCollapsed(s: string)
  {
    (forall i :: 0 <= i < |s| && IsSpace(s[i]) ==> s[i] == ' ') &&
    (forall i :: 0 <= i < |s| - 1 ==> !(IsSpace(s[i]) && IsSpace(s[i + 1])))
  }

  /** Position of the first `>` in `s`. */
  function CloseAt(s: string): (k: nat)
    requires '>' in s
    ensures k < |s| && s[k] == '>' && '>' !in s[..k]
  {
    if s[0] == '>' then 0 else CloseAt(s[1..]) + 1
  }

  /** `.replace(/<[^>]*>/g, '')`: scanning from the left, a `<` that has a
      `>` somewhere after it is removed together with everything up to the
      first such `>`; a `<` with no `>` after it stays. */
  function RemoveTags(s: string): (r: string)
    ensures TagFree(r)
    ensures forall c :: c in r ==> c in s
    ensures |r| <= |s|
  {
    if s == [] then []
    else if s[0] == '<' && '>' in s[1..] then
      var k := CloseAt(s[1..]);
      RemoveTags(s[1..][k + 1..])
    else
      var t := RemoveTags(s[1..]);
      assert forall c :: c in t ==> c in s;
      assert s[0] == '<' ==> '>' !in t;
      [s[0]] + t
  }

  /** `.replace(/\s+/g, ' ')`: every maximal run of white space becomes one
      space. */
  function Collapse(s: string): (r: string)
    ensures forall i :: 0 <= i < |r| ==> r[i] == ' ' || (r[i] in s && !IsSpace(r[i]))
    ensures |r| <= |s|
    decreases |s|
  {
    if s == [] then []
    else if IsSpace(s[0]) then
      var t := TrimStart(s[1..]);
      var u := Collapse(t);
      assert forall c :: c in t ==> c in s;
      [' '] + u
    else
      var u := Collapse(s[1..]);
      assert forall c :: c in s[1..] ==> c in s;
      [s[0]] + u
  }

  /** `stripHtml(html)`: `''` for a missing or empty note, otherwise the
      text with tags removed, white-space runs collapsed, and trimmed. */
  function StripHtml(html: Option<string>): string
  {
    if !Truthy(html) then "" else Trim(Collapse(RemoveTags(html.value)))
  }

  /** Collapsing keeps a text tag-free. */
  lemma {:induction false} CollapseTagFree(s: string)
    requires TagFree(s)
    ensures TagFree(Collapse(s))
  {
    if s != [] {
      if IsSpace(s[0]) {
        var rest := TrimStart(s[1..]);
        assert rest == s[|s| - |rest|..];
        SuffixTagFree(s, |s| - |rest|);
        CollapseTagFree(rest);
        ConsTagFree(' ', Collapse(rest));
      } else {
        var rest := s[1..];
        SuffixTagFree(s, 1);
        CollapseTagFree(rest);
        if s[0] == '<' {
          assert forall k :: 0 <= k < |rest| ==> rest[k] == s[k + 1];
          assert '>' !in rest;
        }
        ConsTagFree(s[0], Collapse(rest));
      }
    }
  }

  /** A suffix of a tag-free text is tag-free. */
  lemma SuffixTagFree(s: string, n: nat)
    requires n <= |s| && TagFree(s)
    ensures TagFree(s[n..])
  {
    var t := s[n..];
    forall i, j | 0 <= i < j < |t| && t[i] == '<' ensures t[j] != '>' {
      assert t[i] == s[n + i] && t[j] == s[n + j];
    }
  }

  /** One character in front of a tag-free text keeps it tag-free unless
      it opens a tag the text closes. */
  lemma ConsTagFree(c: char, u: string)
    requires TagFree(u)
    requires c == '<' ==> '>' !in u
    ensures TagFree([c] + u)
  {
    var t := [c] + u;
    forall i, j | 0 <= i < j < |t| && t[i] == '<' ensures t[j] != '>' {
      assert t[j] == u[j - 1];
      if i > 0 {
        assert t[i] == u[i - 1];
      }
    }
  }

  /** The collapsed text has only plain, single spaces. */
  lemma {:induction false} CollapseSpaces(s: string)
    ensures SpacesCollapsed(Collapse(s))
    decreases |s|
  {
    if s != [] {
      var r := Collapse(s);
      if IsSpace(s[0]) {
        var t := TrimStart(s[1..]);
        CollapseSpaces(t);
        var u := Collapse(t);
        assert r == [' '] + u;
        if u != [] {
          assert t != [] && !IsSpace(t[0]);
          assert u[0] == t[0];
        }
      } else {
        CollapseSpaces(s[1..]);
        assert r == [s[0]] + Collapse(s[1..]);
      }
    }
  }

  /** A slice of a tag-free text with collapsed spaces is both too. */
  lemma SliceKeeps(s: string, a: nat, b: nat)
    requires a <= b <= |s|
    requires TagFree(s) && SpacesCollapsed(s)
    ensures TagFree(s[a..b]) && SpacesCollapsed(s[a..b])
  {
    var t := s[a..b];
    forall i, j | 0 <= i < j < |t| && t[i] == '<' ensures t[j] != '>' {
      assert t[i] == s[a + i] && t[j] == s[a + j];
    }
    forall i | 0 <= i < |t| - 1 ensures !(IsSpace(t[i]) && IsSpace(t[i + 1])) {
      assert t[i] == s[a + i] && t[i + 1] == s[a + i + 1];
    }
  }

  /** Trimming a tag-free text with collapsed spaces keeps both. */
  lemma TrimKeeps(c: string)
    requires TagFree(c) && SpacesCollapsed(c)
    ensures TagFree(Trim(c)) && SpacesCollapsed(Trim(c))
  {
    var a, b := TrimSlice(c);
    SliceKeeps(c, a, b);
  }

  /** The preview holds no tag, no leading or trailing white space, and no
      white space other than single plain spaces. */
  lemma StripHtmlShape(html: Option<string>)
    ensures var r := StripHtml(html);
      TagFree(r) && SpacesCollapsed(r) && Trim(r) == r &&
      (r == [] || (!IsSpace(r[0]) && !IsSpace(r[|r| - 1])))
  {
    if Truthy(html) {
      var t := RemoveTags(html.value);
      var c := Collapse(t);
      assert StripHtml(html) == Trim(c);
      CollapseTagFree(t);
      CollapseSpaces(t);
      TrimKeeps(c);
      TrimBounds(c);
      TrimIdempotent(c);
    }
  }

  /** Tag removal leaves a tag-free text as it is. */
  lemma {:induction false} RemoveTagsFixed(s: string)
    requires TagFree(s)
    ensures RemoveTags(s) == s
  {
    if s != [] {
      assert TagFree(s[1..]) by {
        forall i, j | 0 <= i < j < |s[1..]| && s[1..][i] == '<' ensures s[1..][j] != '>' {
          assert s[1..][i] == s[i + 1] && s[1..][j] == s[j + 1];
        }
      }
      if s[0] == '<' {
        assert '>' !in s[1..] by {
          forall j | 0 <= j < |s[1..]| ensures s[1..][j] != '>' {
            assert s[1..][j] == s[j + 1];
          }
        }
      }
      RemoveTagsFixed(s[1..]);
    }
  }

  /** Collapsing leaves text with single plain spaces as it is. */
  lemma {:induction false} CollapseFixed(s: string)
    requires SpacesCollapsed(s)
    ensures Collapse(s) == s
    decreases |s|
  {
    if s != [] {
      assert SpacesCollapsed(s[1..]) by {
        forall i | 0 <= i < |s[1..]| - 1 ensures !(IsSpace(s[1..][i]) && IsSpace(s[1..][i + 1])) {
          assert s[1..][i] == s[i + 1] && s[1..][i + 1] == s[i + 2];
        }
      }
      if IsSpace(s[0]) {
        if |s| > 1 {
          assert !IsSpace(s[1]);
        }
        assert TrimStart(s[1..]) == s[1..];
      }
      CollapseFixed(s[1..]);
    }
  }

  /** Stripping a preview again gives the same preview. */
  lemma StripHtmlIdempotent(html: Option<string>)
    ensures StripHtml(Some(StripHtml(html))) == StripHtml(html)
  {
    var r := StripHtml(html);
    StripHtmlShape(html);
    if r != [] {
      RemoveTagsFixed(r);
      CollapseFixed(r);
    }
  }

  // ---------------------------------------------------------------------------
  // The listing

  /** `a.date || ''` */
  function DateKey(m: Minute): string
  {
    if Truthy(m.date) then m.date.value else ""
  }

  /** `[...minutes].sort((a, b) => (b.date || '').localeCompare(a.date || ''))`:
      the same records, newest date first, records of one date in the
      order they were stored. */
  function Sorted(minutes: seq<Minute>): (r: seq<Minute>)
    ensures multiset(r) == multiset(minutes)
    ensures SortedBy(r, DateKey, true)
    ensures forall d :: Filter(r, DateKey, d) == Filter(minutes, DateKey, d)
  {
    SortBySorted(minutes, DateKey, true);
    assert forall d :: Filter(SortBy(minutes, DateKey, true), DateKey, d) == Filter(minutes, DateKey, d) by {
      forall d { SortByStable(minutes, DateKey, true, d); }
    }
    SortBy(minutes, DateKey, true)
  }

  // ---------------------------------------------------------------------------
  // Save and delete

  /** `minutes.map((m) => (m.id === editing.id ? { ...editing } : m))` */
  function ReplaceById(minutes: seq<Minute>, editing: Minute): (r: seq<Minute>)
    ensures |r| == |minutes|
    ensures forall i :: 0 <= i < |r| ==> r[i] == (if minutes[i].id == editing.id then editing else minutes[i])
  {
    if minutes == [] then []
    else [if minutes[0].id == editing.id then editing else minutes[0]] + ReplaceById(minutes[1..], editing)
  }

  /** `handleFormSave()`: nothing happens for a blank title (`None`); a
      record with an id replaces the stored records with that id; a new
      record gets the fresh id and creation time and goes first. */
  function FormSave(minutes: seq<Minute>, editing: Minute, freshId: string, createdAt: string): Option<seq<Minute>>
  {
    if IsBlank(editing.title) then None
    else if Truthy(editing.id) then Some(ReplaceById(minutes, editing))
    else Some([editing.(id := Some(freshId), createdAt := Some(createdAt))] + minutes)
  }

  /** `minutes.filter((m) => m.id !== momId)` */
  function WithoutId(minutes: seq<Minute>, id: Option<string>): (r: seq<Minute>)
    ensures |r| <= |minutes|
  {
    if minutes == [] then []
    else (if minutes[0].id != id then [minutes[0]] else []) + WithoutId(minutes[1..], id)
  }

  /** `handleDeleteMom(momId)`: nothing happens unless the deletion is
      confirmed. */
  function DeleteMinute(minutes: seq<Minute>, id: Option<string>, confirmed: bool): Option<seq<Minute>>
  {
    if !confirmed then None else Some(WithoutId(minutes, id))
  }

  /** A blank title saves nothing, and only a blank title. */
  lemma SaveBlankTitle(minutes: seq<Minute>, editing: Minute, freshId: string, createdAt: string)
    ensures FormSave(minutes, editing, freshId, createdAt).None? <==> IsBlank(editing.title)
  {
  }

  /** Saving an edited record puts it in place of every record with its
      id, leaves the others, and saving it a second time changes nothing
      more. A record whose id is no longer stored is dropped silently. */
  lemma SaveExisting(minutes: seq<Minute>, editing: Minute, freshId: string, createdAt: string)
    requires !IsBlank(editing.title) && Truthy(editing.id)
    ensures var r := FormSave(minutes, editing, freshId, createdAt).value;
      |r| == |minutes| &&
      (forall i :: 0 <= i < |r| && minutes[i].id == editing.id ==> r[i] == editing) &&
      (forall i :: 0 <= i < |r| && minutes[i].id != editing.id ==> r[i] == minutes[i]) &&
      FormSave(r, editing, freshId, createdAt).value == r &&
      ((forall m :: m in minutes ==> m.id != editing.id) ==> r == minutes)
  {
    var r := ReplaceById(minutes, editing);
    var r2 := ReplaceById(r, editing);
    assert r2 == r by {
      forall i | 0 <= i < |r| ensures r2[i] == r[i] {
      }
    }
  }

  /** Saving a new record prepends exactly one record carrying the fresh
      id and creation time and the form's date, title and notes. */
  lemma SaveNew(minutes: seq<Minute>, editing: Minute, freshId: string, createdAt: string)
    requires !IsBlank(editing.title) && !Truthy(editing.id)
    ensures var r := FormSave(minutes, editing, freshId, createdAt).value;
      |r| == |minutes| + 1 && r[1..] == minutes &&
      r[0].id == Some(freshId) && r[0].title == editing.title && r[0].notes == editing.notes &&
      r[0].date == editing.date && r[0].createdAt == Some(createdAt)
  {
    var r := [editing.(id := Some(freshId), createdAt := Some(createdAt))] + minutes;
    assert FormSave(minutes, editing, freshId, createdAt) == Some(r);
    assert r[1..] == minutes;
  }

  /** Deleting the record just saved, under its fresh id, gives back the
      list. */
  lemma SaveNewThenDelete(minutes: seq<Minute>, editing: Minute, freshId: string, createdAt: string)
    requires !IsBlank(editing.title) && !Truthy(editing.id)
    requires forall m :: m in minutes ==> m.id != Some(freshId)
    ensures DeleteMinute(FormSave(minutes, editing, freshId, createdAt).value, Some(freshId), true) == Some(minutes)
  {
    var n := editing.(id := Some(freshId), createdAt := Some(createdAt));
    assert FormSave(minutes, editing, freshId, createdAt) == Some([n] + minutes);
    WithoutAbsent(minutes, Some(freshId));
    DeleteKeepsOrder([n], minutes, Some(freshId));
    assert [n][1..] == [];
    assert WithoutId([n], Some(freshId)) == [];
    assert WithoutId([n] + minutes, Some(freshId)) == minutes;
  }

  /** Deleting keeps exactly the records with another id. */
  lemma {:induction false} WithoutIdMembers(minutes: seq<Minute>, id: Option<string>)
    ensures forall m :: m in WithoutId(minutes, id) <==> m in minutes && m.id != id
  {
    if minutes != [] {
      WithoutIdMembers(minutes[1..], id);
      assert forall m :: m in minutes <==> m == minutes[0] || m in minutes[1..];
    }
  }

  /** Filtering out an id nobody has changes nothing. */
  lemma {:induction false} WithoutAbsent(minutes: seq<Minute>, id: Option<string>)
    requires forall m :: m in minutes ==> m.id != id
    ensures WithoutId(minutes, id) == minutes
  {
    if minutes != [] {
      WithoutAbsent(minutes[1..], id);
    }
  }

  /** A confirmed delete removes every record with the id and keeps the
      others in order: deleting from two halves is deleting from each. */
  lemma {:induction false} DeleteKeepsOrder(a: seq<Minute>, b: seq<Minute>, id: Option<string>)
    ensures WithoutId(a + b, id) == WithoutId(a, id) + WithoutId(b, id)
  {
    if a == [] {
      assert a + b == b;
    } else {
      var h := if a[0].id != id then [a[0]] else [];
      assert (a + b)[0] == a[0] && (a + b)[1..] == a[1..] + b;
      calc {
        WithoutId(a + b, id);
        h + WithoutId(a[1..] + b, id);
        { DeleteKeepsOrder(a[1..], b, id); }
        h + (WithoutId(a[1..], id) + WithoutId(b, id));
        (h + WithoutId(a[1..], id)) + WithoutId(b, id);
        WithoutId(a, id) + WithoutId(b, id);
      }
    }
  }
}
