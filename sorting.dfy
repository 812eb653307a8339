/** `[...xs].sort((a, b) => key(a).localeCompare(key(b)))` and its descending
    form: a stable sort of a copy by a string key. JavaScript's sort is stable,
    so equal keys keep their input order; insertion sort has the same result. */
module Sorting {
  import opened Strings
  import opened Grouping

  /** Whether key `a` may come before key `b`. */
  predicate InOrder(a: string, b: string, desc: bool)
  {
    if desc then Le(b, a) else Le(a, b)
  }

  ghost predicate SortedBy<T>(s: seq<T>, key: T -> string, desc: bool)
  {
    forall i, j :: 0 <= i < j < |s| ==> InOrder(key(s[i]), key(s[j]), desc)
  }

  /** Put `x` before the first element whose key it may precede. */
  function Insert<T>(x: T, s: seq<T>, key: T -> string, desc: bool): (r: seq<T>)
    ensures multiset(r) == multiset(s) + multiset{x}
  {
    if s == [] || InOrder(key(x), key(s[0]), desc) then [x] + s
    else
      assert s == [s[0]] + s[1..];
      [s[0]] + Insert(x, s[1..], key, desc)
  }

  function SortBy<T>(s: seq<T>, key: T -> string, desc: bool): (r: seq<T>)
    ensures multiset(r) == multiset(s)
  {
    if s == [] then []
    else
      assert s == [s[0]] + s[1..];
      Insert(s[0], SortBy(s[1..], key, desc), key, desc)
  }

  lemma InOrderTotal(a: string, b: string, desc: bool)
    ensures InOrder(a, b, desc) || InOrder(b, a, desc)
  {
    LeTotal(a, b);
  }

  lemma InOrderTransitive(a: string, b: string, c: string, desc: bool)
    requires InOrder(a, b, desc) && InOrder(b, c, desc)
    ensures InOrder(a, c, desc)
  {
    if desc { LeTransitive(c, b, a); } else { LeTransitive(a, b, c); }
  }

  lemma {:induction false} InsertSorted<T>(x: T, s: seq<T>, key: T -> string, desc: bool)
    requires SortedBy(s, key, desc)
    ensures SortedBy(Insert(x, s, key, desc), key, desc)
  {
    var r := Insert(x, s, key, desc);
    if s == [] {
    } else if InOrder(key(x), key(s[0]), desc) {
      forall j | 1 <= j < |r| ensures InOrder(key(x), key(r[j]), desc) {
        assert r[j] == s[j - 1];
        if j > 1 {
          InOrderTransitive(key(x), key(s[0]), key(s[j - 1]), desc);
        }
      }
    } else {
      var t := Insert(x, s[1..], key, desc);
      assert r == [s[0]] + t;
      InsertSorted(x, s[1..], key, desc);
      InOrderTotal(key(x), key(s[0]), desc);
      forall j | 0 <= j < |t| ensures InOrder(key(s[0]), key(t[j]), desc) {
        assert t[j] in multiset(t);
        assert t[j] == x || t[j] in multiset(s[1..]);
        if t[j] != x {
          var m :| 0 <= m < |s[1..]| && s[1..][m] == t[j];
          assert s[m + 1] == t[j];
        }
      }
      assert forall i, j :: 0 <= i < j < |r| && i > 0 ==> r[i] == t[i - 1] && r[j] == t[j - 1];
    }
  }

  /** The result is sorted by the key. */
  lemma {:induction false} SortBySorted<T>(s: seq<T>, key: T -> string, desc: bool)
    ensures SortedBy(SortBy(s, key, desc), key, desc)
  {
    if s != [] {
      SortBySorted(s[1..], key, desc);
      InsertSorted(s[0], SortBy(s[1..], key, desc), key, desc);
    }
  }

  /** Inserting `x` adds it to the group of its own key, in front, and
      leaves every other group alone. */
  lemma {:induction false} InsertStable<T>(x: T, s: seq<T>, key: T -> string, desc: bool, k: string)
    ensures Filter(Insert(x, s, key, desc), key, k) == (if key(x) == k then [x] else []) + Filter(s, key, k)
  {
    if s == [] || InOrder(key(x), key(s[0]), desc) {
      assert Insert(x, s, key, desc) == [x] + s;
      FilterCons(x, s, key, k);
    } else {
      var h, t := s[0], s[1..];
      assert s == [h] + t;
      assert Insert(x, s, key, desc) == [h] + Insert(x, t, key, desc);
      LeReflexive(key(x));
      InsertStable(x, t, key, desc, k);
      InsertStableStep(x, h, t, Insert(x, t, key, desc), key, k);
    }
  }

  lemma InsertStableStep<T>(x: T, h: T, t: seq<T>, it: seq<T>, key: T -> string, k: string)
    requires key(h) != key(x)
    requires Filter(it, key, k) == (if key(x) == k then [x] else []) + Filter(t, key, k)
    ensures Filter([h] + it, key, k) == (if key(x) == k then [x] else []) + Filter([h] + t, key, k)
  {
    FilterCons(h, it, key, k);
    FilterCons(h, t, key, k);
  }

  lemma {:induction false} FilterCons<T>(x: T, s: seq<T>, key: T -> string, k: string)
    ensures Filter([x] + s, key, k) == (if key(x) == k then [x] else []) + Filter(s, key, k)
  {
    if s != [] {
      FilterCons(x, s[..|s| - 1], key, k);
      FilterConsStep(x, s, key, k);
    } else {
      FilterOne(x, key, k);
    }
  }

  /** One more element at the end keeps the `FilterCons` equation. */
  lemma FilterConsStep<T>(x: T, s: seq<T>, key: T -> string, k: string)
    requires s != []
    requires Filter([x] + s[..|s| - 1], key, k) == (if key(x) == k then [x] else []) + Filter(s[..|s| - 1], key, k)
    ensures Filter([x] + s, key, k) == (if key(x) == k then [x] else []) + Filter(s, key, k)
  {
    var init, last := s[..|s| - 1], s[|s| - 1];
    var xs := [x] + s;
    assert xs[..|xs| - 1] == [x] + init;
    FilterSnoc(xs, key, k);
    FilterSnoc(s, key, k);
    var a, b, c := if key(x) == k then [x] else [], Filter(init, key, k), if key(last) == k then [last] else [];
    assert (a + b) + c == a + (b + c);
  }

  /** `Filter` unfolded once. */
  lemma FilterSnoc<T>(s: seq<T>, key: T -> string, k: string)
    requires s != []
    ensures Filter(s, key, k) ==
      Filter(s[..|s| - 1], key, k) + (if key(s[|s| - 1]) == k then [s[|s| - 1]] else [])
  {
  }

  lemma FilterOne<T>(x: T, key: T -> string, k: string)
    ensures Filter([x], key, k) == if key(x) == k then [x] else []
  {
    assert [x][..0] == [];
  }

  /** Stability: within each key the sorted list keeps the input order. */
  lemma {:induction false} SortByStable<T>(s: seq<T>, key: T -> string, desc: bool, k: string)
    ensures Filter(SortBy(s, key, desc), key, k) == Filter(s, key, k)
  {
    if s != [] {
      SortByStable(s[1..], key, desc, k);
      InsertStable(s[0], SortBy(s[1..], key, desc), key, desc, k);
      FilterCons(s[0], s[1..], key, k);
      assert [s[0]] + s[1..] == s;
    }
  }
}
