/** Grouping a list by a string key: the elements under one key, the distinct
    keys in first-occurrence order, and the fact that the groups partition the
    list. */
module Grouping {
  import opened Base

  /** `findIndex((x) => key(x) === k)`, with `None` for -1: the first
      position whose key is `k`. */
  function IndexOf<T>(s: seq<T>, key: T -> string, k: string): (r: Option<nat>)
    ensures r.Some? ==> r.value < |s| && key(s[r.value]) == k &&
                        forall j :: 0 <= j < r.value ==> key(s[j]) != k
    ensures r.None? ==> forall j :: 0 <= j < |s| ==> key(s[j]) != k
  {
    if s == [] then None
    else if key(s[0]) == k then Some(0)
    else match IndexOf(s[1..], key, k)
      case None => None
      case Some(i) => Some(i + 1)
  }

  /** The elements of `s` whose key is `k`, in their original order. */
  function Filter<T>(s: seq<T>, key: T -> string, k: string): (r: seq<T>)
    ensures |r| <= |s|
    ensures forall x :: x in r ==> x in s && key(x) == k
    ensures forall x :: x in s && key(x) == k ==> x in r
  {
    if s == [] then []
    else if key(s[|s| - 1]) == k then Filter(s[..|s| - 1], key, k) + [s[|s| - 1]]
    else Filter(s[..|s| - 1], key, k)
  }

  /** The distinct keys of `s`, in the order in which they first occur. */
  function Keys<T>(s: seq<T>, key: T -> string): (ks: seq<string>)
    ensures forall k :: k in ks <==> exists x :: x in s && key(x) == k
    ensures forall i, j :: 0 <= i < j < |ks| ==> ks[i] != ks[j]
  {
    if s == [] then []
    else
      var ks := Keys(s[..|s| - 1], key);
      var last := s[|s| - 1];
      assert forall x :: x in s ==> x in s[..|s| - 1] || x == last;
      if key(last) in ks then ks else ks + [key(last)]
  }

  /** The total size of the groups of the keys `ks`. */
  function GroupSizes<T>(ks: seq<string>, s: seq<T>, key: T -> string): nat
  {
    if ks == [] then 0 else GroupSizes(ks[..|ks| - 1], s, key) + |Filter(s, key, ks[|ks| - 1])|
  }

  lemma {:induction false} FilterAppend<T>(s: seq<T>, x: T, key: T -> string, k: string)
    ensures Filter(s + [x], key, k) == Filter(s, key, k) + (if key(x) == k then [x] else [])
  {
    assert (s + [x])[..|s|] == s;
  }

  lemma {:induction false} GroupSizesAppendKey<T>(ks: seq<string>, k: string, s: seq<T>, key: T -> string)
    ensures GroupSizes(ks + [k], s, key) == GroupSizes(ks, s, key) + |Filter(s, key, k)|
  {
    assert (ks + [k])[..|ks|] == ks;
  }

  /** Adding one element to the list adds one to the group sizes of a key set
      that holds its key, and nothing to one that does not. */
  lemma {:induction false} GroupSizesAppend<T>(ks: seq<string>, s: seq<T>, x: T, key: T -> string)
    requires forall i, j :: 0 <= i < j < |ks| ==> ks[i] != ks[j]
    ensures GroupSizes(ks, s + [x], key) == GroupSizes(ks, s, key) + (if key(x) in ks then 1 else 0)
  {
    if ks != [] {
      var init, k := ks[..|ks| - 1], ks[|ks| - 1];
      assert ks == init + [k];
      GroupSizesAppend(init, s, x, key);
      FilterAppend(s, x, key, k);
      assert key(x) in ks <==> key(x) in init || key(x) == k;
      if key(x) == k {
        assert key(x) !in init;
      }
    }
  }

  /** Every element lands in exactly one group: the group sizes over the
      distinct keys add up to the length of the list. */
  lemma {:induction false} GroupsPartition<T>(s: seq<T>, key: T -> string)
    ensures GroupSizes(Keys(s, key), s, key) == |s|
  {
    if s != [] {
      var init, x := s[..|s| - 1], s[|s| - 1];
      assert s == init + [x];
      var ks := Keys(init, key);
      GroupsPartition(init, key);
      GroupSizesAppend(ks, init, x, key);
      if key(x) in ks {
        assert Keys(s, key) == ks;
      } else {
        assert Keys(s, key) == ks + [key(x)];
        GroupSizesAppendKey(ks, key(x), s, key);
        FilterAppend(init, x, key, key(x));
        NoKeyNoGroup(init, key, key(x));
      }
    }
  }

  lemma NoKeyNoGroup<T>(s: seq<T>, key: T -> string, k: string)
    requires k !in Keys(s, key)
    ensures Filter(s, key, k) == []
  {
    var r := Filter(s, key, k);
    assert forall i :: 0 <= i < |r| ==> r[i] in r;
  }
}
