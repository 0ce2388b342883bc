/** Ordering of the kept entries: a stable sort on a chosen key. */
module Ranking {
  import opened Catalog

  predicate SortedBy<T>(s: seq<T>, key: T -> real) {
    forall i, j | 0 <= i < j < |s| :: key(s[i]) <= key(s[j])
  }

  /** The elements of `s` whose key is `k`, in their order in `s`. */
  function WithKey<T>(s: seq<T>, key: T -> real, k: real): seq<T> {
    if s == [] then []
    else (if key(s[0]) == k then [s[0]] else []) + WithKey(s[1..], key, k)
  }

  lemma ConsSorted<T>(y: T, t: seq<T>, key: T -> real)
    requires SortedBy(t, key)
    requires t != [] ==> key(y) <= key(t[0])
    ensures SortedBy([y] + t, key)
  {
    var r := [y] + t;
    forall i, j | 0 <= i < j < |r| ensures key(r[i]) <= key(r[j]) {
      if i == 0 {
        assert r[j] == t[j - 1];
        if j > 1 { assert key(t[0]) <= key(t[j - 1]); }
      } else {
        assert r[i] == t[i - 1] && r[j] == t[j - 1];
      }
    }
  }

  /** Put `x` into a sorted sequence before the first element whose key is not smaller. */
  function Insert<T(==)>(x: T, s: seq<T>, key: T -> real): (r: seq<T>)
    requires SortedBy(s, key)
    ensures SortedBy(r, key)
    ensures multiset(r) == multiset(s) + multiset{x}
    ensures r != [] && (r[0] == x || (s != [] && r[0] == s[0]))
  {
    if s == [] || key(x) <= key(s[0]) then
      ConsSorted(x, s, key);
      [x] + s
    else
      var tail := Insert(x, s[1..], key);
      assert s == [s[0]] + s[1..];
      assert tail[0] != x ==> key(s[0]) <= key(s[1]);
      ConsSorted(s[0], tail, key);
      [s[0]] + tail
  }

  /** A stable sort by `key`, ascending, as Python's `sorted(..., key=...)`. */
  function SortBy<T(==)>(s: seq<T>, key: T -> real): (r: seq<T>)
    ensures SortedBy(r, key)
    ensures multiset(r) == multiset(s)
  {
    if s == [] then []
    else
      assert s == [s[0]] + s[1..];
      Insert(s[0], SortBy(s[1..], key), key)
  }

  lemma WithKeyCons<T>(y: T, rest: seq<T>, key: T -> real, k: real)
    ensures WithKey([y] + rest, key, k) == (if key(y) == k then [y] else []) + WithKey(rest, key, k)
  {
    assert ([y] + rest)[0] == y;
    assert ([y] + rest)[1..] == rest;
  }

  /** Inserting `x` in front of the elements it is not smaller than keeps, for
      every key, the order in which elements with that key appear. */
  lemma {:induction false} InsertStable<T>(x: T, s: seq<T>, key: T -> real, k: real)
    requires SortedBy(s, key)
    ensures WithKey(Insert(x, s, key), key, k) == WithKey([x] + s, key, k)
  {
    if s != [] && key(x) > key(s[0]) {
      var tail := Insert(x, s[1..], key);
      var hx := if key(x) == k then [x] else [];
      var h0 := if key(s[0]) == k then [s[0]] else [];
      assert hx == [] || h0 == [];
      calc {
        WithKey(Insert(x, s, key), key, k);
        { WithKeyCons(s[0], tail, key, k); }
        h0 + WithKey(tail, key, k);
        { InsertStable(x, s[1..], key, k); }
        h0 + WithKey([x] + s[1..], key, k);
        { WithKeyCons(x, s[1..], key, k); }
        h0 + (hx + WithKey(s[1..], key, k));
        hx + (h0 + WithKey(s[1..], key, k));
        { WithKeyCons(s[0], s[1..], key, k); assert [s[0]] + s[1..] == s; }
        hx + WithKey(s, key, k);
        { WithKeyCons(x, s, key, k); }
        WithKey([x] + s, key, k);
      }
    }
  }

  /** The sort is stable: for every key value, the elements with that key come
      out in the order they went in. */
  lemma {:induction false} SortByStable<T>(s: seq<T>, key: T -> real, k: real)
    ensures WithKey(SortBy(s, key), key, k) == WithKey(s, key, k)
  {
    if s != [] {
      calc {
        WithKey(SortBy(s, key), key, k);
        WithKey(Insert(s[0], SortBy(s[1..], key), key), key, k);
        { InsertStable(s[0], SortBy(s[1..], key), key, k); }
        WithKey([s[0]] + SortBy(s[1..], key), key, k);
        { WithKeyCons(s[0], SortBy(s[1..], key), key, k); }
        (if key(s[0]) == k then [s[0]] else []) + WithKey(SortBy(s[1..], key), key, k);
        { SortByStable(s[1..], key, k); }
        (if key(s[0]) == k then [s[0]] else []) + WithKey(s[1..], key, k);
        { WithKeyCons(s[0], s[1..], key, k); assert [s[0]] + s[1..] == s; }
        WithKey(s, key, k);
      }
    }
  }

  function MagnitudeKey(r: ResultEntry): real {
    r.details.mag
  }

  function TransitDepthKey(r: ResultEntry): real {
    1.0 - r.details.transitDv
  }

  /** The ranker: "Magnitude" sorts brightest (lowest magnitude) first,
      "Transit depth" sorts deepest transit first (ascending `1 - depth`),
      and any other order leaves the entries as they are. */
  function SortExoplanets(entries: seq<ResultEntry>, order: string): (r: seq<ResultEntry>)
    ensures order == "Magnitude" ==>
              multiset(r) == multiset(entries)
              && forall i, j | 0 <= i < j < |r| :: r[i].details.mag <= r[j].details.mag
    ensures order == "Transit depth" ==>
              multiset(r) == multiset(entries)
              && forall i, j | 0 <= i < j < |r| :: r[i].details.transitDv >= r[j].details.transitDv
    ensures order != "Magnitude" && order != "Transit depth" ==> r == entries
  {
    if order == "Magnitude" then
      var sorted := SortBy(entries, MagnitudeKey);
      assert forall i, j | 0 <= i < j < |sorted| :: MagnitudeKey(sorted[i]) <= MagnitudeKey(sorted[j]);
      sorted
    else if order == "Transit depth" then
      var sorted := SortBy(entries, TransitDepthKey);
      assert forall i, j | 0 <= i < j < |sorted| :: TransitDepthKey(sorted[i]) <= TransitDepthKey(sorted[j]);
      sorted
    else
      entries
  }

  /** Entries that tie on the chosen key keep their relative order. */
  lemma SortExoplanetsStable(entries: seq<ResultEntry>, order: string, k: real)
    ensures order == "Magnitude" ==>
              WithKey(SortExoplanets(entries, order), MagnitudeKey, k) == WithKey(entries, MagnitudeKey, k)
    ensures order == "Transit depth" ==>
              WithKey(SortExoplanets(entries, order), TransitDepthKey, k) == WithKey(entries, TransitDepthKey, k)
  {
    SortByStable(entries, MagnitudeKey, k);
    SortByStable(entries, TransitDepthKey, k);
  }
}
