/** The query façade shared by the services: "first row that matches",
    which is what a single-row lookup returns, and the one ordering clause
    of every list query, newest first by a timestamp key (created_at). Ties
    keep no particular order; only non-increasing keys and the multiset of
    rows are promised. */
module Query {
  import opened Common

  /** Position of the first row the predicate accepts. */
  function FirstIndex<T>(rows: seq<T>, hit: T -> bool): (r: Option<nat>)
    ensures r.Some? ==> r.value < |rows| && hit(rows[r.value])
    ensures r.Some? ==> forall k :: 0 <= k < r.value ==> !hit(rows[k])
    ensures r.None? ==> forall k :: 0 <= k < |rows| ==> !hit(rows[k])
    decreases |rows|
  {
    if rows == [] then None
    else if hit(rows[0]) then Some(0)
    else
      match FirstIndex(rows[1..], hit)
      case None => None
      case Some(k) => Some(k + 1)
  }

  /** No two rows share a key: what a primary key or a unique index keeps. */
  ghost predicate DistinctKeys<T, K>(rows: seq<T>, key: T -> K) {
    forall i, j :: 0 <= i < j < |rows| ==> key(rows[i]) != key(rows[j])
  }

  /** Position of the first row with the given key. */
  function KeyIndex<T, K(==)>(rows: seq<T>, key: T -> K, k: K): (r: Option<nat>)
    ensures r.Some? ==> r.value < |rows| && key(rows[r.value]) == k
    ensures r.None? ==> forall n :: 0 <= n < |rows| ==> key(rows[n]) != k
  {
    FirstIndex(rows, (x: T) => key(x) == k)
  }

  /** Under distinct keys, looking up a stored row's key finds that row. */
  lemma KeyIndexDistinct<T, K>(rows: seq<T>, key: T -> K, n: nat)
    requires DistinctKeys(rows, key) && n < |rows|
    ensures KeyIndex(rows, key, key(rows[n])) == Some(n)
  {
    var r := KeyIndex(rows, key, key(rows[n]));
    assert r.Some?;
  }

  /** Keys never increase from left to right. */
  ghost predicate SortedDesc<T>(s: seq<T>, key: T -> int) {
    forall i, j :: 0 <= i < j < |s| ==> key(s[i]) >= key(s[j])
  }

  /** Puts `x` in front of the first element whose key is not larger. */
  function InsertDesc<T(==)>(x: T, s: seq<T>, key: T -> int): (r: seq<T>)
    requires SortedDesc(s, key)
    ensures SortedDesc(r, key)
    ensures multiset(r) == multiset(s) + multiset{x}
    ensures |r| == |s| + 1
    decreases |s|
  {
    if s == [] || key(x) >= key(s[0]) then
      HeadBoundsSorted(x, s, key);
      [x] + s
    else
      assert s == [s[0]] + s[1..];
      var tail := InsertDesc(x, s[1..], key);
      InsertedBelowHead(x, s, tail, key);
      HeadBoundsSorted(s[0], tail, key);
      [s[0]] + tail
  }

  /** Every element of a non-increasing sequence is bounded by its head. */
  lemma HeadBoundsSorted<T>(h: T, t: seq<T>, key: T -> int)
    requires SortedDesc(t, key)
    requires t != [] ==> key(h) >= key(t[0])
    ensures SortedDesc([h] + t, key)
  {
    var r := [h] + t;
    forall i, j | 0 <= i < j < |r| ensures key(r[i]) >= key(r[j]) {
      if i == 0 { assert r[j] == t[j - 1]; if j > 1 { assert key(t[0]) >= key(t[j - 1]); } }
      else { assert r[i] == t[i - 1] && r[j] == t[j - 1]; }
    }
  }

  /** Inserting `x` below the head of `s` keeps every element under that head. */
  lemma InsertedBelowHead<T>(x: T, s: seq<T>, tail: seq<T>, key: T -> int)
    requires s != [] && SortedDesc(s, key) && key(x) < key(s[0])
    requires multiset(tail) == multiset(s[1..]) + multiset{x}
    ensures tail != [] ==> key(s[0]) >= key(tail[0])
  {
    if tail != [] {
      assert tail[0] in multiset(tail);
      if tail[0] != x {
        assert tail[0] in multiset(s[1..]);
        var k :| 0 <= k < |s[1..]| && s[1..][k] == tail[0];
        assert s[k + 1] == tail[0];
      }
    }
  }

  /** Insertion sort on the created_at key, newest first. */
  function SortDesc<T(==)>(s: seq<T>, key: T -> int): (r: seq<T>)
    ensures SortedDesc(r, key)
    ensures multiset(r) == multiset(s)
    ensures |r| == |s|
    decreases |s|
  {
    if s == [] then []
    else
      assert s == [s[0]] + s[1..];
      InsertDesc(s[0], SortDesc(s[1..], key), key)
  }
}
