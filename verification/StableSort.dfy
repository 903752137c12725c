/** Stable sorting by an integer key, as Rust's `sort_by` and `sort_by_key` provide it. */
module StableSort {

  /** Inserts after every element whose key is not greater. */
  function Insert<T>(sorted: seq<T>, x: T, key: T -> int): (r: seq<T>)
    ensures |r| == |sorted| + 1
  {
    if sorted == [] || key(sorted[|sorted| - 1]) <= key(x) then sorted + [x]
    else Insert(sorted[..|sorted| - 1], x, key) + [sorted[|sorted| - 1]]
  }

  function Sort<T>(s: seq<T>, key: T -> int): (r: seq<T>)
    ensures |r| == |s|
  {
    if s == [] then [] else Insert(Sort(s[..|s| - 1], key), s[|s| - 1], key)
  }

  ghost predicate Sorted<T>(s: seq<T>, key: T -> int) {
    forall i, j :: 0 <= i < j < |s| ==> key(s[i]) <= key(s[j])
  }

  /** The elements with key `k`, in their order. */
  ghost function WithKey<T>(s: seq<T>, key: T -> int, k: int): seq<T> {
    if s == [] then []
    else WithKey(s[..|s| - 1], key, k) + if key(s[|s| - 1]) == k then [s[|s| - 1]] else []
  }

  lemma {:induction false} InsertBounded<T>(sorted: seq<T>, x: T, key: T -> int, limit: int)
    requires Sorted(sorted, key)
    requires key(x) <= limit && forall i :: 0 <= i < |sorted| ==> key(sorted[i]) <= limit
    ensures Sorted(Insert(sorted, x, key), key)
    ensures forall i :: 0 <= i <= |sorted| ==> key(Insert(sorted, x, key)[i]) <= limit
    decreases |sorted|
  {
    var n := |sorted| - 1;
    if n >= 0 && key(sorted[n]) > key(x) {
      InsertBounded(sorted[..n], x, key, key(sorted[n]));
    }
  }

  lemma {:induction false} InsertIsStable<T>(sorted: seq<T>, x: T, key: T -> int, k: int)
    requires Sorted(sorted, key)
    ensures WithKey(Insert(sorted, x, key), key, k) == WithKey(sorted, key, k) + if key(x) == k then [x] else []
    decreases |sorted|
  {
    var r := Insert(sorted, x, key);
    var n := |sorted| - 1;
    if n >= 0 && key(sorted[n]) > key(x) {
      InsertIsStable(sorted[..n], x, key, k);
      assert r[..|r| - 1] == Insert(sorted[..n], x, key);
      if key(x) == k {
        assert key(sorted[n]) != k;
      }
    } else {
      assert r[..|r| - 1] == sorted;
    }
  }

  lemma {:induction false} SortSorts<T>(s: seq<T>, key: T -> int)
    ensures Sorted(Sort(s, key), key)
    decreases |s|
  {
    if s != [] {
      var n := |s| - 1;
      SortSorts(s[..n], key);
      var earlier := Sort(s[..n], key);
      var limit := if n > 0 && key(earlier[n - 1]) > key(s[n]) then key(earlier[n - 1]) else key(s[n]);
      InsertBounded(earlier, s[n], key, limit);
    }
  }

  /** Sorting keeps, for every key, exactly the elements with that key in their original order. */
  lemma {:induction false} SortIsStable<T>(s: seq<T>, key: T -> int, k: int)
    ensures WithKey(Sort(s, key), key, k) == WithKey(s, key, k)
    decreases |s|
  {
    if s != [] {
      var n := |s| - 1;
      SortIsStable(s[..n], key, k);
      SortSorts(s[..n], key);
      InsertIsStable(Sort(s[..n], key), s[n], key, k);
    }
  }

  lemma {:induction false} SortOfSorted<T>(s: seq<T>, key: T -> int)
    requires Sorted(s, key)
    ensures Sort(s, key) == s
    decreases |s|
  {
    if s != [] {
      var n := |s| - 1;
      SortOfSorted(s[..n], key);
      assert s == s[..n] + [s[n]];
    }
  }

  lemma SplitBeforeLast<T>(s: seq<T>, k: nat)
    requires k < |s|
    ensures s[..|s| - 1][..k] == s[..k] && s[..|s| - 1][k..] + [s[|s| - 1]] == s[k..]
  {
  }

  lemma {:induction false} InsertPosition<T>(sorted: seq<T>, x: T, key: T -> int) returns (k: nat)
    requires Sorted(sorted, key)
    ensures k <= |sorted| && Insert(sorted, x, key) == sorted[..k] + [x] + sorted[k..]
    ensures forall i :: 0 <= i < k ==> key(sorted[i]) <= key(x)
    ensures forall i :: k <= i < |sorted| ==> key(sorted[i]) > key(x)
    decreases |sorted|
  {
    var n := |sorted| - 1;
    if n >= 0 && key(sorted[n]) > key(x) {
      var front, last := sorted[..n], [sorted[n]];
      k := InsertPosition(front, x, key);
      SplitBeforeLast(sorted, k);
      assert (front[..k] + [x] + front[k..]) + last == front[..k] + [x] + (front[k..] + last);
    } else {
      k := n + 1;
      assert sorted[..k] == sorted && sorted[k..] == [];
    }
  }

  /** Position `p` of `s` precedes position `q` in stably sorted order. */
  ghost predicate Precedes<T>(s: seq<T>, key: T -> int, p: nat, q: nat)
    requires p < |s| && q < |s|
  {
    key(s[p]) < key(s[q]) || (key(s[p]) == key(s[q]) && p < q)
  }

  /** `order` lists the positions of `s` in stably sorted order. */
  ghost predicate IsOrder<T>(s: seq<T>, key: T -> int, order: seq<nat>) {
    && |order| == |s|
    && (forall l :: 0 <= l < |order| ==> order[l] < |s|)
    && (forall k, l :: 0 <= k < l < |order| ==> Precedes(s, key, order[k], order[l]))
    && (forall p: nat :: p < |s| ==> p in order)
  }

  /** What sorting does, exactly: it lists the elements in the one stable order of their positions. */
  lemma {:induction false} SortOrder<T>(s: seq<T>, key: T -> int) returns (order: seq<nat>)
    ensures IsOrder(s, key, order)
    ensures forall l :: 0 <= l < |s| ==> Sort(s, key)[l] == s[order[l]]
    decreases |s|
  {
    if s == [] {
      order := [];
    } else {
      var n := |s| - 1;
      var earlier := SortOrder(s[..n], key);
      SortSorts(s[..n], key);
      var at := InsertPosition(Sort(s[..n], key), s[n], key);
      order := earlier[..at] + [n] + earlier[at..];
      assert forall l :: 0 <= l < n ==> Sort(s[..n], key)[l] == s[earlier[l]];
      InsertedOrder(s, key, earlier, at, order);
      InsertedLists(s, Sort(s[..n], key), earlier, at, order);
    }
  }

  lemma InsertedLists<T>(s: seq<T>, listed: seq<T>, earlier: seq<nat>, at: nat, order: seq<nat>)
    requires s != [] && |listed| == |earlier| == |s| - 1 && at < |s|
    requires forall l :: 0 <= l < |earlier| ==> earlier[l] < |s| && listed[l] == s[earlier[l]]
    requires order == earlier[..at] + [|s| - 1] + earlier[at..]
    ensures |order| == |s|
    ensures var after := listed[..at] + [s[|s| - 1]] + listed[at..];
            forall l :: 0 <= l < |s| ==> order[l] < |s| && after[l] == s[order[l]]
  {
  }

  lemma InsertedOrder<T>(s: seq<T>, key: T -> int, earlier: seq<nat>, at: nat, order: seq<nat>)
    requires s != [] && IsOrder(s[..|s| - 1], key, earlier) && at < |s|
    requires order == earlier[..at] + [|s| - 1] + earlier[at..]
    requires forall l :: 0 <= l < at ==> key(s[earlier[l]]) <= key(s[|s| - 1])
    requires forall l :: at <= l < |earlier| ==> key(s[earlier[l]]) > key(s[|s| - 1])
    ensures IsOrder(s, key, order)
  {
    var n := |s| - 1;
    forall k, l | 0 <= k < l < |order|
      ensures order[k] < |s| && order[l] < |s| && Precedes(s, key, order[k], order[l])
    {
      var k', l' := if k < at then k else k - 1, if l < at then l else l - 1;
      if k != at && l != at {
        assert Precedes(s[..n], key, earlier[k'], earlier[l']);
      }
    }
    forall p: nat | p < |s|
      ensures p in order
    {
      if p < n {
        assert p in earlier;
        var l :| 0 <= l < |earlier| && earlier[l] == p;
        assert order[if l < at then l else l + 1] == p;
      } else {
        assert order[at] == p;
      }
    }
  }
}
