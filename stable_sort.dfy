/** The stable sort by start time that the lane assigners apply to their
    input array (`items.sort((a, b) => a.start - b.start)`). */
module StableSort {
  import opened Types

  predicate SortedByStart(s: seq<TimelineItem>) {
    forall i, j :: 0 <= i < j < |s| ==> s[i].start <= s[j].start
  }

  /** The items of `s` that start at instant `k`, in their order in `s`. */
  function WithStart(s: seq<TimelineItem>, k: int): seq<TimelineItem> {
    if s == [] then []
    else WithStart(s[..|s| - 1], k) + (if s[|s| - 1].start == k then [s[|s| - 1]] else [])
  }

  lemma WithStartSnoc(s: seq<TimelineItem>, y: TimelineItem, k: int)
    ensures WithStart(s + [y], k) == WithStart(s, k) + (if y.start == k then [y] else [])
  {
    assert (s + [y])[..|s|] == s;
  }

  /** Inserts `x` into a sorted sequence after every item that starts no later
      than `x` does, which is where a stable sort puts a later item. */
  function Insert(t: seq<TimelineItem>, x: TimelineItem): (r: seq<TimelineItem>)
    ensures |r| == |t| + 1
  {
    if t == [] || t[|t| - 1].start <= x.start then t + [x]
    else Insert(t[..|t| - 1], x) + [t[|t| - 1]]
  }

  lemma {:induction false} InsertPermutes(t: seq<TimelineItem>, x: TimelineItem)
    ensures multiset(Insert(t, x)) == multiset(t) + multiset{x}
  {
    if t != [] && t[|t| - 1].start > x.start {
      InsertPermutes(t[..|t| - 1], x);
      assert t == t[..|t| - 1] + [t[|t| - 1]];
    }
  }

  lemma {:induction false} InsertSorted(t: seq<TimelineItem>, x: TimelineItem)
    requires SortedByStart(t)
    ensures SortedByStart(Insert(t, x))
  {
    if t == [] || t[|t| - 1].start <= x.start {
    } else {
      var init := t[..|t| - 1];
      var rest := Insert(init, x);
      InsertSorted(init, x);
      InsertPermutes(init, x);
      forall y | y in rest
        ensures y.start <= t[|t| - 1].start
      {
        assert y in multiset(rest);
      }
    }
  }

  lemma {:induction false} InsertWithStart(t: seq<TimelineItem>, x: TimelineItem, k: int)
    ensures WithStart(Insert(t, x), k) == WithStart(t, k) + (if x.start == k then [x] else [])
  {
    if t == [] || t[|t| - 1].start <= x.start {
      WithStartSnoc(t, x, k);
    } else {
      var init, last := t[..|t| - 1], t[|t| - 1];
      assert t == init + [last];
      InsertWithStart(init, x, k);
      WithStartSnoc(Insert(init, x), last, k);
      WithStartSnoc(init, last, k);
    }
  }

  /** Stable insertion sort by start time. */
  function SortByStart(s: seq<TimelineItem>): (r: seq<TimelineItem>)
    ensures |r| == |s|
  {
    if s == [] then []
    else Insert(SortByStart(s[..|s| - 1]), s[|s| - 1])
  }

  /** The sort orders by start, keeps every item, and keeps the input order
      of items that start at the same instant. */
  lemma {:induction false} SortByStartIsStableSort(s: seq<TimelineItem>)
    ensures SortedByStart(SortByStart(s))
    ensures multiset(SortByStart(s)) == multiset(s)
    ensures forall k :: WithStart(SortByStart(s), k) == WithStart(s, k)
  {
    if s != [] {
      var init, last := s[..|s| - 1], s[|s| - 1];
      SortByStartIsStableSort(init);
      InsertPermutes(SortByStart(init), last);
      assert s == init + [last];
      InsertSorted(SortByStart(init), last);
      forall k ensures WithStart(SortByStart(s), k) == WithStart(s, k) {
        InsertWithStart(SortByStart(init), last, k);
      }
    }
  }

  /** Any result that is sorted by start and keeps, for every instant, the
      input order of the items starting then, is the result of SortByStart:
      every stable sort of the input agrees with this model. */
  lemma StableSortIsUnique(s: seq<TimelineItem>, t: seq<TimelineItem>)
    requires SortedByStart(t)
    requires forall k :: WithStart(t, k) == WithStart(s, k)
    ensures t == SortByStart(s)
  {
    SortByStartIsStableSort(s);
    SameGroupsSameSeq(t, SortByStart(s));
  }

  /** Sorting input that is already in start order leaves it as it is; in
      particular sorting twice is sorting once. */
  lemma SortedInputUnchanged(s: seq<TimelineItem>)
    requires SortedByStart(s)
    ensures SortByStart(s) == s
  {
    StableSortIsUnique(s, s);
  }

  lemma {:induction false} GroupWitness(s: seq<TimelineItem>, k: int) returns (i: int)
    requires WithStart(s, k) != []
    ensures 0 <= i < |s| && s[i].start == k
  {
    if s[|s| - 1].start == k {
      i := |s| - 1;
    } else {
      i := GroupWitness(s[..|s| - 1], k);
    }
  }

  /** Two start-sorted sequences that agree on every start group are equal. */
  lemma {:induction false} SameGroupsSameSeq(t: seq<TimelineItem>, u: seq<TimelineItem>)
    requires SortedByStart(t) && SortedByStart(u)
    requires forall k :: WithStart(t, k) == WithStart(u, k)
    ensures t == u
    decreases |t| + |u|
  {
    if t == [] && u == [] {
    } else if t == [] {
      NonEmptyGroup(u, |u| - 1);
      assert false;
    } else if u == [] {
      NonEmptyGroup(t, |t| - 1);
      assert false;
    } else {
      var t', x := t[..|t| - 1], t[|t| - 1];
      var u', y := u[..|u| - 1], u[|u| - 1];
      assert t == t' + [x] && u == u' + [y];
      SameLastStart(t, u);
      var k := x.start;
      WithStartSnoc(t', x, k);
      WithStartSnoc(u', y, k);
      SnocInjective(WithStart(t', k), x, WithStart(u', k), y);
      forall k' ensures WithStart(t', k') == WithStart(u', k') {
        if k' != k {
          assert WithStart(t, k') == WithStart(u, k');
          WithStartSnoc(t', x, k');
          WithStartSnoc(u', y, k');
          assert WithStart(t, k') == WithStart(t', k');
          assert WithStart(u, k') == WithStart(u', k');
        } else {
          assert WithStart(t', k) == WithStart(u', k);
        }
      }
      SameGroupsSameSeq(t', u');
    }
  }

  lemma {:induction false} NonEmptyGroup(s: seq<TimelineItem>, i: int)
    requires 0 <= i < |s|
    ensures WithStart(s, s[i].start) != []
  {
    if i < |s| - 1 {
      NonEmptyGroup(s[..|s| - 1], i);
    }
  }

  lemma SnocInjective(a: seq<TimelineItem>, x: TimelineItem, b: seq<TimelineItem>, y: TimelineItem)
    requires a + [x] == b + [y]
    ensures a == b && x == y
  {
    assert (a + [x])[..|a|] == a && (b + [y])[..|b|] == b;
    assert (a + [x])[|a|] == x && (b + [y])[|b|] == y;
  }

  /** In two start-sorted sequences with the same start groups the last items
      start at the same instant (the latest start of both). */
  lemma SameLastStart(t: seq<TimelineItem>, u: seq<TimelineItem>)
    requires SortedByStart(t) && SortedByStart(u) && t != [] && u != []
    requires forall k :: WithStart(t, k) == WithStart(u, k)
    ensures t[|t| - 1].start == u[|u| - 1].start
  {
    var x, y := t[|t| - 1], u[|u| - 1];
    NonEmptyGroup(t, |t| - 1);
    NonEmptyGroup(u, |u| - 1);
    assert WithStart(u, x.start) != [] by { assert WithStart(t, x.start) == WithStart(u, x.start); }
    assert WithStart(t, y.start) != [] by { assert WithStart(t, y.start) == WithStart(u, y.start); }
    var i := GroupWitness(u, x.start);
    var j := GroupWitness(t, y.start);
    assert x.start <= y.start by { if i < |u| - 1 { assert u[i].start <= u[|u| - 1].start; } }
    assert y.start <= x.start by { if j < |t| - 1 { assert t[j].start <= t[|t| - 1].start; } }
  }

  /** `Insert` puts `x` right after the last item that starts no later than it. */
  lemma {:induction false} InsertAt(t: seq<TimelineItem>, x: TimelineItem, j: int)
    requires 0 <= j <= |t|
    requires j == 0 || t[j - 1].start <= x.start
    requires forall m :: j <= m < |t| ==> t[m].start > x.start
    ensures Insert(t, x) == t[..j] + [x] + t[j..]
    decreases |t|
  {
    if j == |t| {
      assert t[..j] == t && t[j..] == [];
    } else {
      var init, last := t[..|t| - 1], t[|t| - 1];
      assert last.start > x.start;
      assert Insert(t, x) == Insert(init, x) + [last];
      InsertAt(init, x, j);
      assert init[..j] == t[..j];
      assert t[j..] == init[j..] + [last];
    }
  }

  /** The array prefix after the insertion loop, read as a sequence. */
  lemma Shifted(b: seq<TimelineItem>, t: seq<TimelineItem>, x: TimelineItem, j: int)
    requires |b| == |t| + 1 && 0 <= j <= |t|
    requires forall m :: 0 <= m < j ==> b[m] == t[m]
    requires b[j] == x
    requires forall m :: j < m < |b| ==> b[m] == t[m - 1]
    ensures b == t[..j] + [x] + t[j..]
  {
    var r := t[..j] + [x] + t[j..];
    forall m | 0 <= m < |b| ensures b[m] == r[m] {
      if m > j {
        assert r[m] == t[j..][m - j - 1];
      }
    }
  }

  lemma SortByStartSnoc(s: seq<TimelineItem>, i: int)
    requires 0 <= i < |s|
    ensures SortByStart(s[..i + 1]) == Insert(SortByStart(s[..i]), s[i])
  {
    assert s[..i + 1][..i] == s[..i];
  }

  /** `Array.prototype.sort` as the source calls it: in place on the caller's
      array, ordered by start, stable. */
  method SortInPlace(a: array<TimelineItem>)
    modifies a
    ensures a[..] == SortByStart(old(a[..]))
  {
    ghost var s := a[..];
    var i := 0;
    while i < a.Length
      invariant 0 <= i <= a.Length
      invariant a[..i] == SortByStart(s[..i])
      invariant a[i..] == s[i..]
    {
      assert a[i] == s[i] by { assert a[i..][0] == s[i..][0]; }
      assert a[i + 1..] == s[i + 1..] by { assert a[i + 1..] == a[i..][1..]; }
      InsertInto(a, i);
      SortByStartSnoc(s, i);
      i := i + 1;
    }
    assert a[..] == a[..a.Length] && s == s[..a.Length];
  }

  /** One step of the insertion sort: moves `a[i]` left past every item of the
      sorted prefix `a[..i]` that starts strictly later. */
  method InsertInto(a: array<TimelineItem>, i: int)
    requires 0 <= i < a.Length
    modifies a
    ensures a[..i + 1] == Insert(old(a[..i]), old(a[i]))
    ensures a[i + 1..] == old(a[i + 1..])
  {
    var x := a[i];
    ghost var t := a[..i];
    ghost var rest := a[i + 1..];
    var j := i;
    while j > 0 && a[j - 1].start > x.start
      invariant 0 <= j <= i
      invariant forall m :: 0 <= m < j ==> a[m] == t[m]
      invariant forall m :: j < m <= i ==> a[m] == t[m - 1]
      invariant a[i + 1..] == rest
      invariant forall m :: j <= m < i ==> t[m].start > x.start
    {
      assert a[j - 1] == t[j - 1];
      a[j] := a[j - 1];
      j := j - 1;
    }
    a[j] := x;
    InsertAt(t, x, j);
    Shifted(a[..i + 1], t, x, j);
  }
}
