/** The first-fit packing of items sorted by start uses as few lanes as any
    packing can: its lane count is the largest number of items that occupy
    one instant. An item occupies an instant from its start until `gap` after
    its end, so no two items occupying the same instant can share a lane. */
module Optimality {
  import opened Types
  import opened StableSort
  import opened LaneAssignment
  import opened LaneProperties

  /** `x` has started at `t` and its lane cannot take a new item at `t`. */
  predicate Occupies(x: TimelineItem, t: int, gap: int) {
    x.start <= t < x.end + gap
  }

  /** The number of items of `s` that occupy instant `t`. */
  function Occupancy(s: seq<TimelineItem>, t: int, gap: int): nat {
    if s == [] then 0
    else (if Occupies(s[0], t, gap) then 1 else 0) + Occupancy(s[1..], t, gap)
  }

  /** An item that ends no earlier than it starts and occupies its own start
      instant (it has positive length or the gap is positive). */
  predicate Proper(x: TimelineItem, gap: int) {
    x.start <= x.end && x.start < x.end + gap
  }

  /** Lanes that every packing rule of the source would accept. */
  predicate ValidPacking(lanes: seq<Lane>, gap: int) {
    forall k :: 0 <= k < |lanes| ==> RespectsGap(lanes[k], gap)
  }

  lemma {:induction false} OccupancyConcat(a: seq<TimelineItem>, b: seq<TimelineItem>, t: int, gap: int)
    ensures Occupancy(a + b, t, gap) == Occupancy(a, t, gap) + Occupancy(b, t, gap)
  {
    if a == [] {
      assert a + b == b;
    } else {
      assert (a + b)[1..] == a[1..] + b;
      OccupancyConcat(a[1..], b, t, gap);
    }
  }

  /** Occupancy depends only on which items there are, not on their order. */
  lemma {:induction false} OccupancyPermutation(a: seq<TimelineItem>, b: seq<TimelineItem>, t: int, gap: int)
    requires multiset(a) == multiset(b)
    ensures Occupancy(a, t, gap) == Occupancy(b, t, gap)
    decreases |a|
  {
    if a == [] {
      assert |b| == |multiset(b)| == 0;
    } else {
      var x := a[0];
      assert x in multiset(b);
      var i :| 0 <= i < |b| && b[i] == x;
      var b' := b[..i] + b[i + 1..];
      assert b == b[..i] + [x] + b[i + 1..];
      assert multiset(b) == multiset(b') + multiset{x};
      assert a == [x] + a[1..];
      assert multiset(a) == multiset(a[1..]) + multiset{x};
      Cancel(multiset(b'), multiset(a[1..]), x);
      OccupancyPermutation(a[1..], b', t, gap);
      OccupancyConcat(b[..i] + [x], b[i + 1..], t, gap);
      OccupancyConcat(b[..i], [x], t, gap);
      OccupancyConcat(b[..i], b[i + 1..], t, gap);
      assert [x][1..] == [];
    }
  }

  lemma Cancel(p: multiset<TimelineItem>, q: multiset<TimelineItem>, x: TimelineItem)
    requires p + multiset{x} == q + multiset{x}
    ensures p == q
  {
    forall y ensures p[y] == q[y] {
      assert (p + multiset{x})[y] == (q + multiset{x})[y];
    }
  }

  /** In a lane keeping the gap, an item ends at least `gap` before every
      later item starts. */
  lemma {:induction false} GapChains(lane: Lane, gap: int, i: int, j: int)
    requires gap >= 0 && RespectsGap(lane, gap)
    requires forall x :: x in lane ==> x.start <= x.end
    requires 0 <= i < j < |lane|
    ensures lane[i].end + gap <= lane[j].start
    decreases j - i
  {
    if i + 1 < j {
      GapChains(lane, gap, i + 1, j);
      assert lane[i + 1] in lane;
    }
  }

  lemma {:induction false} NoneOccupy(s: seq<TimelineItem>, t: int, gap: int)
    requires forall m :: 0 <= m < |s| ==> !Occupies(s[m], t, gap)
    ensures Occupancy(s, t, gap) == 0
  {
    if s != [] {
      NoneOccupy(s[1..], t, gap);
    }
  }

  /** At most one item of a lane occupies any instant. */
  lemma LaneOccupancy(lane: Lane, t: int, gap: int)
    requires gap >= 0 && RespectsGap(lane, gap)
    requires forall x :: x in lane ==> x.start <= x.end
    ensures Occupancy(lane, t, gap) <= 1
  {
    if lane != [] && Occupies(lane[0], t, gap) {
      forall m | 0 <= m < |lane[1..]| ensures !Occupies(lane[1..][m], t, gap) {
        GapChains(lane, gap, 0, m + 1);
      }
      NoneOccupy(lane[1..], t, gap);
    } else if lane != [] {
      var rest := lane[1..];
      assert RespectsGap(rest, gap) by {
        forall i | 0 < i < |rest| ensures rest[i - 1].end + gap <= rest[i].start {
          assert rest[i - 1] == lane[i] && rest[i] == lane[i + 1];
        }
      }
      LaneOccupancy(rest, t, gap);
    }
  }

  /** A valid packing has at least as many lanes as items occupying any one
      instant. */
  lemma {:induction false} PackingOccupancy(lanes: seq<Lane>, t: int, gap: int)
    requires gap >= 0 && ValidPacking(lanes, gap)
    requires forall x :: x in Flatten(lanes) ==> x.start <= x.end
    ensures Occupancy(Flatten(lanes), t, gap) <= |lanes|
  {
    if lanes != [] {
      OccupancyConcat(lanes[0], Flatten(lanes[1..]), t, gap);
      LaneOccupancy(lanes[0], t, gap);
      PackingOccupancy(lanes[1..], t, gap);
    }
  }

  /** When the last item of every lane occupies `t`, at least that many items
      occupy `t`. */
  lemma {:induction false} LastItemsOccupancy(lanes: seq<Lane>, t: int, gap: int)
    requires AllNonEmpty(lanes)
    requires forall k :: 0 <= k < |lanes| ==> Occupies(Last(lanes[k]), t, gap)
    ensures Occupancy(Flatten(lanes), t, gap) >= |lanes|
  {
    if lanes != [] {
      var lane := lanes[0];
      var init := lane[..|lane| - 1];
      assert lane == init + [Last(lane)];
      OccupancyConcat(init, [Last(lane)], t, gap);
      OccupancyConcat(lane, Flatten(lanes[1..]), t, gap);
      LastItemsOccupancy(lanes[1..], t, gap);
    }
  }

  /** Some instant is occupied by as many items as the packing has lanes:
      the start of the item that opened the last lane. */
  lemma {:induction false} PackWitness(s: seq<TimelineItem>, gap: int)
    requires SortedByStart(s)
    requires forall x :: x in s ==> Proper(x, gap)
    ensures exists t :: Occupancy(s, t, gap) >= |Pack(s, gap)|
  {
    if s == [] {
      assert Occupancy(s, 0, gap) >= 0;
    } else {
      var init, x := s[..|s| - 1], s[|s| - 1];
      assert s == init + [x];
      assert SortedByStart(init);
      var lanes := Pack(init, gap);
      if FirstFit(lanes, x, gap) < |lanes| {
        PackWitness(init, gap);
        var t :| Occupancy(init, t, gap) >= |lanes|;
        OccupancyConcat(init, [x], t, gap);
        assert Occupancy(s, t, gap) >= |Pack(s, gap)|;
      } else {
        var t := x.start;
        NewLaneWitness(init, x, gap);
        LastItemsOccupancy(lanes, t, gap);
        PackPermutes(init, gap);
        OccupancyPermutation(Flatten(lanes), init, t, gap);
        OccupancyConcat(init, [x], t, gap);
        assert x in s;
        assert Occupies(x, t, gap);
        assert Occupancy(s, t, gap) >= |Pack(s, gap)|;
      }
    }
  }

  lemma ProperPermutation(s: seq<TimelineItem>, r: seq<TimelineItem>, gap: int)
    requires multiset(r) == multiset(s)
    requires forall x :: x in s ==> Proper(x, gap)
    ensures forall x :: x in r ==> Proper(x, gap)
    ensures forall x :: x in r ==> x.start <= x.end
  {
    forall x | x in r ensures Proper(x, gap) {
      assert x in multiset(r);
      assert x in multiset(s);
      assert x in s;
    }
  }

  /** No valid packing of items sorted by start uses fewer lanes than the
      first-fit packing. */
  lemma PackIsOptimal(s: seq<TimelineItem>, other: seq<Lane>, gap: int)
    requires gap >= 0 && SortedByStart(s)
    requires forall x :: x in s ==> Proper(x, gap)
    requires ValidPacking(other, gap) && multiset(Flatten(other)) == multiset(s)
    ensures |Pack(s, gap)| <= |other|
  {
    PackWitness(s, gap);
    var t :| Occupancy(s, t, gap) >= |Pack(s, gap)|;
    ProperPermutation(s, Flatten(other), gap);
    PackingOccupancy(other, t, gap);
    OccupancyPermutation(Flatten(other), s, t, gap);
  }

  /** `assignLanes` opens as few lanes as possible: no valid packing of the
      same items has fewer, and its lane count is the largest number of
      items occupying one instant. */
  lemma AssignIsOptimal(s: seq<TimelineItem>, gap: int)
    requires gap >= 0
    requires forall x :: x in s ==> Proper(x, gap)
    ensures forall other :: ValidPacking(other, gap) && multiset(Flatten(other)) == multiset(s) ==>
      |Assign(s, gap)| <= |other|
    ensures exists t :: Occupancy(s, t, gap) == |Assign(s, gap)|
    ensures forall t :: Occupancy(s, t, gap) <= |Assign(s, gap)|
  {
    var sorted := SortByStart(s);
    SortByStartIsStableSort(s);
    ProperPermutation(s, sorted, gap);
    forall other | ValidPacking(other, gap) && multiset(Flatten(other)) == multiset(s)
      ensures |Assign(s, gap)| <= |other|
    {
      PackIsOptimal(sorted, other, gap);
    }
    AssignCorrect(s, gap);
    PackWitness(sorted, gap);
    var t0 :| Occupancy(sorted, t0, gap) >= |Assign(s, gap)|;
    ProperPermutation(s, Flatten(Assign(s, gap)), gap);
    forall t ensures Occupancy(s, t, gap) <= |Assign(s, gap)| {
      PackingOccupancy(Assign(s, gap), t, gap);
      OccupancyPermutation(Flatten(Assign(s, gap)), s, t, gap);
    }
    OccupancyPermutation(sorted, s, t0, gap);
  }

  /** Why the items must occupy their own start: with no margin, a
      zero-length item that starts together with a longer item listed before
      it opens a second lane, although one lane holding the zero-length item
      first would do. */
  lemma PointItemTie()
    ensures var long, point := TimelineItem(1, 0, 5, "a"), TimelineItem(2, 0, 0, "b");
      && |Assign([long, point], 0)| == 2
      && ValidPacking([[point, long]], 0)
      && multiset(Flatten([[point, long]])) == multiset([long, point])
  {
    var long, point := TimelineItem(1, 0, 5, "a"), TimelineItem(2, 0, 0, "b");
    assert SortByStart([long]) == [long];
    assert [long, point][..1] == [long];
    assert SortByStart([long, point]) == [long, point];
    assert Pack([long], 0) == [[long]];
    assert [long, point][..1] == [long];
    assert Flatten([[point, long]]) == [point, long];
  }
}
