/** What the first-fit packing guarantees about the lanes it builds. */
module LaneProperties {
  import opened Types
  import opened StableSort
  import opened LaneAssignment

  lemma {:induction false} FlattenAppendLane(lanes: seq<Lane>, lane: Lane)
    ensures Flatten(lanes + [lane]) == Flatten(lanes) + lane
  {
    if lanes == [] {
      assert [lane][1..] == [];
    } else {
      assert (lanes + [lane])[1..] == lanes[1..] + [lane];
      FlattenAppendLane(lanes[1..], lane);
    }
  }

  lemma {:induction false} FlattenPush(lanes: seq<Lane>, k: int, x: TimelineItem)
    requires 0 <= k < |lanes|
    ensures multiset(Flatten(lanes[k := lanes[k] + [x]])) == multiset(Flatten(lanes)) + multiset{x}
  {
    var updated := lanes[k := lanes[k] + [x]];
    if k == 0 {
      assert updated[1..] == lanes[1..];
    } else {
      assert updated[1..] == lanes[1..][k - 1 := lanes[k] + [x]];
      FlattenPush(lanes[1..], k - 1, x);
    }
  }

  lemma {:induction false} InLaneInFlatten(lanes: seq<Lane>, k: int, y: TimelineItem)
    requires 0 <= k < |lanes| && y in lanes[k]
    ensures y in multiset(Flatten(lanes))
  {
    if k > 0 {
      InLaneInFlatten(lanes[1..], k - 1, y);
    }
  }

  /** Placing an item adds exactly that item to the lanes. */
  lemma PlacePermutes(lanes: seq<Lane>, x: TimelineItem, gap: int)
    requires AllNonEmpty(lanes)
    ensures multiset(Flatten(Place(lanes, x, gap))) == multiset(Flatten(lanes)) + multiset{x}
  {
    var k := FirstFit(lanes, x, gap);
    if k < |lanes| {
      FlattenPush(lanes, k, x);
    } else {
      FlattenAppendLane(lanes, [x]);
    }
  }

  /** The lanes hold exactly the input items: each input item is in exactly
      one lane, as often as it occurs in the input. */
  lemma {:induction false} PackPermutes(s: seq<TimelineItem>, gap: int)
    ensures multiset(Flatten(Pack(s, gap))) == multiset(s)
  {
    if s != [] {
      var init, x := s[..|s| - 1], s[|s| - 1];
      PackPermutes(init, gap);
      PlacePermutes(Pack(init, gap), x, gap);
      assert s == init + [x];
    }
  }

  /** Every lane keeps the reuse gap between consecutive items. */
  lemma {:induction false} PackRespectsGap(s: seq<TimelineItem>, gap: int)
    ensures forall k :: 0 <= k < |Pack(s, gap)| ==> RespectsGap(Pack(s, gap)[k], gap)
  {
    if s != [] {
      var init, x := s[..|s| - 1], s[|s| - 1];
      var lanes := Pack(init, gap);
      PackRespectsGap(init, gap);
      var k := FirstFit(lanes, x, gap);
      if k < |lanes| {
        var lane := lanes[k] + [x];
        assert RespectsGap(lane, gap) by {
          forall i | 0 < i < |lane| ensures lane[i - 1].end + gap <= lane[i].start {
            if i == |lane| - 1 {
              assert lane[i - 1] == Last(lanes[k]);
            } else {
              assert lane[i - 1] == lanes[k][i - 1] && lane[i] == lanes[k][i];
            }
          }
        }
      }
    }
  }

  /** Fed in order of start time, every lane is in order of start time. */
  lemma {:induction false} PackLanesSorted(s: seq<TimelineItem>, gap: int)
    requires SortedByStart(s)
    ensures forall k :: 0 <= k < |Pack(s, gap)| ==> SortedByStart(Pack(s, gap)[k])
  {
    if s != [] {
      var init, x := s[..|s| - 1], s[|s| - 1];
      var lanes := Pack(init, gap);
      PackLanesSorted(init, gap);
      var k := FirstFit(lanes, x, gap);
      if k < |lanes| {
        PackPermutes(init, gap);
        forall y: TimelineItem | y in lanes[k] ensures y.start <= x.start {
          InLaneInFlatten(lanes, k, y);
          var i :| 0 <= i < |init| && init[i] == y;
        }
        var lane := lanes[k] + [x];
        assert SortedByStart(lane) by {
          forall i, j | 0 <= i < j < |lane| ensures lane[i].start <= lane[j].start {
            assert lane[i] in lanes[k];
          }
        }
      }
    }
  }

  /** When an item opens a new lane, the last item of every existing lane
      has started and is still within its reuse gap at the new item's start:
      all of them, and the new item, compete for the same instant. */
  lemma NewLaneWitness(s: seq<TimelineItem>, x: TimelineItem, gap: int)
    requires SortedByStart(s + [x])
    requires FirstFit(Pack(s, gap), x, gap) == |Pack(s, gap)|
    ensures forall k :: 0 <= k < |Pack(s, gap)| ==>
      Last(Pack(s, gap)[k]).start <= x.start < Last(Pack(s, gap)[k]).end + gap
  {
    var lanes := Pack(s, gap);
    PackPermutes(s, gap);
    forall k | 0 <= k < |lanes|
      ensures Last(lanes[k]).start <= x.start < Last(lanes[k]).end + gap
    {
      var y := Last(lanes[k]);
      InLaneInFlatten(lanes, k, y);
      var i :| 0 <= i < |s| && s[i] == y;
      assert (s + [x])[i] == y && (s + [x])[|s|] == x;
    }
  }

  /** The lanes `assignLanes` returns: all of the input, each lane non-empty,
      ordered by start and keeping the reuse gap. An empty input gives no
      lanes. */
  lemma AssignCorrect(s: seq<TimelineItem>, gap: int)
    ensures multiset(Flatten(Assign(s, gap))) == multiset(s)
    ensures |Flatten(Assign(s, gap))| == |s|
    ensures AllNonEmpty(Assign(s, gap))
    ensures forall k :: 0 <= k < |Assign(s, gap)| ==>
      SortedByStart(Assign(s, gap)[k]) && RespectsGap(Assign(s, gap)[k], gap)
    ensures Assign(s, gap) == [] <==> s == []
  {
    SortByStartIsStableSort(s);
    PackPermutes(SortByStart(s), gap);
    assert |multiset(Flatten(Assign(s, gap)))| == |multiset(s)|;
    PackRespectsGap(SortByStart(s), gap);
    PackLanesSorted(SortByStart(s), gap);
  }

  /** Three items where the second overlaps the first and the third starts
      after the first ends: the third goes back to lane 0. */
  lemma OverlapThenReuse()
    ensures var a, b, c := TimelineItem(1, 0, 5 * DAY, "a"), TimelineItem(2, DAY, 3 * DAY, "b"),
                           TimelineItem(3, 6 * DAY, 8 * DAY, "c");
      Assign([a, b, c], 0) == [[a, c], [b]]
  {
    var a, b, c := TimelineItem(1, 0, 5 * DAY, "a"), TimelineItem(2, DAY, 3 * DAY, "b"),
                   TimelineItem(3, 6 * DAY, 8 * DAY, "c");
    var s := [a, b, c];
    SortedInputUnchanged(s);
    assert Pack([a, b], 0) == [[a], [b]] by {
      assert [a, b][..1] == [a];
      assert FirstFit([[a]], b, 0) == 1;
    }
    assert Pack(s, 0) == [[a, c], [b]] by {
      assert s[..2] == [a, b];
      assert FirstFit([[a], [b]], c, 0) == 0;
      assert [a] + [c] == [a, c];
      assert [[a], [b]][0 := [a, c]] == [[a, c], [b]];
    }
  }

  /** Items that all start together each get their own lane. */
  lemma SameStartSeparateLanes()
    ensures var a, b, c := TimelineItem(1, 0, DAY, "a"), TimelineItem(2, 0, 2 * DAY, "b"),
                           TimelineItem(3, 0, 3 * DAY, "c");
      Assign([a, b, c], 0) == [[a], [b], [c]]
  {
    var a, b, c := TimelineItem(1, 0, DAY, "a"), TimelineItem(2, 0, 2 * DAY, "b"),
                   TimelineItem(3, 0, 3 * DAY, "c");
    var s := [a, b, c];
    SortedInputUnchanged(s);
    assert Pack([a, b], 0) == [[a], [b]] by {
      assert [a, b][..1] == [a];
      assert FirstFit([[a]], b, 0) == 1 by { assert [[a]][1..] == []; }
    }
    assert Pack(s, 0) == [[a], [b], [c]] by {
      assert s[..2] == [a, b];
      assert FirstFit([[a], [b]], c, 0) == 2 by {
        assert [[a], [b]][1..] == [[b]] && [[b]][1..] == [];
      }
      assert [[a], [b]] + [[c]] == [[a], [b], [c]];
    }
  }
}
