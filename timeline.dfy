/** The logic of the Timeline component (app/_components/Timeline.tsx): its
    own lane assigner, which keeps a one-day margin between the items of a
    lane, its own position calculator, which pads labels by 32 pixels, and
    the layout pass that runs them over a copy of the item list. */
module Timeline {
  import opened Types
  import opened StableSort
  import opened LaneAssignment
  import opened LaneProperties
  import Optimality
  import ItemPosition
  import Constants

  const LABEL_PADDING := 32

  /** The component's `assignLanes`: like the library's, but a lane is reused
      only if its last item ended at least a day before the next starts. */
  method AssignLanes(items: array<TimelineItem>) returns (lanes: seq<Lane>)
    modifies items
    ensures items[..] == SortByStart(old(items[..]))
    ensures lanes == Assign(old(items[..]), DAY)
  {
    lanes := AssignLanesWithGap(items, DAY);
  }

  /** The component's `calculateItemPosition` (label padding 32). */
  function CalculateItemPosition(item: TimelineItem, startDate: int, endDate: int, containerWidth: real): (p: ItemPosition.Position)
    requires startDate < endDate
    ensures p.width <= containerWidth * 0.3
    ensures var minWidth := ItemPosition.Max((Utf16Length(item.name) * 8 + 32) as real, 120.0);
      minWidth <= containerWidth * 0.3 ==> minWidth <= p.width
  {
    ItemPosition.PositionWith(item, startDate, endDate, containerWidth, LABEL_PADDING)
  }

  /** The data side of `Timeline()`: lanes from a copy of the items
      (`assignLanes([...timelineItems])`), and the span from the items
      themselves. The method cannot modify `timelineItems`, so the sort
      does not reorder them. */
  method Layout(timelineItems: array<TimelineItem>) returns (lanes: seq<Lane>, startDate: Option<int>, endDate: Option<int>)
    ensures lanes == Assign(timelineItems[..], DAY)
    ensures startDate == Constants.StartDate(timelineItems[..])
    ensures endDate == Constants.EndDate(timelineItems[..])
  {
    var copy := new TimelineItem[timelineItems.Length](
      i reads timelineItems requires 0 <= i < timelineItems.Length => timelineItems[i]);
    assert copy[..] == timelineItems[..];
    lanes := AssignLanes(copy);
    startDate := Constants.StartDate(timelineItems[..]);
    endDate := Constants.EndDate(timelineItems[..]);
  }

  /** With the one-day margin every item occupies its own start, so any list
      of items that do not end before they start gets the fewest lanes
      possible, zero-length items included. */
  lemma MarginLanesAreOptimal(s: seq<TimelineItem>)
    requires forall x :: x in s ==> x.start <= x.end
    ensures forall other :: Optimality.ValidPacking(other, DAY) && multiset(Flatten(other)) == multiset(s) ==>
      |Assign(s, DAY)| <= |other|
    ensures exists t :: Optimality.Occupancy(s, t, DAY) == |Assign(s, DAY)|
  {
    forall x | x in s ensures Optimality.Proper(x, DAY) {
    }
    Optimality.AssignIsOptimal(s, DAY);
  }
}
