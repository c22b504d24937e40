/** Greedy first-fit lane assignment (lib/functions/assignLanes.ts). The
    packer is written once over a reuse gap: a lane whose last item ends at
    `e` can take an item starting at `s` when `e + gap <= s`. The library copy
    uses gap 0; the copy in the Timeline component uses one day. */
module LaneAssignment {
  import opened Types
  import opened StableSort

  function Last(lane: Lane): TimelineItem
    requires |lane| > 0
  {
    lane[|lane| - 1]
  }

  /** The source's reuse test: `lastItemEnd (+ margin) <= currentItemStart`. */
  predicate Fits(lane: Lane, item: TimelineItem, gap: int)
    requires |lane| > 0
  {
    Last(lane).end + gap <= item.start
  }

  predicate AllNonEmpty(lanes: seq<Lane>) {
    forall k :: 0 <= k < |lanes| ==> |lanes[k]| > 0
  }

  /** Every adjacent pair of a lane is separated by at least `gap`. */
  predicate RespectsGap(lane: Lane, gap: int) {
    forall i :: 0 < i < |lane| ==> lane[i - 1].end + gap <= lane[i].start
  }

  /** The concatenation of all lanes, lane 0 first. */
  function Flatten(lanes: seq<Lane>): seq<TimelineItem> {
    if lanes == [] then [] else lanes[0] + Flatten(lanes[1..])
  }

  /** The index of the lane an item goes to: the first lane, in creation
      order, that it fits, or `|lanes|` (a new lane) when it fits none. */
  function FirstFit(lanes: seq<Lane>, item: TimelineItem, gap: int): (k: nat)
    requires AllNonEmpty(lanes)
    ensures k <= |lanes|
    ensures k < |lanes| ==> Fits(lanes[k], item, gap)
    ensures forall j :: 0 <= j < k ==> !Fits(lanes[j], item, gap)
    ensures k == |lanes| <==> forall j :: 0 <= j < |lanes| ==> !Fits(lanes[j], item, gap)
  {
    if lanes == [] then 0
    else if Fits(lanes[0], item, gap) then 0
    else 1 + FirstFit(lanes[1..], item, gap)
  }

  /** The lanes after `assignItemToLane(item)`: pushed onto the first lane it
      fits, or into a new lane at the end. */
  function Place(lanes: seq<Lane>, item: TimelineItem, gap: int): (r: seq<Lane>)
    requires AllNonEmpty(lanes)
    ensures AllNonEmpty(r)
  {
    var k := FirstFit(lanes, item, gap);
    if k < |lanes| then lanes[k := lanes[k] + [item]] else lanes + [[item]]
  }

  /** The lanes after placing the items of `s` one by one, in order. */
  function Pack(s: seq<TimelineItem>, gap: int): (r: seq<Lane>)
    ensures AllNonEmpty(r)
    ensures |r| <= |s|
    ensures r == [] <==> s == []
  {
    if s == [] then [] else Place(Pack(s[..|s| - 1], gap), s[|s| - 1], gap)
  }

  /** What `assignLanes` returns for the items `s`: their stable sort by
      start, packed. */
  function Assign(s: seq<TimelineItem>, gap: int): seq<Lane> {
    Pack(SortByStart(s), gap)
  }

  /** `assignItemToLane`: scans the lanes in order and pushes the item onto
      the first one whose last item ends early enough; otherwise opens a
      lane. */
  method AssignItemToLane(lanes: seq<Lane>, item: TimelineItem, gap: int) returns (updated: seq<Lane>)
    requires AllNonEmpty(lanes)
    ensures updated == Place(lanes, item, gap)
  {
    for k := 0 to |lanes|
      invariant forall j :: 0 <= j < k ==> !Fits(lanes[j], item, gap)
    {
      var lastItem := lanes[k][|lanes[k]| - 1];
      if lastItem.end + gap <= item.start {
        return lanes[k := lanes[k] + [item]];
      }
    }
    return lanes + [[item]];
  }

  /** `assignLanes` with a reuse gap: sorts the caller's array in place, then
      assigns the items in that order. */
  method AssignLanesWithGap(items: array<TimelineItem>, gap: int) returns (lanes: seq<Lane>)
    modifies items
    ensures items[..] == SortByStart(old(items[..]))
    ensures lanes == Pack(items[..], gap)
    ensures lanes == Assign(old(items[..]), gap)
  {
    SortInPlace(items);
    ghost var sorted := items[..];
    lanes := [];
    for i := 0 to items.Length
      invariant items[..] == sorted
      invariant lanes == Pack(items[..i], gap)
    {
      assert items[..i + 1][..i] == items[..i];
      lanes := AssignItemToLane(lanes, items[i], gap);
    }
    assert items[..] == items[..items.Length];
  }

  /** The library's `assignLanes`: no margin between items of a lane. */
  method AssignLanes(items: array<TimelineItem>) returns (lanes: seq<Lane>)
    modifies items
    ensures items[..] == SortByStart(old(items[..]))
    ensures lanes == Assign(old(items[..]), 0)
  {
    lanes := AssignLanesWithGap(items, 0);
  }
}
