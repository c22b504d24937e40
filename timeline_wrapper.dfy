/** The state update of the TimelineWrapper component
    (app/_components/TimelineWrapper.tsx): `prev.map(item => item.id ===
    updatedItem.id ? updatedItem : item)`. */
module TimelineWrapper {
  import opened Types

  /** Replaces every item whose id is that of `updated` by `updated`. */
  function ReplaceById(items: seq<TimelineItem>, updated: TimelineItem): (r: seq<TimelineItem>)
    ensures |r| == |items|
    ensures forall i :: 0 <= i < |items| && items[i].id != updated.id ==> r[i] == items[i]
    ensures forall i :: 0 <= i < |items| && items[i].id == updated.id ==> r[i] == updated
    ensures forall i :: 0 <= i < |items| ==> r[i].id == items[i].id
  {
    if items == [] then []
    else [if items[0].id == updated.id then updated else items[0]] + ReplaceById(items[1..], updated)
  }

  /** Applying the same update twice is applying it once. */
  lemma {:induction false} ReplaceIdempotent(items: seq<TimelineItem>, updated: TimelineItem)
    ensures ReplaceById(ReplaceById(items, updated), updated) == ReplaceById(items, updated)
  {
    if items != [] {
      ReplaceIdempotent(items[1..], updated);
      assert ReplaceById(items, updated)[1..] == ReplaceById(items[1..], updated);
    }
  }

  /** An update whose id no item has changes nothing. */
  lemma {:induction false} ReplaceMissing(items: seq<TimelineItem>, updated: TimelineItem)
    requires forall i :: 0 <= i < |items| ==> items[i].id != updated.id
    ensures ReplaceById(items, updated) == items
  {
    if items != [] {
      ReplaceMissing(items[1..], updated);
    }
  }
}
