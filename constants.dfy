/** The global span of the timeline (lib/constants.ts): `startDate` is the
    earliest start and `endDate` the latest end over all items. On an empty
    list `Math.min()` / `Math.max()` give an infinity and the date is
    invalid; that is `None` here. */
module Constants {
  import opened Types

  function StartDate(items: seq<TimelineItem>): (r: Option<int>)
    ensures r.None? <==> items == []
    ensures r.Some? ==> forall i :: 0 <= i < |items| ==> r.value <= items[i].start
    ensures r.Some? ==> exists i :: 0 <= i < |items| && r.value == items[i].start
  {
    if items == [] then None
    else match StartDate(items[1..])
      case None => Some(items[0].start)
      case Some(m) => Some(if items[0].start <= m then items[0].start else m)
  }

  function EndDate(items: seq<TimelineItem>): (r: Option<int>)
    ensures r.None? <==> items == []
    ensures r.Some? ==> forall i :: 0 <= i < |items| ==> items[i].end <= r.value
    ensures r.Some? ==> exists i :: 0 <= i < |items| && r.value == items[i].end
  {
    if items == [] then None
    else match EndDate(items[1..])
      case None => Some(items[0].end)
      case Some(m) => Some(if items[0].end >= m then items[0].end else m)
  }

  /** When no item ends before it starts, the span is not reversed. */
  lemma SpanOrdered(items: seq<TimelineItem>)
    requires items != []
    requires forall i :: 0 <= i < |items| ==> items[i].start <= items[i].end
    ensures StartDate(items).value <= EndDate(items).value
  {
    var i :| 0 <= i < |items| && StartDate(items).value == items[i].start;
    assert items[i].end <= EndDate(items).value;
  }

  /** The span depends only on which items there are, not on their order:
      sorting a copy or the list itself leaves it unchanged. */
  lemma SpanPermutation(a: seq<TimelineItem>, b: seq<TimelineItem>)
    requires multiset(a) == multiset(b)
    ensures StartDate(a) == StartDate(b) && EndDate(a) == EndDate(b)
  {
    if a != [] {
      assert |b| == |multiset(b)| > 0;
      AtMostWhenIncluded(a, b);
      AtMostWhenIncluded(b, a);
    }
  }

  /** The earliest start of `a` is no later than that of `b`, and its latest
      end no earlier, when `a` has every item of `b`. */
  lemma AtMostWhenIncluded(a: seq<TimelineItem>, b: seq<TimelineItem>)
    requires a != [] && b != [] && multiset(b) <= multiset(a)
    ensures StartDate(a).value <= StartDate(b).value
    ensures EndDate(b).value <= EndDate(a).value
  {
    var j :| 0 <= j < |b| && StartDate(b).value == b[j].start;
    var i := IndexOf(a, b[j]);
    var l :| 0 <= l < |b| && EndDate(b).value == b[l].end;
    var k := IndexOf(a, b[l]);
  }

  lemma IndexOf(a: seq<TimelineItem>, x: TimelineItem) returns (i: int)
    requires x in multiset(a)
    ensures 0 <= i < |a| && a[i] == x
  {
    assert x in a;
    i :| 0 <= i < |a| && a[i] == x;
  }
}
