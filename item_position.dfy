/** Horizontal placement of an item (lib/functions/calculateItemPosition.ts):
    a linear map of the item's start and duration onto the container width,
    relative to the span of the whole collection, with the width clamped. */
module ItemPosition {
  import opened Types

  /** `{ left, width }` in pixels. */
  datatype Position = Position(left: real, width: real)

  const CHAR_WIDTH := 8
  const MIN_WIDTH_FLOOR: real := 120.0
  const MAX_WIDTH_RATIO: real := 0.3
  /** Label padding of the library copy; the Timeline component uses 32. */
  const LIB_LABEL_PADDING := 2

  /** `Math.max` on two numbers. */
  function Max(a: real, b: real): (m: real)
    ensures m >= a && m >= b && (m == a || m == b)
  {
    if a >= b then a else b
  }

  /** `Math.min` on two numbers. */
  function Min(a: real, b: real): (m: real)
    ensures m <= a && m <= b && (m == a || m == b)
  {
    if a <= b then a else b
  }

  /** The narrowest width that fits the label, and never below the floor. */
  function MinWidth(name: string, padding: int): (w: real)
    ensures w >= MIN_WIDTH_FLOOR && w >= (Utf16Length(name) * CHAR_WIDTH + padding) as real
    ensures w == MIN_WIDTH_FLOOR || w == (Utf16Length(name) * CHAR_WIDTH + padding) as real
  {
    Max((Utf16Length(name) * CHAR_WIDTH + padding) as real, MIN_WIDTH_FLOOR)
  }

  function MaxWidth(containerWidth: real): real {
    containerWidth * MAX_WIDTH_RATIO
  }

  /** `(ms / totalDuration) * containerWidth`, with the span given by its
      first and last instant. */
  function Scale(ms: int, startDate: int, endDate: int, containerWidth: real): real
    requires startDate < endDate
  {
    (ms as real / (endDate - startDate) as real) * containerWidth
  }

  /** `calculateItemPosition` with a given label padding. The source divides
      by the span without a guard, so the span must not be empty. */
  function PositionWith(item: TimelineItem, startDate: int, endDate: int, containerWidth: real, padding: int): (p: Position)
    requires startDate < endDate
    ensures p.width <= MaxWidth(containerWidth)
    ensures MinWidth(item.name, padding) <= MaxWidth(containerWidth) ==> MinWidth(item.name, padding) <= p.width
    ensures MinWidth(item.name, padding) > MaxWidth(containerWidth) ==> p.width == MaxWidth(containerWidth)
    ensures var raw := Scale(item.end - item.start, startDate, endDate, containerWidth);
      MinWidth(item.name, padding) <= raw <= MaxWidth(containerWidth) ==> p.width == raw
    ensures var raw := Scale(item.end - item.start, startDate, endDate, containerWidth);
      raw < MinWidth(item.name, padding) <= MaxWidth(containerWidth) ==> p.width == MinWidth(item.name, padding)
    ensures var raw := Scale(item.end - item.start, startDate, endDate, containerWidth);
      MinWidth(item.name, padding) <= MaxWidth(containerWidth) < raw ==> p.width == MaxWidth(containerWidth)
  {
    var left := Scale(item.start - startDate, startDate, endDate, containerWidth);
    var width := Scale(item.end - item.start, startDate, endDate, containerWidth);
    Position(left, Min(Max(width, MinWidth(item.name, padding)), MaxWidth(containerWidth)))
  }

  /** The library's `calculateItemPosition` (label padding 2); `startDate`
      and `endDate` are the constants of lib/constants.ts. */
  function CalculateItemPosition(item: TimelineItem, startDate: int, endDate: int, containerWidth: real): (p: Position)
    requires startDate < endDate
    ensures p.width <= containerWidth * 0.3
    ensures var minWidth := Max((Utf16Length(item.name) * 8 + 2) as real, 120.0);
      minWidth <= containerWidth * 0.3 ==> minWidth <= p.width
  {
    PositionWith(item, startDate, endDate, containerWidth, LIB_LABEL_PADDING)
  }

  /** A label of fifteen emoji is thirty UTF-16 code units long, so its
      minimum width with padding 2 is `30 * 8 + 2`, not `15 * 8 + 2`. */
  lemma WideCharacterLabel()
    ensures MinWidth(seq(15, _ => '\U{1F600}'), LIB_LABEL_PADDING) == 242.0
  {
    var name := seq(15, _ => '\U{1F600}');
    var k := 15;
    while k > 0
      invariant 0 <= k <= 15
      invariant Utf16Length(name[k..]) == 2 * (15 - k)
    {
      assert name[k - 1..][1..] == name[k..];
      k := k - 1;
    }
  }

  /** An item starting at `startDate` is at the left edge. */
  lemma LeftAtStartDate(item: TimelineItem, startDate: int, endDate: int, containerWidth: real, padding: int)
    requires startDate < endDate && item.start == startDate
    ensures PositionWith(item, startDate, endDate, containerWidth, padding).left == 0.0
  {
  }

  /** An item starting at `endDate` is at the right edge. */
  lemma LeftAtEndDate(item: TimelineItem, startDate: int, endDate: int, containerWidth: real, padding: int)
    requires startDate < endDate && item.start == endDate
    ensures PositionWith(item, startDate, endDate, containerWidth, padding).left == containerWidth
  {
    var d := (endDate - startDate) as real;
    assert (item.start - startDate) as real / d == 1.0;
  }

  lemma ScaleMonotone(a: int, b: int, startDate: int, endDate: int, containerWidth: real)
    requires startDate < endDate && a <= b && containerWidth >= 0.0
    ensures Scale(a, startDate, endDate, containerWidth) <= Scale(b, startDate, endDate, containerWidth)
  {
    var d := (endDate - startDate) as real;
    assert a as real / d <= b as real / d;
    MulMonotone(a as real / d, b as real / d, containerWidth);
  }

  lemma MulMonotone(x: real, y: real, c: real)
    requires x <= y && c >= 0.0
    ensures x * c <= y * c
  {
    assert y * c - x * c == (y - x) * c;
  }

  /** Later starts are never placed further left. */
  lemma LeftMonotone(a: TimelineItem, b: TimelineItem, startDate: int, endDate: int, containerWidth: real, padding: int)
    requires startDate < endDate && containerWidth >= 0.0 && a.start <= b.start
    ensures PositionWith(a, startDate, endDate, containerWidth, padding).left
         <= PositionWith(b, startDate, endDate, containerWidth, padding).left
  {
    ScaleMonotone(a.start - startDate, b.start - startDate, startDate, endDate, containerWidth);
  }

  /** An item inside the span starts inside the container. */
  lemma LeftInContainer(item: TimelineItem, startDate: int, endDate: int, containerWidth: real, padding: int)
    requires startDate <= item.start <= endDate && startDate < endDate && containerWidth >= 0.0
    ensures 0.0 <= PositionWith(item, startDate, endDate, containerWidth, padding).left <= containerWidth
  {
    ScaleMonotone(0, item.start - startDate, startDate, endDate, containerWidth);
    ScaleMonotone(item.start - startDate, endDate - startDate, startDate, endDate, containerWidth);
    var d := (endDate - startDate) as real;
    assert (endDate - startDate) as real / d == 1.0;
  }

  /** An item covering the whole span starts at the left edge and gets the
      largest width. */
  lemma WholeSpanItem(item: TimelineItem, startDate: int, endDate: int, containerWidth: real, padding: int)
    requires startDate < endDate && item.start == startDate && item.end == endDate
    requires containerWidth >= 0.0
    ensures PositionWith(item, startDate, endDate, containerWidth, padding)
         == Position(0.0, MaxWidth(containerWidth))
  {
    var d := (endDate - startDate) as real;
    assert (item.end - item.start) as real / d == 1.0;
    assert Scale(item.end - item.start, startDate, endDate, containerWidth) == containerWidth;
    assert MaxWidth(containerWidth) <= containerWidth;
  }
}
