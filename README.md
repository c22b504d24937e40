# Timeline lane assignment, modelled in Dafny

The timeline arranges items (an id, a start and end instant, a name) in
horizontal rows called lanes. Lane assignment sorts the items by start
time, stably and in place. It then gives each item, in that order, to the
first lane whose last item ended early enough, or opens a new lane when
no lane qualifies. The library copy (`lib/functions/assignLanes.ts`)
reuses a lane when `lastEnd <= start`. The Timeline component's own copy
(`app/_components/Timeline.tsx`) reuses it only when
`lastEnd + 86_400_000 <= start`, a one-day margin. Both are modelled by one
packer with a reuse gap (`LaneAssignment`): gap 0 for the library and
`Types.DAY` for the component. The sort the packer relies on,
`Array.prototype.sort` with a start-time comparator, is modelled as an
in-place stable insertion sort (`StableSort`). A lemma proves that any
stable sort gives the same result.

Each item's horizontal position is a linear map of its start and duration
onto the container width, relative to the span of the whole collection
(`ItemPosition`). The width is clamped to
`min(max(raw, minWidth), 0.3 * containerWidth)`. The span is the earliest
start and the latest end over all items (`Constants`). The wrapper
component replaces an edited item by id (`TimelineWrapper`).

Timestamps are integer milliseconds. Pixel arithmetic is over `real`.

Facts about the code that shape the model:
- The Timeline component reuses a lane only after a one-day margin, while
  the library's `assignLanes` uses none. Both are modelled.
- The code divides by the span without a guard, so the position functions
  require `startDate < endDate`.
- The library's `assignLanes` sorts the caller's array in place, and
  `LaneAssignment.AssignLanes` says so. The component passes a copy
  (`Timeline.Layout`).
- First-fit with no margin is not minimal when a zero-length item starts
  together with a longer item listed before it (`Optimality.PointItemTie`).
  The optimality theorem is proved for items with `start <= end` that
  occupy their own start instant (`start < end + gap`). With the one-day
  margin, that covers every item with `start <= end`
  (`Timeline.MarginLanesAreOptimal`).
- Label widths use `name.length`, which counts UTF-16 code units. The model
  counts them with `Types.Utf16Length`: two for a character outside the
  Basic Multilingual Plane, one otherwise.

## Model

| member | source | states |
|---|---|---|
| StableSort.SortInPlace | lib/functions/assignLanes.ts:4-6 | the caller's array is reordered in place into the stable start-order of its old contents |
| StableSort.SortByStartIsStableSort | lib/functions/assignLanes.ts:4-6 | the sort's result is ordered by start, is a permutation of the input, and keeps the input order of the items that share a start |
| StableSort.StableSortIsUnique | lib/functions/assignLanes.ts:4-6 | any sequence ordered by start that keeps each same-start group in input order equals the model's result, so every stable sort agrees with it |
| StableSort.SortedInputUnchanged | lib/functions/assignLanes.ts:4-6 | input already in start order is left as it is; sorting twice is sorting once |
| LaneAssignment.FirstFit | lib/functions/assignLanes.ts:10-20 | the chosen lane is one the item fits whose last end plus gap is at most its start; no earlier lane fits; a new lane is chosen exactly when no lane fits |
| LaneAssignment.AssignItemToLane | lib/functions/assignLanes.ts:9-21 | the scan with early return pushes the item onto the first-fit lane, or appends the one-item lane `[item]` |
| LaneAssignment.Pack | lib/functions/assignLanes.ts:23-25 | every lane is non-empty, so `lane[lane.length - 1]` is defined; there are at most as many lanes as items; no items gives no lanes |
| LaneAssignment.AssignLanesWithGap | lib/functions/assignLanes.ts:7-26 | the array ends sorted by start, and the lanes are the first-fit packing of it in that order |
| LaneAssignment.AssignLanes | lib/functions/assignLanes.ts:3-27 | the library version: the array is stably sorted in place, and the lanes are the packing with no margin |
| LaneProperties.PlacePermutes | lib/functions/assignLanes.ts:16-20 | placing an item adds exactly that item to the lanes |
| LaneProperties.PackPermutes | lib/functions/assignLanes.ts:9-26 | the concatenated lanes are a permutation of the input: each item is in exactly one lane |
| LaneProperties.PackRespectsGap | lib/functions/assignLanes.ts:15-16 | in every lane each adjacent pair has `prev.end + gap <= next.start` |
| LaneProperties.PackLanesSorted | lib/functions/assignLanes.ts:23-24 | when items are fed in start order, every lane is in start order |
| LaneProperties.NewLaneWitness | lib/functions/assignLanes.ts:10-20 | when a new lane is opened, the last item of every existing lane has started and is still within its gap at the new item's start |
| LaneProperties.AssignCorrect | lib/functions/assignLanes.ts:3-27 | the lanes hold exactly the input items, as many items in total as the input; every lane is non-empty, in start order and keeps the gap; there are no lanes exactly when there are no items |
| LaneProperties.OverlapThenReuse | lib/functions/assignLanes.ts:10-20 | items at days 0-5, 1-3 and 6-8 give lanes `[[day 0-5, day 6-8], [day 1-3]]` |
| LaneProperties.SameStartSeparateLanes | lib/functions/assignLanes.ts:4-20 | three items starting together get one lane each, in input order |
| Optimality.LaneOccupancy | lib/functions/assignLanes.ts:15-16 | in a lane that keeps the gap, at most one item occupies any instant (its start up to its end plus gap) |
| Optimality.PackWitness | lib/functions/assignLanes.ts:10-20 | some instant is occupied by at least as many items as the packing has lanes |
| Optimality.PackIsOptimal | lib/functions/assignLanes.ts:9-25 | no valid packing of the same start-ordered items uses fewer lanes than first-fit |
| Optimality.AssignIsOptimal | lib/functions/assignLanes.ts:3-27 | `assignLanes` uses no more lanes than any valid packing of its input; its lane count equals the largest number of items that occupy one instant |
| Optimality.PointItemTie | lib/functions/assignLanes.ts:4-20 | with no margin, items `[0,5]` and a later-listed `[0,0]` get two lanes, although the single lane `[[0,0], [0,5]]` is valid |
| Types.Utf16Length | lib/functions/calculateItemPosition.ts:11 | `name.length` counts UTF-16 code units: between one and two per character, exactly two for a single character at or above U+10000 and one otherwise |
| ItemPosition.MinWidth | lib/functions/calculateItemPosition.ts:11 | the minimum width is at least 120 and at least `name.length * 8 + padding`, with `name.length` in UTF-16 code units, and equals one of them |
| ItemPosition.WideCharacterLabel | lib/functions/calculateItemPosition.ts:11 | a label of fifteen characters outside the Basic Multilingual Plane has `name.length` 30, so its minimum width with padding 2 is 242 |
| ItemPosition.PositionWith | lib/functions/calculateItemPosition.ts:4-14 | the width is at most `0.3 * containerWidth`; it is at least `minWidth` when `minWidth` fits under that cap; the cap wins when `minWidth` exceeds it; otherwise a raw width below `minWidth` becomes `minWidth`, one above `maxWidth` becomes `maxWidth`, and one inside `[minWidth, maxWidth]` is kept unchanged |
| ItemPosition.CalculateItemPosition | lib/functions/calculateItemPosition.ts:11-13 | the library copy: width at most `0.3 * containerWidth`, and at least `max(name.length * 8 + 2, 120)`, `name.length` in UTF-16 code units, whenever that fits under the cap |
| ItemPosition.LeftAtStartDate | lib/functions/calculateItemPosition.ts:6-8 | an item starting at `startDate` has left 0 |
| ItemPosition.LeftAtEndDate | lib/functions/calculateItemPosition.ts:5-8 | an item starting at `endDate` has left equal to the container width |
| ItemPosition.LeftInContainer | lib/functions/calculateItemPosition.ts:5-8 | for `startDate <= start <= endDate` and a non-negative width, `0 <= left <= containerWidth` |
| ItemPosition.LeftMonotone | lib/functions/calculateItemPosition.ts:6-8 | with a non-negative container width, a later start is never placed further left |
| ItemPosition.WholeSpanItem | lib/functions/calculateItemPosition.ts:5-13 | an item covering the whole span gets left 0 and the largest width, `0.3 * containerWidth` |
| Constants.StartDate | lib/constants.ts:12 | `startDate` is at most every item's start and equals some item's start; an empty list gives no valid date |
| Constants.EndDate | lib/constants.ts:13 | `endDate` is at least every item's end and equals some item's end; an empty list gives no valid date |
| Constants.SpanOrdered | lib/constants.ts:12-13 | if no item ends before it starts, `startDate <= endDate` |
| Constants.SpanPermutation | app/_components/Timeline.tsx:38-42 | reordering the items, as the in-place sort does, leaves `startDate` and `endDate` unchanged |
| Timeline.AssignLanes | app/_components/Timeline.tsx:7-33 | the component's copy: the array is stably sorted in place, and lanes are reused only when `lastEnd + 86400000 <= start`, so every lane keeps a one-day margin |
| Timeline.CalculateItemPosition | app/_components/Timeline.tsx:44-54 | the component's copy: width at most `0.3 * containerWidth`, and at least `max(name.length * 8 + 32, 120)`, `name.length` in UTF-16 code units, whenever that fits under the cap |
| Timeline.Layout | app/_components/Timeline.tsx:36-42 | lanes are assigned from a copy of the item array, which the method cannot modify, and the span is taken from the items themselves |
| Timeline.MarginLanesAreOptimal | app/_components/Timeline.tsx:14-26 | with the one-day margin, every item list with `start <= end` gets the fewest lanes possible, zero-length items included, and some instant is occupied by that many items |
| TimelineWrapper.ReplaceById | app/_components/TimelineWrapper.tsx:13-15 | the length is kept; items with another id are unchanged in place; every item with the updated id, duplicates included, becomes the updated item; ids are kept position by position |
| TimelineWrapper.ReplaceIdempotent | app/_components/TimelineWrapper.tsx:13-15 | applying the same update twice equals applying it once |
| TimelineWrapper.ReplaceMissing | app/_components/TimelineWrapper.tsx:13-15 | if no item has the updated id, the list is returned unchanged |

## Left out

- Rendering: the JSX and styling of `app/_components/Timeline.tsx:56-118` and the colour tables of `lib/constants.ts:3-9`. They are presentation with no logic. This includes the per-item call at `Timeline.tsx:91` with width `Math.max(1250, 900)`.
- Date parsing: `new Date(s).getTime()` and `toLocaleDateString` are library calls. Items carry their instants as integer milliseconds, so an unparsable date string (NaN) is outside the model.
- Floating point: positions are computed over exact reals. Rounding, NaN and Infinity are not modelled. A zero span, where the source produces NaN or Infinity, is excluded by the precondition `startDate < endDate`. Timestamps are exact integers, which matches doubles below 2^53.
- The sort algorithm: ECMAScript fixes only that `Array.prototype.sort` is stable, not how it sorts. The model sorts by insertion, and `StableSort.StableSortIsUnique` shows any stable sort gives the same array.
- React state: `useState`, `setItems` and `console.log` in `app/_components/TimelineWrapper.tsx`. They are host UI state and I/O. Only the `map` passed to `setItems` is modelled.
- Component props: `Timeline()` declares no props, so the `items`, `editable` and `onItemUpdate` that the wrapper passes are ignored. No props contract is modelled.
- Item data: `lib/data/timelineItems` is not part of this model. The item list is a parameter everywhere.
- Negative span: `startDate < endDate` also excludes a list in which every item ends before the earliest start. There the source divides by a negative duration and returns finite, mirrored positions; the model promises nothing for that case.
