/** The values the timeline works on. */
module Types {

  /** A scheduled item. The source keeps `start` and `end` as date strings and
      always reads them through `new Date(s).getTime()`; here they are the
      resulting instants in integer milliseconds. */
  datatype TimelineItem = TimelineItem(id: int, start: int, end: int, name: string)

  /** A row of the timeline: the items placed in it, in placement order. */
  type Lane = seq<TimelineItem>

  datatype Option<+T> = None | Some(value: T)

  /** One day in milliseconds, `24 * 60 * 60 * 1000`. */
  const DAY := 24 * 60 * 60 * 1000

  /** JavaScript's `s.length`: the number of UTF-16 code units, two for each
      character outside the Basic Multilingual Plane. */
  function Utf16Length(s: string): (n: nat)
    ensures |s| <= n <= 2 * |s|
    ensures |s| == 1 ==> n == if s[0] as int >= 0x1_0000 then 2 else 1
  {
    if s == [] then 0
    else (if s[0] as int >= 0x1_0000 then 2 else 1) + Utf16Length(s[1..])
  }
}
