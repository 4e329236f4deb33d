/** `mm/ashmem.c` as functions on values: each area's list of unpinned page ranges, the
  global LRU list and the page counter, and the operations that change all three. */
module AshmemModel {

  const PAGE_SIZE: nat := 4096

  /** An `ashmem_range`: pages `first` to `last`, both included. */
  datatype Range = Range(area: nat, first: int, last: int, purged: bool) {
    function Size(): int { last - first + 1 }
    predicate Holds(p: int) { first <= p <= last }
    predicate Subsumes(s: int, e: int) { first <= s && last >= e }
    predicate Within(s: int, e: int) { first >= s && last <= e }
    /** `page_range_in_range` */
    predicate Meets(s: int, e: int) { Holds(s) || Holds(e) || Within(s, e) }
  }

  /** An `ashmem_area`: `size` in bytes, `mapped` once it has a backing file. */
  datatype Area = Area(size: nat, mapped: bool, ranges: seq<Range>)

  datatype State = State(areas: map<nat, Area>, lru: seq<Range>, lruCount: int)

  /** Pages in a list of ranges. */
  function Pages(ranges: seq<Range>): int {
    if ranges == [] then 0 else ranges[0].Size() + Pages(ranges[1..])
  }

  // ---------------------------------------------------------------- invariant

  /** Non-empty ranges of one area, in descending order and pairwise disjoint. */
  ghost predicate Descending(ranges: seq<Range>, area: nat) {
    && (forall i :: 0 <= i < |ranges| ==> ranges[i].area == area && 0 <= ranges[i].first <= ranges[i].last)
    && (forall i, j :: 0 <= i < j < |ranges| ==> ranges[j].last < ranges[i].first)
  }

  ghost predicate Distinct<T>(xs: seq<T>) {
    forall i, j :: 0 <= i < j < |xs| ==> xs[i] != xs[j]
  }

  /** `r` is a range of one of the areas and can still be purged. */
  predicate Evictable(areas: map<nat, Area>, r: Range) {
    r.area in areas && r in areas[r.area].ranges && !r.purged
  }

  ghost predicate ListsOk(areas: map<nat, Area>) {
    forall a :: a in areas ==> Descending(areas[a].ranges, a)
  }

  /** The LRU list holds exactly the evictable ranges, each once. */
  ghost predicate LruOk(areas: map<nat, Area>, lru: seq<Range>) {
    Distinct(lru) && forall r :: r in lru <==> Evictable(areas, r)
  }

  ghost predicate Inv(s: State) {
    ListsOk(s.areas) && LruOk(s.areas, s.lru) && s.lruCount == Pages(s.lru)
  }

  // ---------------------------------------------------------------- range primitives

  function Drop<T>(xs: seq<T>, i: nat): seq<T>
    requires i < |xs|
  {
    xs[..i] + xs[i + 1..]
  }

  function Insert<T>(xs: seq<T>, i: nat, x: T): seq<T>
    requires i <= |xs|
  {
    xs[..i] + [x] + xs[i..]
  }

  /** Position of `x`, or the length when absent. */
  function Find<T(==)>(xs: seq<T>, x: T): (k: nat)
    ensures k <= |xs|
    ensures k < |xs| ==> xs[k] == x
    ensures k == |xs| <==> x !in xs
  {
    if xs == [] then 0 else if xs[0] == x then 0 else 1 + Find(xs[1..], x)
  }

  function SetRanges(s: State, a: nat, ranges: seq<Range>): State
    requires a in s.areas
  {
    s.(areas := s.areas[a := s.areas[a].(ranges := ranges)])
  }

  function LruAdd(s: State, r: Range): State {
    s.(lru := s.lru + [r], lruCount := s.lruCount + r.Size())
  }

  function LruDel(s: State, r: Range): State {
    var k := Find(s.lru, r);
    s.(lru := if k < |s.lru| then Drop(s.lru, k) else s.lru, lruCount := s.lruCount - r.Size())
  }

  /** `range_alloc` in front of position `i`; memory for the new range is available. */
  function RangeAlloc(s: State, a: nat, i: nat, purged: bool, first: int, last: int): State
    requires a in s.areas && i <= |s.areas[a].ranges|
  {
    var r := Range(a, first, last, purged);
    var s1 := SetRanges(s, a, Insert(s.areas[a].ranges, i, r));
    if purged then s1 else LruAdd(s1, r)
  }

  function RangeDel(s: State, a: nat, i: nat): State
    requires a in s.areas && i < |s.areas[a].ranges|
  {
    var r := s.areas[a].ranges[i];
    var s1 := SetRanges(s, a, Drop(s.areas[a].ranges, i));
    if r.purged then s1 else LruDel(s1, r)
  }

  /** The node of the range is on both lists, so both see its new bounds. */
  function RangeShrink(s: State, a: nat, i: nat, first: int, last: int): State
    requires a in s.areas && i < |s.areas[a].ranges|
  {
    var r := s.areas[a].ranges[i];
    var r' := r.(first := first, last := last);
    var s1 := SetRanges(s, a, s.areas[a].ranges[i := r']);
    var k := Find(s.lru, r);
    if r.purged then s1
    else s1.(lru := if k < |s.lru| then s.lru[k := r'] else s.lru,
             lruCount := s.lruCount - (r.Size() - r'.Size()))
  }

  /** The range stays on its area's list but leaves the LRU list. */
  function Purge(s: State, a: nat, i: nat): State
    requires a in s.areas && i < |s.areas[a].ranges|
  {
    var r := s.areas[a].ranges[i];
    LruDel(SetRanges(s, a, s.areas[a].ranges[i := r.(purged := true)]), r)
  }

  // ---------------------------------------------------------------- pin, unpin, status

  /** `ashmem_pin` from position `i` of the list on; `was` is the result so far. */
  function PinFrom(s: State, a: nat, i: nat, first: int, last: int, was: bool): (State, bool)
    requires a in s.areas && i <= |s.areas[a].ranges|
    decreases |s.areas[a].ranges| - i
  {
    var ranges := s.areas[a].ranges;
    if i == |ranges| || ranges[i].last < first then (s, was) else
    var r := ranges[i];
    if !r.Meets(first, last) then PinFrom(s, a, i + 1, first, last, was)
    else if r.Within(first, last) then
      PinFrom(RangeDel(s, a, i), a, i, first, last, was || r.purged)
    else if r.first >= first then
      PinFrom(RangeShrink(s, a, i, last + 1, r.last), a, i + 1, first, last, was || r.purged)
    else if r.last <= last then
      PinFrom(RangeShrink(s, a, i, r.first, first - 1), a, i + 1, first, last, was || r.purged)
    else
      (RangeShrink(RangeAlloc(s, a, i, r.purged, last + 1, r.last), a, i + 1, r.first, first - 1),
       was || r.purged)
  }

  function Pin(s: State, a: nat, first: int, last: int): (State, bool)
    requires a in s.areas
  {
    PinFrom(s, a, 0, first, last, false)
  }

  /** `ashmem_unpin` from position `i` on; a merge starts again at the head of the list. */
  function UnpinFrom(s: State, a: nat, i: nat, first: int, last: int, purged: bool): State
    requires a in s.areas && i <= |s.areas[a].ranges|
    decreases |s.areas[a].ranges|, |s.areas[a].ranges| - i
  {
    var ranges := s.areas[a].ranges;
    if i == |ranges| || ranges[i].last < first then RangeAlloc(s, a, i, purged, first, last) else
    var r := ranges[i];
    if r.Subsumes(first, last) then s
    else if r.Meets(first, last) then
      UnpinFrom(RangeDel(s, a, i), a, 0, Min(r.first, first), Max(r.last, last), purged || r.purged)
    else UnpinFrom(s, a, i + 1, first, last, purged)
  }

  function Min(x: int, y: int): int { if x < y then x else y }
  function Max(x: int, y: int): int { if x > y then x else y }

  function Unpin(s: State, a: nat, first: int, last: int): State
    requires a in s.areas
  {
    UnpinFrom(s, a, 0, first, last, false)
  }

  /** `ashmem_get_pin_status`: true stands for `ASHMEM_IS_UNPINNED`. */
  function StatusFrom(ranges: seq<Range>, i: nat, first: int, last: int): bool
    requires i <= |ranges|
    decreases |ranges| - i
  {
    if i == |ranges| || ranges[i].last < first then false
    else ranges[i].Meets(first, last) || StatusFrom(ranges, i + 1, first, last)
  }

  function AnyUnpinned(s: State, a: nat, first: int, last: int): bool
    requires a in s.areas
  {
    StatusFrom(s.areas[a].ranges, 0, first, last)
  }

  // ---------------------------------------------------------------- open, release

  /** Delete the ranges of an area one by one from the head. */
  function DelAll(s: State, a: nat): State
    requires a in s.areas
    decreases |s.areas[a].ranges|
  {
    if s.areas[a].ranges == [] then s else DelAll(RangeDel(s, a, 0), a)
  }

  /** `ashmem_release`. */
  function Release(s: State, a: nat): State
    requires a in s.areas
  {
    var t := DelAll(s, a);
    t.(areas := t.areas - {a})
  }

  /** `ashmem_open` with a fresh area. */
  function Open(s: State, a: nat): State
    requires a !in s.areas
  {
    s.(areas := s.areas[a := Area(0, false, [])])
  }
}
