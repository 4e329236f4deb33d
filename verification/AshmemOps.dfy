/** What pin, unpin and status do to the pages of an area. */
module AshmemOps {
  import opened AshmemModel
  import opened AshmemLists

  function Ranges(s: State, a: nat): seq<Range>
    requires a in s.areas
  {
    s.areas[a].ranges
  }

  /** All other areas are as they were, and so are size and mapping of this one. */
  ghost predicate OnlyArea(s: State, t: State, a: nat)
    requires a in s.areas
  {
    && t.areas.Keys == s.areas.Keys
    && (forall b :: b in s.areas && b != a ==> t.areas[b] == s.areas[b])
    && t.areas[a].size == s.areas[a].size && t.areas[a].mapped == s.areas[a].mapped
  }

  /** Some page of the interval lies in a range of the list. */
  ghost predicate AnyCovered(ranges: seq<Range>, first: int, last: int, onlyPurged: bool) {
    exists p :: first <= p <= last && Covered(ranges, p, onlyPurged)
  }

  /** `mid` stands where range `i` stood; it holds the pages of that range outside the interval. */
  ghost predicate Cuts(before: seq<Range>, after: seq<Range>, i: nat, first: int, last: int) {
    && i < |before|
    && forall p, fl :: Covered(after, p, fl) <==>
         Covered(before, p, fl) && !(before[i].Holds(p) && first <= p <= last)
  }

  // ---------------------------------------------------------------- one range at a time

  lemma DelFrame(s: State, a: nat, i: nat)
    requires a in s.areas && i < |Ranges(s, a)|
    ensures var t := RangeDel(s, a, i); OnlyArea(s, t, a) && Ranges(t, a) == Drop(Ranges(s, a), i)
  {
  }

  lemma ShrinkFrame(s: State, a: nat, i: nat, first: int, last: int)
    requires a in s.areas && i < |Ranges(s, a)|
    ensures var t := RangeShrink(s, a, i, first, last);
            && OnlyArea(s, t, a)
            && Ranges(t, a) == Ranges(s, a)[i := Ranges(s, a)[i].(first := first, last := last)]
  {
  }

  lemma AllocFrame(s: State, a: nat, i: nat, purged: bool, first: int, last: int)
    requires a in s.areas && i <= |Ranges(s, a)|
    ensures var t := RangeAlloc(s, a, i, purged, first, last);
            OnlyArea(s, t, a) && Ranges(t, a) == Insert(Ranges(s, a), i, Range(a, first, last, purged))
  {
  }

  /** The state after the pin loop has dealt with a range that meets the interval. */
  function PinRange(s: State, a: nat, i: nat, first: int, last: int): State
    requires a in s.areas && i < |Ranges(s, a)|
  {
    var r := Ranges(s, a)[i];
    if r.Within(first, last) then RangeDel(s, a, i)
    else if r.first >= first then RangeShrink(s, a, i, last + 1, r.last)
    else if r.last <= last then RangeShrink(s, a, i, r.first, first - 1)
    else RangeShrink(RangeAlloc(s, a, i, r.purged, last + 1, r.last), a, i + 1, r.first, first - 1)
  }

  /** The ranges that stand in place of range `r` afterwards, in list order. */
  function Remains(r: Range, first: int, last: int): seq<Range> {
    if r.Within(first, last) then []
    else if r.first >= first then [r.(first := last + 1)]
    else if r.last <= last then [r.(last := first - 1)]
    else [Range(r.area, last + 1, r.last, r.purged), r.(last := first - 1)]
  }

  lemma HolePositions(ranges: seq<Range>, a: nat, i: nat, cut: seq<Range>, last: int)
    requires Descending(ranges, a) && |cut| == |ranges| && i < |ranges|
    requires ranges[i].first <= last && cut[i].last <= last
    requires forall j :: 0 <= j < |ranges| && j != i ==> cut[j] == ranges[j]
    ensures forall j :: 0 <= j < i ==> cut[j].first > ranges[i].last
    ensures forall j :: i <= j < |cut| ==> cut[j].last < last + 1
  {
  }

  lemma HoleKeepsInv(s: State, a: nat, i: nat, first: int, last: int)
    requires Inv(s) && a in s.areas && i < |Ranges(s, a)|
    requires Ranges(s, a)[i].first < first <= last < Ranges(s, a)[i].last
    ensures var r := Ranges(s, a)[i];
            Inv(RangeShrink(RangeAlloc(s, a, i, r.purged, last + 1, r.last), a, i + 1, r.first, first - 1))
  {
    var r := Ranges(s, a)[i];
    SplitCommutes(s, a, i, first, last);
    ShrinkKeepsInv(s, a, i, r.first, first - 1);
    ShrinkFrame(s, a, i, r.first, first - 1);
    ListDescends(s, a);
    AllocAboveCut(RangeShrink(s, a, i, r.first, first - 1), a, i, r.(last := first - 1), last, Ranges(s, a));
  }

  lemma ListDescends(s: State, a: nat)
    requires Inv(s) && a in s.areas
    ensures Descending(Ranges(s, a), a)
  {
  }

  lemma AllocAboveCut(u: State, a: nat, i: nat, low: Range, last: int, ranges: seq<Range>)
    requires Inv(u) && a in u.areas && Descending(ranges, a) && i < |ranges|
    requires Ranges(u, a) == ranges[i := low] && low.last <= last
    requires ranges[i].first <= last < ranges[i].last
    ensures Inv(RangeAlloc(u, a, i, ranges[i].purged, last + 1, ranges[i].last))
  {
    HolePositions(ranges, a, i, ranges[i := low], last);
    hide Inv, Descending, RangeAlloc;
    AllocAt(u, a, i, ranges[i].purged, last + 1, ranges[i].last, ranges[i := low]);
  }

  lemma AllocAt(s: State, a: nat, i: nat, purged: bool, first: int, last: int, ranges: seq<Range>)
    requires Inv(s) && a in s.areas && Ranges(s, a) == ranges && i <= |ranges| && 0 <= first <= last
    requires forall j :: 0 <= j < i ==> ranges[j].first > last
    requires forall j :: i <= j < |ranges| ==> ranges[j].last < first
    ensures Inv(RangeAlloc(s, a, i, purged, first, last))
  {
    AllocKeepsInv(s, a, i, purged, first, last);
  }

  lemma ReplaceShapes(ranges: seq<Range>, i: nat, x: Range, y: Range)
    requires i < |ranges|
    ensures Drop(ranges, i) == ranges[..i] + [] + ranges[i + 1..]
    ensures ranges[i := x] == ranges[..i] + [x] + ranges[i + 1..]
    ensures Insert(ranges, i, y)[i + 1 := x] == ranges[..i] + [y, x] + ranges[i + 1..]
  {
  }

  lemma PinRangeFrame(s: State, a: nat, i: nat, first: int, last: int)
    requires a in s.areas && i < |Ranges(s, a)| && Ranges(s, a)[i].area == a
    ensures var t := PinRange(s, a, i, first, last);
            && OnlyArea(s, t, a)
            && Ranges(t, a) == Ranges(s, a)[..i] + Remains(Ranges(s, a)[i], first, last) + Ranges(s, a)[i + 1..]
  {
    hide OnlyArea, RangeAlloc, RangeDel, RangeShrink, Insert, Drop;
    var ranges := Ranges(s, a);
    var r := ranges[i];
    if r.Within(first, last) {
      DelFrame(s, a, i);
      ReplaceShapes(ranges, i, r, r);
    } else if r.first >= first {
      ShrinkFrame(s, a, i, last + 1, r.last);
      ReplaceShapes(ranges, i, r.(first := last + 1), r);
    } else if r.last <= last {
      ShrinkFrame(s, a, i, r.first, first - 1);
      ReplaceShapes(ranges, i, r.(last := first - 1), r);
    } else {
      HoleFrame(s, a, i, first, last);
      ReplaceShapes(ranges, i, r.(last := first - 1), Range(a, last + 1, r.last, r.purged));
    }
  }

  lemma HoleFrame(s: State, a: nat, i: nat, first: int, last: int)
    requires a in s.areas && i < |Ranges(s, a)|
    ensures var r, ranges := Ranges(s, a)[i], Ranges(s, a); var u := RangeAlloc(s, a, i, r.purged, last + 1, r.last);
            && OnlyArea(s, u, a) && i + 1 < |Ranges(u, a)|
            && OnlyArea(s, RangeShrink(u, a, i + 1, r.first, first - 1), a)
            && Ranges(RangeShrink(u, a, i + 1, r.first, first - 1), a) ==
               Insert(ranges, i, Range(a, last + 1, r.last, r.purged))[i + 1 := r.(last := first - 1)]
  {
    var r := Ranges(s, a)[i];
    AllocFrame(s, a, i, r.purged, last + 1, r.last);
    ShrinkFrame(RangeAlloc(s, a, i, r.purged, last + 1, r.last), a, i + 1, r.first, first - 1);
    hide RangeAlloc, RangeShrink;
  }

  lemma RemainsCovers(r: Range, first: int, last: int)
    requires first <= last && r.Meets(first, last) && r.first <= r.last
    ensures forall p, fl :: Covered(Remains(r, first, last), p, fl) <==>
              r.Holds(p) && (fl ==> r.purged) && !(first <= p <= last)
  {
  }

  /** Dealing with one range removes exactly its pages inside the interval. */
  lemma PinRangeCuts(s: State, a: nat, i: nat, first: int, last: int)
    requires Inv(s) && a in s.areas && i < |Ranges(s, a)| && first <= last
    requires Ranges(s, a)[i].Meets(first, last)
    ensures var t := PinRange(s, a, i, first, last);
            OnlyArea(s, t, a) && Cuts(Ranges(s, a), Ranges(t, a), i, first, last)
  {
    assert Descending(Ranges(s, a), a);
    PinRangeFrame(s, a, i, first, last);
    RemainsCovers(Ranges(s, a)[i], first, last);
    CutCovers(Ranges(s, a), a, i, first, last, Remains(Ranges(s, a)[i], first, last));
  }

  lemma CutCovers(ranges: seq<Range>, a: nat, i: nat, first: int, last: int, mid: seq<Range>)
    requires Descending(ranges, a) && i < |ranges| && first <= last
    requires forall p, fl :: Covered(mid, p, fl) <==>
               ranges[i].Holds(p) && (fl ==> ranges[i].purged) && !(first <= p <= last)
    ensures Cuts(ranges, ranges[..i] + mid + ranges[i + 1..], i, first, last)
  {
    forall p, fl
      ensures Covered(ranges[..i] + mid + ranges[i + 1..], p, fl) <==>
              Covered(ranges, p, fl) && !(ranges[i].Holds(p) && first <= p <= last)
    {
      CoveredReplace(ranges, i, mid, p, fl);
      CoveredSplit(ranges, i, p, fl);
      if ranges[i].Holds(p) {
        HeldOnce(ranges, a, i, p, fl);
      }
    }
  }

  // ---------------------------------------------------------------- pin

  ghost predicate ApartFrom(ranges: seq<Range>, i: nat, first: int, last: int)
    requires i <= |ranges|
  {
    forall j :: 0 <= j < i ==> ranges[j].first > last || ranges[j].last < first
  }

  lemma NothingHere(ranges: seq<Range>, a: nat, i: nat, first: int, last: int)
    requires Descending(ranges, a) && i <= |ranges| && ApartFrom(ranges, i, first, last)
    requires i < |ranges| ==> ranges[i].last < first
    ensures forall p, fl :: first <= p <= last ==> !Covered(ranges, p, fl)
  {
  }

  /** What the pin loop has done once it stops. */
  ghost predicate Pinned(s: State, t: State, a: nat, first: int, last: int)
    requires a in s.areas
  {
    && Inv(t) && OnlyArea(s, t, a)
    && forall p, fl :: Covered(Ranges(t, a), p, fl) <==> Covered(Ranges(s, a), p, fl) && !(first <= p <= last)
  }

  lemma PinFromUnfolds(s: State, a: nat, i: nat, first: int, last: int, was: bool)
    requires a in s.areas && i < |Ranges(s, a)|
    requires Ranges(s, a)[i].last >= first && Ranges(s, a)[i].Meets(first, last)
    requires var u := PinRange(s, a, i, first, last);
             a in u.areas && i + |Remains(Ranges(s, a)[i], first, last)| <= |Ranges(u, a)| + 1
    requires |Remains(Ranges(s, a)[i], first, last)| < 2 ==>
               i + |Remains(Ranges(s, a)[i], first, last)| <= |Ranges(PinRange(s, a, i, first, last), a)|
    ensures var r, u := Ranges(s, a)[i], PinRange(s, a, i, first, last);
            var rest := Remains(r, first, last);
            PinFrom(s, a, i, first, last, was) ==
            if |rest| == 2 then (u, was || r.purged)
            else PinFrom(u, a, i + |rest|, first, last, was || r.purged)
  {
  }

  lemma PinRangeKeepsInv(s: State, a: nat, i: nat, first: int, last: int, u: State)
    requires Inv(s) && a in s.areas && i < |Ranges(s, a)| && first <= last
    requires Ranges(s, a)[i].Meets(first, last) && u == PinRange(s, a, i, first, last)
    ensures Inv(u)
  {
    var r := Ranges(s, a)[i];
    ListDescends(s, a);
    hide Inv, RangeDel, RangeShrink, RangeAlloc;
    if r.Within(first, last) {
      DelKeepsInv(s, a, i);
    } else if r.first >= first {
      ShrinkKeepsInv(s, a, i, last + 1, r.last);
    } else if r.last <= last {
      ShrinkKeepsInv(s, a, i, r.first, first - 1);
    } else {
      HoleKeepsInv(s, a, i, first, last);
    }
  }

  /** Everything about the range dealt with that the rest of the loop builds on. */
  lemma PinRangeDone(s: State, a: nat, i: nat, first: int, last: int)
    requires Inv(s) && a in s.areas && i < |Ranges(s, a)| && first <= last
    requires Ranges(s, a)[i].Meets(first, last) && ApartFrom(Ranges(s, a), i, first, last)
    ensures var r, u := Ranges(s, a)[i], PinRange(s, a, i, first, last);
            && OnlyArea(s, u, a) && Cuts(Ranges(s, a), Ranges(u, a), i, first, last)
            && (AnyCovered(Ranges(s, a), first, last, true) <==>
                  r.purged || AnyCovered(Ranges(u, a), first, last, true))
            && |Ranges(u, a)| == |Ranges(s, a)| - 1 + |Remains(r, first, last)|
            && i <= |Ranges(u, a)| && ApartFrom(Ranges(u, a), i, first, last)
            && (|Remains(r, first, last)| == 1 ==> ApartFrom(Ranges(u, a), i + 1, first, last))
  {
    ListDescends(s, a);
    PinRangeFrame(s, a, i, first, last);
    PinRangeCuts(s, a, i, first, last);
    PurgedSeen(Ranges(s, a), Ranges(PinRange(s, a, i, first, last), a), a, i, first, last);
    ApartAfter(Ranges(s, a), i, first, last, Remains(Ranges(s, a)[i], first, last));
  }

  lemma ApartAfter(ranges: seq<Range>, i: nat, first: int, last: int, mid: seq<Range>)
    requires i < |ranges| && ApartFrom(ranges, i, first, last)
    requires forall j :: 0 <= j < |mid| ==> mid[j].first > last || mid[j].last < first
    ensures ApartFrom(ranges[..i] + mid + ranges[i + 1..], i + |mid|, first, last)
  {
  }

  /** The next state and position of the loop at a range that meets the interval. */
  lemma PinNext(s: State, a: nat, i: nat, first: int, last: int, was: bool) returns (u: State, j: nat)
    requires Inv(s) && a in s.areas && i < |Ranges(s, a)| && first <= last
    requires ApartFrom(Ranges(s, a), i, first, last)
    requires Ranges(s, a)[i].last >= first && Ranges(s, a)[i].Meets(first, last)
    ensures u == PinRange(s, a, i, first, last) && Inv(u) && OnlyArea(s, u, a)
    ensures j == i + |Remains(Ranges(s, a)[i], first, last)| && j <= i + 2
    ensures j == i <==> Ranges(s, a)[i].Within(first, last)
    ensures j == i + 2 <==> Ranges(s, a)[i].first < first && last < Ranges(s, a)[i].last
    ensures j != i + 2 ==>
              && j <= |Ranges(u, a)| && |Ranges(u, a)| - j < |Ranges(s, a)| - i
              && ApartFrom(Ranges(u, a), j, first, last)
              && PinFrom(s, a, i, first, last, was) == PinFrom(u, a, j, first, last, was || Ranges(s, a)[i].purged)
    ensures j == i + 2 ==> PinFrom(s, a, i, first, last, was) == (u, was || Ranges(s, a)[i].purged)
  {
    u, j := PinRange(s, a, i, first, last), i + |Remains(Ranges(s, a)[i], first, last)|;
    PinRangeDone(s, a, i, first, last);
    PinRangeKeepsInv(s, a, i, first, last, u);
    PinFromUnfolds(s, a, i, first, last, was);
  }

  lemma {:induction false} PinFromKeepsInv(s: State, a: nat, i: nat, first: int, last: int, was: bool)
    requires Inv(s) && a in s.areas && i <= |Ranges(s, a)| && first <= last
    requires ApartFrom(Ranges(s, a), i, first, last)
    ensures Inv(PinFrom(s, a, i, first, last, was).0)
    ensures OnlyArea(s, PinFrom(s, a, i, first, last, was).0, a)
    decreases |Ranges(s, a)| - i
  {
    if i < |Ranges(s, a)| && Ranges(s, a)[i].last >= first {
      if !Ranges(s, a)[i].Meets(first, last) {
        PinFromKeepsInv(s, a, i + 1, first, last, was);
      } else {
        var u, j := PinNext(s, a, i, first, last, was);
        if j != i + 2 {
          PinFromKeepsInv(u, a, j, first, last, was || Ranges(s, a)[i].purged);
        }
      }
    }
  }

  lemma {:induction false} PinFromPage(s: State, a: nat, i: nat, first: int, last: int, was: bool, p: int, fl: bool)
    requires Inv(s) && a in s.areas && i <= |Ranges(s, a)| && first <= last
    requires ApartFrom(Ranges(s, a), i, first, last)
    ensures a in PinFrom(s, a, i, first, last, was).0.areas
    ensures Covered(Ranges(PinFrom(s, a, i, first, last, was).0, a), p, fl) <==>
            Covered(Ranges(s, a), p, fl) && !(first <= p <= last)
    decreases |Ranges(s, a)| - i
  {
    ListDescends(s, a);
    if i == |Ranges(s, a)| || Ranges(s, a)[i].last < first {
      NothingHere(Ranges(s, a), a, i, first, last);
    } else if !Ranges(s, a)[i].Meets(first, last) {
      PinFromPage(s, a, i + 1, first, last, was, p, fl);
    } else {
      var u, j := PinNext(s, a, i, first, last, was);
      PinRangeCuts(s, a, i, first, last);
      if j != i + 2 {
        PinFromPage(u, a, j, first, last, was || Ranges(s, a)[i].purged, p, fl);
      } else {
        HoleIsAll(Ranges(s, a), Ranges(u, a), a, i, first, last);
      }
    }
  }

  lemma {:induction false} PinFromSeen(s: State, a: nat, i: nat, first: int, last: int, was: bool)
    requires Inv(s) && a in s.areas && i <= |Ranges(s, a)| && first <= last
    requires ApartFrom(Ranges(s, a), i, first, last)
    ensures PinFrom(s, a, i, first, last, was).1 <==> was || AnyCovered(Ranges(s, a), first, last, true)
    decreases |Ranges(s, a)| - i
  {
    ListDescends(s, a);
    if i == |Ranges(s, a)| || Ranges(s, a)[i].last < first {
      NothingHere(Ranges(s, a), a, i, first, last);
    } else if !Ranges(s, a)[i].Meets(first, last) {
      PinFromSeen(s, a, i + 1, first, last, was);
    } else {
      var u, j := PinNext(s, a, i, first, last, was);
      PinRangeDone(s, a, i, first, last);
      if j != i + 2 {
        PinFromSeen(u, a, j, first, last, was || Ranges(s, a)[i].purged);
      } else {
        HoleIsAll(Ranges(s, a), Ranges(u, a), a, i, first, last);
      }
    }
  }

  /** After one range is dealt with, the purged pages still ahead are those of the rest. */
  lemma PurgedSeen(before: seq<Range>, after: seq<Range>, a: nat, i: nat, first: int, last: int)
    requires Descending(before, a) && first <= last
    requires Cuts(before, after, i, first, last) && before[i].Meets(first, last)
    ensures AnyCovered(before, first, last, true) <==> before[i].purged || AnyCovered(after, first, last, true)
  {
    var r := before[i];
    if r.purged {
      var p := Max(r.first, first);
      CoveredSplit(before, i, p, true);
      assert Covered(before, p, true);
    }
    if AnyCovered(before, first, last, true) {
      var p :| first <= p <= last && Covered(before, p, true);
      CoveredSplit(before, i, p, true);
      if r.Holds(p) {
        HeldOnce(before, a, i, p, true);
      } else {
        assert Covered(after, p, true);
      }
    }
    if AnyCovered(after, first, last, true) {
      var p :| first <= p <= last && Covered(after, p, true);
      assert Covered(before, p, true);
    }
  }

  /** A range that sticks out on both sides is the only one the interval meets. */
  lemma HoleIsAll(before: seq<Range>, after: seq<Range>, a: nat, i: nat, first: int, last: int)
    requires Descending(before, a) && Cuts(before, after, i, first, last)
    requires before[i].first < first <= last < before[i].last
    ensures forall p, fl :: Covered(after, p, fl) <==> Covered(before, p, fl) && !(first <= p <= last)
    ensures !AnyCovered(after, first, last, true)
  {
  }

  /** `ashmem_pin` takes exactly the requested pages out of the unpinned set, leaves every
      other area alone, and reports a purge exactly when one of the pages was purged. */
  lemma PinEffect(s: State, a: nat, first: int, last: int)
    requires Inv(s) && a in s.areas && first <= last
    ensures Pinned(s, Pin(s, a, first, last).0, a, first, last)
    ensures Pin(s, a, first, last).1 <==> AnyCovered(Ranges(s, a), first, last, true)
  {
    PinFromKeepsInv(s, a, 0, first, last, false);
    forall p, fl
      ensures Covered(Ranges(Pin(s, a, first, last).0, a), p, fl) <==>
              Covered(Ranges(s, a), p, fl) && !(first <= p <= last)
    {
      PinFromPage(s, a, 0, first, last, false, p, fl);
    }
    PinFromSeen(s, a, 0, first, last, false);
  }

  // ---------------------------------------------------------------- status

  lemma {:induction false} StatusFromEffect(ranges: seq<Range>, a: nat, i: nat, first: int, last: int)
    requires Descending(ranges, a) && i <= |ranges| && first <= last
    requires ApartFrom(ranges, i, first, last)
    ensures StatusFrom(ranges, i, first, last) <==> AnyCovered(ranges, first, last, false)
    decreases |ranges| - i
  {
    if i == |ranges| || ranges[i].last < first {
      NothingHere(ranges, a, i, first, last);
    } else if ranges[i].Meets(first, last) {
      var p := Max(ranges[i].first, first);
      assert ranges[i] in ranges && ranges[i].Holds(p);
      assert Covered(ranges, p, false);
    } else {
      StatusFromEffect(ranges, a, i + 1, first, last);
    }
  }

  /** `ashmem_get_pin_status` says unpinned exactly when some page of the interval is,
      although it stops at the first range below the interval. */
  lemma StatusEffect(s: State, a: nat, first: int, last: int)
    requires Inv(s) && a in s.areas && first <= last
    ensures AnyUnpinned(s, a, first, last) <==> AnyCovered(Ranges(s, a), first, last, false)
  {
    assert Descending(Ranges(s, a), a);
    StatusFromEffect(Ranges(s, a), a, 0, first, last);
  }
}
