/** Lists that begin with ranges without pages, as the unpin request without pages leaves them at
  the very end of an area, and what the operations do to such lists. */
module AshmemLoose {
  import opened AshmemModel
  import opened AshmemLists
  import opened AshmemOps
  import opened AshmemShrink

  // ---------------------------------------------------------------- the LRU list as a bag

  /** How often a range can be purged: once for every unpurged copy in its area. */
  function Copies(areas: map<nat, Area>, r: Range): nat {
    if r.purged || r.area !in areas then 0 else multiset(areas[r.area].ranges)[r]
  }

  ghost predicate Owned(ranges: seq<Range>, a: nat) {
    forall i :: 0 <= i < |ranges| ==> ranges[i].area == a
  }

  /** The LRU list holds every unpurged range as often as the lists of the areas do, in whatever
      order, and the counter its pages. */
  ghost predicate Stock(s: State) {
    && (forall a :: a in s.areas ==> Owned(s.areas[a].ranges, a))
    && (forall r :: multiset(s.lru)[r] == Copies(s.areas, r))
    && s.lruCount == Pages(s.lru)
  }

  /** What a change of one area must do to the LRU list. */
  ghost predicate BagFollows(before: seq<Range>, after: seq<Range>, lru: seq<Range>, lru': seq<Range>, a: nat) {
    forall r: Range ::
      if r.purged || r.area != a then multiset(lru')[r] == multiset(lru)[r]
      else multiset(lru')[r] + multiset(before)[r] == multiset(lru)[r] + multiset(after)[r]
  }

  lemma StockFollows(s: State, t: State, a: nat)
    requires Stock(s) && a in s.areas && OnlyArea(s, t, a) && Owned(Ranges(t, a), a)
    requires t.lruCount == Pages(t.lru) && BagFollows(Ranges(s, a), Ranges(t, a), s.lru, t.lru, a)
    ensures Stock(t)
  {
    forall r
      ensures multiset(t.lru)[r] == Copies(t.areas, r)
    {
      assert multiset(s.lru)[r] == Copies(s.areas, r);
    }
  }

  lemma InsertBag(xs: seq<Range>, i: nat, x: Range)
    requires i <= |xs|
    ensures multiset(Insert(xs, i, x)) == multiset(xs) + multiset{x}
  {
    assert xs[..i] + xs[i..] == xs;
  }

  lemma DropBag(xs: seq<Range>, i: nat)
    requires i < |xs|
    ensures multiset(xs) == multiset(Drop(xs, i)) + multiset{xs[i]}
  {
    assert xs[..i] + [xs[i]] + xs[i + 1..] == xs;
  }

  lemma UpdateBag(xs: seq<Range>, i: nat, x: Range)
    requires i < |xs|
    ensures multiset(xs[i := x]) + multiset{xs[i]} == multiset(xs) + multiset{x}
  {
    DropBag(xs, i);
    DropBag(xs[i := x], i);
    assert Drop(xs[i := x], i) == Drop(xs, i);
  }

  lemma InStock(s: State, a: nat, i: nat)
    requires Stock(s) && a in s.areas && i < |Ranges(s, a)| && !Ranges(s, a)[i].purged
    ensures Ranges(s, a)[i] in s.lru
  {
    var r := Ranges(s, a)[i];
    assert r in multiset(Ranges(s, a));
    assert multiset(s.lru)[r] == Copies(s.areas, r);
  }

  lemma AllocStock(s: State, a: nat, i: nat, purged: bool, first: int, last: int)
    requires Stock(s) && a in s.areas && i <= |Ranges(s, a)|
    ensures Stock(RangeAlloc(s, a, i, purged, first, last))
  {
    var r, t := Range(a, first, last, purged), RangeAlloc(s, a, i, purged, first, last);
    AllocFrame(s, a, i, purged, first, last);
    InsertBag(Ranges(s, a), i, r);
    PagesAppend(s.lru, r);
    StockFollows(s, t, a);
  }

  lemma DelStock(s: State, a: nat, i: nat)
    requires Stock(s) && a in s.areas && i < |Ranges(s, a)|
    ensures Stock(RangeDel(s, a, i))
  {
    var r, t := Ranges(s, a)[i], RangeDel(s, a, i);
    DelFrame(s, a, i);
    DropBag(Ranges(s, a), i);
    if !r.purged {
      InStock(s, a, i);
      DropBag(s.lru, Find(s.lru, r));
      PagesDrop(s.lru, Find(s.lru, r));
    }
    StockFollows(s, t, a);
  }

  lemma ShrinkStock(s: State, a: nat, i: nat, first: int, last: int)
    requires Stock(s) && a in s.areas && i < |Ranges(s, a)|
    ensures Stock(RangeShrink(s, a, i, first, last))
  {
    var r, t := Ranges(s, a)[i], RangeShrink(s, a, i, first, last);
    var r' := r.(first := first, last := last);
    ShrinkFrame(s, a, i, first, last);
    UpdateBag(Ranges(s, a), i, r');
    if !r.purged {
      InStock(s, a, i);
      UpdateBag(s.lru, Find(s.lru, r), r');
      PagesUpdate(s.lru, Find(s.lru, r), r');
    }
    StockFollows(s, t, a);
  }

  /** The head of the LRU list is an unpurged range of its area. */
  lemma HeadInList(s: State)
    requires Stock(s) && s.lru != []
    ensures var r := s.lru[0];
            && r.area in s.areas && !r.purged && r in Ranges(s, r.area)
            && Find(Ranges(s, r.area), r) < |Ranges(s, r.area)|
  {
    var r := s.lru[0];
    assert r in multiset(s.lru);
    assert multiset(s.lru)[r] == Copies(s.areas, r);
  }

  lemma PurgeHeadStock(s: State)
    requires Stock(s) && s.lru != []
    ensures Stock(PurgeHead(s))
  {
    var r := s.lru[0];
    HeadInList(s);
    UpdateBag(Ranges(s, r.area), Find(Ranges(s, r.area), r), r.(purged := true));
    DropBag(s.lru, 0);
    assert Drop(s.lru, 0) == s.lru[1..];
    StockFollows(s, PurgeHead(s), r.area);
  }

  // ---------------------------------------------------------------- lists

  /** `k` ranges without pages at the end of an area of `n` pages, and after them ranges of pages of
      the area, descending. */
  ghost predicate Loose(ranges: seq<Range>, a: nat, n: int, k: nat) {
    && k <= |ranges| && Owned(ranges, a)
    && (forall i :: 0 <= i < k ==> ranges[i].first == n && ranges[i].last == n - 1)
    && (forall i :: k <= i < |ranges| ==> 0 <= ranges[i].first <= ranges[i].last < n)
    && (forall i, j :: k <= i < j < |ranges| ==> ranges[j].last < ranges[i].first)
  }

  /** The ranges without pages hold none. */
  lemma LooseCovers(ranges: seq<Range>, a: nat, n: int, k: nat)
    requires Loose(ranges, a, n, k)
    ensures Descending(ranges[k..], a)
    ensures forall p, fl :: Covered(ranges, p, fl) <==> Covered(ranges[k..], p, fl)
    ensures forall p, fl :: Covered(ranges, p, fl) ==> 0 <= p < n
  {
    forall p, fl
      ensures Covered(ranges, p, fl) <==> Covered(ranges[k..], p, fl)
      ensures Covered(ranges, p, fl) ==> 0 <= p < n
    {
      if Covered(ranges, p, fl) {
        var r :| r in ranges && r.Holds(p) && (fl ==> r.purged);
        var i :| 0 <= i < |ranges| && ranges[i] == r;
        assert r == ranges[k..][i - k];
      }
    }
  }

  lemma LooseAgain(front: seq<Range>, back: seq<Range>, a: nat, n: int)
    requires Descending(back, a) && (forall p :: Covered(back, p, false) ==> p < n)
    requires Owned(front, a) && forall i :: 0 <= i < |front| ==> front[i].first == n && front[i].last == n - 1
    ensures Loose(front + back, a, n, |front|)
    ensures forall p, fl :: Covered(front + back, p, fl) <==> Covered(back, p, fl)
  {
    forall i | 0 <= i < |back|
      ensures back[i].last < n
    {
      assert back[i] in back && back[i].Holds(back[i].last);
      assert Covered(back, back[i].last, false);
    }
    LooseCovers(front + back, a, n, |front|);
    assert (front + back)[|front|..] == back;
  }

  lemma LooseDrop(ranges: seq<Range>, a: nat, n: int, k: nat, i: nat)
    requires Loose(ranges, a, n, k) && i < |ranges|
    ensures Loose(Drop(ranges, i), a, n, if i < k then k - 1 else k)
  {
    DropIndex(ranges, i);
    hide Drop;
  }

  lemma DropIndex(ranges: seq<Range>, i: nat)
    requires i < |ranges|
    ensures |Drop(ranges, i)| == |ranges| - 1
    ensures forall j :: 0 <= j < |ranges| - 1 ==> Drop(ranges, i)[j] == ranges[if j < i then j else j + 1]
  {
  }

  lemma DropReplaces(ranges: seq<Range>, i: nat, p: int, fl: bool)
    requires i < |ranges|
    ensures Covered(Drop(ranges, i), p, fl) <==> Covered(ranges[..i], p, fl) || Covered(ranges[i + 1..], p, fl)
  {
    assert Drop(ranges, i) == ranges[..i] + [] + ranges[i + 1..];
    CoveredReplace(ranges, i, [], p, fl);
  }

  /** Every range with pages holds them alone. */
  lemma LooseAlone(ranges: seq<Range>, a: nat, n: int, k: nat, i: nat, p: int, fl: bool)
    requires Loose(ranges, a, n, k) && i < |ranges| && ranges[i].Holds(p)
    ensures !Covered(ranges[..i], p, fl) && !Covered(ranges[i + 1..], p, fl)
  {
  }

  lemma LooseDropCovers(ranges: seq<Range>, a: nat, n: int, k: nat, i: nat)
    requires Loose(ranges, a, n, k) && i < |ranges|
    ensures forall p, fl :: Covered(Drop(ranges, i), p, fl) <==> Covered(ranges, p, fl) && !ranges[i].Holds(p)
  {
    forall p, fl
      ensures Covered(Drop(ranges, i), p, fl) <==> Covered(ranges, p, fl) && !ranges[i].Holds(p)
    {
      DropReplaces(ranges, i, p, fl);
      CoveredSplit(ranges, i, p, fl);
      if ranges[i].Holds(p) {
        LooseAlone(ranges, a, n, k, i, p, fl);
      }
    }
  }

  lemma LoosePurged(ranges: seq<Range>, a: nat, n: int, k: nat, i: nat)
    requires Loose(ranges, a, n, k) && i < |ranges|
    ensures Loose(ranges[i := ranges[i].(purged := true)], a, n, k)
  {
  }

  // ---------------------------------------------------------------- pinning

  /** A state in which the list is the only one. */
  function Alone(ranges: seq<Range>, a: nat): State {
    State(map[a := Area(0, true, ranges)], Unpurged(ranges), Pages(Unpurged(ranges)))
  }

  function Unpurged(ranges: seq<Range>): seq<Range> {
    if ranges == [] then [] else (if ranges[0].purged then [] else [ranges[0]]) + Unpurged(ranges[1..])
  }

  lemma {:induction false} UnpurgedMembers(ranges: seq<Range>)
    requires Distinct(ranges)
    ensures Distinct(Unpurged(ranges)) && forall r :: r in Unpurged(ranges) <==> r in ranges && !r.purged
    decreases |ranges|
  {
    if ranges != [] {
      assert forall i, j :: 0 <= i < j < |ranges[1..]| ==> ranges[1..][i] != ranges[1..][j];
      UnpurgedMembers(ranges[1..]);
      assert ranges == [ranges[0]] + ranges[1..];
    }
  }

  lemma AloneInv(ranges: seq<Range>, a: nat)
    requires Descending(ranges, a)
    ensures Inv(Alone(ranges, a))
  {
    DescendingDistinct(ranges, a);
    UnpurgedMembers(ranges);
  }

  /** The loop does not look at what it has passed. */
  lemma {:induction false} PinShifted(s: State, c: State, a: nat, front: seq<Range>, i: nat, first: int, last: int,
                                      was: bool)
    requires a in s.areas && a in c.areas && Ranges(s, a) == front + Ranges(c, a) && i <= |Ranges(c, a)|
    requires Owned(Ranges(c, a), a)
    ensures var x, y := PinFrom(s, a, |front| + i, first, last, was), PinFrom(c, a, i, first, last, was);
            && a in x.0.areas && a in y.0.areas && x.1 == y.1
            && Ranges(x.0, a) == front + Ranges(y.0, a)
    decreases |Ranges(c, a)| - i
  {
    hide RangeDel, RangeAlloc, RangeShrink, Owned, OnlyArea;
    var ranges, k := Ranges(c, a), |front|;
    if i < |ranges| && ranges[i].last >= first {
      var r := ranges[i];
      assert Ranges(s, a)[k + i] == r;
      if !r.Meets(first, last) {
        PinShifted(s, c, a, front, i + 1, first, last, was);
      } else if r.Within(first, last) {
        ShiftedDel(s, c, a, front, i);
        PinShifted(RangeDel(s, a, k + i), RangeDel(c, a, i), a, front, i, first, last, was || r.purged);
      } else if r.first >= first {
        ShiftedShrink(s, c, a, front, i, last + 1, r.last);
        PinShifted(RangeShrink(s, a, k + i, last + 1, r.last), RangeShrink(c, a, i, last + 1, r.last), a, front, i + 1,
                   first, last, was || r.purged);
      } else if r.last <= last {
        ShiftedShrink(s, c, a, front, i, r.first, first - 1);
        PinShifted(RangeShrink(s, a, k + i, r.first, first - 1), RangeShrink(c, a, i, r.first, first - 1), a, front,
                   i + 1, first, last, was || r.purged);
      } else {
        ShiftedHole(s, c, a, front, i, first, last);
      }
    }
  }

  lemma ShiftedDel(s: State, c: State, a: nat, front: seq<Range>, i: nat)
    requires a in s.areas && a in c.areas && Ranges(s, a) == front + Ranges(c, a) && i < |Ranges(c, a)|
    requires Owned(Ranges(c, a), a)
    ensures var t, d := RangeDel(s, a, |front| + i), RangeDel(c, a, i);
            && a in t.areas && a in d.areas && Ranges(t, a) == front + Ranges(d, a)
            && |Ranges(d, a)| == |Ranges(c, a)| - 1 && Owned(Ranges(d, a), a)
  {
    DelFrame(s, a, |front| + i);
    DelFrame(c, a, i);
    hide RangeDel;
    assert Drop(front + Ranges(c, a), |front| + i) == front + Drop(Ranges(c, a), i);
  }

  lemma ShiftedHole(s: State, c: State, a: nat, front: seq<Range>, i: nat, first: int, last: int)
    requires a in s.areas && a in c.areas && Ranges(s, a) == front + Ranges(c, a) && i < |Ranges(c, a)|
    ensures var r := Ranges(c, a)[i];
            var t := RangeAlloc(s, a, |front| + i, r.purged, last + 1, r.last);
            var d := RangeAlloc(c, a, i, r.purged, last + 1, r.last);
            && a in t.areas && a in d.areas && |front| + i + 1 < |Ranges(t, a)| && i + 1 < |Ranges(d, a)|
            && a in RangeShrink(t, a, |front| + i + 1, r.first, first - 1).areas
            && a in RangeShrink(d, a, i + 1, r.first, first - 1).areas
            && Ranges(RangeShrink(t, a, |front| + i + 1, r.first, first - 1), a) ==
               front + Ranges(RangeShrink(d, a, i + 1, r.first, first - 1), a)
  {
    var ranges, k := Ranges(c, a), |front|;
    var r := ranges[i];
    assert Ranges(s, a)[k + i] == r;
    HoleFrame(s, a, k + i, first, last);
    HoleFrame(c, a, i, first, last);
    hide RangeAlloc, RangeShrink, Insert, OnlyArea;
    ShiftedInsert(front, ranges, i, Range(a, last + 1, r.last, r.purged), r.(last := first - 1));
  }

  lemma ShiftedInsert(front: seq<Range>, ranges: seq<Range>, i: nat, top: Range, low: Range)
    requires i < |ranges|
    ensures |Insert(ranges, i, top)| == |ranges| + 1
    ensures |Insert(front + ranges, |front| + i, top)| == |front| + |ranges| + 1
    ensures Insert(front + ranges, |front| + i, top)[|front| + i + 1 := low] ==
            front + Insert(ranges, i, top)[i + 1 := low]
  {
    ReplaceShapes(front + ranges, |front| + i, low, top);
    ReplaceShapes(ranges, i, low, top);
    assert (front + ranges)[..|front| + i] == front + ranges[..i];
    assert (front + ranges)[|front| + i + 1..] == ranges[i + 1..];
  }

  lemma ShiftedShrink(s: State, c: State, a: nat, front: seq<Range>, i: nat, first: int, last: int)
    requires a in s.areas && a in c.areas && Ranges(s, a) == front + Ranges(c, a) && i < |Ranges(c, a)|
    requires Owned(Ranges(c, a), a)
    ensures var t, d := RangeShrink(s, a, |front| + i, first, last), RangeShrink(c, a, i, first, last);
            && a in t.areas && a in d.areas && Ranges(t, a) == front + Ranges(d, a)
            && |Ranges(d, a)| == |Ranges(c, a)| && Owned(Ranges(d, a), a)
  {
    ShrinkFrame(s, a, |front| + i, first, last);
    ShrinkFrame(c, a, i, first, last);
    hide RangeShrink;
    var x := Ranges(c, a)[i].(first := first, last := last);
    assert (front + Ranges(c, a))[|front| + i := x] == front + Ranges(c, a)[i := x];
  }

  /** All lists but one stay, and the LRU list follows. */
  ghost predicate Follows(s: State, t: State, a: nat)
    requires a in s.areas
  {
    OnlyArea(s, t, a) && Owned(Ranges(t, a), a) && (Stock(s) ==> Stock(t))
  }

  lemma FollowsTwice(s: State, t: State, u: State, a: nat)
    requires a in s.areas && Follows(s, t, a) && a in t.areas && Follows(t, u, a)
    ensures Follows(s, u, a)
  {
    hide Stock, Owned;
  }

  lemma DelFollows(s: State, a: nat, i: nat)
    requires a in s.areas && i < |Ranges(s, a)| && Owned(Ranges(s, a), a)
    ensures var t := RangeDel(s, a, i);
            Follows(s, t, a) && a in t.areas && Owned(Ranges(t, a), a) && |Ranges(t, a)| == |Ranges(s, a)| - 1
  {
    DelFrame(s, a, i);
    if Stock(s) {
      DelStock(s, a, i);
    }
    hide Stock, RangeDel;
  }

  lemma ShrinkFollows(s: State, a: nat, i: nat, first: int, last: int)
    requires a in s.areas && i < |Ranges(s, a)| && Owned(Ranges(s, a), a)
    ensures var t := RangeShrink(s, a, i, first, last);
            Follows(s, t, a) && a in t.areas && Owned(Ranges(t, a), a) && |Ranges(t, a)| == |Ranges(s, a)|
  {
    ShrinkFrame(s, a, i, first, last);
    if Stock(s) {
      ShrinkStock(s, a, i, first, last);
    }
    hide Stock, RangeShrink;
  }

  lemma AllocFollows(s: State, a: nat, i: nat, purged: bool, first: int, last: int)
    requires a in s.areas && i <= |Ranges(s, a)| && Owned(Ranges(s, a), a)
    ensures var t := RangeAlloc(s, a, i, purged, first, last);
            Follows(s, t, a) && a in t.areas && Owned(Ranges(t, a), a) && |Ranges(t, a)| == |Ranges(s, a)| + 1
  {
    AllocFrame(s, a, i, purged, first, last);
    if Stock(s) {
      AllocStock(s, a, i, purged, first, last);
    }
    hide Stock, RangeAlloc;
  }

  lemma SelfFollows(s: State, a: nat)
    requires a in s.areas && Owned(Ranges(s, a), a)
    ensures Follows(s, s, a)
  {
  }

  lemma {:induction false} PinFollows(s: State, a: nat, i: nat, first: int, last: int, was: bool)
    requires a in s.areas && i <= |Ranges(s, a)| && Owned(Ranges(s, a), a)
    ensures Follows(s, PinFrom(s, a, i, first, last, was).0, a)
    decreases |Ranges(s, a)| - i
  {
    hide RangeDel, RangeAlloc, RangeShrink, Follows, Owned, OnlyArea;
    SelfFollows(s, a);
    if i < |Ranges(s, a)| && Ranges(s, a)[i].last >= first {
      var r := Ranges(s, a)[i];
      if !r.Meets(first, last) {
        PinFollows(s, a, i + 1, first, last, was);
      } else if r.Within(first, last) {
        DelFollows(s, a, i);
        PinFollows(RangeDel(s, a, i), a, i, first, last, was || r.purged);
        FollowsTwice(s, RangeDel(s, a, i), PinFrom(s, a, i, first, last, was).0, a);
      } else if r.first >= first {
        var u := RangeShrink(s, a, i, last + 1, r.last);
        ShrinkFollows(s, a, i, last + 1, r.last);
        PinFollows(u, a, i + 1, first, last, was || r.purged);
        FollowsTwice(s, u, PinFrom(s, a, i, first, last, was).0, a);
      } else if r.last <= last {
        var u := RangeShrink(s, a, i, r.first, first - 1);
        ShrinkFollows(s, a, i, r.first, first - 1);
        PinFollows(u, a, i + 1, first, last, was || r.purged);
        FollowsTwice(s, u, PinFrom(s, a, i, first, last, was).0, a);
      } else {
        var u := RangeAlloc(s, a, i, r.purged, last + 1, r.last);
        AllocFollows(s, a, i, r.purged, last + 1, r.last);
        ShrinkFollows(u, a, i + 1, r.first, first - 1);
        FollowsTwice(s, u, RangeShrink(u, a, i + 1, r.first, first - 1), a);
      }
    }
  }

  /** One of the first `k` ranges is marked. */
  predicate MarkAmong(ranges: seq<Range>, k: nat)
    requires k <= |ranges|
  {
    exists i :: 0 <= i < k && ranges[i].purged
  }

  /** Ranges without pages are passed over, */
  lemma {:induction false} PinPasses(s: State, a: nat, n: int, k: nat, i: nat, first: int, last: int, was: bool)
    requires a in s.areas && Loose(Ranges(s, a), a, n, k) && i <= k && first <= last < n - 1
    ensures PinFrom(s, a, i, first, last, was) == PinFrom(s, a, k, first, last, was)
    decreases k - i
  {
    if i < k {
      PinPasses(s, a, n, k, i + 1, first, last, was);
    }
  }

  /** unless the interval goes up to the end of the area: then they are deleted, and their marks are
      reported. */
  lemma {:induction false} PinDeletes(s: State, a: nat, n: int, k: nat, first: int, last: int, was: bool)
    returns (u: State)
    requires a in s.areas && Loose(Ranges(s, a), a, n, k) && first <= n - 1 <= last
    ensures a in u.areas && Ranges(u, a) == Ranges(s, a)[k..]
    ensures PinFrom(s, a, 0, first, last, was) == PinFrom(u, a, 0, first, last, was || MarkAmong(Ranges(s, a), k))
    decreases k
  {
    var ranges := Ranges(s, a);
    if k == 0 {
      u := s;
    } else {
      var t := RangeDel(s, a, 0);
      DelFrame(s, a, 0);
      LooseDrop(ranges, a, n, k, 0);
      WithoutFirst(ranges, k);
      MarkFirst(ranges, k);
      PinDeletesOne(s, a, n, k, first, last, was);
      hide RangeDel, PinFrom, Loose, OnlyArea, MarkAmong, Drop;
      u := PinDeletes(t, a, n, k - 1, first, last, was || ranges[0].purged);
    }
  }

  lemma PinDeletesOne(s: State, a: nat, n: int, k: nat, first: int, last: int, was: bool)
    requires a in s.areas && Loose(Ranges(s, a), a, n, k) && k > 0 && first <= n - 1 <= last
    requires a in RangeDel(s, a, 0).areas
    ensures PinFrom(s, a, 0, first, last, was) ==
            PinFrom(RangeDel(s, a, 0), a, 0, first, last, was || Ranges(s, a)[0].purged)
  {
    hide RangeDel;
  }

  lemma WithoutFirst(ranges: seq<Range>, k: nat)
    requires 0 < k <= |ranges|
    ensures Drop(ranges, 0) == ranges[1..] && ranges[1..][k - 1..] == ranges[k..]
  {
  }

  lemma MarkFirst(ranges: seq<Range>, k: nat)
    requires 0 < k <= |ranges|
    ensures MarkAmong(ranges, k) <==> ranges[0].purged || MarkAmong(ranges[1..], k - 1)
  {
    if MarkAmong(ranges, k) && !ranges[0].purged {
      var i :| 0 <= i < k && ranges[i].purged;
      assert ranges[1..][i - 1].purged;
    }
    if MarkAmong(ranges[1..], k - 1) {
      var i :| 0 <= i < k - 1 && ranges[1..][i].purged;
      assert ranges[i + 1].purged;
    }
  }

  /** What pinning does to a loose list: its pages inside the interval are gone, and a purge is
      reported exactly if one of them was in a marked range, or if the interval goes up to the end of
      the area and a range without pages is marked. */
  lemma PinLoose(s: State, a: nat, n: int, k: nat, first: int, last: int) returns (k': nat)
    requires a in s.areas && Loose(Ranges(s, a), a, n, k) && first <= last && first < n
    ensures var t := Pin(s, a, first, last).0;
            && Follows(s, t, a) && Loose(Ranges(t, a), a, n, k')
            && (forall p, fl :: Covered(Ranges(t, a), p, fl) <==> Covered(Ranges(s, a), p, fl) && !(first <= p <= last))
    ensures Pin(s, a, first, last).1 <==>
            AnyCovered(Ranges(s, a), first, last, true) || (last >= n - 1 && MarkAmong(Ranges(s, a), k))
  {
    var ranges := Ranges(s, a);
    var back := ranges[k..];
    PinFollows(s, a, 0, first, last, false);
    LooseCovers(ranges, a, n, k);
    PinBack(back, a, first, last);
    if last < n - 1 {
      PinBelowEnd(s, a, n, k, first, last);
    } else {
      PinUpToEnd(s, a, n, k, first, last);
    }
    hide PinFrom, Loose, Follows, Descending, Alone, MarkAmong;
    var after := Ranges(Pin(Alone(back, a), a, first, last).0, a);
    assert forall p :: Covered(after, p, false) ==> Covered(back, p, false);
    if last < n - 1 {
      k' := k;
      FrontEmpty(ranges, a, n, k);
      LooseAgain(ranges[..k], after, a, n);
    } else {
      k' := 0;
      LooseAgain([], after, a, n);
      NothingBefore(after);
    }
  }

  lemma FrontEmpty(ranges: seq<Range>, a: nat, n: int, k: nat)
    requires Loose(ranges, a, n, k)
    ensures Owned(ranges[..k], a) && |ranges[..k]| == k
    ensures forall i :: 0 <= i < k ==> ranges[..k][i].first == n && ranges[..k][i].last == n - 1
  {
  }

  lemma PinBack(back: seq<Range>, a: nat, first: int, last: int)
    requires Descending(back, a) && first <= last
    ensures var c := Pin(Alone(back, a), a, first, last);
            && a in c.0.areas && Descending(Ranges(c.0, a), a)
            && (forall p, fl :: Covered(Ranges(c.0, a), p, fl) <==> Covered(back, p, fl) && !(first <= p <= last))
            && (c.1 <==> AnyCovered(back, first, last, true))
  {
    AloneInv(back, a);
    AloneRanges(back, a);
    hide Alone, Inv, PinFrom;
    PinEffect(Alone(back, a), a, first, last);
    ListDescends(Pin(Alone(back, a), a, first, last).0, a);
  }

  /** The list ends up as if the ranges without pages had not been there, except that they stay
      where the interval does not go up to the end. */
  ghost predicate PinnedSame(s: State, a: nat, n: int, k: nat, first: int, last: int)
    requires a in s.areas && k <= |Ranges(s, a)|
  {
    var c, t := Pin(Alone(Ranges(s, a)[k..], a), a, first, last), Pin(s, a, first, last);
    && a in t.0.areas && a in c.0.areas
    && Ranges(t.0, a) == (if last < n - 1 then Ranges(s, a)[..k] + Ranges(c.0, a) else Ranges(c.0, a))
    && (t.1 <==> c.1 || (last >= n - 1 && MarkAmong(Ranges(s, a), k)))
  }

  lemma PinBelowEnd(s: State, a: nat, n: int, k: nat, first: int, last: int)
    requires a in s.areas && Loose(Ranges(s, a), a, n, k) && first <= last < n - 1
    ensures PinnedSame(s, a, n, k, first, last)
  {
    var ranges := Ranges(s, a);
    AloneRanges(ranges[k..], a);
    BackOwned(ranges, a, n, k);
    PinPasses(s, a, n, k, 0, first, last, false);
    hide PinFrom, Alone, Loose, Owned, MarkAmong;
    PinShifted(s, Alone(ranges[k..], a), a, ranges[..k], 0, first, last, false);
  }

  lemma PinUpToEnd(s: State, a: nat, n: int, k: nat, first: int, last: int)
    requires a in s.areas && Loose(Ranges(s, a), a, n, k) && first <= n - 1 <= last
    ensures PinnedSame(s, a, n, k, first, last)
  {
    var ranges := Ranges(s, a);
    var u := PinDeletes(s, a, n, k, first, last, false);
    BackOwned(ranges, a, n, k);
    hide *;
    BackPinned(u, ranges[k..], a, first, last, MarkAmong(ranges, k));
    SameUpToEnd(s, u, a, n, k, first, last);
  }

  /** The list without the ranges in front, pinned on its own and with a mark found before. */
  lemma BackPinned(u: State, back: seq<Range>, a: nat, first: int, last: int, mark: bool)
    requires a in u.areas && Ranges(u, a) == back && Owned(back, a)
    ensures var x, y := PinFrom(u, a, 0, first, last, mark), Pin(Alone(back, a), a, first, last);
            && a in x.0.areas && a in y.0.areas && Ranges(x.0, a) == Ranges(y.0, a)
            && (x.1 <==> mark || y.1)
  {
    var c := Alone(back, a);
    AloneRanges(back, a);
    hide PinFrom, Alone, Owned;
    NothingBefore(back);
    PinShifted(u, c, a, [], 0, first, last, mark);
    PinWas(c, a, 0, first, last, mark);
    NothingBefore(Ranges(PinFrom(c, a, 0, first, last, mark).0, a));
  }

  lemma SameUpToEnd(s: State, u: State, a: nat, n: int, k: nat, first: int, last: int)
    requires a in s.areas && a in u.areas && k <= |Ranges(s, a)| && first <= n - 1 <= last
    requires PinFrom(s, a, 0, first, last, false) == PinFrom(u, a, 0, first, last, false || MarkAmong(Ranges(s, a), k))
    requires var mark, back := MarkAmong(Ranges(s, a), k), Ranges(s, a)[k..];
             var x, y := PinFrom(u, a, 0, first, last, mark), Pin(Alone(back, a), a, first, last);
             && a in x.0.areas && a in y.0.areas && Ranges(x.0, a) == Ranges(y.0, a)
             && (x.1 <==> mark || y.1)
    ensures PinnedSame(s, a, n, k, first, last)
  {
    hide PinFrom, Alone, MarkAmong;
  }

  lemma NothingBefore(ranges: seq<Range>)
    ensures [] + ranges == ranges
  {
  }

  lemma BackOwned(ranges: seq<Range>, a: nat, n: int, k: nat)
    requires Loose(ranges, a, n, k)
    ensures ranges == ranges[..k] + ranges[k..] && |ranges[..k]| == k && Owned(ranges[k..], a)
  {
  }

  lemma AloneRanges(ranges: seq<Range>, a: nat)
    ensures a in Alone(ranges, a).areas && Ranges(Alone(ranges, a), a) == ranges
  {
  }

  /** What was found before only adds to the result. */
  lemma {:induction false} PinWas(s: State, a: nat, i: nat, first: int, last: int, was: bool)
    requires a in s.areas && i <= |Ranges(s, a)| && Owned(Ranges(s, a), a)
    ensures var x, y := PinFrom(s, a, i, first, last, was), PinFrom(s, a, i, first, last, false);
            x.0 == y.0 && (x.1 <==> was || y.1)
    decreases |Ranges(s, a)| - i
  {
    hide RangeDel, RangeShrink, RangeAlloc, Follows, Owned;
    if i < |Ranges(s, a)| && Ranges(s, a)[i].last >= first {
      var r := Ranges(s, a)[i];
      if !r.Meets(first, last) {
        PinWas(s, a, i + 1, first, last, was);
      } else if r.Within(first, last) {
        DelFollows(s, a, i);
        PinWas(RangeDel(s, a, i), a, i, first, last, was || r.purged);
        PinWas(RangeDel(s, a, i), a, i, first, last, r.purged);
      } else if r.first >= first {
        ShrinkFollows(s, a, i, last + 1, r.last);
        PinWas(RangeShrink(s, a, i, last + 1, r.last), a, i + 1, first, last, was || r.purged);
        PinWas(RangeShrink(s, a, i, last + 1, r.last), a, i + 1, first, last, r.purged);
      } else if r.last <= last {
        ShrinkFollows(s, a, i, r.first, first - 1);
        PinWas(RangeShrink(s, a, i, r.first, first - 1), a, i + 1, first, last, was || r.purged);
        PinWas(RangeShrink(s, a, i, r.first, first - 1), a, i + 1, first, last, r.purged);
      }
    }
  }

  // ---------------------------------------------------------------- status

  lemma {:induction false} StatusShifted(front: seq<Range>, ranges: seq<Range>, i: nat, first: int, last: int)
    requires i <= |ranges|
    ensures StatusFrom(front + ranges, |front| + i, first, last) == StatusFrom(ranges, i, first, last)
    decreases |ranges| - i
  {
    if i < |ranges| {
      StatusShifted(front, ranges, i + 1, first, last);
    }
  }

  lemma {:induction false} StatusPasses(ranges: seq<Range>, a: nat, n: int, k: nat, i: nat, first: int, last: int)
    requires Loose(ranges, a, n, k) && i <= k && first <= last < n - 1
    ensures StatusFrom(ranges, i, first, last) == StatusFrom(ranges, k, first, last)
    decreases k - i
  {
    if i < k {
      StatusPasses(ranges, a, n, k, i + 1, first, last);
    }
  }

  /** An interval is reported as unpinned exactly if one of its pages is, or if it goes up to the
      end of the area and there is a range without pages. */
  lemma StatusLoose(ranges: seq<Range>, a: nat, n: int, k: nat, first: int, last: int)
    requires Loose(ranges, a, n, k) && first <= last && first < n
    ensures StatusFrom(ranges, 0, first, last) <==>
            AnyCovered(ranges, first, last, false) || (last >= n - 1 && k > 0)
  {
    LooseCovers(ranges, a, n, k);
    BackOwned(ranges, a, n, k);
    if last < n - 1 {
      StatusPasses(ranges, a, n, k, 0, first, last);
    }
    if last < n - 1 || k == 0 {
      StatusShifted(ranges[..k], ranges[k..], 0, first, last);
      StatusFromEffect(ranges[k..], a, 0, first, last);
    }
    hide Covered;
  }
}
