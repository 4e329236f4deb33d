/** Every run, with the unpin request without pages in it as often as user space likes: what remains
  true of lists, LRU list and counter, and that no purge is forgotten. */
module AshmemRuns {
  import opened AshmemModel
  import opened AshmemLists
  import opened AshmemOps
  import opened AshmemShrink
  import opened AshmemTheory
  import opened AshmemLoose

  // ---------------------------------------------------------------- unpinning

  /** The pages of the request are unpinned as well; marks stay, and a mark collected before is on
      every page of the request that no range held. */
  ghost predicate Joins(before: seq<Range>, after: seq<Range>, first: int, last: int, mark: bool) {
    && (forall p :: Covered(after, p, false) <==> Covered(before, p, false) || first <= p <= last)
    && (forall p :: Covered(before, p, true) || (mark && first <= p <= last && !Covered(before, p, false)) ==>
          Covered(after, p, true))
  }

  lemma LooseInsert(ranges: seq<Range>, a: nat, n: int, k: nat, i: nat, r: Range)
    requires Loose(ranges, a, n, k) && k <= i <= |ranges| && r.area == a && 0 <= r.first <= r.last < n
    requires forall j :: 0 <= j < i ==> ranges[j].first > r.last
    requires i < |ranges| ==> ranges[i].last < r.first
    ensures Loose(Insert(ranges, i, r), a, n, k)
  {
    InsertIndex(ranges, i, r);
    hide Insert;
  }

  lemma InsertIndex(ranges: seq<Range>, i: nat, r: Range)
    requires i <= |ranges|
    ensures var xs := Insert(ranges, i, r);
            && |xs| == |ranges| + 1
            && forall j :: 0 <= j < |xs| ==> xs[j] == if j < i then ranges[j] else if j == i then r else ranges[j - 1]
  {
  }

  lemma InsertJoins(ranges: seq<Range>, i: nat, r: Range)
    requires i <= |ranges|
    ensures Joins(ranges, Insert(ranges, i, r), r.first, r.last, r.purged)
  {
    AshmemUnpin.CoveredInsert(ranges, i, r);
  }

  /** The request lies inside one range. */
  lemma InsideJoins(ranges: seq<Range>, i: nat, first: int, last: int, mark: bool)
    requires i < |ranges| && ranges[i].Subsumes(first, last)
    ensures Joins(ranges, ranges, first, last, mark)
  {
    assert ranges[i] in ranges;
  }

  /** A range the request meets is deleted and its pages are added to the request. */
  lemma MergeJoins(ranges: seq<Range>, after: seq<Range>, a: nat, n: int, k: nat, i: nat, first: int, last: int,
                   mark: bool)
    requires Loose(ranges, a, n, k) && i < |ranges| && first <= last < n && ranges[i].Meets(first, last)
    requires var r := ranges[i];
             Joins(Drop(ranges, i), after, Min(r.first, first), Max(r.last, last), mark || r.purged)
    ensures Joins(ranges, after, first, last, mark)
  {
    var r := ranges[i];
    LooseDropCovers(ranges, a, n, k, i);
    Hull(ranges, a, n, k, i, first, last);
    HeldCovers(ranges, a, n, k, i);
    hide Loose, Covered, Drop;
  }

  lemma Hull(ranges: seq<Range>, a: nat, n: int, k: nat, i: nat, first: int, last: int)
    requires Loose(ranges, a, n, k) && i < |ranges| && first <= last < n && ranges[i].Meets(first, last)
    ensures var r := ranges[i];
            && Min(r.first, first) <= first && last <= Max(r.last, last) < n
            && forall p :: Min(r.first, first) <= p <= Max(r.last, last) <==> r.Holds(p) || first <= p <= last
  {
  }

  lemma HeldCovers(ranges: seq<Range>, a: nat, n: int, k: nat, i: nat)
    requires Loose(ranges, a, n, k) && i < |ranges|
    ensures forall p :: ranges[i].Holds(p) ==> Covered(ranges, p, false)
    ensures forall p :: ranges[i].Holds(p) && Covered(ranges, p, true) ==> ranges[i].purged
  {
    assert ranges[i] in ranges;
    forall p | ranges[i].Holds(p) && Covered(ranges, p, true)
      ensures ranges[i].purged
    {
      CoveredSplit(ranges, i, p, true);
      LooseAlone(ranges, a, n, k, i, p, true);
    }
  }

  /** Where the unpin loop passes a range, the request lies below it. */
  lemma PassedAbove(ranges: seq<Range>, a: nat, n: int, k: nat, i: nat, first: int, last: int)
    requires Loose(ranges, a, n, k) && i < |ranges| && first <= last < n && ranges[i].last >= first
    ensures !ranges[i].Meets(first, last) ==> ranges[i].first > last
    ensures ranges[i].Meets(first, last) && i < k ==> ranges[i].first > first
  {
  }

  lemma StopsBehind(ranges: seq<Range>, a: nat, n: int, k: nat, i: nat, first: int)
    requires Loose(ranges, a, n, k) && i <= |ranges| && first < n
    requires i < |ranges| ==> ranges[i].last < first
    ensures k <= i
  {
  }

  lemma {:induction false} UnpinLoose(s: State, a: nat, n: int, k: nat, i: nat, first: int, last: int, mark: bool)
    returns (k': nat)
    requires a in s.areas && Loose(Ranges(s, a), a, n, k) && i <= |Ranges(s, a)| && 0 <= first <= last < n
    requires forall j :: 0 <= j < i ==> Ranges(s, a)[j].first > last
    ensures var t := UnpinFrom(s, a, i, first, last, mark);
            && Follows(s, t, a) && Loose(Ranges(t, a), a, n, k')
            && Joins(Ranges(s, a), Ranges(t, a), first, last, mark)
    decreases |Ranges(s, a)|, |Ranges(s, a)| - i
  {
    hide RangeDel, RangeAlloc, Follows, OnlyArea, Joins, Covered;
    var ranges := Ranges(s, a);
    k' := k;
    if i == |ranges| || ranges[i].last < first {
      var r := Range(a, first, last, mark);
      StopsBehind(ranges, a, n, k, i, first);
      AllocFrame(s, a, i, mark, first, last);
      AllocFollows(s, a, i, mark, first, last);
      AllocList(s, a, i, mark, first, last);
      LooseInsert(ranges, a, n, k, i, r);
      InsertJoins(ranges, i, r);
    } else if ranges[i].Subsumes(first, last) {
      SelfFollows(s, a);
      InsideJoins(ranges, i, first, last, mark);
    } else if ranges[i].Meets(first, last) {
      var r, u := ranges[i], RangeDel(s, a, i);
      DelFollows(s, a, i);
      DelList(s, a, i);
      LooseDrop(ranges, a, n, k, i);
      Hull(ranges, a, n, k, i, first, last);
      MergedLow(ranges, a, n, k, i, first, last);
      k' := UnpinLoose(u, a, n, if i < k then k - 1 else k, 0, Min(r.first, first), Max(r.last, last),
                       mark || r.purged);
      var t := UnpinFrom(u, a, 0, Min(r.first, first), Max(r.last, last), mark || r.purged);
      InAreas(u, t, a);
      MergeJoins(ranges, Ranges(t, a), a, n, k, i, first, last, mark);
      FollowsTwice(s, u, t, a);
    } else {
      PassedAbove(ranges, a, n, k, i, first, last);
      k' := UnpinLoose(s, a, n, k, i + 1, first, last, mark);
    }
  }

  lemma AllocList(s: State, a: nat, i: nat, purged: bool, first: int, last: int)
    requires a in s.areas && i <= |Ranges(s, a)|
    ensures var t := RangeAlloc(s, a, i, purged, first, last);
            a in t.areas && Ranges(t, a) == Insert(Ranges(s, a), i, Range(a, first, last, purged))
  {
  }

  lemma DelList(s: State, a: nat, i: nat)
    requires a in s.areas && i < |Ranges(s, a)|
    ensures var t := RangeDel(s, a, i); a in t.areas && Ranges(t, a) == Drop(Ranges(s, a), i)
  {
  }

  lemma InAreas(s: State, t: State, a: nat)
    requires a in s.areas && Follows(s, t, a)
    ensures a in t.areas
  {
  }

  lemma MergedLow(ranges: seq<Range>, a: nat, n: int, k: nat, i: nat, first: int, last: int)
    requires Loose(ranges, a, n, k) && i < |ranges| && 0 <= first <= last < n && ranges[i].Meets(first, last)
    ensures 0 <= Min(ranges[i].first, first)
  {
  }

  /** The request without pages: one more range without pages. */
  lemma UnpinNothing(s: State, a: nat, n: int, k: nat)
    requires a in s.areas && Loose(Ranges(s, a), a, n, k)
    ensures var t := Unpin(s, a, n, n - 1);
            && Follows(s, t, a) && Loose(Ranges(t, a), a, n, k + 1)
            && Ranges(t, a) == [Range(a, n, n - 1, false)] + Ranges(s, a)
            && (forall p, fl :: Covered(Ranges(t, a), p, fl) <==> Covered(Ranges(s, a), p, fl))
    ensures Pin(s, a, n, n - 1) == (s, false)
  {
    NothingInserted(s, a, n, k);
    AllocList(s, a, 0, false, n, n - 1);
    AllocFollows(s, a, 0, false, n, n - 1);
    AshmemUnpin.CoveredInsert(Ranges(s, a), 0, Range(a, n, n - 1, false));
    LooseFront(Ranges(s, a), a, n, k, false);
    hide RangeAlloc, Follows, Loose, UnpinFrom, PinFrom, Covered, Insert;
    InsertFront(Ranges(s, a), Range(a, n, n - 1, false));
  }

  lemma NothingInserted(s: State, a: nat, n: int, k: nat)
    requires a in s.areas && Loose(Ranges(s, a), a, n, k)
    ensures Unpin(s, a, n, n - 1) == RangeAlloc(s, a, 0, false, n, n - 1) && Pin(s, a, n, n - 1) == (s, false)
  {
    hide RangeAlloc;
  }

  lemma InsertFront(ranges: seq<Range>, r: Range)
    ensures Insert(ranges, 0, r) == [r] + ranges
  {
  }

  lemma LooseFront(ranges: seq<Range>, a: nat, n: int, k: nat, purged: bool)
    requires Loose(ranges, a, n, k)
    ensures Loose([Range(a, n, n - 1, purged)] + ranges, a, n, k + 1)
  {
  }

  // ---------------------------------------------------------------- what every step keeps

  /** Only mapped areas have ranges, and their lists are loose. */
  ghost predicate LooseArea(x: Area, a: nat) {
    (x.ranges == [] || x.mapped) && exists k: nat :: Loose(x.ranges, a, x.size / PAGE_SIZE, k)
  }

  ghost predicate Tolerable(s: State) {
    Stock(s) && SizesOk(s) && forall a :: a in s.areas ==> LooseArea(s.areas[a], a)
  }

  /** A tolerable state in which every truncated page is remembered. */
  ghost predicate Fair(w: World) { Tolerable(w.s) && Remembered(w) }

  lemma IsLoose(s: State, a: nat) returns (k: nat)
    requires Tolerable(s) && a in s.areas
    ensures Loose(Ranges(s, a), a, s.areas[a].size / PAGE_SIZE, k)
  {
    assert LooseArea(s.areas[a], a);
    k :| Loose(Ranges(s, a), a, s.areas[a].size / PAGE_SIZE, k);
  }

  lemma OneAreaTolerable(s: State, t: State, a: nat, k: nat)
    requires Tolerable(s) && a in s.areas && Follows(s, t, a) && s.areas[a].mapped
    requires a in t.areas && Loose(Ranges(t, a), a, s.areas[a].size / PAGE_SIZE, k)
    ensures Tolerable(t)
  {
    hide Stock, Loose, Owned;
  }

  lemma PinFair(w: World, a: nat, first: int, last: int)
    requires Fair(w) && a in w.s.areas && w.s.areas[a].mapped && first <= last < w.s.areas[a].size / PAGE_SIZE
    ensures Fair(World(Pin(w.s, a, first, last).0,
                       iset x: (nat, int) | x in w.lost && !(x.0 == a && first <= x.1 <= last)))
  {
    var t := Pin(w.s, a, first, last).0;
    var k := IsLoose(w.s, a);
    k := PinLoose(w.s, a, w.s.areas[a].size / PAGE_SIZE, k, first, last);
    hide PinFrom, Loose, Tolerable, Stock, Covered;
    OneAreaTolerable(w.s, t, a, k);
    PagesFollowArea(w.s, t, a, first, last, true, false);
    FollowKeepsRemembered(w.s, t, a, first, last, true, false, w.lost);
  }

  lemma UnpinFair(w: World, a: nat, first: int, last: int)
    requires Fair(w) && a in w.s.areas && w.s.areas[a].mapped && 0 <= first <= last < w.s.areas[a].size / PAGE_SIZE
    ensures Fair(World(Unpin(w.s, a, first, last), w.lost))
  {
    var t := Unpin(w.s, a, first, last);
    var k := IsLoose(w.s, a);
    k := UnpinLoose(w.s, a, w.s.areas[a].size / PAGE_SIZE, k, 0, first, last, false);
    hide UnpinFrom, Loose, Tolerable, Stock, Covered;
    OneAreaTolerable(w.s, t, a, k);
    PagesFollowArea(w.s, t, a, first, last, false, true);
    FollowKeepsRemembered(w.s, t, a, first, last, false, true, w.lost);
  }

  lemma NothingFair(w: World, a: nat)
    requires Fair(w) && a in w.s.areas && w.s.areas[a].mapped
    ensures var e := w.s.areas[a].size / PAGE_SIZE;
            Pin(w.s, a, e, e - 1) == (w.s, false) && Fair(World(Unpin(w.s, a, e, e - 1), w.lost))
  {
    hide Fair, Tolerable, Remembered, Loose, Follows, Covered, Pin, Unpin;
    var e := w.s.areas[a].size / PAGE_SIZE;
    FairParts(w);
    var k := IsLoose(w.s, a);
    UnpinNothing(w.s, a, e, k);
    InAreas(w.s, Unpin(w.s, a, e, e - 1), a);
    SamePagesFair(w, Unpin(w.s, a, e, e - 1), a, k + 1);
  }

  lemma FairParts(w: World)
    ensures Fair(w) <==> Tolerable(w.s) && Remembered(w)
  {
  }

  lemma SamePagesFair(w: World, t: State, a: nat, k: nat)
    requires Fair(w) && a in w.s.areas && w.s.areas[a].mapped && Follows(w.s, t, a)
    requires a in t.areas && Loose(Ranges(t, a), a, w.s.areas[a].size / PAGE_SIZE, k)
    requires forall p, fl :: Covered(Ranges(t, a), p, fl) <==> Covered(Ranges(w.s, a), p, fl)
    ensures Fair(World(t, w.lost))
  {
    hide Loose, Tolerable, Stock, Covered;
    OneAreaTolerable(w.s, t, a, k);
    PagesFollowArea(w.s, t, a, 0, -1, false, false);
    FollowKeepsRemembered(w.s, t, a, 0, -1, false, false, w.lost);
  }

  lemma RequestFair(w: World, op: Op)
    requires Fair(w) && Fits(op) && op.Request?
    ensures Fair(Step(w, op))
  {
    if Granted(w.s, op).Interval? {
      var first, last := Granted(w.s, op).first, Granted(w.s, op).last;
      AreaSize(w.s, op.area);
      DecodeExact(w.s.areas[op.area].size, op.offset, op.len);
      FairParts(w);
      hide Fair, Pin, Unpin, Decode, Tolerable, Remembered;
      if first <= last {
        PinFair(w, op.area, first, last);
        UnpinFair(w, op.area, first, last);
      } else {
        NothingFair(w, op.area);
        NothingPinned(w.lost, op.area, first, last);
      }
    }
  }

  lemma NothingPinned(lost: iset<(nat, int)>, a: nat, first: int, last: int)
    requires first > last
    ensures (iset x: (nat, int) | x in lost && !(x.0 == a && first <= x.1 <= last)) == lost
  {
  }

  lemma AreaSize(s: State, a: nat)
    requires Tolerable(s) && a in s.areas
    ensures s.areas[a].size < WORD && s.areas[a].size % PAGE_SIZE == 0
  {
  }

  // ---------------------------------------------------------------- shrinking

  lemma HeadTolerable(s: State)
    requires Tolerable(s) && s.lru != []
    ensures Tolerable(PurgeHead(s)) && Marked(s, PurgeHead(s), [s.lru[0]]) && s.lru[0].area in s.areas
  {
    var r := s.lru[0];
    HeadFound(s);
    var a, i := r.area, Find(Ranges(s, r.area), r);
    var k := IsLoose(s, a);
    PurgedArea(s, a, i);
    LoosePurged(Ranges(s, a), a, s.areas[a].size / PAGE_SIZE, k, i);
    hide *;
    HeadMarked(s, a, i);
    SameLists(s, PurgeHead(s), a, k);
  }

  lemma HeadFound(s: State)
    requires Tolerable(s) && s.lru != []
    ensures var r := s.lru[0];
            && r.area in s.areas && r in Ranges(s, r.area) && Find(Ranges(s, r.area), r) < |Ranges(s, r.area)|
            && s.areas[r.area].mapped && Stock(PurgeHead(s))
  {
    HeadInList(s);
    PurgeHeadStock(s);
    assert LooseArea(s.areas[s.lru[0].area], s.lru[0].area);
    hide Stock, Loose, PurgeHead;
  }

  lemma HeadMarked(s: State, a: nat, i: nat)
    requires s.lru != [] && s.lru[0].area == a && a in s.areas && i < |Ranges(s, a)| && OnlyArea(s, PurgeHead(s), a)
    requires Ranges(s, a)[i] == s.lru[0] && Ranges(PurgeHead(s), a) == Ranges(s, a)[i := s.lru[0].(purged := true)]
    ensures Marked(s, PurgeHead(s), [s.lru[0]])
  {
    PurgeCovers(Ranges(s, a), i);
    hide PurgeHead, Covered;
    MarkedOneArea(s, PurgeHead(s), a, s.lru[0]);
  }

  lemma SameLists(s: State, t: State, a: nat, k: nat)
    requires Tolerable(s) && a in s.areas && OnlyArea(s, t, a) && s.areas[a].mapped && Stock(t)
    requires Loose(Ranges(t, a), a, s.areas[a].size / PAGE_SIZE, k)
    ensures Tolerable(t)
  {
    hide Loose, Stock;
  }

  lemma PurgedArea(s: State, a: nat, i: nat)
    requires s.lru != [] && a == s.lru[0].area && a in s.areas && s.lru[0] in Ranges(s, a)
    requires i == Find(Ranges(s, a), s.lru[0])
    ensures var t := PurgeHead(s);
            OnlyArea(s, t, a) && Ranges(t, a) == Ranges(s, a)[i := s.lru[0].(purged := true)]
  {
  }

  lemma MarkedTwice(s: State, u: State, t: State, r: Range, rest: seq<Range>)
    requires Marked(s, u, [r]) && Marked(u, t, rest)
    ensures Marked(s, t, [r] + rest)
  {
    forall a: nat, p | a in s.areas
      ensures MarkedAt(s, t, [r] + rest, a, p)
    {
      HitCons(r, rest, a, p);
      assert MarkedAt(s, u, [r], a, p) && MarkedAt(u, t, rest, a, p);
    }
  }

  lemma MarkedNothing(s: State)
    ensures Marked(s, s, [])
  {
  }

  lemma {:induction false} ShrinkTolerable(s: State, scan: int)
    requires Tolerable(s)
    ensures var r := ShrinkLoop(s, scan);
            Tolerable(r.0) && Marked(s, r.0, r.1) && forall x :: x in r.1 ==> x.area in s.areas
    decreases |s.lru|
  {
    hide Tolerable, Marked, PurgeHead;
    MarkedNothing(s);
    if s.lru != [] {
      var r, u := s.lru[0], PurgeHead(s);
      HeadTolerable(s);
      if scan - r.Size() > 0 {
        HeadGone(s);
        ShrinkTolerable(u, scan - r.Size());
        SameKeys(s, u, [r]);
        MarkedTwice(s, u, ShrinkLoop(u, scan - r.Size()).0, r, ShrinkLoop(u, scan - r.Size()).1);
      }
    }
  }

  lemma HeadGone(s: State)
    requires s.lru != []
    ensures PurgeHead(s).lru == s.lru[1..]
  {
  }

  lemma SameKeys(s: State, u: State, gone: seq<Range>)
    requires Marked(s, u, gone)
    ensures u.areas.Keys == s.areas.Keys
  {
  }

  lemma TruncateFair(w: World, t: State, gone: seq<Range>)
    requires Fair(w) && Tolerable(t) && Marked(w.s, t, gone)
    requires forall r :: r in gone ==> r.area in w.s.areas
    ensures Fair(Truncate(w, t, gone))
  {
    hide Tolerable;
    MarkedFollows(w.s, t, gone);
    FollowKeepsRemembered(w.s, t, 0, 0, -1, false, false, w.lost);
    forall a: nat, p | Hit(gone, a, p)
      ensures a in t.areas && Covered(Ranges(t, a), p, true)
    {
      assert MarkedAt(w.s, t, gone, a, p);
    }
    RememberedSplit(w, t, gone);
  }

  lemma ShrinkFair(w: World, scan: int)
    requires Fair(w)
    ensures Fair(Truncate(w, ShrinkLoop(w.s, scan).0, ShrinkLoop(w.s, scan).1))
    ensures Fair(Truncate(w, w.s, []))
  {
    ShrinkTolerable(w.s, scan);
    MarkedNothing(w.s);
    hide Tolerable, Marked, ShrinkLoop, Truncate;
    TruncateFair(w, ShrinkLoop(w.s, scan).0, ShrinkLoop(w.s, scan).1);
    TruncateFair(w, w.s, []);
  }

  // ---------------------------------------------------------------- the other calls

  lemma {:induction false} DelAllFollows(s: State, a: nat)
    requires a in s.areas && Owned(Ranges(s, a), a)
    ensures var t := DelAll(s, a); Follows(s, t, a) && a in t.areas && Ranges(t, a) == []
    decreases |Ranges(s, a)|
  {
    hide RangeDel, Follows;
    SelfFollows(s, a);
    if Ranges(s, a) != [] {
      DelFollows(s, a, 0);
      DelAllFollows(RangeDel(s, a, 0), a);
      FollowsTwice(s, RangeDel(s, a, 0), DelAll(s, a), a);
    }
  }

  lemma ReleaseKeeps(s: State, a: nat)
    requires a in s.areas && Owned(Ranges(s, a), a)
    ensures var t := Release(s, a);
            t.areas.Keys == s.areas.Keys - {a} && forall b :: b in t.areas ==> t.areas[b] == s.areas[b]
    ensures Stock(s) ==> Stock(Release(s, a))
  {
    DelAllFollows(s, a);
    if Stock(s) {
      StockWithout(DelAll(s, a), a);
    }
    hide DelAll, Stock, Owned;
  }

  lemma ReleaseTolerable(s: State, a: nat)
    requires Tolerable(s) && a in s.areas
    ensures Tolerable(Release(s, a))
  {
    AreaOwned(s, a);
    ReleaseKeeps(s, a);
    hide Release, Stock, LooseArea, Owned;
  }

  lemma AreaOwned(s: State, a: nat)
    requires Tolerable(s) && a in s.areas
    ensures Owned(Ranges(s, a), a)
  {
  }

  lemma StockWithout(s: State, a: nat)
    requires Stock(s) && a in s.areas && Ranges(s, a) == []
    ensures Stock(s.(areas := s.areas - {a}))
  {
    var t := s.(areas := s.areas - {a});
    forall r
      ensures multiset(t.lru)[r] == Copies(t.areas, r)
    {
      assert multiset(s.lru)[r] == Copies(s.areas, r);
    }
  }

  lemma CloseFair(w: World, a: nat)
    requires Fair(w) && a in w.s.areas
    ensures Fair(Step(w, CloseArea(a)))
  {
    ReleaseTolerable(w.s, a);
    AreaOwned(w.s, a);
    ReleaseKeeps(w.s, a);
    hide Tolerable, Release;
    var w' := Step(w, CloseArea(a));
    forall b: nat, p | (b, p) in w'.lost
      ensures b in w'.s.areas && Covered(Ranges(w'.s, b), p, true)
    {
      assert (b, p) in w.lost;
    }
  }

  /** Opening an area, giving it a size, mapping it. */
  lemma AreaFair(w: World, a: nat, x: Area)
    requires Fair(w) && (a in w.s.areas ==> x.ranges == Ranges(w.s, a)) && (a !in w.s.areas ==> x.ranges == [])
    requires x.size % PAGE_SIZE == 0 && x.size < WORD
    requires a in w.s.areas && w.s.areas[a].mapped ==> x == w.s.areas[a]
    ensures Fair(w.(s := w.s.(areas := w.s.areas[a := x])))
  {
    AreaTolerable(w.s, a, x);
    hide Tolerable;
    var t := w.s.(areas := w.s.areas[a := x]);
    forall b: nat, p | (b, p) in w.lost
      ensures b in t.areas && Covered(Ranges(t, b), p, true)
    {
      assert Covered(Ranges(w.s, b), p, true);
    }
  }

  lemma AreaTolerable(s: State, a: nat, x: Area)
    requires Tolerable(s) && (a in s.areas ==> x.ranges == Ranges(s, a)) && (a !in s.areas ==> x.ranges == [])
    requires x.size % PAGE_SIZE == 0 && x.size < WORD
    requires a in s.areas && s.areas[a].mapped ==> x == s.areas[a]
    ensures Tolerable(s.(areas := s.areas[a := x]))
  {
    if a in s.areas {
      assert LooseArea(s.areas[a], a);
    }
    assert Loose([], a, x.size / PAGE_SIZE, 0);
    hide Loose, Stock;
    assert LooseArea(x, a);
    AreaStock(s, a, x);
  }

  lemma AreaStock(s: State, a: nat, x: Area)
    requires Stock(s) && (a in s.areas ==> x.ranges == Ranges(s, a)) && (a !in s.areas ==> x.ranges == [])
    ensures Stock(s.(areas := s.areas[a := x]))
  {
    var t := s.(areas := s.areas[a := x]);
    forall r
      ensures multiset(t.lru)[r] == Copies(t.areas, r)
    {
      assert multiset(s.lru)[r] == Copies(s.areas, r);
    }
  }

  /** Every step keeps a fair world fair, the request without pages too. */
  lemma StepFair(w: World, op: Op)
    requires Fair(w) && Fits(op)
    ensures Fair(Step(w, op))
  {
    hide Fair, Release, Pin, Unpin, ShrinkLoop, Truncate;
    match op
    case OpenArea(a) =>
      if a !in w.s.areas { AreaFair(w, a, Area(0, false, [])); }
    case CloseArea(a) =>
      if a in w.s.areas { CloseFair(w, a); }
    case SetSize(a, arg) =>
      if a in w.s.areas && !w.s.areas[a].mapped && arg % PAGE_SIZE == 0 {
        AreaFair(w, a, w.s.areas[a].(size := arg));
      }
    case MapArea(a) =>
      if a in w.s.areas {
        FairSize(w, a);
        AreaFair(w, a, w.s.areas[a].(mapped := true));
      }
    case Request(a, cmd, offset, len) => RequestFair(w, op);
    case ShrinkSome(scan, mayEnterFs) => ShrinkFair(w, scan);
    case PurgeAllCaches => ShrinkFair(w, w.s.lruCount);
  }

  lemma FairSize(w: World, a: nat)
    requires Fair(w) && a in w.s.areas
    ensures w.s.areas[a].size % PAGE_SIZE == 0 && w.s.areas[a].size < WORD
  {
  }

  // ---------------------------------------------------------------- every run

  /** A call of the driver; or the LRU list turns out to be in another order.  With the second the
      model covers the order in which equal ranges without pages come off the list. */
  datatype Move = Call(op: Op) | Order(lru: seq<Range>)

  ghost function Moved(w: World, m: Move): World {
    match m
    case Call(op) => Step(w, op)
    case Order(lru) => if multiset(lru) == multiset(w.s.lru) then w.(s := w.s.(lru := lru)) else w
  }

  ghost function RunMoves(w: World, moves: seq<Move>): World
    decreases |moves|
  {
    if moves == [] then w else RunMoves(Moved(w, moves[0]), moves[1..])
  }

  predicate MovesFit(moves: seq<Move>) {
    forall i :: 0 <= i < |moves| && moves[i].Call? ==> Fits(moves[i].op)
  }

  lemma {:induction false} PagesReordered(xs: seq<Range>, ys: seq<Range>)
    requires multiset(xs) == multiset(ys)
    ensures Pages(xs) == Pages(ys)
    decreases |xs|
  {
    if xs == [] {
      assert multiset(ys) == multiset{};
    } else {
      assert xs[0] in multiset(ys);
      var k := Find(ys, xs[0]);
      DropBag(ys, k);
      DropBag(xs, 0);
      assert Drop(xs, 0) == xs[1..];
      assert multiset(xs[1..]) == multiset(xs) - multiset{xs[0]} == multiset(Drop(ys, k));
      PagesReordered(xs[1..], Drop(ys, k));
      PagesDrop(ys, k);
    }
  }

  lemma OrderFair(w: World, lru: seq<Range>)
    requires Fair(w) && multiset(lru) == multiset(w.s.lru)
    ensures Fair(w.(s := w.s.(lru := lru)))
  {
    PagesReordered(lru, w.s.lru);
    hide Loose, Covered;
  }

  /** Over every run on any number of areas, whatever the order of the LRU list: the LRU list holds
      the unpurged ranges as often as they occur, the counter their pages, the lists descend but for
      ranges without pages at their heads, and every page truncated since its last pin lies in a
      range marked as purged. */
  lemma {:induction false} EveryRunFair(w: World, moves: seq<Move>)
    requires Fair(w) && MovesFit(moves)
    ensures Fair(RunMoves(w, moves))
    decreases |moves|
  {
    hide Fair, Step;
    if moves != [] {
      match moves[0] {
        case Call(op) => StepFair(w, op);
        case Order(lru) =>
          if multiset(lru) == multiset(w.s.lru) {
            OrderFair(w, lru);
          }
      }
      EveryRunFair(Moved(w, moves[0]), moves[1..]);
    }
  }

  lemma EmptyFair()
    ensures Fair(World(EMPTY, iset{}))
  {
  }

  /** No purge is ever lost: whatever happened since, pinning pages of which at least one was
      truncated and not pinned since reports `ASHMEM_WAS_PURGED`. */
  lemma NoLostPurge(moves: seq<Move>, a: nat, first: int, last: int, p: int)
    requires MovesFit(moves)
    requires (a, p) in RunMoves(World(EMPTY, iset{}), moves).lost && first <= p <= last
    ensures var s := RunMoves(World(EMPTY, iset{}), moves).s;
            a in s.areas && Pin(s, a, first, last).1
  {
    var w := RunMoves(World(EMPTY, iset{}), moves);
    EmptyFair();
    EveryRunFair(World(EMPTY, iset{}), moves);
    assert Covered(Ranges(w.s, a), p, true);
    var k := IsLoose(w.s, a);
    LooseCovers(Ranges(w.s, a), a, w.s.areas[a].size / PAGE_SIZE, k);
    k := PinLoose(w.s, a, w.s.areas[a].size / PAGE_SIZE, k, first, last);
  }

  /** And so the request says: a granted pin request that covers such a page is answered with
      `ASHMEM_WAS_PURGED`. */
  lemma NoLostPurgeRequest(moves: seq<Move>, a: nat, offset: nat, len: nat, p: int)
    requires MovesFit(moves) && offset < WORD && len < WORD
    requires (a, p) in RunMoves(World(EMPTY, iset{}), moves).lost
    requires var s := RunMoves(World(EMPTY, iset{}), moves).s;
             && a in s.areas && s.areas[a].mapped && offset % 4096 == 0 && len % 4096 == 0
             && offset + len <= s.areas[a].size
             && offset <= p * 4096 < if len == 0 then s.areas[a].size else offset + len
    ensures Answered(RunMoves(World(EMPTY, iset{}), moves).s, Request(a, CmdPin, offset, len)) == WasPurged(true)
  {
    var w := RunMoves(World(EMPTY, iset{}), moves);
    EmptyFair();
    EveryRunFair(World(EMPTY, iset{}), moves);
    FairSize(w, a);
    DecodeExact(w.s.areas[a].size, offset, len);
    hide RunMoves, Pin, Fair, Decode;
    var first, last := Decode(w.s.areas[a].size, offset, len).first, Decode(w.s.areas[a].size, offset, len).last;
    NoLostPurge(moves, a, first, last, p);
  }

  /** An area of one page with nothing but a range without pages. */
  function OneEmpty(purged: bool): State {
    var r := Range(0, 1, 0, purged);
    State(map[0 := Area(PAGE_SIZE, true, [r])], if purged then [] else [r], 0)
  }

  lemma EmptyUnpinned()
    ensures Unpin(State(map[0 := Area(PAGE_SIZE, true, [])], [], 0), 0, 1, 0) == OneEmpty(false)
  {
    var s := State(map[0 := Area(PAGE_SIZE, true, [])], [], 0);
    assert Insert([], 0, Range(0, 1, 0, false)) == [Range(0, 1, 0, false)];
    assert Unpin(s, 0, 1, 0) == RangeAlloc(s, 0, 0, false, 1, 0);
  }

  lemma EmptyPurged()
    ensures Shrink(OneEmpty(false), 1, true).0 == OneEmpty(true)
  {
    var s, r := OneEmpty(false), Range(0, 1, 0, false);
    assert Find([r], r) == 0;
    assert [r][0 := r.(purged := true)] == [r.(purged := true)];
    assert PurgeHead(s).areas == OneEmpty(true).areas;
    assert PurgeHead(s) == OneEmpty(true);
    hide PurgeHead;
    assert OneEmpty(true).lru == [];
  }

  lemma EmptyLoose(purged: bool)
    ensures Loose(Ranges(OneEmpty(purged), 0), 0, 1, 1)
    ensures MarkAmong(Ranges(OneEmpty(purged), 0), 1) <==> purged
    ensures forall p, fl :: !Covered(Ranges(OneEmpty(purged), 0), p, fl)
  {
    assert Ranges(OneEmpty(purged), 0)[0] == Range(0, 1, 0, purged);
  }

  /** An area of one page: after the unpin request without pages its page is reported as unpinned,
      and when the shrinker has come by, as purged, though it has been pinned all the time. */
  lemma EmptyRangeReported()
    ensures var s := State(map[0 := Area(PAGE_SIZE, true, [])], [], 0);
            var t := Unpin(s, 0, 1, 0);
            var u := Shrink(t, 1, true).0;
            && 0 in t.areas && AnyUnpinned(t, 0, 0, 0) && 0 in u.areas && Pin(u, 0, 0, 0).1
            && forall p, fl :: !Covered(Ranges(t, 0), p, fl) && !Covered(Ranges(u, 0), p, fl)
  {
    EmptyUnpinned();
    EmptyPurged();
    EmptyLoose(false);
    EmptyLoose(true);
    assert 0 in OneEmpty(false).areas && 0 in OneEmpty(true).areas;
    hide Loose, MarkAmong, Covered, OneEmpty, Unpin, Shrink, PinFrom, StatusFrom;
    StatusLoose(Ranges(OneEmpty(false), 0), 0, 1, 1, 0, 0);
    var k := PinLoose(OneEmpty(true), 0, 1, 1, 0, 0);
  }
}
