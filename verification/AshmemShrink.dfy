/** The shrinker: it purges the least recently unpinned ranges, as few as the request needs,
  and keeps the page counter exact. */
module AshmemShrink {
  import opened AshmemModel
  import opened AshmemLists
  import opened AshmemOps

  // ---------------------------------------------------------------- the loop

  lemma LruMember(s: State, r: Range)
    requires Inv(s) && r in s.lru
    ensures r.area in s.areas && r in Ranges(s, r.area) && !r.purged
    ensures 0 <= r.first <= r.last
    ensures Find(Ranges(s, r.area), r) < |Ranges(s, r.area)|
  {
  }

  /** Purging the range at the head of the LRU list: the node keeps its place on the list of
      its area, where every node of the LRU list has one. */
  function PurgeHead(s: State): State
    requires s.lru != []
  {
    var r := s.lru[0];
    var marked :=
      if r.area in s.areas && r in Ranges(s, r.area)
      then SetRanges(s, r.area, Ranges(s, r.area)[Find(Ranges(s, r.area), r) := r.(purged := true)])
      else s;
    marked.(lru := s.lru[1..], lruCount := s.lruCount - r.Size())
  }

  /** Deleting the head of the LRU list. */
  lemma PurgeIsHead(s: State, a: nat, i: nat)
    requires a in s.areas && i < |Ranges(s, a)| && s.lru != [] && Ranges(s, a)[i] == s.lru[0]
    ensures Purge(s, a, i) ==
            SetRanges(s, a, Ranges(s, a)[i := s.lru[0].(purged := true)]).
              (lru := s.lru[1..], lruCount := s.lruCount - s.lru[0].Size())
  {
  }

  lemma PurgeHeadKeepsInv(s: State)
    requires Inv(s) && s.lru != []
    ensures Inv(PurgeHead(s))
  {
    var r := s.lru[0];
    LruMember(s, r);
    PurgeIsHead(s, r.area, Find(Ranges(s, r.area), r));
    PurgeKeepsInv(s, r.area, Find(Ranges(s, r.area), r));
  }

  /** How many ranges the loop takes: it stops once the pages asked for are gone. */
  function TakeCount(lru: seq<Range>, scan: int): (k: nat)
    ensures k <= |lru|
  {
    if lru == [] then 0
    else if scan - lru[0].Size() <= 0 then 1
    else 1 + TakeCount(lru[1..], scan - lru[0].Size())
  }

  lemma TakeStep(lru: seq<Range>, scan: int)
    requires lru != []
    ensures var k, rest := TakeCount(lru, scan), lru[1..];
            if scan - lru[0].Size() <= 0 then lru[..k] == [lru[0]] && lru[k..] == rest
            else
              var j := TakeCount(rest, scan - lru[0].Size());
              lru[..k] == [lru[0]] + rest[..j] && lru[k..] == rest[j..]
  {
  }

  /** The loop of `ashmem_shrink`: purge from the head of the LRU list until at least
      `scan` pages are gone.  The second result lists the ranges truncated, in order. */
  function ShrinkLoop(s: State, scan: int): (State, seq<Range>)
    decreases |s.lru|
  {
    if s.lru == [] then (s, []) else
    var r, u := s.lru[0], PurgeHead(s);
    if scan - r.Size() <= 0 then (u, [r]) else
    var (t, rest) := ShrinkLoop(u, scan - r.Size());
    (t, [r] + rest)
  }

  /** `ashmem_shrink`; -1 when the caller's allocation may not enter the filesystem. */
  function Shrink(s: State, scan: int, mayEnterFs: bool): (State, int, seq<Range>)
  {
    if scan != 0 && !mayEnterFs then (s, -1, [])
    else if scan == 0 then (s, s.lruCount, [])
    else var (t, purged) := ShrinkLoop(s, scan); (t, t.lruCount, purged)
  }

  /** `ASHMEM_PURGE_ALL_CACHES`: ask for the count, then shrink by it. */
  function PurgeAll(s: State): (State, seq<Range>)
  {
    var count := Shrink(s, 0, true).1;
    var (t, _, purged) := Shrink(s, count, true);
    (t, purged)
  }

  // ---------------------------------------------------------------- what it does

  /** `k` ranges total at least `scan` pages or are all there are, and without the last of
      them (unless it is the only one) they would fall short. */
  ghost predicate ShortestPrefix(lru: seq<Range>, k: nat, scan: int) {
    && k <= |lru|
    && (lru != [] ==> k > 0)
    && (Pages(lru[..k]) >= scan || k == |lru|)
    && (k > 1 ==> Pages(lru[..k - 1]) < scan)
  }

  /** Page `p` of area `a` lies in one of the ranges. */
  ghost predicate Hit(gone: seq<Range>, a: nat, p: int) {
    exists r :: r in gone && r.area == a && r.Holds(p)
  }

  /** What marking the ranges `gone` as purged does to one page of one area. */
  ghost predicate MarkedAt(s: State, t: State, gone: seq<Range>, a: nat, p: int)
    requires a in s.areas
  {
    && a in t.areas && t.areas[a].size == s.areas[a].size && t.areas[a].mapped == s.areas[a].mapped
    && (Covered(Ranges(t, a), p, false) <==> Covered(Ranges(s, a), p, false))
    && (Covered(Ranges(t, a), p, true) <==> Covered(Ranges(s, a), p, true) || Hit(gone, a, p))
  }

  ghost predicate Marked(s: State, t: State, gone: seq<Range>) {
    t.areas.Keys == s.areas.Keys && forall a: nat, p :: a in s.areas ==> MarkedAt(s, t, gone, a, p)
  }

  lemma MarkedOneArea(s: State, t: State, a: nat, r: Range)
    requires a in s.areas && OnlyArea(s, t, a) && r.area == a
    requires forall p :: Covered(Ranges(t, a), p, false) <==> Covered(Ranges(s, a), p, false)
    requires forall p :: Covered(Ranges(t, a), p, true) <==> Covered(Ranges(s, a), p, true) || r.Holds(p)
    ensures Marked(s, t, [r])
  {
  }

  lemma PurgeHeadEffect(s: State)
    requires Inv(s) && s.lru != []
    ensures Marked(s, PurgeHead(s), [s.lru[0]])
  {
    var r := s.lru[0];
    LruMember(s, r);
    var i := Find(Ranges(s, r.area), r);
    PurgeCovers(Ranges(s, r.area), i);
    assert Ranges(PurgeHead(s), r.area) == Ranges(s, r.area)[i := r.(purged := true)];
    MarkedOneArea(s, PurgeHead(s), r.area, r);
  }

  lemma PurgeCovers(ranges: seq<Range>, i: nat)
    requires i < |ranges|
    ensures var after := ranges[i := ranges[i].(purged := true)];
            && (forall p :: Covered(after, p, false) <==> Covered(ranges, p, false))
            && (forall p :: Covered(after, p, true) <==> Covered(ranges, p, true) || ranges[i].Holds(p))
  {
    var r := ranges[i].(purged := true);
    var after := ranges[i := r];
    assert after == ranges[..i] + [r] + ranges[i + 1..];
    forall p, fl
      ensures Covered(after, p, fl) <==> Covered(ranges, p, fl) || (fl && ranges[i].Holds(p))
    {
      CoveredReplace(ranges, i, [r], p, fl);
      CoveredOne(r, p, fl);
      CoveredSplit(ranges, i, p, fl);
    }
  }

  lemma HitCons(r: Range, rest: seq<Range>, a: nat, p: int)
    ensures Hit([r] + rest, a, p) <==> Hit([r], a, p) || Hit(rest, a, p)
  {
  }

  lemma {:induction false} TakeCountShortest(lru: seq<Range>, scan: int)
    ensures ShortestPrefix(lru, TakeCount(lru, scan), scan)
  {
    if lru != [] {
      PrefixOne(lru);
      if scan - lru[0].Size() > 0 {
        TakeCountShortest(lru[1..], scan - lru[0].Size());
        PrefixGrows(lru, TakeCount(lru[1..], scan - lru[0].Size()), scan);
      }
    }
  }

  lemma {:induction false} ShrinkLoopTakes(s: State, scan: int)
    ensures ShrinkLoop(s, scan).1 == s.lru[..TakeCount(s.lru, scan)]
    ensures ShrinkLoop(s, scan).0.lru == s.lru[TakeCount(s.lru, scan)..]
    decreases |s.lru|
  {
    if s.lru != [] {
      TakeStep(s.lru, scan);
      if scan - s.lru[0].Size() > 0 {
        ShrinkLoopTakes(PurgeHead(s), scan - s.lru[0].Size());
      }
    }
  }

  lemma {:induction false} ShrinkLoopMarks(s: State, scan: int, a: nat, p: int)
    requires Inv(s) && a in s.areas
    ensures MarkedAt(s, ShrinkLoop(s, scan).0, ShrinkLoop(s, scan).1, a, p)
    decreases |s.lru|
  {
    if s.lru != [] {
      PurgeHeadEffect(s);
      PurgeHeadKeepsInv(s);
      var r, u := s.lru[0], PurgeHead(s);
      assert MarkedAt(s, u, [r], a, p);
      if scan - r.Size() > 0 {
        ShrinkLoopMarks(u, scan - r.Size(), a, p);
        HitCons(r, ShrinkLoop(u, scan - r.Size()).1, a, p);
      }
    }
  }

  lemma PrefixOne(lru: seq<Range>)
    requires lru != []
    ensures Pages(lru[..1]) == lru[0].Size()
  {
  }

  lemma PrefixPages(lru: seq<Range>, k: nat)
    requires k < |lru|
    ensures Pages(lru[..k + 1]) == lru[0].Size() + Pages(lru[1..][..k])
  {
    assert lru[..k + 1][1..] == lru[1..][..k];
  }

  lemma PrefixGrows(lru: seq<Range>, k: nat, scan: int)
    requires lru != [] && lru[0].Size() < scan
    requires ShortestPrefix(lru[1..], k, scan - lru[0].Size())
    ensures ShortestPrefix(lru, k + 1, scan)
  {
    PrefixPages(lru, k);
    if k == 1 {
      PrefixOne(lru);
    } else if k > 1 {
      PrefixPages(lru, k - 1);
    }
  }

  lemma {:induction false} ShrinkLoopKeepsInv(s: State, scan: int)
    requires Inv(s)
    ensures Inv(ShrinkLoop(s, scan).0)
    ensures ShrinkLoop(s, scan).0.areas.Keys == s.areas.Keys
    decreases |s.lru|
  {
    if s.lru != [] {
      PurgeHeadKeepsInv(s);
      if scan - s.lru[0].Size() > 0 {
        ShrinkLoopKeepsInv(PurgeHead(s), scan - s.lru[0].Size());
      }
    }
  }

  lemma ShrinkMarks(s: State, scan: int)
    requires Inv(s)
    ensures Marked(s, ShrinkLoop(s, scan).0, ShrinkLoop(s, scan).1)
  {
    forall a: nat, p | a in s.areas
      ensures MarkedAt(s, ShrinkLoop(s, scan).0, ShrinkLoop(s, scan).1, a, p)
    {
      ShrinkLoopMarks(s, scan, a, p);
    }
    ShrinkLoopKeepsInv(s, scan);
  }

  /** `ashmem_shrink(n)` with `n != 0` purges the shortest prefix of the LRU list totalling at
      least `n` pages, or the whole list; pages purged plus the count returned are the old
      count; the unpinned page sets stay as they were. */
  lemma ShrinkEffect(s: State, scan: int)
    requires scan != 0 && s.lruCount == Pages(s.lru)
    ensures var (t, left, gone) := Shrink(s, scan, true);
            && s.lru == gone + t.lru
            && ShortestPrefix(s.lru, |gone|, scan)
            && left == t.lruCount && Pages(gone) + left == s.lruCount
  {
    TakeCountShortest(s.lru, scan);
    ShrinkLoopTakes(s, scan);
    ShrinkLoopCounts(s, scan);
    var (t, gone) := ShrinkLoop(s, scan);
    PagesConcat(gone, t.lru);
  }

  /** A query returns the pages of the LRU list, and a caller that must not enter the filesystem gets
      nothing done. */
  lemma ShrinkRefuses(s: State, scan: int)
    requires s.lruCount == Pages(s.lru)
    ensures forall mayEnterFs :: Shrink(s, 0, mayEnterFs) == (s, Pages(s.lru), [])
    ensures scan != 0 ==> Shrink(s, scan, false) == (s, -1, [])
  {
  }

  // ---------------------------------------------------------------- the counter counts pages

  function PagesOf(r: Range): set<(nat, int)> { set p: int | r.first <= p <= r.last :: (r.area, p) }

  function PageSet(ranges: seq<Range>): set<(nat, int)> {
    if ranges == [] then {} else PagesOf(ranges[0]) + PageSet(ranges[1..])
  }

  lemma {:induction false} SizeIsPages(r: Range)
    requires r.first <= r.last + 1
    ensures |PagesOf(r)| == r.last - r.first + 1 == r.Size()
    decreases r.last - r.first + 1
  {
    if r.first > r.last {
      assert PagesOf(r) == {};
    } else {
      var r' := r.(last := r.last - 1);
      SizeIsPages(r');
      assert PagesOf(r) == PagesOf(r') + {(r.area, r.last)};
    }
  }

  /** No page is in two of the ranges. */
  ghost predicate PagesApart(ranges: seq<Range>) {
    && (forall i :: 0 <= i < |ranges| ==> ranges[i].first <= ranges[i].last)
    && forall i, j :: 0 <= i < j < |ranges| ==> PagesOf(ranges[i]) !! PagesOf(ranges[j])
  }

  lemma {:induction false} PageSetMembers(ranges: seq<Range>)
    ensures forall x :: x in PageSet(ranges) <==> exists r :: r in ranges && x in PagesOf(r)
    decreases |ranges|
  {
    hide PagesOf;
    if ranges != [] {
      PageSetMembers(ranges[1..]);
      assert ranges == [ranges[0]] + ranges[1..];
    }
  }

  lemma {:induction false} PagesIsSize(ranges: seq<Range>)
    requires PagesApart(ranges)
    ensures |PageSet(ranges)| == Pages(ranges)
    decreases |ranges|
  {
    hide PagesOf;
    if ranges != [] {
      PagesIsSize(ranges[1..]);
      SizeIsPages(ranges[0]);
      PageSetMembers(ranges[1..]);
      forall x | x in PageSet(ranges[1..])
        ensures x !in PagesOf(ranges[0])
      {
        var r :| r in ranges[1..] && x in PagesOf(r);
        var j :| 1 <= j < |ranges| && ranges[j] == r;
        assert PagesOf(ranges[0]) !! PagesOf(ranges[j]);
      }
      assert PagesOf(ranges[0]) !! PageSet(ranges[1..]);
    }
  }

  lemma LruApart(s: State)
    requires Inv(s)
    ensures PagesApart(s.lru)
  {
    forall i | 0 <= i < |s.lru|
      ensures s.lru[i].first <= s.lru[i].last
    {
      LruMember(s, s.lru[i]);
    }
    forall i, j | 0 <= i < j < |s.lru|
      ensures PagesOf(s.lru[i]) !! PagesOf(s.lru[j])
    {
      OtherPages(s, s.lru[i], s.lru[j]);
    }
  }

  lemma OtherPages(s: State, x: Range, y: Range)
    requires Inv(s) && x in s.lru && y in s.lru && x != y
    ensures PagesOf(x) !! PagesOf(y)
  {
    LruMember(s, x);
    LruMember(s, y);
    if x.area == y.area {
      ListDescends(s, x.area);
      assert x.last < y.first || y.last < x.first;
    }
  }

  /** The counter is the number of pages that are unpinned and not in a marked range. */
  lemma CountIsPages(s: State, pages: set<(nat, int)>)
    requires Inv(s)
    requires forall a: nat, p :: (a, p) in pages <==>
               a in s.areas && Covered(Ranges(s, a), p, false) && !Covered(Ranges(s, a), p, true)
    ensures s.lruCount == |pages|
  {
    LruApart(s);
    PagesIsSize(s.lru);
    PageSetMembers(s.lru);
    InvCounts(s);
    hide Inv, PagesOf, PageSet, Covered, Pages;
    forall x: (nat, int)
      ensures x in PageSet(s.lru) <==> x in pages
    {
      UnmarkedOnLru(s, x.0, x.1);
      assert x == (x.0, x.1);
    }
    assert PageSet(s.lru) == pages;
  }

  lemma InvCounts(s: State)
    requires Inv(s)
    ensures s.lruCount == Pages(s.lru)
  {
  }

  lemma UnmarkedOnLru(s: State, a: nat, p: int)
    requires Inv(s)
    ensures (exists r :: r in s.lru && (a, p) in PagesOf(r)) <==>
            a in s.areas && Covered(Ranges(s, a), p, false) && !Covered(Ranges(s, a), p, true)
  {
    if r :| r in s.lru && (a, p) in PagesOf(r) {
      LruUnmarked(s, r, p);
    }
    if a in s.areas && Covered(Ranges(s, a), p, false) && !Covered(Ranges(s, a), p, true) {
      UnmarkedLru(s, a, p);
    }
  }

  lemma LruUnmarked(s: State, r: Range, p: int)
    requires Inv(s) && r in s.lru && r.Holds(p)
    ensures r.area in s.areas && Covered(Ranges(s, r.area), p, false) && !Covered(Ranges(s, r.area), p, true)
  {
    LruMember(s, r);
    ListDescends(s, r.area);
    hide Inv;
    assert r in Ranges(s, r.area) && Covered(Ranges(s, r.area), p, false);
  }

  lemma UnmarkedLru(s: State, a: nat, p: int)
    requires Inv(s) && a in s.areas && Covered(Ranges(s, a), p, false) && !Covered(Ranges(s, a), p, true)
    ensures exists r :: r in s.lru && (a, p) in PagesOf(r)
  {
    ListDescends(s, a);
    var r :| r in Ranges(s, a) && r.Holds(p);
    assert !r.purged && Evictable(s.areas, r) && r in s.lru && (a, p) in PagesOf(r);
  }

  lemma {:induction false} ShrinkLoopCounts(s: State, scan: int)
    requires s.lruCount == Pages(s.lru)
    ensures ShrinkLoop(s, scan).0.lruCount == Pages(ShrinkLoop(s, scan).0.lru)
    decreases |s.lru|
  {
    if s.lru != [] && scan - s.lru[0].Size() > 0 {
      ShrinkLoopCounts(PurgeHead(s), scan - s.lru[0].Size());
    }
  }

  /** The pair of calls behind `ASHMEM_PURGE_ALL_CACHES` empties the LRU list. */
  lemma PurgeAllEmpties(s: State)
    requires Inv(s)
    ensures var (t, gone) := PurgeAll(s);
            t.lru == [] && t.lruCount == 0 && gone == s.lru
  {
    if s.lruCount == 0 {
      NoPagesNoRanges(s.lru, s);
    } else {
      var (t, _, gone) := Shrink(s, s.lruCount, true);
      ShrinkEffect(s, s.lruCount);
      PagesConcat(gone, t.lru);
      assert s.lru[..|gone|] == gone;
      assert t.lru == [] by {
        NoPagesNoRanges(t.lru, s);
      }
      assert gone + t.lru == gone;
    }
  }

  /** LRU ranges are not empty, so a list without pages is an empty list. */
  lemma {:induction false} NoPagesNoRanges(ranges: seq<Range>, s: State)
    requires Inv(s) && forall r :: r in ranges ==> r in s.lru
    ensures Pages(ranges) >= |ranges|
  {
    if ranges != [] {
      LruMember(s, ranges[0]);
      NoPagesNoRanges(ranges[1..], s);
    }
  }
}
