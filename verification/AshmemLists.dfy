/** The range primitives of ashmem keep the three structures consistent, and change the set
  of unpinned pages and the set of purged pages in the way their callers rely on. */
module AshmemLists {
  import opened AshmemModel

  // ---------------------------------------------------------------- page sets

  /** Page `p` lies in a range of the list; with `onlyPurged`, in a purged one. */
  ghost predicate Covered(ranges: seq<Range>, p: int, onlyPurged: bool) {
    exists r :: r in ranges && r.Holds(p) && (onlyPurged ==> r.purged)
  }

  lemma CoveredOne(r: Range, p: int, fl: bool)
    ensures Covered([r], p, fl) <==> r.Holds(p) && (fl ==> r.purged)
  {
  }

  /** Putting the ranges `mid` in place of position `i`. */
  lemma CoveredReplace(ranges: seq<Range>, i: nat, mid: seq<Range>, p: int, fl: bool)
    requires i < |ranges|
    ensures Covered(ranges[..i] + mid + ranges[i + 1..], p, fl) <==>
            Covered(ranges[..i], p, fl) || Covered(mid, p, fl) || Covered(ranges[i + 1..], p, fl)
  {
  }

  lemma CoveredSplit(ranges: seq<Range>, i: nat, p: int, fl: bool)
    requires i < |ranges|
    ensures Covered(ranges, p, fl) <==>
            Covered(ranges[..i], p, fl) || (ranges[i].Holds(p) && (fl ==> ranges[i].purged)) ||
            Covered(ranges[i + 1..], p, fl)
  {
  }

  /** Pages of one range are in no other range of its list. */
  lemma HeldOnce(ranges: seq<Range>, a: nat, i: nat, p: int, fl: bool)
    requires Descending(ranges, a) && i < |ranges| && ranges[i].Holds(p)
    ensures !Covered(ranges[..i], p, fl) && !Covered(ranges[i + 1..], p, fl)
  {
  }

  // ---------------------------------------------------------------- lists of distinct elements

  lemma {:induction false} PagesConcat(xs: seq<Range>, ys: seq<Range>)
    ensures Pages(xs + ys) == Pages(xs) + Pages(ys)
  {
    if xs == [] {
      assert xs + ys == ys;
    } else {
      PagesConcat(xs[1..], ys);
      assert (xs + ys)[1..] == xs[1..] + ys;
    }
  }

  lemma {:induction false} PagesSplit(xs: seq<Range>, k: nat)
    requires k < |xs|
    ensures Pages(xs) == Pages(xs[..k]) + xs[k].Size() + Pages(xs[k + 1..])
  {
    if k > 0 {
      PagesSplit(xs[1..], k - 1);
      assert xs[1..][..k - 1] == xs[..k][1..];
      assert xs[1..][k..] == xs[k + 1..];
    }
  }

  lemma PagesDrop(xs: seq<Range>, k: nat)
    requires k < |xs|
    ensures Pages(Drop(xs, k)) == Pages(xs) - xs[k].Size()
  {
    PagesSplit(xs, k);
    PagesConcat(xs[..k], xs[k + 1..]);
  }

  lemma PagesUpdate(xs: seq<Range>, k: nat, r: Range)
    requires k < |xs|
    ensures Pages(xs[k := r]) == Pages(xs) - xs[k].Size() + r.Size()
  {
    PagesSplit(xs, k);
    PagesSplit(xs[k := r], k);
    assert xs[k := r][..k] == xs[..k] && xs[k := r][k + 1..] == xs[k + 1..];
  }

  lemma PagesAppend(xs: seq<Range>, r: Range)
    ensures Pages(xs + [r]) == Pages(xs) + r.Size()
  {
    PagesConcat(xs, [r]);
    assert [r][1..] == [];
  }

  lemma DropMembers<T>(xs: seq<T>, k: nat)
    requires Distinct(xs) && k < |xs|
    ensures Distinct(Drop(xs, k))
    ensures forall x :: x in Drop(xs, k) <==> x in xs && x != xs[k]
  {
  }

  lemma UpdateMembers<T>(xs: seq<T>, k: nat, y: T)
    requires Distinct(xs) && k < |xs| && y !in xs
    ensures Distinct(xs[k := y])
    ensures forall x :: x in xs[k := y] <==> (x in xs && x != xs[k]) || x == y
  {
    var ys := xs[k := y];
    forall x | x in xs && x != xs[k]
      ensures x in ys
    {
      var j :| 0 <= j < |xs| && xs[j] == x;
      assert ys[j] == x;
    }
    assert ys[k] == y;
  }

  lemma InsertMembers<T>(xs: seq<T>, k: nat, y: T)
    requires k <= |xs|
    ensures forall x :: x in Insert(xs, k, y) <==> x in xs || x == y
  {
  }

  lemma DescendingDistinct(ranges: seq<Range>, a: nat)
    requires Descending(ranges, a)
    ensures Distinct(ranges)
  {
  }

  // ---------------------------------------------------------------- primitives keep the invariant

  /** An LRU list follows a change of one area's ranges when it changes by the same members. */
  lemma LruFollows(areas: map<nat, Area>, lru: seq<Range>, a: nat, ranges: seq<Range>, lru': seq<Range>)
    requires LruOk(areas, lru) && a in areas && Distinct(lru')
    requires forall r :: r in areas[a].ranges ==> r.area == a
    requires forall r :: r in ranges ==> r.area == a
    requires forall r :: r in lru' && r.area == a <==> r in ranges && !r.purged
    requires forall r: Range :: r.area != a ==> (r in lru' <==> r in lru)
    ensures LruOk(areas[a := areas[a].(ranges := ranges)], lru')
  {
  }

  lemma AreaMembers(s: State, a: nat)
    requires Inv(s) && a in s.areas
    ensures forall r :: r in s.areas[a].ranges ==> r.area == a
    ensures forall r: Range :: r.area == a ==> (r in s.lru <==> r in s.areas[a].ranges && !r.purged)
  {
  }

  lemma SetRangesLists(s: State, a: nat, ranges: seq<Range>)
    requires ListsOk(s.areas) && a in s.areas && Descending(ranges, a)
    ensures ListsOk(SetRanges(s, a, ranges).areas)
  {
  }

  lemma AllocKeepsInv(s: State, a: nat, i: nat, purged: bool, first: int, last: int)
    requires Inv(s) && a in s.areas && i <= |s.areas[a].ranges| && 0 <= first <= last
    requires forall j :: 0 <= j < i ==> s.areas[a].ranges[j].first > last
    requires forall j :: i <= j < |s.areas[a].ranges| ==> s.areas[a].ranges[j].last < first
    ensures Inv(RangeAlloc(s, a, i, purged, first, last))
  {
    var ranges, r := s.areas[a].ranges, Range(a, first, last, purged);
    var ranges' := Insert(ranges, i, r);
    assert Descending(ranges, a);
    assert Descending(ranges', a) by {
      assert forall j :: 0 <= j < |ranges'| ==>
        ranges'[j] == if j < i then ranges[j] else if j == i then r else ranges[j - 1];
    }
    SetRangesLists(s, a, ranges');
    AreaMembers(s, a);
    InsertMembers(ranges, i, r);
    assert r !in ranges;
    if purged {
      LruFollows(s.areas, s.lru, a, ranges', s.lru);
    } else {
      LruFollows(s.areas, s.lru, a, ranges', s.lru + [r]);
      PagesAppend(s.lru, r);
    }
  }

  lemma DelKeepsInv(s: State, a: nat, i: nat)
    requires Inv(s) && a in s.areas && i < |s.areas[a].ranges|
    ensures Inv(RangeDel(s, a, i))
  {
    var ranges := s.areas[a].ranges;
    var r, ranges' := ranges[i], Drop(ranges, i);
    assert Descending(ranges, a);
    assert Descending(ranges', a) by {
      assert forall j :: 0 <= j < |ranges'| ==> ranges'[j] == ranges[if j < i then j else j + 1];
    }
    SetRangesLists(s, a, ranges');
    AreaMembers(s, a);
    DescendingDistinct(ranges, a);
    DropMembers(ranges, i);
    if r.purged {
      LruFollows(s.areas, s.lru, a, ranges', s.lru);
    } else {
      assert r in s.lru;
      var k := Find(s.lru, r);
      DropMembers(s.lru, k);
      LruFollows(s.areas, s.lru, a, ranges', Drop(s.lru, k));
      PagesDrop(s.lru, k);
    }
  }

  lemma ShrinkKeepsInv(s: State, a: nat, i: nat, first: int, last: int)
    requires Inv(s) && a in s.areas && i < |s.areas[a].ranges|
    requires s.areas[a].ranges[i].first <= first <= last <= s.areas[a].ranges[i].last
    ensures Inv(RangeShrink(s, a, i, first, last))
  {
    var ranges := s.areas[a].ranges;
    var r := ranges[i];
    var r' := r.(first := first, last := last);
    if r' == r {
      assert ranges[i := r'] == ranges;
      ShrinkToSame(s, a, i);
    } else {
      var ranges' := ranges[i := r'];
      assert Descending(ranges, a);
      assert Descending(ranges', a);
      SetRangesLists(s, a, ranges');
      AreaMembers(s, a);
      DescendingDistinct(ranges, a);
      assert r' !in ranges by {
        assert forall j :: 0 <= j < |ranges| ==> ranges[j] != r';
      }
      UpdateMembers(ranges, i, r');
      if r.purged {
        LruFollows(s.areas, s.lru, a, ranges', s.lru);
      } else {
        assert r in s.lru;
        var k := Find(s.lru, r);
        UpdateMembers(s.lru, k, r');
        LruFollows(s.areas, s.lru, a, ranges', s.lru[k := r']);
        PagesUpdate(s.lru, k, r');
      }
    }
  }

  lemma ShrinkToSame(s: State, a: nat, i: nat)
    requires a in s.areas && i < |s.areas[a].ranges|
    ensures var r := s.areas[a].ranges[i]; RangeShrink(s, a, i, r.first, r.last) == s
  {
    var ranges := s.areas[a].ranges;
    assert ranges[i := ranges[i]] == ranges;
    var k := Find(s.lru, ranges[i]);
    if k < |s.lru| {
      assert s.lru[k := ranges[i]] == s.lru;
    }
  }

  lemma PurgeKeepsInv(s: State, a: nat, i: nat)
    requires Inv(s) && a in s.areas && i < |s.areas[a].ranges| && !s.areas[a].ranges[i].purged
    ensures Inv(Purge(s, a, i))
  {
    var ranges := s.areas[a].ranges;
    var r := ranges[i];
    var r' := r.(purged := true);
    var ranges' := ranges[i := r'];
    assert Descending(ranges, a);
    assert Descending(ranges', a);
    SetRangesLists(s, a, ranges');
    AreaMembers(s, a);
    DescendingDistinct(ranges, a);
    assert r' !in ranges by {
      assert forall j :: 0 <= j < |ranges| ==> ranges[j] != r';
    }
    UpdateMembers(ranges, i, r');
    assert r in s.lru;
    var k := Find(s.lru, r);
    DropMembers(s.lru, k);
    LruFollows(s.areas, s.lru, a, ranges', Drop(s.lru, k));
    PagesDrop(s.lru, k);
  }

  // ---------------------------------------------------------------- splitting a range

  /** Punching a hole: the code allocates the upper part before it cuts the old range down.
      The order does not matter, so both intermediate invariants can be used. */
  lemma SplitCommutes(s: State, a: nat, i: nat, lo: int, hi: int)
    requires Inv(s) && a in s.areas && i < |s.areas[a].ranges|
    requires var r := s.areas[a].ranges[i]; r.first < lo <= hi < r.last
    ensures var r := s.areas[a].ranges[i];
            RangeShrink(RangeAlloc(s, a, i, r.purged, hi + 1, r.last), a, i + 1, r.first, lo - 1) ==
            RangeAlloc(RangeShrink(s, a, i, r.first, lo - 1), a, i, r.purged, hi + 1, r.last)
  {
    var ranges := s.areas[a].ranges;
    var r := ranges[i];
    var top, low := Range(a, hi + 1, r.last, r.purged), r.(last := lo - 1);
    assert Descending(ranges, a);
    assert Insert(ranges, i, top)[i + 1] == r;
    assert Insert(ranges, i, top)[i + 1 := low] == Insert(ranges[i := low], i, top);
    if !r.purged {
      AreaMembers(s, a);
      assert r in s.lru;
      FindAppend(s.lru, r, top);
      var k := Find(s.lru, r);
      assert (s.lru + [top])[k := low] == s.lru[k := low] + [top];
    }
  }

  lemma {:induction false} FindAppend(xs: seq<Range>, x: Range, y: Range)
    requires x in xs
    ensures Find(xs + [y], x) == Find(xs, x)
  {
    if xs[0] != x {
      assert (xs + [y])[1..] == xs[1..] + [y];
      FindAppend(xs[1..], x, y);
    }
  }
}
