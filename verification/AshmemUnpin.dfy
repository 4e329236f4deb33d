/** What unpinning does: the pages join the unpinned set, and a purge mark on any range the
  request overlaps spreads over the merged range and is never lost. */
module AshmemUnpin {
  import opened AshmemModel
  import opened AshmemLists
  import opened AshmemOps

  predicate Overlaps(r: Range, first: int, last: int) {
    r.first <= last && first <= r.last
  }

  /** The range that results from merging the request with everything it overlaps. */
  ghost predicate InHull(ranges: seq<Range>, first: int, last: int, p: int) {
    first <= p <= last || exists r :: r in ranges && Overlaps(r, first, last) && r.Holds(p)
  }

  /** What the unpin loop has done once it returns; `mark` is the purge mark collected before. */
  ghost predicate Joined(s: State, t: State, a: nat, first: int, last: int, mark: bool)
    requires a in s.areas
  {
    && Inv(t) && OnlyArea(s, t, a)
    && PagesJoined(Ranges(s, a), Ranges(t, a), first, last)
    && MarksJoined(Ranges(s, a), Ranges(t, a), first, last, mark)
  }

  /** The pages of the request are unpinned as well now. */
  ghost predicate PagesJoined(before: seq<Range>, after: seq<Range>, first: int, last: int) {
    forall p :: Covered(after, p, false) <==> Covered(before, p, false) || first <= p <= last
  }

  /** A purge mark in the request, or collected before, is on the whole merged range now. */
  ghost predicate MarksJoined(before: seq<Range>, after: seq<Range>, first: int, last: int, mark: bool) {
    forall p :: Covered(after, p, true) <==>
      Covered(before, p, true) || ((mark || AnyCovered(before, first, last, true)) && InHull(before, first, last, p))
  }

  /** No range of the list meets the interval: the new range is inserted at `i`. */
  lemma JoinAlone(s: State, a: nat, i: nat, first: int, last: int, mark: bool)
    requires Inv(s) && a in s.areas && i <= |Ranges(s, a)| && 0 <= first <= last
    requires forall j :: 0 <= j < i ==> Ranges(s, a)[j].first > last
    requires i < |Ranges(s, a)| ==> Ranges(s, a)[i].last < first
    ensures Joined(s, RangeAlloc(s, a, i, mark, first, last), a, first, last, mark)
  {
    var ranges := Ranges(s, a);
    ListDescends(s, a);
    AllFurtherBelow(ranges, a, i, first);
    AllocAt(s, a, i, mark, first, last, ranges);
    AllocFrame(s, a, i, mark, first, last);
    NothingHere(ranges, a, i, first, last);
    NoOverlap(ranges, a, i, first, last);
    CoveredInsert(ranges, i, Range(a, first, last, mark));
  }

  lemma AllFurtherBelow(ranges: seq<Range>, a: nat, i: nat, first: int)
    requires Descending(ranges, a) && i <= |ranges|
    requires i < |ranges| ==> ranges[i].last < first
    ensures forall j :: i <= j < |ranges| ==> ranges[j].last < first
  {
  }

  lemma NoOverlap(ranges: seq<Range>, a: nat, i: nat, first: int, last: int)
    requires Descending(ranges, a) && i <= |ranges| && first <= last
    requires forall j :: 0 <= j < i ==> ranges[j].first > last
    requires i < |ranges| ==> ranges[i].last < first
    ensures forall r :: r in ranges ==> !Overlaps(r, first, last)
  {
  }

  lemma CoveredInsert(ranges: seq<Range>, i: nat, r: Range)
    requires i <= |ranges|
    ensures forall p, fl :: Covered(Insert(ranges, i, r), p, fl) <==>
              Covered(ranges, p, fl) || (r.Holds(p) && (fl ==> r.purged))
  {
  }

  /** All ranges other than number `i` are apart from it. */
  lemma OthersApart(ranges: seq<Range>, a: nat, i: nat)
    requires Descending(ranges, a) && i < |ranges|
    ensures forall r :: r in ranges && r != ranges[i] ==> r.last < ranges[i].first || ranges[i].last < r.first
  {
  }

  /** The request lies inside one range: nothing to do. */
  lemma JoinInside(s: State, a: nat, i: nat, first: int, last: int)
    requires Inv(s) && a in s.areas && i < |Ranges(s, a)| && 0 <= first <= last
    requires Ranges(s, a)[i].Subsumes(first, last)
    ensures Joined(s, s, a, first, last, false)
  {
  }

  /** A range the request meets is deleted and its pages are added to the request. */
  lemma JoinMerge(s: State, u: State, t: State, a: nat, i: nat, first: int, last: int, mark: bool)
    requires Inv(s) && a in s.areas && i < |Ranges(s, a)| && 0 <= first <= last
    requires Ranges(s, a)[i].Meets(first, last) && u == RangeDel(s, a, i)
    requires var r := Ranges(s, a)[i];
             OnlyArea(s, u, a) && Joined(u, t, a, Min(r.first, first), Max(r.last, last), mark || r.purged)
    ensures Joined(s, t, a, first, last, mark)
  {
    ListDescends(s, a);
    DelFrame(s, a, i);
    hide Inv, PagesJoined, MarksJoined, RangeDel, Descending;
    PagesMerge(Ranges(s, a), Ranges(t, a), a, i, first, last);
    MarksMerge(Ranges(s, a), Ranges(t, a), a, i, first, last, mark);
  }

  lemma PagesMerge(before: seq<Range>, after: seq<Range>, a: nat, i: nat, first: int, last: int)
    requires Descending(before, a) && i < |before| && first <= last && before[i].Meets(first, last)
    requires PagesJoined(Drop(before, i), after, Min(before[i].first, first), Max(before[i].last, last))
    ensures PagesJoined(before, after, first, last)
  {
    CoveredDrop(before, a, i);
    forall p
      ensures Covered(after, p, false) <==> Covered(before, p, false) || first <= p <= last
    {
      CoveredSplit(before, i, p, false);
    }
  }

  lemma MarksMerge(before: seq<Range>, after: seq<Range>, a: nat, i: nat, first: int, last: int, mark: bool)
    requires Descending(before, a) && i < |before| && first <= last && before[i].Meets(first, last)
    requires MarksJoined(Drop(before, i), after, Min(before[i].first, first), Max(before[i].last, last),
                         mark || before[i].purged)
    ensures MarksJoined(before, after, first, last, mark)
  {
    var r := before[i];
    MarksDrop(before, a, i, first, last);
    HullDrop(before, a, i, first, last);
    CoveredDrop(before, a, i);
    hide AnyCovered, Drop, Descending;
    forall p
      ensures Covered(after, p, true) <==>
              || Covered(before, p, true)
              || ((mark || AnyCovered(before, first, last, true)) && InHull(before, first, last, p))
    {
      if before[i].Holds(p) {
        HeldInHull(before, a, i, first, last, p);
      }
    }
  }

  lemma HeldInHull(before: seq<Range>, a: nat, i: nat, first: int, last: int, p: int)
    requires Descending(before, a) && i < |before| && first <= last && before[i].Meets(first, last)
    requires before[i].Holds(p)
    ensures InHull(before, first, last, p) && (Covered(before, p, true) ==> before[i].purged)
  {
    assert before[i] in before;
    HeldOnce(before, a, i, p, true);
    CoveredSplit(before, i, p, true);
  }

  lemma CoveredDrop(ranges: seq<Range>, a: nat, i: nat)
    requires Descending(ranges, a) && i < |ranges|
    ensures forall p, fl :: Covered(Drop(ranges, i), p, fl) <==> Covered(ranges, p, fl) && !ranges[i].Holds(p)
  {
  }

  lemma MarksDrop(ranges: seq<Range>, a: nat, i: nat, first: int, last: int)
    requires Descending(ranges, a) && i < |ranges| && first <= last && ranges[i].Meets(first, last)
    ensures var r := ranges[i];
            AnyCovered(ranges, first, last, true) <==>
            r.purged || AnyCovered(Drop(ranges, i), Min(r.first, first), Max(r.last, last), true)
  {
    var r := ranges[i];
    CoveredDrop(ranges, a, i);
    assert Cuts(ranges, Drop(ranges, i), i, r.first, r.last);
    if r.purged {
      var p := Max(r.first, first);
      CoveredSplit(ranges, i, p, true);
      assert Covered(ranges, p, true);
    }
    if AnyCovered(ranges, first, last, true) {
      var p :| first <= p <= last && Covered(ranges, p, true);
      CoveredSplit(ranges, i, p, true);
      if r.Holds(p) {
        HeldOnce(ranges, a, i, p, true);
      } else {
        assert Covered(Drop(ranges, i), p, true);
      }
    }
    if AnyCovered(Drop(ranges, i), Min(r.first, first), Max(r.last, last), true) {
      var p :| Min(r.first, first) <= p <= Max(r.last, last) && Covered(Drop(ranges, i), p, true);
      assert Covered(ranges, p, true);
    }
  }

  lemma HullDrop(ranges: seq<Range>, a: nat, i: nat, first: int, last: int)
    requires Descending(ranges, a) && i < |ranges| && first <= last && ranges[i].Meets(first, last)
    ensures var r := ranges[i];
            forall p :: InHull(Drop(ranges, i), Min(r.first, first), Max(r.last, last), p) <==>
              InHull(ranges, first, last, p)
  {
    var r := ranges[i];
    OthersApart(ranges, a, i);
    DescendingDistinct(ranges, a);
    DropMembers(ranges, i);
    assert r in ranges;
    forall q | q in Drop(ranges, i)
      ensures Overlaps(q, Min(r.first, first), Max(r.last, last)) <==> Overlaps(q, first, last)
    {
    }
  }

  lemma DelDetaches(s: State, a: nat, i: nat)
    requires Inv(s) && a in s.areas && i < |Ranges(s, a)|
    ensures var r, u := Ranges(s, a)[i], RangeDel(s, a, i);
            && Inv(u) && OnlyArea(s, u, a) && |Ranges(u, a)| < |Ranges(s, a)|
            && 0 <= r.first <= r.last && !Covered(Ranges(u, a), r.first, false)
  {
    DelKeepsInv(s, a, i);
    DelFrame(s, a, i);
    ListDescends(s, a);
    CoveredDrop(Ranges(s, a), a, i);
  }

  /** `merged` says that a range was merged before; `q` is then a page of the request that
      no range holds, so the request can no longer lie inside one. */
  lemma {:induction false} UnpinFromEffect(s: State, a: nat, i: nat, first: int, last: int, mark: bool, merged: bool,
                                           q: int)
    requires Inv(s) && a in s.areas && i <= |Ranges(s, a)| && 0 <= first <= last
    requires forall j :: 0 <= j < i ==> Ranges(s, a)[j].first > last
    requires merged ==> first <= q <= last && !Covered(Ranges(s, a), q, false)
    requires !merged ==> !mark
    ensures Joined(s, UnpinFrom(s, a, i, first, last, mark), a, first, last, mark)
    decreases |Ranges(s, a)|, |Ranges(s, a)| - i
  {
    hide Inv, Joined, RangeDel, RangeAlloc, Covered, OnlyArea;
    var ranges := Ranges(s, a);
    if i == |ranges| || ranges[i].last < first {
      JoinAlone(s, a, i, first, last, mark);
    } else if ranges[i].Subsumes(first, last) {
      CoveredSplit(ranges, i, q, false);
      JoinInside(s, a, i, first, last);
    } else if ranges[i].Meets(first, last) {
      var r, u := ranges[i], RangeDel(s, a, i);
      DelDetaches(s, a, i);
      UnpinFromEffect(u, a, 0, Min(r.first, first), Max(r.last, last), mark || r.purged, true, r.first);
      JoinMerge(s, u, UnpinFrom(u, a, 0, Min(r.first, first), Max(r.last, last), mark || r.purged), a, i, first, last,
                mark);
    } else {
      UnpinFromEffect(s, a, i + 1, first, last, mark, merged, q);
    }
  }

  /** `ashmem_unpin` adds exactly the requested pages to the unpinned set, leaves every other
      area alone, and keeps every purge mark; the merged range is marked exactly when a
      requested page was in a marked range. */
  lemma UnpinEffect(s: State, a: nat, first: int, last: int)
    requires Inv(s) && a in s.areas && 0 <= first <= last
    ensures Joined(s, Unpin(s, a, first, last), a, first, last, false)
  {
    UnpinFromEffect(s, a, 0, first, last, false, false, 0);
  }
}
