/** The order of the LRU list: what unpinning, pinning and releasing do to it, and that over every
  run the shrinker takes pages in the order in which their ranges came on the list. */
module AshmemOrder {
  import opened AshmemModel
  import opened AshmemLists
  import opened AshmemOps
  import opened AshmemUnpin
  import opened AshmemShrink
  import opened AshmemTheory
  import opened AshmemLoose
  import opened AshmemRuns

  // ---------------------------------------------------------------- parts of a list, in order

  /** The ranges that have pages. */
  function Paged(lru: seq<Range>): seq<Range> {
    if lru == [] then []
    else (if lru[0].first <= lru[0].last then [lru[0]] else []) + Paged(lru[1..])
  }

  /** Without the ranges of area `a` that overlap the interval. */
  function Without(lru: seq<Range>, a: nat, first: int, last: int): seq<Range> {
    if lru == [] then []
    else
      (if lru[0].area == a && Overlaps(lru[0], first, last) then [] else [lru[0]])
      + Without(lru[1..], a, first, last)
  }

  /** What is left of a range once the pages of the interval are gone: what lies below the interval
      keeps the place of the range, and if there is nothing below it, what lies above. */
  function Piece(r: Range, a: nat, first: int, last: int): seq<Range> {
    if r.area != a || !Overlaps(r, first, last) then [r]
    else if r.first < first then [r.(last := first - 1)]
    else if last < r.last then [r.(first := last + 1)]
    else []
  }

  function Pieces(lru: seq<Range>, a: nat, first: int, last: int): seq<Range> {
    if lru == [] then [] else Piece(lru[0], a, first, last) + Pieces(lru[1..], a, first, last)
  }

  /** The ranges of all other areas. */
  function Others(lru: seq<Range>, a: nat): seq<Range> {
    if lru == [] then [] else (if lru[0].area == a then [] else [lru[0]]) + Others(lru[1..], a)
  }

  lemma {:induction false} PagedConcat(xs: seq<Range>, ys: seq<Range>)
    ensures Paged(xs + ys) == Paged(xs) + Paged(ys)
    decreases |xs|
  {
    if xs == [] {
      assert xs + ys == ys;
    } else {
      assert (xs + ys)[1..] == xs[1..] + ys;
      PagedConcat(xs[1..], ys);
      Together(if xs[0].first <= xs[0].last then [xs[0]] else [], Paged(xs[1..]), Paged(ys));
    }
  }

  lemma {:induction false} WithoutConcat(xs: seq<Range>, ys: seq<Range>, a: nat, first: int, last: int)
    ensures Without(xs + ys, a, first, last) == Without(xs, a, first, last) + Without(ys, a, first, last)
    decreases |xs|
  {
    if xs == [] {
      assert xs + ys == ys;
    } else {
      assert (xs + ys)[1..] == xs[1..] + ys;
      hide Overlaps;
      WithoutConcat(xs[1..], ys, a, first, last);
      Together(if xs[0].area == a && Overlaps(xs[0], first, last) then [] else [xs[0]],
               Without(xs[1..], a, first, last), Without(ys, a, first, last));
    }
  }

  lemma Together<T>(a: seq<T>, b: seq<T>, c: seq<T>)
    ensures a + (b + c) == a + b + c
  {
  }

  lemma {:induction false} PiecesConcat(xs: seq<Range>, ys: seq<Range>, a: nat, first: int, last: int)
    ensures Pieces(xs + ys, a, first, last) == Pieces(xs, a, first, last) + Pieces(ys, a, first, last)
    decreases |xs|
  {
    hide Piece;
    if xs == [] {
      assert xs + ys == ys;
    } else {
      assert (xs + ys)[1..] == xs[1..] + ys;
      PiecesConcat(xs[1..], ys, a, first, last);
      Together(Piece(xs[0], a, first, last), Pieces(xs[1..], a, first, last), Pieces(ys, a, first, last));
    }
  }

  lemma {:induction false} OthersConcat(xs: seq<Range>, ys: seq<Range>, a: nat)
    ensures Others(xs + ys, a) == Others(xs, a) + Others(ys, a)
    decreases |xs|
  {
    if xs == [] {
      assert xs + ys == ys;
    } else {
      assert (xs + ys)[1..] == xs[1..] + ys;
      OthersConcat(xs[1..], ys, a);
      Together(if xs[0].area == a then [] else [xs[0]], Others(xs[1..], a), Others(ys, a));
    }
  }

  lemma {:induction false} PagedMembers(lru: seq<Range>)
    ensures forall r :: r in Paged(lru) <==> r in lru && r.first <= r.last
    decreases |lru|
  {
    if lru != [] {
      PagedMembers(lru[1..]);
      assert lru == [lru[0]] + lru[1..];
    }
  }

  lemma {:induction false} PagedAll(lru: seq<Range>)
    requires forall r :: r in lru ==> r.first <= r.last
    ensures Paged(lru) == lru
    decreases |lru|
  {
    if lru != [] {
      assert forall r :: r in lru[1..] ==> r in lru;
      PagedAll(lru[1..]);
      assert lru[0] in lru;
    }
  }

  lemma TakenApart(lru: seq<Range>, k: nat)
    requires k < |lru|
    ensures lru == lru[..k] + [lru[k]] + lru[k + 1..] && Drop(lru, k) == lru[..k] + lru[k + 1..]
  {
  }

  /** One entry more or less. */
  lemma PagedDrop(lru: seq<Range>, k: nat)
    requires k < |lru|
    ensures Paged(lru) == Paged(lru[..k]) + Paged([lru[k]]) + Paged(lru[k + 1..])
    ensures Paged(Drop(lru, k)) == Paged(lru[..k]) + Paged(lru[k + 1..])
  {
    hide *;
    TakenApart(lru, k);
    PagedConcat(lru[..k] + [lru[k]], lru[k + 1..]);
    PagedConcat(lru[..k], [lru[k]]);
    PagedConcat(lru[..k], lru[k + 1..]);
  }

  lemma PagedUpdate(lru: seq<Range>, k: nat, r: Range)
    requires k < |lru|
    ensures Paged(lru[k := r]) == Paged(lru[..k]) + Paged([r]) + Paged(lru[k + 1..])
  {
    hide *;
    PagedDrop(lru[k := r], k);
    assert lru[k := r][..k] == lru[..k] && lru[k := r][k + 1..] == lru[k + 1..];
  }

  lemma PagedOne(r: Range)
    ensures Paged([r]) == if r.first <= r.last then [r] else []
  {
    assert [r][1..] == [];
    assert [r] + [] == [r];
  }

  lemma WithoutOne(r: Range, a: nat, first: int, last: int)
    ensures Without([r], a, first, last) == if r.area == a && Overlaps(r, first, last) then [] else [r]
  {
    assert [r][1..] == [];
    assert [r] + [] == [r];
  }

  lemma PiecesOne(r: Range, a: nat, first: int, last: int)
    ensures Pieces([r], a, first, last) == Piece(r, a, first, last)
  {
    hide Piece;
    assert [r][1..] == [];
    assert Piece(r, a, first, last) + [] == Piece(r, a, first, last);
  }

  lemma {:induction false} WithoutNone(lru: seq<Range>, a: nat, first: int, last: int)
    requires forall r :: r in lru && r.area == a ==> !Overlaps(r, first, last)
    ensures Without(lru, a, first, last) == lru
    decreases |lru|
  {
    if lru != [] {
      assert lru[0] in lru;
      WithoutNone(lru[1..], a, first, last);
    }
  }

  lemma {:induction false} WithoutSame(lru: seq<Range>, a: nat, first: int, last: int, lo: int, hi: int)
    requires forall r :: r in lru && r.area == a ==> (Overlaps(r, first, last) <==> Overlaps(r, lo, hi))
    ensures Without(lru, a, first, last) == Without(lru, a, lo, hi)
    decreases |lru|
  {
    if lru != [] {
      assert lru[0] in lru;
      WithoutSame(lru[1..], a, first, last, lo, hi);
    }
  }

  lemma {:induction false} PiecesNone(lru: seq<Range>, a: nat, first: int, last: int)
    requires forall r :: r in lru && r.area == a ==> !Overlaps(r, first, last)
    ensures Pieces(lru, a, first, last) == lru
    decreases |lru|
  {
    if lru != [] {
      assert lru[0] in lru;
      PiecesNone(lru[1..], a, first, last);
    }
  }

  lemma {:induction false} OthersNone(lru: seq<Range>, a: nat)
    requires forall r :: r in lru ==> r.area != a
    ensures Others(lru, a) == lru
    decreases |lru|
  {
    if lru != [] {
      assert lru[0] in lru;
      OthersNone(lru[1..], a);
    }
  }

  // ---------------------------------------------------------------- the list after one range is deleted

  /** What an entry of the LRU list is. */
  lemma OnList(s: State, r: Range)
    requires Stock(s) && r in s.lru
    ensures !r.purged && r.area in s.areas && r in Ranges(s, r.area)
  {
    assert r in multiset(s.lru);
    assert multiset(s.lru)[r] == Copies(s.areas, r);
  }

  /** Deleting a range: the others on the LRU list keep their order. */
  lemma DelPaged(s: State, a: nat, i: nat) returns (front: seq<Range>, back: seq<Range>)
    requires Stock(s) && a in s.areas && i < |Ranges(s, a)|
    ensures var r := Ranges(s, a)[i];
            && Paged(s.lru) == front + (if r.first <= r.last && !r.purged then [r] else []) + back
            && Paged(RangeDel(s, a, i).lru) == front + back
  {
    var r := Ranges(s, a)[i];
    if r.purged {
      front, back := Paged(s.lru), [];
    } else {
      InStock(s, a, i);
      var k := Find(s.lru, r);
      PagedDrop(s.lru, k);
      PagedOne(r);
      front, back := Paged(s.lru[..k]), Paged(s.lru[k + 1..]);
    }
  }

  /** Some range of the list holds the whole interval. */
  ghost predicate InsideOne(ranges: seq<Range>, first: int, last: int) {
    exists r :: r in ranges && r.Subsumes(first, last)
  }

  /** What the unpin loop does to the ranges with pages on the LRU list: nothing if the pages of the
      request lie in one range; else the ranges it merges leave, and the merged range goes to the end
      unless it is marked. */
  ghost predicate UnpinnedOrder(before: seq<Range>, after: seq<Range>, lru: seq<Range>, lru': seq<Range>,
                                a: nat, first: int, last: int, lo: int, hi: int, marked: bool)
  {
    if InsideOne(before, first, last) then Paged(lru') == Paged(lru)
    else
      && lo <= first <= last <= hi && (forall p :: lo <= p <= hi <==> InHull(before, first, last, p))
      && (forall p :: lo <= p <= hi ==> (Covered(after, p, true) <==> marked))
      && Paged(lru') == Without(Paged(lru), a, first, last) + if marked then [] else [Range(a, lo, hi, false)]
  }

  lemma NothingOverlaps(ranges: seq<Range>, a: nat, n: int, k: nat, i: nat, first: int, last: int)
    requires Loose(ranges, a, n, k) && k <= i <= |ranges| && first <= last < n
    requires forall j :: 0 <= j < i ==> ranges[j].first > last
    requires i < |ranges| ==> ranges[i].last < first
    ensures forall r :: r in ranges ==> !Overlaps(r, first, last) && !r.Subsumes(first, last)
    ensures forall p, fl :: first <= p <= last ==> !Covered(ranges, p, fl)
  {
  }

  /** Nothing to merge: the new range goes to the end. */
  lemma AllocOrder(s: State, a: nat, n: int, k: nat, i: nat, first: int, last: int, mark: bool)
    requires Stock(s) && a in s.areas && Loose(Ranges(s, a), a, n, k) && k <= i <= |Ranges(s, a)|
    requires 0 <= first <= last < n
    requires forall j :: 0 <= j < i ==> Ranges(s, a)[j].first > last
    requires i < |Ranges(s, a)| ==> Ranges(s, a)[i].last < first
    ensures var t := RangeAlloc(s, a, i, mark, first, last);
            a in t.areas && UnpinnedOrder(Ranges(s, a), Ranges(t, a), s.lru, t.lru, a, first, last, first, last, mark)
  {
    var ranges, r := Ranges(s, a), Range(a, first, last, mark);
    var t := RangeAlloc(s, a, i, mark, first, last);
    NothingOverlaps(ranges, a, n, k, i, first, last);
    AllocList(s, a, i, mark, first, last);
    CoveredInsert(ranges, i, r);
    assert t.lru == if mark then s.lru else s.lru + [r];
    hide Loose, Covered, RangeAlloc, Overlaps, Insert;
    if !mark {
      PagedConcat(s.lru, [r]);
      PagedOne(r);
    }
    NoneOverlap(s, a, first, last);
  }

  /** No range of the area overlaps the interval, so none leaves the LRU list. */
  lemma NoneOverlap(s: State, a: nat, first: int, last: int)
    requires Stock(s) && a in s.areas && forall r :: r in Ranges(s, a) ==> !Overlaps(r, first, last)
    ensures Without(Paged(s.lru), a, first, last) == Paged(s.lru)
  {
    PagedMembers(s.lru);
    forall r | r in Paged(s.lru) && r.area == a
      ensures !Overlaps(r, first, last)
    {
      OnList(s, r);
    }
    hide Paged, Overlaps;
    WithoutNone(Paged(s.lru), a, first, last);
  }

  /** Facts about a range with pages that is merged into the request. */
  lemma MergedOne(ranges: seq<Range>, a: nat, n: int, k: nat, i: nat, first: int, last: int)
    requires Loose(ranges, a, n, k) && k <= i < |ranges| && 0 <= first <= last < n
    requires ranges[i].Meets(first, last) && !ranges[i].Subsumes(first, last)
    ensures var lo, hi := Min(ranges[i].first, first), Max(ranges[i].last, last);
            && Overlaps(ranges[i], first, last)
            && !InsideOne(ranges, first, last) && !InsideOne(Drop(ranges, i), lo, hi)
            && (forall x :: x in Drop(ranges, i) ==> (Overlaps(x, first, last) <==> Overlaps(x, lo, hi)))
            && (forall p :: InHull(Drop(ranges, i), lo, hi, p) <==> InHull(ranges, first, last, p))
  {
    var r := ranges[i];
    LooseApart(ranges, a, n, k, i);
    DropThen(ranges, i);
    hide Loose, Drop;
    assert r in ranges;
  }

  /** A range with pages is apart from all others, and no other is equal to it. */
  lemma LooseApart(ranges: seq<Range>, a: nat, n: int, k: nat, i: nat)
    requires Loose(ranges, a, n, k) && k <= i < |ranges|
    ensures ranges[i].first <= ranges[i].last < n
    ensures forall x :: x in Drop(ranges, i) ==>
              if x.first > x.last then x.first == n && x.last == n - 1
              else x.last < ranges[i].first || ranges[i].last < x.first
  {
    DropIndex(ranges, i);
    hide Drop;
  }

  lemma DropThen(ranges: seq<Range>, i: nat)
    requires i < |ranges|
    ensures forall x :: x in ranges <==> x == ranges[i] || x in Drop(ranges, i)
  {
  }

  lemma MergeOrder(s: State, a: nat, n: int, k: nat, i: nat, first: int, last: int,
                   after: seq<Range>, lru': seq<Range>, lo: int, hi: int, marked: bool)
    requires Stock(s) && a in s.areas && Loose(Ranges(s, a), a, n, k) && k <= i < |Ranges(s, a)|
    requires 0 <= first <= last < n
    requires Ranges(s, a)[i].Meets(first, last) && !Ranges(s, a)[i].Subsumes(first, last)
    requires var r, u := Ranges(s, a)[i], RangeDel(s, a, i);
             UnpinnedOrder(Drop(Ranges(s, a), i), after, u.lru, lru', a, Min(r.first, first), Max(r.last, last), lo, hi,
                           marked)
    ensures UnpinnedOrder(Ranges(s, a), after, s.lru, lru', a, first, last, lo, hi, marked)
  {
    var r, u := Ranges(s, a)[i], RangeDel(s, a, i);
    MergedOne(Ranges(s, a), a, n, k, i, first, last);
    DelStock(s, a, i);
    DelList(s, a, i);
    WithoutMerged(s, a, i, first, last, Min(r.first, first), Max(r.last, last));
    hide RangeDel, Loose, Covered, InHull, InsideOne, Overlaps, Stock, Drop, Paged, Without;
  }

  /** Taking the range off and then those that overlap the larger interval is taking off those that
      overlap the request. */
  lemma WithoutMerged(s: State, a: nat, i: nat, first: int, last: int, lo: int, hi: int)
    requires Stock(s) && a in s.areas && i < |Ranges(s, a)| && Overlaps(Ranges(s, a)[i], first, last)
    requires Stock(RangeDel(s, a, i)) && Ranges(s, a)[i].area == a
    requires a in RangeDel(s, a, i).areas && Ranges(RangeDel(s, a, i), a) == Drop(Ranges(s, a), i)
    requires forall x :: x in Drop(Ranges(s, a), i) ==> (Overlaps(x, first, last) <==> Overlaps(x, lo, hi))
    ensures Without(Paged(RangeDel(s, a, i).lru), a, lo, hi) == Without(Paged(s.lru), a, first, last)
  {
    var r, u := Ranges(s, a)[i], RangeDel(s, a, i);
    var front, back := DelPaged(s, a, i);
    PagedMembers(u.lru);
    forall x | x in Paged(u.lru) && x.area == a
      ensures Overlaps(x, first, last) <==> Overlaps(x, lo, hi)
    {
      OnList(u, x);
    }
    hide RangeDel, Stock, Paged, Overlaps, Drop;
    WithoutSame(Paged(u.lru), a, first, last, lo, hi);
    var mid := if r.first <= r.last && !r.purged then [r] else [];
    WithoutConcat(front, back, a, first, last);
    WithoutConcat(front + mid, back, a, first, last);
    WithoutConcat(front, mid, a, first, last);
    WithoutOne(r, a, first, last);
    hide Without;
  }

  /** A range without pages is merged: nothing changes. */
  lemma EmptyMergeOrder(s: State, a: nat, n: int, k: nat, i: nat, first: int, last: int,
                        after: seq<Range>, lru': seq<Range>, lo: int, hi: int, marked: bool)
    requires Stock(s) && a in s.areas && Loose(Ranges(s, a), a, n, k) && i < k && 0 <= first <= last < n
    requires UnpinnedOrder(Drop(Ranges(s, a), i), after, RangeDel(s, a, i).lru, lru', a, first, last, lo, hi, marked)
    ensures UnpinnedOrder(Ranges(s, a), after, s.lru, lru', a, first, last, lo, hi, marked)
  {
    var ranges := Ranges(s, a);
    var front, back := DelPaged(s, a, i);
    assert ranges[i].first == n && ranges[i].last == n - 1;
    assert front + [] + back == front + back;
    EmptyDropped(ranges, n, i, first, last);
    hide RangeDel, Loose, Covered, Stock, Drop, Paged, Without, InsideOne, InHull;
  }

  lemma EmptyDropped(ranges: seq<Range>, n: int, i: nat, first: int, last: int)
    requires i < |ranges| && ranges[i].first == n && ranges[i].last == n - 1 && first <= last < n
    ensures InsideOne(ranges, first, last) <==> InsideOne(Drop(ranges, i), first, last)
    ensures forall p :: InHull(ranges, first, last, p) <==> InHull(Drop(ranges, i), first, last, p)
  {
    DropThen(ranges, i);
    hide Drop;
  }

  lemma {:induction false} UnpinFromOrder(s: State, a: nat, n: int, k: nat, i: nat, first: int, last: int, mark: bool)
    returns (lo: int, hi: int, marked: bool)
    requires Stock(s) && a in s.areas && Loose(Ranges(s, a), a, n, k) && i <= |Ranges(s, a)|
    requires 0 <= first <= last < n
    requires forall j :: 0 <= j < i ==> Ranges(s, a)[j].first > last
    ensures var t := UnpinFrom(s, a, i, first, last, mark);
            && a in t.areas
            && UnpinnedOrder(Ranges(s, a), Ranges(t, a), s.lru, t.lru, a, first, last, lo, hi, marked)
    decreases |Ranges(s, a)|, |Ranges(s, a)| - i
  {
    hide RangeDel, RangeAlloc, UnpinnedOrder, Stock;
    var ranges := Ranges(s, a);
    lo, hi, marked := first, last, mark;
    if i == |ranges| || ranges[i].last < first {
      StopsBehind(ranges, a, n, k, i, first);
      AllocOrder(s, a, n, k, i, first, last, mark);
    } else if ranges[i].Subsumes(first, last) {
      InsideOrder(ranges, i, s.lru, a, first, last, lo, hi, marked);
    } else if ranges[i].Meets(first, last) {
      var r, u := ranges[i], RangeDel(s, a, i);
      DelStock(s, a, i);
      DelList(s, a, i);
      LooseDrop(ranges, a, n, k, i);
      Hull(ranges, a, n, k, i, first, last);
      MergedLow(ranges, a, n, k, i, first, last);
      var lo', hi' := Min(r.first, first), Max(r.last, last);
      DropIndex(ranges, i);
      lo, hi, marked := UnpinFromOrder(u, a, n, if i < k then k - 1 else k, 0, lo', hi', mark || r.purged);
      var t := UnpinFrom(u, a, 0, lo', hi', mark || r.purged);
      if i < k {
        EmptyMergeOrder(s, a, n, k, i, first, last, Ranges(t, a), t.lru, lo, hi, marked);
      } else {
        MergeOrder(s, a, n, k, i, first, last, Ranges(t, a), t.lru, lo, hi, marked);
      }
    } else {
      PassedAbove(ranges, a, n, k, i, first, last);
      lo, hi, marked := UnpinFromOrder(s, a, n, k, i + 1, first, last, mark);
    }
  }

  lemma InsideOrder(ranges: seq<Range>, i: nat, lru: seq<Range>, a: nat, first: int, last: int, lo: int, hi: int,
                    marked: bool)
    requires i < |ranges| && ranges[i].Subsumes(first, last)
    ensures UnpinnedOrder(ranges, ranges, lru, lru, a, first, last, lo, hi, marked)
  {
    assert ranges[i] in ranges;
  }

  // ---------------------------------------------------------------- unpinning a consistent state

  lemma {:induction false} DistinctBag(xs: seq<Range>, x: Range)
    requires Distinct(xs)
    ensures multiset(xs)[x] == if x in xs then 1 else 0
    decreases |xs|
  {
    if xs != [] {
      assert xs == [xs[0]] + xs[1..];
      assert forall i, j :: 0 <= i < j < |xs[1..]| ==> xs[1..][i] != xs[1..][j];
      DistinctBag(xs[1..], x);
      assert forall i :: 0 <= i < |xs[1..]| ==> xs[1..][i] == xs[i + 1];
    }
  }

  lemma InvStock(s: State)
    requires Inv(s)
    ensures Stock(s)
  {
    forall r
      ensures multiset(s.lru)[r] == Copies(s.areas, r)
    {
      DistinctBag(s.lru, r);
      if r.area in s.areas {
        DescendingDistinct(s.areas[r.area].ranges, r.area);
        DistinctBag(s.areas[r.area].ranges, r);
      }
    }
  }

  /** A descending list lies below some page. */
  lemma InvLoose(s: State, a: nat, above: int) returns (n: int)
    requires Inv(s) && a in s.areas
    ensures n >= above && Loose(Ranges(s, a), a, n, 0)
  {
    ListDescends(s, a);
    var ranges := Ranges(s, a);
    n := if ranges != [] && ranges[0].last + 1 > above then ranges[0].last + 1 else above;
  }

  lemma InvPaged(s: State)
    requires Inv(s)
    ensures Paged(s.lru) == s.lru
  {
    forall r | r in s.lru
      ensures r.first <= r.last
    {
      LruMember(s, r);
    }
    PagedAll(s.lru);
  }

  /** Where one range holds the whole request, the loop stops there. */
  lemma {:induction false} InsideStays(s: State, a: nat, i: nat, j: nat, first: int, last: int)
    requires Inv(s) && a in s.areas && i <= j < |Ranges(s, a)| && first <= last
    requires Ranges(s, a)[j].Subsumes(first, last)
    ensures UnpinFrom(s, a, i, first, last, false) == s
    decreases j - i
  {
    ListDescends(s, a);
    hide Inv, RangeAlloc, RangeDel;
    if i < j {
      InsideStays(s, a, i + 1, j, first, last);
    }
  }

  /** `ashmem_unpin` and the LRU list: a request inside one range changes nothing.  Any other takes
      off the ranges of the area that overlap it, and puts the one range that holds all their pages and
      its own at the end, unless one of its pages was in a marked range; the others stay in order. */
  lemma UnpinOrder(s: State, a: nat, first: int, last: int) returns (lo: int, hi: int)
    requires Inv(s) && a in s.areas && 0 <= first <= last
    ensures (exists r :: r in Ranges(s, a) && r.first <= first && last <= r.last) ==> Unpin(s, a, first, last) == s
    ensures !(exists r :: r in Ranges(s, a) && r.first <= first && last <= r.last) ==>
              && (forall p :: lo <= p <= hi <==> InHull(Ranges(s, a), first, last, p))
              && Unpin(s, a, first, last).lru ==
                 Without(s.lru, a, first, last)
                 + if AnyCovered(Ranges(s, a), first, last, true) then [] else [Range(a, lo, hi, false)]
  {
    var t := Unpin(s, a, first, last);
    InvStock(s);
    var n := InvLoose(s, a, last + 1);
    var marked;
    lo, hi, marked := UnpinFromOrder(s, a, n, 0, 0, first, last, false);
    UnpinEffect(s, a, first, last);
    InvPaged(s);
    InvPaged(t);
    if j :| 0 <= j < |Ranges(s, a)| && Ranges(s, a)[j].Subsumes(first, last) {
      InsideStays(s, a, 0, j, first, last);
    } else {
      NotInside(Ranges(s, a), first, last);
      MarkIsAny(Ranges(s, a), Ranges(t, a), first, last);
    }
    hide UnpinFrom, Inv, Stock, Loose, Joined, Paged, Without, InHull, Covered;
  }

  lemma NotInside(ranges: seq<Range>, first: int, last: int)
    requires forall j :: 0 <= j < |ranges| ==> !ranges[j].Subsumes(first, last)
    ensures !InsideOne(ranges, first, last)
    ensures !exists r :: r in ranges && r.first <= first && last <= r.last
  {
  }

  lemma MarkIsAny(before: seq<Range>, after: seq<Range>, first: int, last: int)
    requires first <= last && MarksJoined(before, after, first, last, false)
    ensures Covered(after, first, true) <==> AnyCovered(before, first, last, true)
  {
  }

  // ---------------------------------------------------------------- pinning

  /** A range on the LRU list with pages on both sides of the interval. */
  predicate Splits(r: Range, first: int, last: int) { !r.purged && r.first < first && last < r.last }

  /** The part above the interval of the range that the interval splits, if there is one. */
  ghost predicate TopPart(ranges: seq<Range>, a: nat, first: int, last: int, top: seq<Range>) {
    if exists r :: r in ranges && Splits(r, first, last)
    then exists r :: r in ranges && Splits(r, first, last) && top == [Range(a, last + 1, r.last, false)]
    else top == []
  }

  /** What the pin loop does to the ranges with pages on the LRU list. */
  ghost predicate PinnedOrder(ranges: seq<Range>, lru: seq<Range>, lru': seq<Range>, a: nat, first: int, last: int,
                              top: seq<Range>)
  {
    TopPart(ranges, a, first, last, top) && Paged(lru') == Pieces(Paged(lru), a, first, last) + top
  }

  /** Changing the bounds of a range: it keeps its place on the LRU list. */
  lemma ShrinkPaged(s: State, a: nat, i: nat, first: int, last: int) returns (front: seq<Range>, back: seq<Range>)
    requires Stock(s) && a in s.areas && i < |Ranges(s, a)| && first <= last
    requires Ranges(s, a)[i].first <= Ranges(s, a)[i].last
    ensures var r := Ranges(s, a)[i];
            && Paged(s.lru) == front + (if r.purged then [] else [r]) + back
            && Paged(RangeShrink(s, a, i, first, last).lru) ==
               front + (if r.purged then [] else [r.(first := first, last := last)]) + back
  {
    var r := Ranges(s, a)[i];
    if r.purged {
      front, back := Paged(s.lru), [];
    } else {
      InStock(s, a, i);
      var k, r' := Find(s.lru, r), r.(first := first, last := last);
      PagedDrop(s.lru, k);
      PagedUpdate(s.lru, k, r');
      PagedOne(r);
      PagedOne(r');
      front, back := Paged(s.lru[..k]), Paged(s.lru[k + 1..]);
    }
  }

  lemma PiecesAround(front: seq<Range>, mid: seq<Range>, back: seq<Range>, a: nat, first: int, last: int)
    ensures Pieces(front + mid + back, a, first, last) ==
            Pieces(front, a, first, last) + Pieces(mid, a, first, last) + Pieces(back, a, first, last)
  {
    PiecesConcat(front + mid, back, a, first, last);
    PiecesConcat(front, mid, a, first, last);
    hide Pieces;
  }

  /** Cutting a range down to its piece. */
  lemma CutPieces(s: State, a: nat, i: nat, first: int, last: int, lo: int, hi: int)
    requires Stock(s) && a in s.areas && i < |Ranges(s, a)| && first <= last && lo <= hi
    requires var r := Ranges(s, a)[i];
             && r.area == a && r.first <= r.last
             && Piece(r, a, first, last) == [r.(first := lo, last := hi)] && (hi < first || last < lo)
    ensures Pieces(Paged(RangeShrink(s, a, i, lo, hi).lru), a, first, last) == Pieces(Paged(s.lru), a, first, last)
  {
    var r := Ranges(s, a)[i];
    var r' := r.(first := lo, last := hi);
    var front, back := ShrinkPaged(s, a, i, lo, hi);
    PiecesAround(front, if r.purged then [] else [r], back, a, first, last);
    PiecesAround(front, if r.purged then [] else [r'], back, a, first, last);
    PiecesOne(r, a, first, last);
    PiecesOne(r', a, first, last);
    assert Piece(r', a, first, last) == [r'];
    hide Pieces, Paged, RangeShrink, Piece;
  }

  /** Deleting a range that lies in the interval. */
  lemma DelPieces(s: State, a: nat, i: nat, first: int, last: int)
    requires Stock(s) && a in s.areas && i < |Ranges(s, a)| && Ranges(s, a)[i].area == a
    requires Ranges(s, a)[i].Within(first, last) && first <= last
    ensures Pieces(Paged(RangeDel(s, a, i).lru), a, first, last) == Pieces(Paged(s.lru), a, first, last)
  {
    var front, back := DelPaged(s, a, i);
    hide Paged, RangeDel, Stock;
    PiecesLost(front, Ranges(s, a)[i], back, a, first, last);
  }

  /** A range inside the interval has no pieces. */
  lemma PiecesLost(front: seq<Range>, r: Range, back: seq<Range>, a: nat, first: int, last: int)
    requires r.area == a && r.Within(first, last) && first <= last
    ensures Pieces(front + (if r.first <= r.last && !r.purged then [r] else []) + back, a, first, last) ==
            Pieces(front + back, a, first, last)
  {
    if r.first <= r.last && !r.purged {
      PiecesAround(front, [r], back, a, first, last);
      PiecesConcat(front, back, a, first, last);
      PiecesOne(r, a, first, last);
      assert Pieces(front, a, first, last) + [] == Pieces(front, a, first, last);
    } else {
      assert front + [] == front;
    }
    hide Pieces;
  }

  /** When nothing overlaps the interval any more the list is its own pieces. */
  lemma PiecesDone(s: State, a: nat, first: int, last: int)
    requires Stock(s) && a in s.areas && forall r :: r in Ranges(s, a) ==> !Overlaps(r, first, last)
    ensures Pieces(Paged(s.lru), a, first, last) == Paged(s.lru)
  {
    PagedMembers(s.lru);
    forall r | r in Paged(s.lru) && r.area == a
      ensures !Overlaps(r, first, last)
    {
      OnList(s, r);
    }
    hide Paged, Overlaps, Stock;
    PiecesNone(Paged(s.lru), a, first, last);
  }

  /** The loop has come to its end. */
  lemma PinEndOrder(s: State, a: nat, n: int, k: nat, i: nat, first: int, last: int)
    requires Stock(s) && a in s.areas && Loose(Ranges(s, a), a, n, k) && i <= |Ranges(s, a)|
    requires first <= last && first < n && ApartFrom(Ranges(s, a), i, first, last)
    requires i < |Ranges(s, a)| ==> Ranges(s, a)[i].last < first
    ensures PinnedOrder(Ranges(s, a), s.lru, s.lru, a, first, last, [])
  {
    forall r | r in Ranges(s, a)
      ensures !Overlaps(r, first, last) && !Splits(r, first, last)
    {
    }
    hide Loose, Stock, Paged, Pieces;
    PiecesDone(s, a, first, last);
    assert Paged(s.lru) + [] == Paged(s.lru);
  }

  /** The next step of the loop does the rest. */
  lemma PinStepOrder(s: State, u: State, a: nat, first: int, last: int, lru': seq<Range>, top: seq<Range>)
    requires a in s.areas && a in u.areas && PinnedOrder(Ranges(u, a), u.lru, lru', a, first, last, top)
    requires Pieces(Paged(u.lru), a, first, last) == Pieces(Paged(s.lru), a, first, last)
    requires forall r :: Splits(r, first, last) ==> (r in Ranges(u, a) <==> r in Ranges(s, a))
    ensures PinnedOrder(Ranges(s, a), s.lru, lru', a, first, last, top)
  {
    hide Pieces, Paged, Splits;
  }

  lemma UpdateKeeps(ranges: seq<Range>, i: nat, x: Range, first: int, last: int)
    requires i < |ranges| && !Splits(ranges[i], first, last) && !Splits(x, first, last)
    ensures forall r :: Splits(r, first, last) ==> (r in ranges[i := x] <==> r in ranges)
  {
    var xs := ranges[i := x];
    forall r | Splits(r, first, last)
      ensures r in xs <==> r in ranges
    {
      if r in ranges {
        var j :| 0 <= j < |ranges| && ranges[j] == r;
        assert xs[j] == r;
      }
    }
  }

  /** Cutting a hole: the upper part is the youngest range, the lower part keeps the place. */
  lemma HoleOrder(s: State, a: nat, n: int, k: nat, i: nat, first: int, last: int)
    requires Stock(s) && a in s.areas && Loose(Ranges(s, a), a, n, k) && i < |Ranges(s, a)|
    requires Ranges(s, a)[i].first < first <= last < Ranges(s, a)[i].last
    ensures var r := Ranges(s, a)[i];
            var u := RangeAlloc(s, a, i, r.purged, last + 1, r.last);
            && a in u.areas && i + 1 < |Ranges(u, a)|
            && PinnedOrder(Ranges(s, a), s.lru, RangeShrink(u, a, i + 1, r.first, first - 1).lru, a, first, last,
                           if r.purged then [] else [Range(a, last + 1, r.last, false)])
  {
    var r := Ranges(s, a)[i];
    var u := RangeAlloc(s, a, i, r.purged, last + 1, r.last);
    var w := RangeShrink(u, a, i + 1, r.first, first - 1);
    HoleLists(s, a, i, first, last);
    HoleApart(Ranges(s, a), a, n, k, i, first, last);
    hide *;
    HoleStock(s, a, i, first, last);
    HoleCut(u, a, i + 1, first, last, r);
    HoleAlloc(s, a, i, first, last);
    PiecesDone(w, a, first, last);
    HoleTop(Ranges(s, a), a, i, first, last);
    HoleOrdered(Ranges(s, a), s.lru, w.lru, a, first, last,
                if r.purged then [] else [Range(a, last + 1, r.last, false)]);
  }

  lemma HoleOrdered(ranges: seq<Range>, lru: seq<Range>, lru': seq<Range>, a: nat, first: int, last: int,
                    top: seq<Range>)
    requires TopPart(ranges, a, first, last, top)
    requires Pieces(Paged(lru'), a, first, last) == Paged(lru')
    requires Pieces(Paged(lru'), a, first, last) == Pieces(Paged(lru), a, first, last) + top
    ensures PinnedOrder(ranges, lru, lru', a, first, last, top)
  {
    hide TopPart, Pieces, Paged;
  }

  lemma HoleLists(s: State, a: nat, i: nat, first: int, last: int)
    requires a in s.areas && i < |Ranges(s, a)|
    ensures var r := Ranges(s, a)[i];
            var u := RangeAlloc(s, a, i, r.purged, last + 1, r.last);
            var w := RangeShrink(u, a, i + 1, r.first, first - 1);
            && a in u.areas && i + 1 < |Ranges(u, a)| && Ranges(u, a)[i + 1] == r && a in w.areas
            && Ranges(w, a) ==
               Insert(Ranges(s, a), i, Range(a, last + 1, r.last, r.purged))[i + 1 := r.(last := first - 1)]
  {
    var r := Ranges(s, a)[i];
    HoleFrame(s, a, i, first, last);
    AllocList(s, a, i, r.purged, last + 1, r.last);
    InsertIndex(Ranges(s, a), i, Range(a, last + 1, r.last, r.purged));
    hide RangeAlloc, RangeShrink, OnlyArea, Insert;
  }

  lemma HoleStock(s: State, a: nat, i: nat, first: int, last: int)
    requires Stock(s) && a in s.areas && i < |Ranges(s, a)|
    requires var r := Ranges(s, a)[i];
             var u := RangeAlloc(s, a, i, r.purged, last + 1, r.last);
             a in u.areas && i + 1 < |Ranges(u, a)|
    ensures var r := Ranges(s, a)[i];
            var u := RangeAlloc(s, a, i, r.purged, last + 1, r.last);
            Stock(u) && Stock(RangeShrink(u, a, i + 1, r.first, first - 1))
  {
    var r := Ranges(s, a)[i];
    hide *;
    AllocStock(s, a, i, r.purged, last + 1, r.last);
    ShrinkStock(RangeAlloc(s, a, i, r.purged, last + 1, r.last), a, i + 1, r.first, first - 1);
  }

  lemma HoleCut(u: State, a: nat, i: nat, first: int, last: int, r: Range)
    requires Stock(u) && a in u.areas && i < |Ranges(u, a)| && Ranges(u, a)[i] == r && r.area == a
    requires r.first < first <= last < r.last
    ensures Pieces(Paged(RangeShrink(u, a, i, r.first, first - 1).lru), a, first, last) ==
            Pieces(Paged(u.lru), a, first, last)
  {
    hide Stock, Pieces, Paged, RangeShrink;
    CutPieces(u, a, i, first, last, r.first, first - 1);
  }

  /** The range with the hole is the only one the interval overlaps. */
  lemma HoleApart(ranges: seq<Range>, a: nat, n: int, k: nat, i: nat, first: int, last: int)
    requires Loose(ranges, a, n, k) && i < |ranges| && ranges[i].first < first <= last < ranges[i].last
    ensures ranges[i].area == a && ranges[i].first <= ranges[i].last && i >= k
    ensures forall j :: 0 <= j < |ranges| && j != i ==> !Overlaps(ranges[j], first, last)
    ensures var x, low := Range(a, last + 1, ranges[i].last, ranges[i].purged), ranges[i].(last := first - 1);
            forall r :: r in Insert(ranges, i, x)[i + 1 := low] ==> !Overlaps(r, first, last)
    ensures forall r :: r in ranges && Splits(r, first, last) ==> r == ranges[i]
  {
    var x, low := Range(a, last + 1, ranges[i].last, ranges[i].purged), ranges[i].(last := first - 1);
    ReplaceShapes(ranges, i, low, x);
    assert forall j :: 0 <= j < |ranges| && j != i ==>
             !Overlaps(ranges[j], first, last) && !Splits(ranges[j], first, last);
    hide Loose, Insert, Overlaps;
    assert !Overlaps(x, first, last) && !Overlaps(low, first, last) by { PartsApart(ranges[i], x, low, first, last); }
    forall r | r in ranges[..i] + [x, low] + ranges[i + 1..]
      ensures !Overlaps(r, first, last)
    {
    }
  }

  lemma PartsApart(r: Range, x: Range, low: Range, first: int, last: int)
    requires x.first == last + 1 && low.last == first - 1
    ensures !Overlaps(x, first, last) && !Overlaps(low, first, last)
  {
  }

  lemma HoleAlloc(s: State, a: nat, i: nat, first: int, last: int)
    requires a in s.areas && i < |Ranges(s, a)| && last < Ranges(s, a)[i].last
    ensures var r := Ranges(s, a)[i];
            Pieces(Paged(RangeAlloc(s, a, i, r.purged, last + 1, r.last).lru), a, first, last) ==
            Pieces(Paged(s.lru), a, first, last) + if r.purged then [] else [Range(a, last + 1, r.last, false)]
  {
    var r := Ranges(s, a)[i];
    var x := Range(a, last + 1, r.last, false);
    if r.purged {
      assert Pieces(Paged(s.lru), a, first, last) + [] == Pieces(Paged(s.lru), a, first, last);
    } else {
      PagedConcat(s.lru, [x]);
      PagedOne(x);
      PiecesConcat(Paged(s.lru), [x], a, first, last);
      PiecesOne(x, a, first, last);
    }
  }

  lemma HoleTop(ranges: seq<Range>, a: nat, i: nat, first: int, last: int)
    requires i < |ranges| && ranges[i].first < first <= last < ranges[i].last
    requires forall r :: r in ranges && Splits(r, first, last) ==> r == ranges[i]
    ensures TopPart(ranges, a, first, last,
                    if ranges[i].purged then [] else [Range(a, last + 1, ranges[i].last, false)])
  {
    assert ranges[i] in ranges;
    assert Splits(ranges[i], first, last) <==> !ranges[i].purged;
  }

  lemma {:induction false} PinFromOrder(s: State, a: nat, n: int, k: nat, i: nat, first: int, last: int, was: bool)
    returns (top: seq<Range>)
    requires Stock(s) && a in s.areas && Loose(Ranges(s, a), a, n, k) && i <= |Ranges(s, a)|
    requires first <= last && first < n && ApartFrom(Ranges(s, a), i, first, last)
    ensures var t := PinFrom(s, a, i, first, last, was).0;
            PinnedOrder(Ranges(s, a), s.lru, t.lru, a, first, last, top)
    decreases |Ranges(s, a)| - i
  {
    hide RangeDel, RangeAlloc, RangeShrink, PinnedOrder, Stock;
    var ranges := Ranges(s, a);
    top := [];
    if i == |ranges| || ranges[i].last < first {
      PinEndOrder(s, a, n, k, i, first, last);
    } else {
      var r := ranges[i];
      if !r.Meets(first, last) {
        top := PinFromOrder(s, a, n, k, i + 1, first, last, was);
      } else if r.Within(first, last) {
        var u := RangeDel(s, a, i);
        DelStock(s, a, i);
        DelList(s, a, i);
        DelPieces(s, a, i, first, last);
        LooseDrop(ranges, a, n, k, i);
        DropThen(ranges, i);
        DropIndex(ranges, i);
        top := PinFromOrder(u, a, n, if i < k then k - 1 else k, i, first, last, was || r.purged);
        PinStepOrder(s, u, a, first, last, PinFrom(s, a, i, first, last, was).0.lru, top);
      } else if r.first >= first {
        top := PinCutOrder(s, a, n, k, i, first, last, last + 1, r.last, was);
      } else if r.last <= last {
        top := PinCutOrder(s, a, n, k, i, first, last, r.first, first - 1, was);
      } else {
        HoleOrder(s, a, n, k, i, first, last);
        top := if r.purged then [] else [Range(a, last + 1, r.last, false)];
      }
    }
  }

  lemma {:induction false} PinCutOrder(s: State, a: nat, n: int, k: nat, i: nat, first: int, last: int, lo: int,
                                       hi: int, was: bool)
    returns (top: seq<Range>)
    requires Stock(s) && a in s.areas && Loose(Ranges(s, a), a, n, k) && i < |Ranges(s, a)|
    requires first <= last && first < n && ApartFrom(Ranges(s, a), i, first, last)
    requires var r := Ranges(s, a)[i];
             && r.Meets(first, last) && !r.Within(first, last) && r.last >= first
             && if r.first >= first then lo == last + 1 && hi == r.last
                else r.last <= last && lo == r.first && hi == first - 1
    ensures var t := PinFrom(s, a, i, first, last, was).0;
            PinnedOrder(Ranges(s, a), s.lru, t.lru, a, first, last, top)
    decreases |Ranges(s, a)| - i, 0
  {
    hide RangeDel, RangeAlloc, RangeShrink, PinnedOrder, Stock;
    var ranges := Ranges(s, a);
    var r := ranges[i];
    var u := RangeShrink(s, a, i, lo, hi);
    ShrinkStock(s, a, i, lo, hi);
    ShrinkFrame(s, a, i, lo, hi);
    CutFacts(ranges, a, n, k, i, first, last, lo, hi);
    CutPieces(s, a, i, first, last, lo, hi);
    UpdateKeeps(ranges, i, r.(first := lo, last := hi), first, last);
    hide OnlyArea, Loose;
    top := PinFromOrder(u, a, n, k, i + 1, first, last, was || r.purged);
    PinStepOrder(s, u, a, first, last, PinFrom(s, a, i, first, last, was).0.lru, top);
  }

  lemma CutFacts(ranges: seq<Range>, a: nat, n: int, k: nat, i: nat, first: int, last: int, lo: int, hi: int)
    requires Loose(ranges, a, n, k) && i < |ranges| && first <= last && first < n
    requires ApartFrom(ranges, i, first, last)
    requires var r := ranges[i];
             && r.Meets(first, last) && !r.Within(first, last) && r.last >= first
             && if r.first >= first then lo == last + 1 && hi == r.last
                else r.last <= last && lo == r.first && hi == first - 1
    ensures var r := ranges[i]; var x := r.(first := lo, last := hi);
            && r.area == a && r.first <= r.last && lo <= hi && (hi < first || last < lo)
            && Piece(r, a, first, last) == [x] && !Splits(r, first, last) && !Splits(x, first, last)
            && Loose(ranges[i := x], a, n, k) && ApartFrom(ranges[i := x], i + 1, first, last)
  {
  }

  /** `ashmem_pin` and the LRU list: every range keeps its place with the part below the interval, or
      else with the part above it, or leaves; the upper part of a range that the interval splits goes
      to the end. */
  lemma PinOrder(s: State, a: nat, first: int, last: int) returns (top: seq<Range>)
    requires Inv(s) && a in s.areas && first <= last
    ensures Pin(s, a, first, last).0.lru == Pieces(s.lru, a, first, last) + top
    ensures TopPart(Ranges(s, a), a, first, last, top)
  {
    InvStock(s);
    var n := InvLoose(s, a, first + 1);
    top := PinFromOrder(s, a, n, 0, 0, first, last, false);
    PinEffect(s, a, first, last);
    InvPaged(s);
    InvPaged(Pin(s, a, first, last).0);
    hide PinFrom, Inv, Stock, Loose, Pieces, Paged;
  }

  // ---------------------------------------------------------------- releasing an area

  lemma {:induction false} DelAllOrder(s: State, a: nat)
    requires Stock(s) && a in s.areas
    ensures var t := DelAll(s, a); Stock(t) && a in t.areas && Ranges(t, a) == []
    ensures Others(DelAll(s, a).lru, a) == Others(s.lru, a)
    decreases |Ranges(s, a)|
  {
    if Ranges(s, a) != [] {
      var u := RangeDel(s, a, 0);
      DelStock(s, a, 0);
      DelList(s, a, 0);
      DropIndex(Ranges(s, a), 0);
      DelOthers(s, a);
      hide RangeDel, Stock, Others;
      DelAllOrder(u, a);
    }
  }

  lemma DelOthers(s: State, a: nat)
    requires Stock(s) && a in s.areas && Ranges(s, a) != []
    ensures Others(RangeDel(s, a, 0).lru, a) == Others(s.lru, a)
  {
    var r := Ranges(s, a)[0];
    assert r.area == a;
    if !r.purged {
      InStock(s, a, 0);
      OthersDrop(s.lru, Find(s.lru, r), a);
    }
  }

  lemma OthersDrop(lru: seq<Range>, k: nat, a: nat)
    requires k < |lru| && lru[k].area == a
    ensures Others(Drop(lru, k), a) == Others(lru, a)
  {
    OthersOne(lru[k], a);
    hide *;
    TakenApart(lru, k);
    OthersConcat(lru[..k], lru[k + 1..], a);
    OthersConcat(lru[..k] + [lru[k]], lru[k + 1..], a);
    OthersConcat(lru[..k], [lru[k]], a);
    assert Others(lru[..k], a) + [] == Others(lru[..k], a);
  }

  lemma OthersOne(r: Range, a: nat)
    requires r.area == a
    ensures Others([r], a) == []
  {
    assert [r][1..] == [];
  }

  /** `ashmem_release`: the ranges of the other areas stay on the LRU list, in order. */
  lemma ReleaseOrder(s: State, a: nat)
    requires Stock(s) && a in s.areas
    ensures Release(s, a).lru == Others(s.lru, a)
  {
    var t := DelAll(s, a);
    DelAllOrder(s, a);
    forall r | r in t.lru
      ensures r.area != a
    {
      OnList(t, r);
    }
    hide DelAll, Stock;
    OthersNone(t.lru, a);
  }
}
