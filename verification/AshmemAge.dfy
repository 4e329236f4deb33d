/** When the range of a page came on the LRU list, told from the requests alone, and that the shrinker
  takes pages in that order over every run. */
module AshmemAge {
  import opened AshmemModel
  import opened AshmemLists
  import opened AshmemOps
  import opened AshmemUnpin
  import opened AshmemShrink
  import opened AshmemTheory
  import opened AshmemLoose
  import opened AshmemRuns
  import opened AshmemOrder

  /** For every page the moment from which on its range is on the LRU list. */
  type Times = ((nat, int)) -> nat

  /** An unpin request that is not inside one range makes all pages it joins young. */
  ghost function UnpinTimes(ranges: seq<Range>, a: nat, first: int, last: int, since: Times, now: nat): Times {
    (x: (nat, int)) =>
      if x.0 == a && !InsideOne(ranges, first, last) && InHull(ranges, first, last, x.1) then now else since(x)
  }

  /** A pin request that splits a range makes the pages above it young. */
  ghost function PinTimes(ranges: seq<Range>, a: nat, first: int, last: int, since: Times, now: nat): Times {
    (x: (nat, int)) =>
      if x.0 == a && last < x.1 && exists r :: r in ranges && r.first < first && r.Holds(x.1) then now else since(x)
  }

  /** Nothing else changes a page's time. */
  ghost function TimesAfter(s: State, m: Move, since: Times, now: nat): Times {
    if m.Call? && m.op.Request? && Granted(s, m.op).Interval? then
      var a, first, last := m.op.area, Granted(s, m.op).first, Granted(s, m.op).last;
      match m.op.cmd
      case CmdPin => PinTimes(Ranges(s, a), a, first, last, since, now)
      case CmdUnpin => UnpinTimes(Ranges(s, a), a, first, last, since, now)
      case CmdStatus => since
    else since
  }

  // ---------------------------------------------------------------- lists in order of time

  ghost predicate Young(r: Range, since: Times, now: nat) {
    forall p :: r.Holds(p) ==> since((r.area, p)) < now
  }

  /** All pages of the range came on the list before all pages of the others. */
  ghost predicate Older(r: Range, rest: seq<Range>, since: Times) {
    forall x, p, q :: x in rest && r.Holds(p) && x.Holds(q) ==> since((r.area, p)) < since((x.area, q))
  }

  ghost predicate InOrder(lru: seq<Range>, since: Times, now: nat)
    decreases |lru|
  {
    lru == [] || (Young(lru[0], since, now) && Older(lru[0], lru[1..], since) && InOrder(lru[1..], since, now))
  }

  lemma {:induction false} PagedInOrder(lru: seq<Range>, since: Times, now: nat)
    ensures InOrder(Paged(lru), since, now) <==> InOrder(lru, since, now)
    decreases |lru|
  {
    if lru != [] {
      PagedInOrder(lru[1..], since, now);
      PagedMembers(lru[1..]);
      var rest := Paged(lru[1..]);
      assert ([lru[0]] + rest)[1..] == rest;
      assert [] + rest == rest;
    }
  }

  lemma {:induction false} WithoutInOrder(lru: seq<Range>, a: nat, first: int, last: int, since: Times, now: nat)
    requires InOrder(lru, since, now)
    ensures InOrder(Without(lru, a, first, last), since, now)
    ensures forall r :: r in Without(lru, a, first, last) ==> r in lru && !(r.area == a && Overlaps(r, first, last))
    decreases |lru|
  {
    if lru != [] {
      WithoutInOrder(lru[1..], a, first, last, since, now);
      var rest := Without(lru[1..], a, first, last);
      assert ([lru[0]] + rest)[1..] == rest;
      assert [] + rest == rest;
    }
  }

  /** The range is part of the other. */
  predicate PartOf(x: Range, r: Range) { x.area == r.area && r.first <= x.first && x.last <= r.last }

  lemma {:induction false} PiecesInOrder(lru: seq<Range>, a: nat, first: int, last: int, since: Times, now: nat)
    requires InOrder(lru, since, now) && first <= last
    ensures InOrder(Pieces(lru, a, first, last), since, now)
    ensures FromParts(Pieces(lru, a, first, last), lru, a, first, last)
    decreases |lru|
  {
    if lru != [] {
      var rest := Pieces(lru[1..], a, first, last);
      hide Pieces, Piece, Young, Older, FromParts;
      PiecesInOrder(lru[1..], a, first, last, since, now);
      FirstPiece(lru, rest, a, first, last, since, now);
    } else {
      hide Piece;
    }
  }

  /** Every range of the list is a piece of a range of the other. */
  ghost predicate FromParts(xs: seq<Range>, lru: seq<Range>, a: nat, first: int, last: int) {
    forall x :: x in xs ==> exists r :: r in lru && PartOf(x, r) && x in Piece(r, a, first, last)
  }

  lemma FirstPiece(lru: seq<Range>, rest: seq<Range>, a: nat, first: int, last: int, since: Times, now: nat)
    requires lru != [] && first <= last && rest == Pieces(lru[1..], a, first, last)
    requires Young(lru[0], since, now) && Older(lru[0], lru[1..], since)
    requires InOrder(rest, since, now) && FromParts(rest, lru[1..], a, first, last)
    ensures InOrder(Pieces(lru, a, first, last), since, now)
    ensures FromParts(Pieces(lru, a, first, last), lru, a, first, last)
  {
    assert FromParts(rest, lru, a, first, last);
    assert forall x, r :: PartOf(x, r) && r in lru[1..] ==> forall q :: x.Holds(q) ==> r.Holds(q);
    OnePiece(lru[0], a, first, last);
    hide Piece, InOrder;
    if Piece(lru[0], a, first, last) == [] {
      assert [] + rest == rest;
    } else {
      var x := Piece(lru[0], a, first, last)[0];
      assert Young(x, since, now);
      PartOlder(x, lru, rest, a, first, last, since);
      ConsInOrder(x, rest, since, now);
    }
  }

  lemma OnePiece(r: Range, a: nat, first: int, last: int)
    requires first <= last
    ensures Piece(r, a, first, last) == [] ||
            exists x :: Piece(r, a, first, last) == [x] && PartOf(x, r)
  {
    if Piece(r, a, first, last) != [] {
      var x := Piece(r, a, first, last)[0];
      assert Piece(r, a, first, last) == [x] && PartOf(x, r);
    }
  }

  lemma PartOlder(x: Range, lru: seq<Range>, rest: seq<Range>, a: nat, first: int, last: int, since: Times)
    requires lru != [] && PartOf(x, lru[0]) && Older(lru[0], lru[1..], since)
    requires FromParts(rest, lru[1..], a, first, last)
    ensures Older(x, rest, since)
  {
    forall y, p, q | y in rest && x.Holds(p) && y.Holds(q)
      ensures since((x.area, p)) < since((y.area, q))
    {
      var r :| r in lru[1..] && PartOf(y, r) && y in Piece(r, a, first, last);
      assert lru[0].Holds(p) && r.Holds(q);
    }
  }

  lemma ConsInOrder(x: Range, rest: seq<Range>, since: Times, now: nat)
    requires Young(x, since, now) && Older(x, rest, since) && InOrder(rest, since, now)
    ensures InOrder([x] + rest, since, now)
  {
    assert ([x] + rest)[1..] == rest;
    hide Young, Older;
  }

  lemma {:induction false} OthersInOrder(lru: seq<Range>, a: nat, since: Times, now: nat)
    requires InOrder(lru, since, now)
    ensures InOrder(Others(lru, a), since, now)
    ensures forall r :: r in Others(lru, a) ==> r in lru
    decreases |lru|
  {
    if lru != [] {
      OthersInOrder(lru[1..], a, since, now);
      var rest := Others(lru[1..], a);
      assert ([lru[0]] + rest)[1..] == rest;
      assert [] + rest == rest;
    }
  }

  /** Times that agree on the pages of the list, and a later moment. */
  ghost predicate Agree(lru: seq<Range>, since: Times, since': Times) {
    forall r, p :: r in lru && r.Holds(p) ==> since'((r.area, p)) == since((r.area, p))
  }

  lemma {:induction false} AgreeInOrder(lru: seq<Range>, since: Times, since': Times, now: nat)
    requires InOrder(lru, since, now) && Agree(lru, since, since')
    ensures InOrder(lru, since', now) && InOrder(lru, since', now + 1)
    decreases |lru|
  {
    if lru != [] {
      AgreeInOrder(lru[1..], since, since', now);
    }
  }

  /** A range of young pages at the end. */
  lemma {:induction false} AppendInOrder(lru: seq<Range>, r: Range, since: Times, now: nat)
    requires InOrder(lru, since, now) && forall p :: r.Holds(p) ==> since((r.area, p)) == now
    ensures InOrder(lru + [r], since, now + 1)
    decreases |lru|
  {
    if lru == [] {
      assert lru + [r] == [r] && [r][1..] == [];
    } else {
      AppendInOrder(lru[1..], r, since, now);
      assert (lru + [r])[1..] == lru[1..] + [r];
    }
  }

  lemma {:induction false} SuffixInOrder(lru: seq<Range>, k: nat, since: Times, now: nat)
    requires InOrder(lru, since, now) && k <= |lru|
    ensures InOrder(lru[k..], since, now)
    decreases k
  {
    if k == 0 {
      assert lru[0..] == lru;
    } else {
      SuffixInOrder(lru[1..], k - 1, since, now);
      assert lru[1..][k - 1..] == lru[k..];
    }
  }

  lemma {:induction false} EarlierOlder(lru: seq<Range>, i: nat, j: nat, p: int, q: int, since: Times, now: nat)
    requires InOrder(lru, since, now) && i < j < |lru| && lru[i].Holds(p) && lru[j].Holds(q)
    ensures since((lru[i].area, p)) < since((lru[j].area, q))
    decreases i
  {
    if i == 0 {
      assert lru[1..][j - 1] == lru[j] && lru[j] in lru[1..];
    } else {
      EarlierOlder(lru[1..], i - 1, j - 1, p, q, since, now);
    }
  }

  // ---------------------------------------------------------------- each step keeps the order

  /** Two ranges of a loose list that hold the same page are the same. */
  lemma LooseSame(ranges: seq<Range>, a: nat, n: int, k: nat, x: Range, r: Range, p: int)
    requires Loose(ranges, a, n, k) && x in ranges && r in ranges && x.Holds(p) && r.Holds(p)
    ensures x == r
  {
  }

  lemma UnpinInOrder(s: State, a: nat, n: int, k: nat, first: int, last: int, since: Times, now: nat)
    requires Stock(s) && a in s.areas && Loose(Ranges(s, a), a, n, k) && 0 <= first <= last < n
    requires InOrder(s.lru, since, now)
    ensures InOrder(Unpin(s, a, first, last).lru, UnpinTimes(Ranges(s, a), a, first, last, since, now), now + 1)
  {
    var t, ranges := Unpin(s, a, first, last), Ranges(s, a);
    var since' := UnpinTimes(ranges, a, first, last, since, now);
    var lo, hi, marked := UnpinFromOrder(s, a, n, k, 0, first, last, false);
    PagedInOrder(s.lru, since, now);
    PagedInOrder(t.lru, since', now + 1);
    hide UnpinFrom, InOrder;
    if InsideOne(ranges, first, last) {
      hide Paged, InsideOne, Loose;
      AgreeInOrder(Paged(s.lru), since, since', now);
    } else {
      var rest := Without(Paged(s.lru), a, first, last);
      WithoutInOrder(Paged(s.lru), a, first, last, since, now);
      OutsideHull(s, a, n, k, first, last);
      hide Paged, InsideOne, Loose, InHull, Without;
      AgreeInOrder(rest, since, since', now);
      if marked {
        assert rest + [] == rest;
      } else {
        AppendInOrder(rest, Range(a, lo, hi, false), since', now);
      }
    }
  }

  /** What stays on the LRU list has no page in the merged range. */
  lemma OutsideHull(s: State, a: nat, n: int, k: nat, first: int, last: int)
    requires Stock(s) && a in s.areas && Loose(Ranges(s, a), a, n, k)
    ensures forall x, p :: x in Paged(s.lru) && x.area == a && !Overlaps(x, first, last) && x.Holds(p) ==>
              !InHull(Ranges(s, a), first, last, p)
  {
    PagedMembers(s.lru);
    forall x, p | x in Paged(s.lru) && x.area == a && !Overlaps(x, first, last) && x.Holds(p)
      ensures !InHull(Ranges(s, a), first, last, p)
    {
      OnList(s, x);
      if r :| r in Ranges(s, a) && Overlaps(r, first, last) && r.Holds(p) {
        LooseSame(Ranges(s, a), a, n, k, x, r, p);
      }
    }
  }

  lemma PinInOrder(s: State, a: nat, n: int, k: nat, first: int, last: int, since: Times, now: nat)
    requires Stock(s) && a in s.areas && Loose(Ranges(s, a), a, n, k) && first <= last && first < n
    requires InOrder(s.lru, since, now)
    ensures InOrder(Pin(s, a, first, last).0.lru, PinTimes(Ranges(s, a), a, first, last, since, now), now + 1)
  {
    var t, ranges := Pin(s, a, first, last).0, Ranges(s, a);
    var since' := PinTimes(ranges, a, first, last, since, now);
    var top := PinFromOrder(s, a, n, k, 0, first, last, false);
    PagedInOrder(s.lru, since, now);
    PagedInOrder(t.lru, since', now + 1);
    var rest := Pieces(Paged(s.lru), a, first, last);
    PiecesInOrder(Paged(s.lru), a, first, last, since, now);
    PiecesAgree(s, a, n, k, first, last, since, now);
    hide PinFrom, InOrder, Paged, Pieces, Loose;
    AgreeInOrder(rest, since, since', now);
    if top == [] {
      assert rest + [] == rest;
    } else {
      var x := TopYoung(ranges, a, first, last, top, since, now);
      AppendInOrder(rest, x, since', now);
    }
  }

  lemma TopYoung(ranges: seq<Range>, a: nat, first: int, last: int, top: seq<Range>, since: Times, now: nat)
    returns (x: Range)
    requires TopPart(ranges, a, first, last, top) && top != [] && first <= last
    ensures top == [x]
    ensures forall p :: x.Holds(p) ==> PinTimes(ranges, a, first, last, since, now)((x.area, p)) == now
  {
    var r :| r in ranges && Splits(r, first, last) && top == [Range(a, last + 1, r.last, false)];
    x := top[0];
    forall p | x.Holds(p)
      ensures PinTimes(ranges, a, first, last, since, now)((x.area, p)) == now
    {
      assert r.Holds(p);
    }
  }

  /** The pieces that keep their place keep their times. */
  lemma PiecesAgree(s: State, a: nat, n: int, k: nat, first: int, last: int, since: Times, now: nat)
    requires Stock(s) && a in s.areas && Loose(Ranges(s, a), a, n, k) && first <= last && InOrder(s.lru, since, now)
    ensures Agree(Pieces(Paged(s.lru), a, first, last), since, PinTimes(Ranges(s, a), a, first, last, since, now))
  {
    PagedInOrder(s.lru, since, now);
    PiecesInOrder(Paged(s.lru), a, first, last, since, now);
    PagedMembers(s.lru);
    hide InOrder, Pieces, Paged;
    forall x, p | x in Pieces(Paged(s.lru), a, first, last) && x.Holds(p)
      ensures PinTimes(Ranges(s, a), a, first, last, since, now)((x.area, p)) == since((x.area, p))
    {
      var r :| r in Paged(s.lru) && PartOf(x, r) && x in Piece(r, a, first, last);
      OnList(s, r);
      if x.area == a && last < p {
        if y :| y in Ranges(s, a) && y.first < first && y.Holds(p) {
          LooseSame(Ranges(s, a), a, n, k, r, y, p);
        }
      }
    }
  }

  // ---------------------------------------------------------------- every run

  /** The moves the order theorem is about: requests, and orders of the LRU list that only move
      ranges without pages. */
  ghost predicate KeepsPages(s: State, m: Move) {
    m.Order? && multiset(m.lru) == multiset(s.lru) ==> Paged(m.lru) == Paged(s.lru)
  }

  lemma NothingUnpinned(s: State, a: nat, n: int, k: nat, since: Times, now: nat)
    requires a in s.areas && Loose(Ranges(s, a), a, n, k) && InOrder(s.lru, since, now)
    ensures InOrder(Unpin(s, a, n, n - 1).lru, UnpinTimes(Ranges(s, a), a, n, n - 1, since, now), now + 1)
    ensures InOrder(Pin(s, a, n, n - 1).0.lru, PinTimes(Ranges(s, a), a, n, n - 1, since, now), now + 1)
  {
    var e := Range(a, n, n - 1, false);
    var since1 := UnpinTimes(Ranges(s, a), a, n, n - 1, since, now);
    var since2 := PinTimes(Ranges(s, a), a, n, n - 1, since, now);
    NothingInserted(s, a, n, k);
    assert Unpin(s, a, n, n - 1).lru == s.lru + [e];
    assert Agree(s.lru, since, since1) && Agree(s.lru, since, since2);
    hide Loose, InOrder, UnpinFrom, PinFrom, InHull, InsideOne;
    AgreeInOrder(s.lru, since, since1, now);
    AgreeInOrder(s.lru, since, since2, now);
    AppendInOrder(s.lru, e, since1, now);
  }

  lemma RequestInOrder(s: State, op: Op, since: Times, now: nat)
    requires Tolerable(s) && Fits(op) && op.Request? && InOrder(s.lru, since, now)
    ensures InOrder(Step(World(s, iset{}), op).s.lru, TimesAfter(s, Call(op), since, now), now + 1)
  {
    SameInOrder(s.lru, since, now);
    if Granted(s, op).Interval? {
      AreaSize(s, op.area);
      DecodeExact(s.areas[op.area].size, op.offset, op.len);
      hide Execute, Decode, InOrder, Tolerable, UnpinTimes, PinTimes;
      CarriedInOrder(s, op.area, op.cmd, Granted(s, op).first, Granted(s, op).last, since, now);
    }
  }

  lemma CarriedInOrder(s: State, a: nat, cmd: Command, first: int, last: int, since: Times, now: nat)
    requires Tolerable(s) && a in s.areas && InOrder(s.lru, since, now)
    requires 0 <= first && last < s.areas[a].size / PAGE_SIZE
    requires first <= last || (first == s.areas[a].size / PAGE_SIZE && last == first - 1)
    ensures InOrder(Execute(s, a, cmd, first, last).lru,
                    match cmd
                    case CmdPin => PinTimes(Ranges(s, a), a, first, last, since, now)
                    case CmdUnpin => UnpinTimes(Ranges(s, a), a, first, last, since, now)
                    case CmdStatus => since, now + 1)
  {
    var k := IsLoose(s, a);
    StockOf(s);
    SameInOrder(s.lru, since, now);
    var n := s.areas[a].size / PAGE_SIZE;
    hide InOrder, Stock, Tolerable, Loose, Pin, Unpin;
    match cmd
    case CmdPin => PinCarried(s, a, n, k, first, last, since, now);
    case CmdUnpin => UnpinCarried(s, a, n, k, first, last, since, now);
    case CmdStatus =>
  }

  lemma PinCarried(s: State, a: nat, n: int, k: nat, first: int, last: int, since: Times, now: nat)
    requires Stock(s) && a in s.areas && Loose(Ranges(s, a), a, n, k) && InOrder(s.lru, since, now)
    requires last < n && (first <= last || (first == n && last == first - 1))
    ensures InOrder(Pin(s, a, first, last).0.lru, PinTimes(Ranges(s, a), a, first, last, since, now), now + 1)
  {
    hide *;
    if first <= last {
      PinInOrder(s, a, n, k, first, last, since, now);
    } else {
      NothingUnpinned(s, a, n, k, since, now);
    }
  }

  lemma UnpinCarried(s: State, a: nat, n: int, k: nat, first: int, last: int, since: Times, now: nat)
    requires Stock(s) && a in s.areas && Loose(Ranges(s, a), a, n, k) && InOrder(s.lru, since, now)
    requires 0 <= first && last < n && (first <= last || (first == n && last == first - 1))
    ensures InOrder(Unpin(s, a, first, last).lru, UnpinTimes(Ranges(s, a), a, first, last, since, now), now + 1)
  {
    hide *;
    if first <= last {
      UnpinInOrder(s, a, n, k, first, last, since, now);
    } else {
      NothingUnpinned(s, a, n, k, since, now);
    }
  }

  lemma StockOf(s: State)
    requires Tolerable(s)
    ensures Stock(s)
  {
  }

  lemma {:induction false} SameInOrder(lru: seq<Range>, since: Times, now: nat)
    requires InOrder(lru, since, now)
    ensures InOrder(lru, since, now + 1)
    decreases |lru|
  {
    AgreeInOrder(lru, since, since, now);
  }

  lemma LruOfStep(w: World, op: Op)
    requires Stock(w.s) && !op.Request?
    ensures var lru := Step(w, op).s.lru;
            || lru == w.s.lru || (op.CloseArea? && lru == Others(w.s.lru, op.area))
            || exists k :: 0 <= k <= |w.s.lru| && lru == w.s.lru[k..]
  {
    match op
    case CloseArea(a) =>
      if a in w.s.areas {
        hide Release;
        ReleaseOrder(w.s, a);
      }
    case ShrinkSome(scan, mayEnterFs) =>
      hide ShrinkLoop;
      ShrinkLoopTakes(w.s, scan);
    case PurgeAllCaches =>
      hide ShrinkLoop;
      ShrinkLoopTakes(w.s, w.s.lruCount);
    case _ =>
  }

  lemma StepInOrder(w: World, m: Move, since: Times, now: nat)
    requires Fair(w) && (m.Call? ==> Fits(m.op)) && KeepsPages(w.s, m) && InOrder(w.s.lru, since, now)
    ensures InOrder(Moved(w, m).s.lru, TimesAfter(w.s, m, since, now), now + 1)
  {
    FairParts(w);
    SameInOrder(w.s.lru, since, now);
    match m
    case Order(lru) =>
      PagedInOrder(lru, since, now + 1);
      PagedInOrder(w.s.lru, since, now + 1);
    case Call(op) =>
      if op.Request? {
        RequestInOrder(w.s, op, since, now);
        StepOnState(w, op);
      } else {
        StockOf(w.s);
        LruOfStep(w, op);
        hide Step, InOrder, Others, Stock;
        var lru := Step(w, op).s.lru;
        if op.CloseArea? && lru == Others(w.s.lru, op.area) {
          OthersInOrder(w.s.lru, op.area, since, now + 1);
        } else if lru != w.s.lru {
          var k :| 0 <= k <= |w.s.lru| && lru == w.s.lru[k..];
          SuffixInOrder(w.s.lru, k, since, now + 1);
        }
      }
  }

  lemma StepOnState(w: World, op: Op)
    ensures Step(w, op).s == Step(World(w.s, iset{}), op).s
  {
  }

  /** The times after a run. */
  ghost function RunTimes(w: World, moves: seq<Move>, since: Times, now: nat): Times
    decreases |moves|
  {
    if moves == [] then since
    else RunTimes(Moved(w, moves[0]), moves[1..], TimesAfter(w.s, moves[0], since, now), now + 1)
  }

  ghost predicate KeepPages(w: World, moves: seq<Move>)
    decreases |moves|
  {
    moves == [] || (KeepsPages(w.s, moves[0]) && KeepPages(Moved(w, moves[0]), moves[1..]))
  }

  lemma {:induction false} EveryRunInOrder(w: World, moves: seq<Move>, since: Times, now: nat)
    requires Fair(w) && MovesFit(moves) && KeepPages(w, moves) && InOrder(w.s.lru, since, now)
    ensures InOrder(RunMoves(w, moves).s.lru, RunTimes(w, moves, since, now), now + |moves|)
    decreases |moves|
  {
    if moves != [] {
      hide Fair, InOrder, Step, KeepsPages, TimesAfter;
      StepInOrder(w, moves[0], since, now);
      MoveFair(w, moves[0]);
      EveryRunInOrder(Moved(w, moves[0]), moves[1..], TimesAfter(w.s, moves[0], since, now), now + 1);
    }
  }

  lemma MoveFair(w: World, m: Move)
    requires Fair(w) && (m.Call? ==> Fits(m.op))
    ensures Fair(Moved(w, m))
  {
    assert RunMoves(w, [m]) == Moved(w, m) by {
      assert [m][1..] == [];
      hide Step;
    }
    hide Fair, Moved;
    EveryRunFair(w, [m]);
  }

  /** The page is unpinned and can still be taken. */
  ghost predicate LeftUnmarked(t: State, b: nat, q: int) {
    b in t.areas && Covered(Ranges(t, b), q, false) && !Covered(Ranges(t, b), q, true)
  }

  lemma ShrinkSplits(s: State, scan: int) returns (k: nat)
    requires Tolerable(s)
    ensures var (t, gone) := ShrinkLoop(s, scan);
            k <= |s.lru| && gone == s.lru[..k] && t.lru == s.lru[k..] && Stock(t)
  {
    k := TakeCount(s.lru, scan);
    hide *;
    ShrinkLoopTakes(s, scan);
    ShrinkTolerable(s, scan);
    StockOf(ShrinkLoop(s, scan).0);
  }

  /** When the shrinker takes ranges in an ordered state: each page it takes is older than each page
      that could still be taken afterwards. */
  lemma TakenOlder(s: State, scan: int, since: Times, now: nat, a: nat, p: int, b: nat, q: int)
    requires Tolerable(s) && InOrder(s.lru, since, now) && Hit(ShrinkLoop(s, scan).1, a, p)
    requires LeftUnmarked(ShrinkLoop(s, scan).0, b, q)
    ensures since((a, p)) < since((b, q))
  {
    var t, gone := ShrinkLoop(s, scan).0, ShrinkLoop(s, scan).1;
    var i := TakenAt(gone, a, p);
    hide *;
    var k := ShrinkSplits(s, scan);
    var j, y := LeftOnList(t, b, q);
    InParts(s.lru, k, i, j);
    EarlierOlder(s.lru, i, k + j, p, q, since, now);
  }

  lemma TakenAt(gone: seq<Range>, a: nat, p: int) returns (i: nat)
    requires Hit(gone, a, p)
    ensures i < |gone| && gone[i].area == a && gone[i].Holds(p)
  {
    var x :| x in gone && x.area == a && x.Holds(p);
    i :| 0 <= i < |gone| && gone[i] == x;
  }

  lemma InParts(lru: seq<Range>, k: nat, i: nat, j: nat)
    requires k <= |lru| && i < |lru[..k]| && j < |lru[k..]|
    ensures i < k + j < |lru| && lru[i] == lru[..k][i] && lru[k + j] == lru[k..][j]
  {
  }

  /** An unmarked page is on the LRU list. */
  lemma LeftOnList(t: State, b: nat, q: int) returns (j: nat, y: Range)
    requires Stock(t) && LeftUnmarked(t, b, q)
    ensures j < |t.lru| && t.lru[j] == y && y.area == b && y.Holds(q)
  {
    y :| y in Ranges(t, b) && y.Holds(q);
    var m :| 0 <= m < |Ranges(t, b)| && Ranges(t, b)[m] == y;
    InStock(t, b, m);
    j :| 0 <= j < |t.lru| && t.lru[j] == y;
  }

  /** The world after module load, and no page has a time. */
  const LOADED: World := World(EMPTY, iset{})
  const NEVER: Times := (x: (nat, int)) => 0

  lemma LoadedRun(moves: seq<Move>)
    requires MovesFit(moves) && KeepPages(LOADED, moves)
    ensures var s := RunMoves(LOADED, moves).s;
            Tolerable(s) && InOrder(s.lru, RunTimes(LOADED, moves, NEVER, 0), |moves|)
  {
    LoadedInOrder();
    hide *;
    RunFrom(LOADED, moves, NEVER, 0);
  }

  lemma LoadedInOrder()
    ensures Fair(LOADED) && InOrder(LOADED.s.lru, NEVER, 0)
  {
    EmptyFair();
    hide Fair;
  }

  lemma RunFrom(w: World, moves: seq<Move>, since: Times, now: nat)
    requires Fair(w) && MovesFit(moves) && KeepPages(w, moves) && InOrder(w.s.lru, since, now)
    ensures var s := RunMoves(w, moves).s;
            Tolerable(s) && InOrder(s.lru, RunTimes(w, moves, since, now), now + |moves|)
  {
    hide *;
    EveryRunInOrder(w, moves, since, now);
    EveryRunFair(w, moves);
    FairParts(RunMoves(w, moves));
  }

  /** Over every run from module load: when the shrinker takes pages, each of them came on the LRU list
      before every page that it leaves there. */
  lemma OldestTakenFirst(moves: seq<Move>, scan: int, mayEnterFs: bool, a: nat, p: int, b: nat, q: int)
    requires MovesFit(moves) && KeepPages(LOADED, moves)
    requires Hit(Shrink(RunMoves(LOADED, moves).s, scan, mayEnterFs).2, a, p)
    requires LeftUnmarked(Shrink(RunMoves(LOADED, moves).s, scan, mayEnterFs).0, b, q)
    ensures RunTimes(LOADED, moves, NEVER, 0)((a, p)) < RunTimes(LOADED, moves, NEVER, 0)((b, q))
  {
    var s := RunMoves(LOADED, moves).s;
    ShrinkParts(s, scan, mayEnterFs);
    hide *;
    LoadedRun(moves);
    TakenOlder(s, scan, RunTimes(LOADED, moves, NEVER, 0), |moves|, a, p, b, q);
  }

  /** Only the loop takes pages. */
  lemma ShrinkParts(s: State, scan: int, mayEnterFs: bool)
    ensures var r := Shrink(s, scan, mayEnterFs);
            (r.2 == [] && forall a, p :: !Hit(r.2, a, p))
            || (r.0 == ShrinkLoop(s, scan).0 && r.2 == ShrinkLoop(s, scan).1)
  {
  }
}
