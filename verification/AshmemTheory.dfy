/** Global results about ashmem: over every run of operations on any number of areas the LRU
  list, the counter and the area lists agree, and no purge is ever forgotten. */
module AshmemTheory {
  import opened AshmemModel
  import opened AshmemLists
  import opened AshmemOps
  import opened AshmemUnpin
  import opened AshmemShrink

  // ---------------------------------------------------------------- release

  lemma {:induction false} DelAllEffect(s: State, a: nat)
    requires Inv(s) && a in s.areas
    ensures var t := DelAll(s, a); Inv(t) && OnlyArea(s, t, a) && Ranges(t, a) == []
    decreases |Ranges(s, a)|
  {
    if Ranges(s, a) != [] {
      DelKeepsInv(s, a, 0);
      DelFrame(s, a, 0);
      DelAllEffect(RangeDel(s, a, 0), a);
    }
  }

  /** Closing an area takes its ranges off the LRU list and touches no other area. */
  lemma ReleaseEffect(s: State, a: nat)
    requires Inv(s) && a in s.areas
    ensures var t := Release(s, a);
            && Inv(t) && t.areas.Keys == s.areas.Keys - {a}
            && (forall b :: b in t.areas ==> t.areas[b] == s.areas[b])
            && (forall r :: r in t.lru ==> r.area != a)
  {
    DelAllEffect(s, a);
    var u, t := DelAll(s, a), Release(s, a);
    forall r
      ensures r in t.lru <==> Evictable(t.areas, r)
    {
      assert r in u.lru <==> Evictable(u.areas, r);
    }
  }

  lemma OpenKeepsInv(s: State, a: nat)
    requires Inv(s) && a !in s.areas
    ensures Inv(Open(s, a))
  {
  }

  // ---------------------------------------------------------------- requests from user space

  const WORD: nat := 0x1_0000_0000

  datatype Command = CmdPin | CmdUnpin | CmdStatus

  datatype PageSpan = Invalid | Interval(first: int, last: int)

  /** `ashmem_pin_unpin`: byte offset and length to a page interval, in 32-bit arithmetic.
      A zero length stands for everything from the offset on. */
  function Decode(size: nat, offset: nat, len0: nat): PageSpan {
    var len := if len0 == 0 then (size - offset) % WORD else len0;
    if offset % PAGE_SIZE != 0 || len % PAGE_SIZE != 0 then Invalid
    else if WORD - 1 - offset < len then Invalid
    else if size < (offset + len) % WORD then Invalid
    else Interval(offset / PAGE_SIZE, offset / PAGE_SIZE + len / PAGE_SIZE - 1)
  }

  /** An accepted request names pages of the area, and at least one of them unless it asks for
      "everything onward" from the very end. */
  lemma DecodeExact(size: nat, offset: nat, len: nat)
    requires size < WORD && offset < WORD && len < WORD && size % PAGE_SIZE == 0
    ensures Decode(size, offset, len).Interval? <==>
            offset % PAGE_SIZE == 0 && len % PAGE_SIZE == 0 && offset + len <= size
    ensures var r := Decode(size, offset, len);
            r.Interval? ==>
              && r.first == offset / PAGE_SIZE
              && r.last == (if len == 0 then size else offset + len) / PAGE_SIZE - 1
              && 0 <= r.first && r.last < size / PAGE_SIZE
              && (r.first <= r.last <==> !(len == 0 && offset == size))
  {
  }

  // ---------------------------------------------------------------- runs

  datatype Op =
    | OpenArea(area: nat)
    | CloseArea(area: nat)
    | SetSize(area: nat, arg: nat)
    | MapArea(area: nat)
    | Request(area: nat, cmd: Command, offset: nat, len: nat)
    | ShrinkSome(scan: int, mayEnterFs: bool)
    | PurgeAllCaches

  /** A state together with the pages truncated since they were last pinned. */
  datatype World = World(s: State, lost: iset<(nat, int)>)

  /** Nonempty lists belong to mapped areas and name pages of the area only. */
  ghost predicate Bounded(s: State) {
    forall a: nat, p :: a in s.areas && Covered(Ranges(s, a), p, false) ==>
      s.areas[a].mapped && 0 <= p < s.areas[a].size / PAGE_SIZE
  }

  ghost predicate SizesOk(s: State) {
    forall a :: a in s.areas ==> s.areas[a].size % PAGE_SIZE == 0 && s.areas[a].size < WORD
  }

  /** Every truncated page is still unpinned and in a range marked as purged. */
  ghost predicate Remembered(w: World) {
    forall a: nat, p :: (a, p) in w.lost ==> a in w.s.areas && Covered(Ranges(w.s, a), p, true)
  }

  ghost predicate Good(w: World) {
    Inv(w.s) && Bounded(w.s) && SizesOk(w.s) && Remembered(w)
  }

  /** The page interval of a request that the driver carries out. */
  function Granted(s: State, op: Op): PageSpan
    requires op.Request?
  {
    if op.area in s.areas && s.areas[op.area].mapped
    then Decode(s.areas[op.area].size, op.offset, op.len)
    else Invalid
  }

  function Execute(s: State, a: nat, cmd: Command, first: int, last: int): State
    requires a in s.areas
  {
    match cmd
    case CmdPin => Pin(s, a, first, last).0
    case CmdUnpin => Unpin(s, a, first, last)
    case CmdStatus => s
  }

  ghost function Step(w: World, op: Op): World {
    var s := w.s;
    match op
    case OpenArea(a) => if a in s.areas then w else w.(s := Open(s, a))
    case CloseArea(a) =>
      if a !in s.areas then w
      else World(Release(s, a), iset x: (nat, int) | x in w.lost && x.0 != a)
    case SetSize(a, arg) =>
      if a in s.areas && !s.areas[a].mapped && arg % PAGE_SIZE == 0
      then w.(s := s.(areas := s.areas[a := s.areas[a].(size := arg)]))
      else w
    case MapArea(a) =>
      if a in s.areas && s.areas[a].size != 0
      then w.(s := s.(areas := s.areas[a := s.areas[a].(mapped := true)]))
      else w
    case Request(a, cmd, _, _) =>
      (match Granted(s, op)
       case Invalid => w
       case Interval(first, last) =>
         World(Execute(s, a, cmd, first, last),
               if cmd.CmdPin? then iset x: (nat, int) | x in w.lost && !(x.0 == a && first <= x.1 <= last)
               else w.lost))
    case ShrinkSome(scan, mayEnterFs) => Truncate(w, Shrink(s, scan, mayEnterFs).0, Shrink(s, scan, mayEnterFs).2)
    case PurgeAllCaches => Truncate(w, PurgeAll(s).0, PurgeAll(s).1)
  }

  ghost function Truncate(w: World, t: State, gone: seq<Range>): World {
    World(t, iset x: (nat, int) | x in w.lost || Hit(gone, x.0, x.1))
  }

  /** The one request the driver should refuse: unpin from the very end of the area onward. */
  predicate EmptyUnpin(s: State, op: Op) {
    && op.Request? && op.cmd.CmdUnpin? && Granted(s, op).Interval?
    && op.len == 0 && op.offset == s.areas[op.area].size
  }

  /** Arguments that fit their 32-bit types. */
  predicate Fits(op: Op) {
    && (op.Request? ==> op.offset < WORD && op.len < WORD)
    && (op.SetSize? ==> op.arg < WORD)
  }

  // ---------------------------------------------------------------- each step keeps the world good

  /** In every area the ranges of `t` hold the pages of `s`, purged or not, except that
      `plus` and `minus` say what happened to pages `first` to `last` of area `a`. */
  ghost predicate PagesFollow(s: State, t: State, a: nat, first: int, last: int, minus: bool, plus: bool) {
    && t.areas.Keys == s.areas.Keys
    && (forall b :: b in s.areas ==> t.areas[b].size == s.areas[b].size && t.areas[b].mapped == s.areas[b].mapped)
    && (forall b: nat, p :: b in s.areas && Covered(Ranges(t, b), p, false) ==>
          Covered(Ranges(s, b), p, false) || (plus && b == a && first <= p <= last))
    && (forall b: nat, p :: b in s.areas && Covered(Ranges(s, b), p, true) ==>
          Covered(Ranges(t, b), p, true) || (minus && b == a && first <= p <= last))
  }

  lemma PagesFollowArea(s: State, t: State, a: nat, first: int, last: int, minus: bool, plus: bool)
    requires a in s.areas && OnlyArea(s, t, a)
    requires forall p :: Covered(Ranges(t, a), p, false) ==>
               Covered(Ranges(s, a), p, false) || (plus && first <= p <= last)
    requires forall p :: Covered(Ranges(s, a), p, true) ==>
               Covered(Ranges(t, a), p, true) || (minus && first <= p <= last)
    ensures PagesFollow(s, t, a, first, last, minus, plus)
  {
  }

  lemma FollowKeepsBounded(s: State, t: State, a: nat, first: int, last: int, minus: bool, plus: bool)
    requires PagesFollow(s, t, a, first, last, minus, plus) && Bounded(s) && SizesOk(s)
    requires plus ==> a in s.areas && s.areas[a].mapped && 0 <= first && last < s.areas[a].size / PAGE_SIZE
    ensures Bounded(t) && SizesOk(t)
  {
  }

  lemma FollowKeepsRemembered(s: State, t: State, a: nat, first: int, last: int, minus: bool, plus: bool,
                              lost: iset<(nat, int)>)
    requires PagesFollow(s, t, a, first, last, minus, plus) && Remembered(World(s, lost))
    ensures !minus ==> Remembered(World(t, lost))
    ensures Remembered(World(t, iset x: (nat, int) | x in lost && !(x.0 == a && first <= x.1 <= last)))
  {
  }

  lemma PinKeepsGood(w: World, a: nat, first: int, last: int)
    requires Good(w) && a in w.s.areas && first <= last
    ensures Good(World(Pin(w.s, a, first, last).0,
                       iset x: (nat, int) | x in w.lost && !(x.0 == a && first <= x.1 <= last)))
  {
    var t := Pin(w.s, a, first, last).0;
    PinEffect(w.s, a, first, last);
    PagesFollowArea(w.s, t, a, first, last, true, false);
    FollowKeepsBounded(w.s, t, a, first, last, true, false);
    FollowKeepsRemembered(w.s, t, a, first, last, true, false, w.lost);
  }

  lemma UnpinKeepsGood(w: World, a: nat, first: int, last: int)
    requires Good(w) && a in w.s.areas && 0 <= first <= last < w.s.areas[a].size / PAGE_SIZE
    requires w.s.areas[a].mapped
    ensures Good(World(Unpin(w.s, a, first, last), w.lost))
  {
    var t := Unpin(w.s, a, first, last);
    UnpinEffect(w.s, a, first, last);
    PagesFollowArea(w.s, t, a, first, last, false, true);
    FollowKeepsBounded(w.s, t, a, first, last, false, true);
    FollowKeepsRemembered(w.s, t, a, first, last, false, true, w.lost);
  }

  /** No range reaches the end of its area, so an empty interval there meets none of them. */
  lemma EndIsAbove(s: State, a: nat)
    requires Inv(s) && Bounded(s) && a in s.areas
    ensures Ranges(s, a) != [] ==> Ranges(s, a)[0].last < s.areas[a].size / PAGE_SIZE
  {
    ListDescends(s, a);
    if Ranges(s, a) != [] {
      var r := Ranges(s, a)[0];
      assert r in Ranges(s, a) && r.Holds(r.last);
      assert Covered(Ranges(s, a), r.last, false);
    }
  }

  lemma AllBelowEnd(s: State, a: nat)
    requires Inv(s) && Bounded(s) && a in s.areas
    ensures forall r :: r in Ranges(s, a) ==> r.last < s.areas[a].size / PAGE_SIZE
  {
    ListDescends(s, a);
    forall r | r in Ranges(s, a)
      ensures r.last < s.areas[a].size / PAGE_SIZE
    {
      assert r.Holds(r.last);
      assert Covered(Ranges(s, a), r.last, false);
    }
  }

  /** The empty interval: pin and status find nothing, unpin inserts a range without pages. */
  lemma EmptyInterval(w: World, a: nat)
    requires Good(w) && a in w.s.areas
    ensures var e := w.s.areas[a].size / PAGE_SIZE;
            Pin(w.s, a, e, e - 1) == (w.s, false) && !Inv(Unpin(w.s, a, e, e - 1))
  {
    EndIsAbove(w.s, a);
    var e := w.s.areas[a].size / PAGE_SIZE;
    var t := RangeAlloc(w.s, a, 0, false, e, e - 1);
    assert Ranges(t, a)[0] == Range(a, e, e - 1, false);
    assert !Descending(Ranges(t, a), a);
  }

  lemma TruncateKeepsGood(w: World, t: State, gone: seq<Range>)
    requires Good(w) && Inv(t) && Marked(w.s, t, gone)
    requires forall r :: r in gone ==> r.area in w.s.areas
    ensures Good(Truncate(w, t, gone))
  {
    MarkedFollows(w.s, t, gone);
    FollowKeepsBounded(w.s, t, 0, 0, -1, false, false);
    FollowKeepsRemembered(w.s, t, 0, 0, -1, false, false, w.lost);
    forall a: nat, p | Hit(gone, a, p)
      ensures a in t.areas && Covered(Ranges(t, a), p, true)
    {
      assert MarkedAt(w.s, t, gone, a, p);
    }
    RememberedSplit(w, t, gone);
  }

  lemma RememberedSplit(w: World, t: State, gone: seq<Range>)
    requires Remembered(World(t, w.lost))
    requires forall a: nat, p :: Hit(gone, a, p) ==> a in t.areas && Covered(Ranges(t, a), p, true)
    ensures Remembered(Truncate(w, t, gone))
  {
  }

  lemma MarkedFollows(s: State, t: State, gone: seq<Range>)
    requires Marked(s, t, gone)
    ensures PagesFollow(s, t, 0, 0, -1, false, false)
  {
    forall a: nat, p | a in s.areas
      ensures Covered(Ranges(t, a), p, false) ==> Covered(Ranges(s, a), p, false)
      ensures Covered(Ranges(s, a), p, true) ==> Covered(Ranges(t, a), p, true)
    {
      assert MarkedAt(s, t, gone, a, p);
    }
    forall a: nat | a in s.areas
      ensures t.areas[a].size == s.areas[a].size && t.areas[a].mapped == s.areas[a].mapped
    {
      assert MarkedAt(s, t, gone, a, 0);
    }
  }

  lemma LruAreas(s: State, scan: int)
    requires Inv(s)
    ensures forall r :: r in ShrinkLoop(s, scan).1 ==> r.area in s.areas
  {
    ShrinkLoopTakes(s, scan);
    forall r | r in ShrinkLoop(s, scan).1
      ensures r.area in s.areas
    {
      assert r in s.lru;
      LruMember(s, r);
    }
  }

  lemma ShrinkKeepsGood(w: World, scan: int)
    requires Good(w)
    ensures Good(Truncate(w, ShrinkLoop(w.s, scan).0, ShrinkLoop(w.s, scan).1))
    ensures Good(Truncate(w, w.s, []))
  {
    ShrinkLoopKeepsInv(w.s, scan);
    ShrinkMarks(w.s, scan);
    LruAreas(w.s, scan);
    TruncateKeepsGood(w, ShrinkLoop(w.s, scan).0, ShrinkLoop(w.s, scan).1);
    TruncateKeepsGood(w, w.s, []);
  }

  lemma CloseKeepsGood(w: World, a: nat)
    requires Good(w) && a in w.s.areas
    ensures Good(Step(w, CloseArea(a)))
  {
    ReleaseEffect(w.s, a);
    var w' := Step(w, CloseArea(a));
    forall b: nat, p | (b, p) in w'.lost
      ensures b in w'.s.areas && Covered(Ranges(w'.s, b), p, true)
    {
      assert (b, p) in w.lost;
    }
    forall b: nat, p | b in w'.s.areas && Covered(Ranges(w'.s, b), p, false)
      ensures w'.s.areas[b].mapped && 0 <= p < w'.s.areas[b].size / PAGE_SIZE
    {
      assert Covered(Ranges(w.s, b), p, false);
    }
  }

  /** Changing size or mapping of an area leaves its ranges alone. */
  lemma RelabelKeepsInv(s: State, a: nat, x: Area)
    requires Inv(s) && a in s.areas && x.ranges == Ranges(s, a)
    ensures Inv(s.(areas := s.areas[a := x]))
  {
  }

  lemma RelabelKeepsGood(w: World, a: nat, x: Area)
    requires Good(w) && a in w.s.areas && x.ranges == Ranges(w.s, a)
    requires x.size % PAGE_SIZE == 0 && x.size < WORD
    requires w.s.areas[a].mapped ==> x == w.s.areas[a]
    ensures Good(w.(s := w.s.(areas := w.s.areas[a := x])))
  {
    var t := w.s.(areas := w.s.areas[a := x]);
    RelabelKeepsInv(w.s, a, x);
    forall b: nat, p | b in t.areas && Covered(Ranges(t, b), p, false)
      ensures t.areas[b].mapped && 0 <= p < t.areas[b].size / PAGE_SIZE
    {
      assert Covered(Ranges(w.s, b), p, false);
    }
    forall b: nat, p | (b, p) in w.lost
      ensures b in t.areas && Covered(Ranges(t, b), p, true)
    {
      assert Covered(Ranges(w.s, b), p, true);
    }
  }

  lemma OpenKeepsGood(w: World, a: nat)
    requires Good(w) && a !in w.s.areas
    ensures Good(w.(s := Open(w.s, a)))
  {
    var t := Open(w.s, a);
    OpenKeepsInv(w.s, a);
    forall b: nat, p | b in t.areas && Covered(Ranges(t, b), p, false)
      ensures t.areas[b].mapped && 0 <= p < t.areas[b].size / PAGE_SIZE
    {
      assert b in w.s.areas && Covered(Ranges(w.s, b), p, false);
    }
    forall b: nat, p | (b, p) in w.lost
      ensures b in t.areas && Covered(Ranges(t, b), p, true)
    {
      assert Covered(Ranges(w.s, b), p, true);
    }
  }

  /** Every step keeps a good world good, except the one request that unpins nothing: it breaks
      the range list whenever it is carried out. */
  lemma StepKeepsGood(w: World, op: Op)
    requires Good(w) && Fits(op)
    ensures Good(Step(w, op)) <==> !EmptyUnpin(w.s, op)
  {
    match op
    case OpenArea(a) =>
      if a !in w.s.areas { OpenKeepsGood(w, a); }
    case CloseArea(a) =>
      if a in w.s.areas { CloseKeepsGood(w, a); }
    case SetSize(a, arg) =>
      if a in w.s.areas && !w.s.areas[a].mapped && arg % PAGE_SIZE == 0 {
        RelabelKeepsGood(w, a, w.s.areas[a].(size := arg));
      }
    case MapArea(a) =>
      if a in w.s.areas {
        RelabelKeepsGood(w, a, w.s.areas[a].(mapped := true));
      }
    case Request(a, cmd, offset, len) => RequestKeepsGood(w, op);
    case ShrinkSome(scan, mayEnterFs) => ShrinkKeepsGood(w, scan);
    case PurgeAllCaches => ShrinkKeepsGood(w, w.s.lruCount);
  }

  /** What every method of the driver may rely on: the structure and the sizes. */
  ghost predicate Sound(s: State) {
    Inv(s) && Bounded(s) && SizesOk(s)
  }

  lemma StepKeepsSound(s: State, op: Op)
    requires Sound(s) && Fits(op) && !EmptyUnpin(s, op)
    ensures Sound(Step(World(s, iset{}), op).s)
  {
    hide Inv, Bounded, SizesOk, Step, EmptyUnpin, Fits;
    StepKeepsGood(World(s, iset{}), op);
  }

  /** The same for each operation by itself. */
  lemma OpenSound(s: State, a: nat)
    requires Sound(s) && a !in s.areas
    ensures Sound(Open(s, a))
  {
    StepKeepsSound(s, OpenArea(a));
  }

  lemma ReleaseSound(s: State, a: nat)
    requires Sound(s) && a in s.areas
    ensures Sound(Release(s, a))
  {
    StepKeepsSound(s, CloseArea(a));
  }

  lemma SetSizeSound(s: State, a: nat, arg: nat)
    requires Sound(s) && a in s.areas && !s.areas[a].mapped && arg % PAGE_SIZE == 0 && arg < WORD
    ensures Sound(s.(areas := s.areas[a := s.areas[a].(size := arg)]))
  {
    StepKeepsSound(s, SetSize(a, arg));
  }

  lemma MapSound(s: State, a: nat)
    requires Sound(s) && a in s.areas && s.areas[a].size != 0
    ensures Sound(s.(areas := s.areas[a := s.areas[a].(mapped := true)]))
  {
    StepKeepsSound(s, MapArea(a));
  }

  lemma ShrinkSound(s: State, scan: int, mayEnterFs: bool)
    requires Sound(s)
    ensures Sound(Shrink(s, scan, mayEnterFs).0) && Sound(PurgeAll(s).0)
  {
    StepKeepsSound(s, ShrinkSome(scan, mayEnterFs));
    StepKeepsSound(s, PurgeAllCaches);
  }

  lemma RequestSound(s: State, op: Op, t: State)
    requires Sound(s) && Fits(op) && op.Request?
    requires match Granted(s, op)
             case Invalid => t == s
             case Interval(first, last) => t == Execute(s, op.area, op.cmd, first, last)
    ensures !EmptyUnpin(s, op) ==> Sound(t)
  {
    hide Inv, Bounded, SizesOk, Execute;
    if !EmptyUnpin(s, op) {
      StepKeepsSound(s, op);
    }
  }

  lemma RequestKeepsGood(w: World, op: Op)
    requires Good(w) && Fits(op) && op.Request?
    ensures Good(Step(w, op)) <==> !EmptyUnpin(w.s, op)
  {
    if Granted(w.s, op).Interval? {
      var first, last := Granted(w.s, op).first, Granted(w.s, op).last;
      DecodeExact(w.s.areas[op.area].size, op.offset, op.len);
      if first <= last {
        PinKeepsGood(w, op.area, first, last);
        UnpinKeepsGood(w, op.area, first, last);
      } else {
        EmptyInterval(w, op.area);
        assert first > last ==>
            (iset x: (nat, int) | x in w.lost && !(x.0 == op.area && first <= x.1 <= last)) == w.lost;
      }
    }
  }

  // ---------------------------------------------------------------- what a request is answered

  /** What a pin, unpin or status request returns. */
  datatype Answer = Refused | WasPurged(purged: bool) | Done | Unpinned(any: bool)

  function Reply(s: State, a: nat, cmd: Command, first: int, last: int): Answer
    requires a in s.areas
  {
    match cmd
    case CmdPin => WasPurged(Pin(s, a, first, last).1)
    case CmdUnpin => Done
    case CmdStatus => Unpinned(AnyUnpinned(s, a, first, last))
  }

  /** `ashmem_pin_unpin` */
  function Answered(s: State, op: Op): Answer
    requires op.Request?
  {
    match Granted(s, op)
    case Invalid => Refused
    case Interval(first, last) => Reply(s, op.area, op.cmd, first, last)
  }

  /** A request for the pages `first` to `last` has been carried out and answered: a pin says whether
      one of them was in a marked range, and takes them out; an unpin adds them, and spreads their mark
      over the range they are joined with; a status request says whether one of them was in a range. */
  ghost predicate Carried(before: seq<Range>, after: seq<Range>, cmd: Command, first: int, last: int, r: Answer) {
    match cmd
    case CmdPin =>
      && r == WasPurged(exists p :: first <= p <= last && Covered(before, p, true))
      && forall p, fl :: Covered(after, p, fl) <==> Covered(before, p, fl) && !(first <= p <= last)
    case CmdUnpin =>
      && r == Done && MarksJoined(before, after, first, last, false)
      && forall p :: Covered(after, p, false) <==> Covered(before, p, false) || first <= p <= last
    case CmdStatus =>
      r == Unpinned(exists p :: first <= p <= last && Covered(before, p, false)) && after == before
  }

  /** A request is refused exactly if the area is not mapped, the request is not page-aligned or it is
      not inside the area; any other is carried out on its pages. */
  lemma AnsweredExact(s: State, op: Op)
    requires Sound(s) && Fits(op) && op.Request? && op.area in s.areas
    ensures Answered(s, op) == Refused <==>
            !(s.areas[op.area].mapped && op.offset % 4096 == 0 && op.len % 4096 == 0
              && op.offset + op.len <= s.areas[op.area].size)
    ensures Answered(s, op) != Refused ==>
              var end := if op.len == 0 then s.areas[op.area].size else op.offset + op.len;
              var first, last := op.offset / 4096, end / 4096 - 1;
              && Granted(s, op) == Interval(first, last)
              && op.area in Execute(s, op.area, op.cmd, first, last).areas
              && Carried(Ranges(s, op.area), Ranges(Execute(s, op.area, op.cmd, first, last), op.area), op.cmd,
                         first, last, Answered(s, op))
  {
    DecodeExact(s.areas[op.area].size, op.offset, op.len);
    if Granted(s, op).Interval? {
      var first, last := Granted(s, op).first, Granted(s, op).last;
      hide Pin, Unpin, Decode, AnyUnpinned, Inv, Bounded, SizesOk, Carried;
      SoundParts(s);
      if first <= last {
        PagesCarried(s, op.area, op.cmd, first, last);
      } else {
        NothingCarried(s, op.area, op.cmd);
      }
    }
  }

  lemma SoundParts(s: State)
    requires Sound(s)
    ensures Inv(s) && Bounded(s) && SizesOk(s)
  {
  }

  lemma PagesCarried(s: State, a: nat, cmd: Command, first: int, last: int)
    requires Inv(s) && a in s.areas && 0 <= first <= last
    ensures var t := Execute(s, a, cmd, first, last);
            a in t.areas && Carried(Ranges(s, a), Ranges(t, a), cmd, first, last, Reply(s, a, cmd, first, last))
  {
    match cmd
    case CmdPin => PinEffect(s, a, first, last);
    case CmdUnpin => UnpinEffect(s, a, first, last);
    case CmdStatus => StatusEffect(s, a, first, last);
  }

  /** Everything from the very end on: no pages. */
  lemma NothingCarried(s: State, a: nat, cmd: Command)
    requires Inv(s) && Bounded(s) && a in s.areas
    ensures var e := s.areas[a].size / PAGE_SIZE;
            var t := Execute(s, a, cmd, e, e - 1);
            a in t.areas && Carried(Ranges(s, a), Ranges(t, a), cmd, e, e - 1, Reply(s, a, cmd, e, e - 1))
  {
    var e := s.areas[a].size / PAGE_SIZE;
    EndIsAbove(s, a);
    var x := Range(a, e, e - 1, false);
    CoveredInsert(Ranges(s, a), 0, x);
    assert Unpin(s, a, e, e - 1) == RangeAlloc(s, a, 0, false, e, e - 1);
    AllocFrame(s, a, 0, false, e, e - 1);
  }

  // ---------------------------------------------------------------- every run

  ghost function Run(w: World, ops: seq<Op>): World
    decreases |ops|
  {
    if ops == [] then w else Run(Step(w, ops[0]), ops[1..])
  }

  /** No step of the run is the request that unpins nothing. */
  ghost predicate Sane(w: World, ops: seq<Op>)
    decreases |ops|
  {
    ops == [] || (Fits(ops[0]) && !EmptyUnpin(w.s, ops[0]) && Sane(Step(w, ops[0]), ops[1..]))
  }

  /** Over every run on any number of areas: area lists stay descending and disjoint, the LRU
      list holds exactly the evictable ranges and the counter their pages, and every page
      truncated since its last pin lies in a range marked as purged. */
  lemma {:induction false} EveryRunGood(w: World, ops: seq<Op>)
    requires Good(w) && Sane(w, ops)
    ensures Good(Run(w, ops))
    decreases |ops|
  {
    if ops != [] {
      StepKeepsGood(w, ops[0]);
      EveryRunGood(Step(w, ops[0]), ops[1..]);
    }
  }

  /** The state after module load. */
  const EMPTY: State := State(map[], [], 0)
}
