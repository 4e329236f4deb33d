/** Requests that go to the wrong die: the select of die 1 does not take effect, or die 1 is still
  selected from before.  Nobody looks at what a select returns. */
module SpiAstray {
  import opened SpiChip
  import opened SpiFlat
  import opened SpiProtocol
  import opened SpiLine
  import opened SpiOutcomes
  import opened SpiFaults
  import opened SpiWrites
  import opened SpiSlow
  import SpiReads

  // ---------------------------------------------------------------- the select is lost

  /** A request for die 1 goes to die 1 if the chip sees the select, and 32 megabytes too low
      otherwise. */
  lemma PlaceOnDie1(fates: Fates, cfg: Config, l: Line, addr: nat)
    requires DieOf(cfg, addr) == 1
    ensures Place(fates, cfg, l, addr) == if Arrives(fates, l) then addr else addr - MB32
  {
    hide Arrives;
  }

  /** With the select lost and nothing else, a write, an erase and a read for die 1 act on die 0, in
      3-byte and in 4-byte mode, and are reported as done. */
  lemma SelectLost(fates: Fates, cfg: Config, l: Line, addr0: nat, data: seq<bv8>, buf: seq<bv8>, at: nat)
    requires ButSelectOk(fates) && Request(cfg, l.chip, addr0, |data|) && Request(cfg, l.chip, addr0, 1)
    requires Probed(cfg) && DieOf(cfg, addr0) == 1 && !Arrives(fates, l) && !Arrives(fates, Wait(fates, l).line)
    ensures var w := WriteSpan(fates, cfg, l, addr0, data);
            w.line.slow == l.slow && !SomeFault(l, w.line) ==>
              w.ret == 0 && Flat(w.line.chip.mem) == Chunked(Flat(l.chip.mem), addr0 - MB32, data)
    ensures var e := EraseSector(fates, cfg, l, addr0);
            e.line.slow == l.slow && !SomeFault(l, e.line) ==>
              e.ret == 0 && Flat(e.line.chip.mem) == SectorErased(Flat(l.chip.mem), l.chip.sector, addr0 - MB32)
    ensures var g, f := ReadSpan(fates, cfg, l, addr0, |data|, buf, at), Flat(l.chip.mem);
            !SomeFault(l, g.line) ==>
              && g.ret == 0 && addr0 - MB32 + |data| <= |f|
              && g.buf == Stored(buf, at, f[addr0 - MB32..addr0 - MB32 + |data|])
  {
    hide *;
    SectorPositive(l.chip);
    PlaceOnDie1(fates, cfg, l, addr0);
    PlaceOnDie1(fates, cfg, Wait(fates, l).line, addr0);
    LostWrite(fates, cfg, l, addr0, data);
    LostErase(fates, cfg, l, addr0);
    LostRead(fates, cfg, l, addr0, |data|, buf, at);
  }

  lemma LostWrite(fates: Fates, cfg: Config, l: Line, addr0: nat, data: seq<bv8>)
    requires ButSelectOk(fates) && Request(cfg, l.chip, addr0, |data|)
    ensures var w := WriteSpan(fates, cfg, l, addr0, data);
            w.line.slow == l.slow && !SomeFault(l, w.line) ==>
              w.ret == 0 && Flat(w.line.chip.mem) == Chunked(Flat(l.chip.mem), Place(fates, cfg, l, addr0), data)
  {
    if WriteSpan(fates, cfg, l, addr0, data).line.slow == l.slow {
      WriteLanded(fates, cfg, l, addr0, data);
    }
    hide WriteSpan, Flat, Chunked, Place, AtRest, WideSpan, SomeFault;
  }

  lemma LostErase(fates: Fates, cfg: Config, l: Line, addr0: nat)
    requires ButSelectOk(fates) && Request(cfg, l.chip, addr0, 1)
    ensures var e, w := EraseSector(fates, cfg, l, addr0), Wait(fates, l).line;
            e.line.slow == l.slow && !SomeFault(l, e.line) ==>
              && e.ret == 0
              && Flat(e.line.chip.mem) == SectorErased(Flat(l.chip.mem), l.chip.sector, Place(fates, cfg, w, addr0))
  {
    if EraseSector(fates, cfg, l, addr0).line.slow == l.slow {
      EraseLanded(fates, cfg, l, addr0);
    }
    hide EraseSector, Flat, SectorErased, Place, AtRest, Wide, SomeFault;
  }

  lemma LostRead(fates: Fates, cfg: Config, l: Line, addr0: nat, n: nat, buf: seq<bv8>, at: nat)
    requires Probed(cfg) && ButSelectOk(fates) && Request(cfg, l.chip, addr0, n)
    ensures var g, from := ReadSpan(fates, cfg, l, addr0, n, buf, at), Place(fates, cfg, Wait(fates, l).line, addr0);
            !SomeFault(l, g.line) ==>
              g.ret == 0 && from + n <= |Flat(l.chip.mem)| && g.buf == Stored(buf, at, Flat(l.chip.mem)[from..from + n])
  {
    SpiReads.ReadLanded(fates, cfg, l, addr0, n, buf, at);
    hide ReadSpan, Flat, Stored, Place, AtRest, Wide, SomeFault;
  }

  // ---------------------------------------------------------------- the chip is still busy on die 0

  /** A two-die chip that is still busy on die 0. */
  ghost predicate BusyOnDie0(cfg: Config, c: Chip) {
    Probed(cfg) && Fits(cfg, c) && cfg.address.DieLo3Hi4? && Settled(c) && c.sel == 0 && !Sel(c).wide
  }

  /** Entering a request for die 1 when the chip does not get ready in time: the select is not even
      sent.  The mode change that follows waits once more. */
  lemma EnterSlow(fates: Fates, l: Line, wide: bool)
    requires ButSelectOk(fates) && Settled(l.chip) && !Steady(l.chip) && l.chip.sel == 0 && !Sel(l.chip).wide
    requires |l.chip.mem| == 2
    ensures SlowEntry(l, wide, Enter(fates, l, l.chip.id, 1, wide))
  {
    hide PickDie, ChangeMode, Arrives;
    var l1 := PickDie(fates, l, 1).line;
    PickOutcome(fates, l, 1);
    if wide {
      ModeOutcome(fates, l1, true);
      PickKeeps(fates, ChangeMode(fates, l1, l.chip.id, true).line);
    }
  }

  ghost predicate SlowEntry(l: Line, wide: bool, e: Out) {
    && Same(l.chip, e.line.chip)
    && if Sel(l.chip).busy < 2 * MAX_READY_WAIT_COUNT then
         e.ret == 0 && Calm(l, e.line) && Steady(e.line.chip) && e.line.chip.sel == 0 && Sel(e.line.chip).wide == wide
       else if wide then e.ret == -1
       else e.ret == 0 && Settled(e.line.chip) && !Steady(e.line.chip) && !Sel(e.line.chip).wide
  }

  lemma PickKeeps(fates: Fates, l: Line)
    requires ButSelectOk(fates) && Settled(l.chip)
    ensures !Sel(l.chip).wide ==> Same(l.chip, PickDie(fates, l, 0).line.chip)
  {
    if !Sel(l.chip).wide {
      PickOutcome(fates, l, 0);
    }
  }

  /** The request for die 1 once it has been entered. */
  function SpanRest(fates: Fates, cfg: Config, e: Out, addr: nat, data: seq<bv8>, wide: bool): Out {
    if e.ret < 0 then e
    else WriteEnd(fates, WriteLoop(fates, cfg, e.line, addr, data, addr + |data| - 1), cfg.id, 1, wide)
  }

  lemma SpanFrom(fates: Fates, cfg: Config, l: Line, addr0: nat, data: seq<bv8>)
    requires DieOf(cfg, addr0) == 1
    ensures var wide := WideSpan(cfg, addr0, |data|);
            WriteSpan(fates, cfg, l, addr0, data) ==
            SpanRest(fates, cfg, Enter(fates, l, cfg.id, 1, wide), OnDie(cfg, addr0), data, wide)
  {
    hide Enter, WriteLoop, WriteEnd, Wide, OnDie;
  }

  lemma SlowThenWritten(fates: Fates, cfg: Config, l: Line, e: Out, addr: nat, data: seq<bv8>, wide: bool)
    requires ButSelectOk(fates) && SlowEntry(l, wide, e) && Sel(l.chip).busy < 2 * MAX_READY_WAIT_COUNT
    requires Probed(cfg) && CanWrite(cfg, e.line.chip, addr + |data| - 1) && data != []
    requires SpanRest(fates, cfg, e, addr, data, wide).line.slow == l.slow
    requires Dies(l.chip.mem) && addr + |data| <= |l.chip.mem[0]| && |l.chip.mem[0]| % PAGE == 0
    ensures SpanWritten(l, Chunked(Flat(l.chip.mem), addr, data), wide, SpanRest(fates, cfg, e, addr, data, wide))
  {
    hide Enter, WriteLoop, WriteEnd, Wide, ButSelectOk, AtRest, Same, Steady, Calm, CanWrite, LoopResult, SpanResult,
         SpanWritten, Follows, Flat, Chunked;
    var last := addr + |data| - 1;
    var r, m := WriteLoop(fates, cfg, e.line, addr, data, last), Chunked(l.chip.mem[0], addr, data);
    LoopOutcome(fates, cfg, e.line, addr, data, last);
    LoopFrom(l, e.line, 0, wide, addr, data, r);
    var o := WriteEnd(fates, r, cfg.id, 1, wide);
    WriteEndFollows(fates, r, cfg.id, 1, wide);
    SlowBetween(fates, l, 0, wide, m, r, o.line);
    SpanSteady(l, 0, wide, m, r);
    SameMem(l.chip, e.line.chip);
    ChipId(cfg, e.line.chip, last);
    EndOutcome(fates, r, 1, wide);
    FlatChunked(l.chip.mem, 0, addr, data);
    SpanParts(l, 0, wide, m, Chunked(Flat(l.chip.mem), addr, data), r, o);
  }

  lemma ChipId(cfg: Config, c: Chip, last: int)
    requires CanWrite(cfg, c, last)
    ensures c.id == cfg.id
  {
  }

  lemma GivesUp(fates: Fates, cfg: Config, l: Line, addr: nat, data: seq<bv8>, last: int)
    requires ButSelectOk(fates) && Settled(l.chip) && !Steady(l.chip) && !Sel(l.chip).wide && data != []
    ensures var o := WriteEnd(fates, WriteLoop(fates, cfg, l, addr, data, last), l.chip.id, 1, false);
            o.ret == -1 && o.line.chip.mem == l.chip.mem
  {
    hide WriteTurn, PickDie, Leave;
    var t := WriteTurn(fates, cfg, l, addr, data[..ChunkSize(data)], last);
    SlowTurn(fates, cfg, l, addr, data[..ChunkSize(data)], last);
    PickKeeps(fates, t.line);
  }

  lemma SlowThenNothing(fates: Fates, cfg: Config, l: Line, e: Out, addr: nat, data: seq<bv8>, wide: bool)
    requires ButSelectOk(fates) && SlowEntry(l, wide, e) && Sel(l.chip).busy >= 2 * MAX_READY_WAIT_COUNT
    requires data != [] && l.chip.id == cfg.id
    ensures var r := SpanRest(fates, cfg, e, addr, data, wide); r.ret != 0 && r.line.chip.mem == l.chip.mem
  {
    hide Enter, WriteLoop, WriteEnd, ButSelectOk, Same, Steady, Settled;
    SameMem(l.chip, e.line.chip);
    if !wide {
      GivesUp(fates, cfg, e.line, addr, data, addr + |data| - 1);
    }
  }

  /** A request for die 1 while the chip is busy on die 0, as seen from die 0. */
  lemma SeenFromDie0(cfg: Config, c: Live, addr0: nat, n: nat)
    requires BusyOnDie0(cfg, c) && MB32 <= addr0 && n > 0 && addr0 + n <= |Flat(c.mem)|
    ensures Settled(c) && c.sel == 0 && !Sel(c).wide && |c.mem| == 2 && c.id == cfg.id && Probed(cfg)
    ensures DieOf(cfg, addr0) == 1 && OnDie(cfg, addr0) == addr0 - MB32
    ensures Dies(c.mem) && addr0 - MB32 + n <= |c.mem[0]| && |c.mem[0]| % PAGE == 0
    ensures Sel(c).busy < MAX_READY_WAIT_COUNT <==> Steady(c)
    ensures Steady(c) ==> Request(cfg, c, addr0, n)
  {
    FlatTwo(c.mem);
    hide Flat;
  }

  lemma CanWriteDie0(cfg: Config, c: Live, addr0: nat, n: nat, l: Line, e: Out)
    requires BusyOnDie0(cfg, c) && MB32 <= addr0 && n > 0 && addr0 + n <= |Flat(c.mem)| && l.chip == c
    requires SlowEntry(l, WideSpan(cfg, addr0, n), e) && Sel(c).busy < 2 * MAX_READY_WAIT_COUNT
    ensures CanWrite(cfg, e.line.chip, OnDie(cfg, addr0) + n - 1)
  {
    FlatTwo(c.mem);
    NarrowReaches(cfg, cfg.ioWrite, c, 0, OnDie(cfg, addr0) + n - 1);
    hide Wide, Flat;
  }

  /** A write for die 1, without a slow program, to a chip that needs `b` more status reads to get
      ready: it goes to its place if the chip gets ready in time; else it goes to die 0, 32
      megabytes too low, reported as any write, unless the chip is not ready after waiting twice. */
  lemma DieSelectIgnored(fates: Fates, cfg: Config, l: Line, addr0: nat, data: seq<bv8>)
    requires ButSelectOk(fates) && BusyOnDie0(cfg, l.chip) && WriteSpan(fates, cfg, l, addr0, data).line.slow == l.slow
    requires MB32 <= addr0 && data != [] && addr0 + |data| <= |Flat(l.chip.mem)|
    ensures var r, b, f := WriteSpan(fates, cfg, l, addr0, data), Sel(l.chip).busy, Flat(l.chip.mem);
            var wide := WideSpan(cfg, addr0, |data|);
            && (b < MAX_READY_WAIT_COUNT ==> SpanWritten(l, Chunked(f, Place(fates, cfg, l, addr0), data), wide, r))
            && (MAX_READY_WAIT_COUNT <= b < 2 * MAX_READY_WAIT_COUNT ==>
                  SpanWritten(l, Chunked(f, addr0 - MB32, data), wide, r))
            && (b >= 2 * MAX_READY_WAIT_COUNT ==> r.ret != 0 && r.line.chip.mem == l.chip.mem)
  {
    hide *;
    var wide := WideSpan(cfg, addr0, |data|);
    SeenFromDie0(cfg, l.chip, addr0, |data|);
    if Steady(l.chip) {
      WriteLanded(fates, cfg, l, addr0, data);
    } else {
      EnterSlow(fates, l, wide);
      var e := Enter(fates, l, cfg.id, 1, wide);
      SpanFrom(fates, cfg, l, addr0, data);
      if Sel(l.chip).busy < 2 * MAX_READY_WAIT_COUNT {
        CanWriteDie0(cfg, l.chip, addr0, |data|, l, e);
        SlowThenWritten(fates, cfg, l, e, OnDie(cfg, addr0), data, wide);
      } else {
        SlowThenNothing(fates, cfg, l, e, OnDie(cfg, addr0), data, wide);
      }
    }
  }

  // ---------------------------------------------------------------- die 1 is still selected

  /** A two-die chip with die 1 left selected. */
  ghost predicate LeftOnDie1(cfg: Config, c: Chip) {
    Probed(cfg) && Fits(cfg, c) && cfg.address.DieLo3Hi4? && Steady(c) && c.sel == 1 && !Sel(c).wide
  }

  lemma EnterOnDie1(fates: Fates, l: Line, wide: bool)
    requires ButSelectOk(fates) && Steady(l.chip) && l.chip.sel == 1 && !Sel(l.chip).wide
    ensures var e := Enter(fates, l, l.chip.id, 0, wide);
            && e.ret == 0 && Calm(l, e.line) && Same(l.chip, e.line.chip) && Steady(e.line.chip)
            && e.line.chip.sel == 1 && Sel(e.line.chip).wide == wide
  {
    hide ChangeMode;
    ModeOutcome(fates, l, true);
  }

  lemma LeaveOnDie1(fates: Fates, l: Line, wide: bool, soFar: int)
    requires ButSelectOk(fates) && Steady(l.chip) && l.chip.sel == 1 && Sel(l.chip).wide == wide
    ensures var r := Leave(fates, l, l.chip.id, 0, wide, soFar);
            && r.ret == (if wide then 0 else soFar) && Calm(l, r.line) && Same(l.chip, r.line.chip)
            && Steady(r.line.chip) && r.line.chip.sel == 1 && !Sel(r.line.chip).wide
  {
    hide ChangeMode;
    ModeOutcome(fates, l, false);
  }

  lemma EndOnDie1(fates: Fates, r: Ended, wide: bool)
    requires ButSelectOk(fates) && Steady(r.line.chip) && r.line.chip.sel == 1 && Sel(r.line.chip).wide == wide
    requires r.end.Done? || r.end.Failed?
    ensures var o := WriteEnd(fates, r, r.line.chip.id, 0, wide);
            && o.ret == (if r.end.Failed? && !wide then -1 else 0)
            && Calm(r.line, o.line) && Same(r.line.chip, o.line.chip)
            && Steady(o.line.chip) && o.line.chip.sel == 1 && !Sel(o.line.chip).wide
  {
    hide Leave, PickDie, Steady, Same, ButSelectOk;
    LeaveOnDie1(fates, r.line, wide, if r.end.Failed? then -1 else 0);
  }

  /** A write on die 1 that leaves die 1 selected. */
  ghost predicate WrittenOnDie1(cfg: Config, l: Line, m: seq<bv8>, wide: bool, r: Out) {
    && LeftOnDie1(cfg, r.line.chip) && |l.chip.mem| == 2
    && Blamed(l, r.line, wide, SomeFault(l, r.line)) && (r.ret != 0 <==> SomeFault(l, r.line) && !wide)
    && (!SomeFault(l, r.line) ==> r.line.chip.mem == l.chip.mem[1 := m])
  }

  lemma Die1Parts(cfg: Config, l: Line, wide: bool, m: seq<bv8>, r: Ended, o: Out)
    requires LeftOnDie1(cfg, l.chip) && SpanResult(l, 1, wide, m, r) && r.line.slow == l.slow
    requires Calm(r.line, o.line) && Same(r.line.chip, o.line.chip)
    requires Steady(o.line.chip) && o.line.chip.sel == 1 && !Sel(o.line.chip).wide
    requires o.ret == if r.end.Failed? && !wide then -1 else 0
    ensures WrittenOnDie1(cfg, l, m, wide, o)
  {
    ShapeFits(cfg, l.chip, r.line.chip);
    ShapeFits(cfg, r.line.chip, o.line.chip);
    hide Fits, Settled;
  }

  lemma SeenFromDie1(cfg: Config, c: Live, addr0: nat, n: nat)
    requires LeftOnDie1(cfg, c) && n > 0 && addr0 + n <= MB32
    ensures Probed(cfg) && Steady(c) && c.sel == 1 && !Sel(c).wide && c.id == cfg.id && |c.mem| == 2
    ensures DieOf(cfg, addr0) == 0 && OnDie(cfg, addr0) == addr0
  {
  }

  lemma CanWriteDie1(cfg: Config, c: Live, addr0: nat, n: nat, e: Chip)
    requires LeftOnDie1(cfg, c) && n > 0 && addr0 + n <= MB32 && Same(c, e) && Steady(e) && e.sel == 1
    requires Sel(e).wide == WideSpan(cfg, addr0, n)
    ensures CanWrite(cfg, e, OnDie(cfg, addr0) + n - 1)
  {
    NarrowReaches(cfg, cfg.ioWrite, c, 1, OnDie(cfg, addr0) + n - 1);
    hide Wide;
  }

  /** With die 1 left selected, a write for die 0 is carried out on die 1, at the same place, and
      reported like any other; die 1 stays selected for the next one. */
  lemma WriteAstray(fates: Fates, cfg: Config, l: Line, addr0: nat, data: seq<bv8>)
    requires ButSelectOk(fates) && LeftOnDie1(cfg, l.chip) && data != [] && addr0 + |data| <= MB32
    requires WriteSpan(fates, cfg, l, addr0, data).line.slow == l.slow
    ensures WrittenOnDie1(cfg, l, DieWritten(l.chip, 1, addr0, data), WideSpan(cfg, addr0, |data|),
                          WriteSpan(fates, cfg, l, addr0, data))
  {
    hide *;
    var wide := WideSpan(cfg, addr0, |data|);
    SeenFromDie1(cfg, l.chip, addr0, |data|);
    EnterOnDie1(fates, l, wide);
    var e := Enter(fates, l, cfg.id, 0, wide).line;
    CanWriteDie1(cfg, l.chip, addr0, |data|, e.chip);
    LoopOutcome(fates, cfg, e, addr0, data, addr0 + |data| - 1);
    SpanLoopIs(fates, cfg, l, addr0, data);
    var r := SpanLoop(fates, cfg, l, addr0, data);
    LoopFrom(l, e, 1, wide, addr0, data, r);
    var m := DieWritten(l.chip, 1, addr0, data);
    Die1Memory(l.chip, addr0, data);
    SpanIsEnd(fates, cfg, l, addr0, data);
    WriteEndFollows(fates, r, cfg.id, 0, wide);
    SlowBetween(fates, l, 1, wide, m, r, WriteSpan(fates, cfg, l, addr0, data).line);
    SpanSteady(l, 1, wide, m, r);
    EndOnDie1(fates, r, wide);
    Die1Parts(cfg, l, wide, m, r, WriteSpan(fates, cfg, l, addr0, data));
  }

  lemma Die1Memory(c: Live, addr: nat, data: seq<bv8>)
    ensures 1 < |c.mem| ==> DieWritten(c, 1, addr, data) == Chunked(c.mem[1], addr, data)
  {
  }

  lemma SpanIsEnd(fates: Fates, cfg: Config, l: Line, addr0: nat, data: seq<bv8>)
    requires Enter(fates, l, cfg.id, DieOf(cfg, addr0), WideSpan(cfg, addr0, |data|)).ret == 0
    ensures WriteSpan(fates, cfg, l, addr0, data) ==
            WriteEnd(fates, SpanLoop(fates, cfg, l, addr0, data), cfg.id, DieOf(cfg, addr0),
                     WideSpan(cfg, addr0, |data|))
  {
    hide Enter, WriteLoop, WriteEnd, Wide, DieOf, OnDie;
  }

  // ---------------------------------------------------------------- quick pages

  /** The request is one quick page. */
  ghost predicate QuickPage(fates: Fates, cfg: Config, addr0: nat, n: nat, d: nat) {
    && AllOk(fates) && Takes(fates, PageCommand(cfg, addr0, n), d) && d < MAX_READY_WAIT_COUNT && Unflagged(cfg)
    && 0 < n <= PAGE
  }

  lemma QuickPageFacts(fates: Fates, cfg: Config, addr0: nat, n: nat, d: nat)
    requires QuickPage(fates, cfg, addr0, n, d)
    ensures AllOk(fates) && Takes(fates, ProgramCommand(cfg, OnDie(cfg, addr0), OnDie(cfg, addr0) + n - 1), d)
    ensures Unflagged(cfg) && 0 < n <= PAGE && d < MAX_READY_WAIT_COUNT
  {
    hide AllOk, Takes, ProgramCommand, OnDie;
  }

  lemma QuickWhileBusy(fates: Fates, cfg: Config, l: Line, addr0: nat, data: seq<bv8>, d: nat)
    requires QuickPage(fates, cfg, addr0, |data|, d) && BusyOnDie0(cfg, l.chip)
    requires MB32 <= addr0 && addr0 + |data| <= |Flat(l.chip.mem)|
    requires MAX_READY_WAIT_COUNT <= Sel(l.chip).busy < 2 * MAX_READY_WAIT_COUNT
    ensures WriteSpan(fates, cfg, l, addr0, data).line.slow == l.slow
  {
    hide *;
    var wide := WideSpan(cfg, addr0, |data|);
    QuickPageFacts(fates, cfg, addr0, |data|, d);
    OkControl(fates);
    SeenFromDie0(cfg, l.chip, addr0, |data|);
    EnterSlow(fates, l, wide);
    var e := Enter(fates, l, cfg.id, 1, wide);
    CanWriteDie0(cfg, l.chip, addr0, |data|, l, e);
    EntryFacts(l, wide, e);
    QuickTurn(fates, cfg, e.line, OnDie(cfg, addr0), data, d);
    SpanLoopIs(fates, cfg, l, addr0, data);
    SpanIsEnd(fates, cfg, l, addr0, data);
    EndState(fates, SpanLoop(fates, cfg, l, addr0, data), 1, wide);
    CalmSlow(l, e.line);
    CalmSlow(SpanLoop(fates, cfg, l, addr0, data).line, WriteSpan(fates, cfg, l, addr0, data).line);
  }

  lemma EntryFacts(l: Line, wide: bool, e: Out)
    requires SlowEntry(l, wide, e) && Sel(l.chip).busy < 2 * MAX_READY_WAIT_COUNT
    ensures e.ret == 0 && Calm(l, e.line) && Steady(e.line.chip) && Sel(e.line.chip).wide == wide
  {
  }

  lemma QuickOnDie1(fates: Fates, cfg: Config, l: Line, addr0: nat, data: seq<bv8>, d: nat)
    requires QuickPage(fates, cfg, addr0, |data|, d) && LeftOnDie1(cfg, l.chip) && addr0 + |data| <= MB32
    ensures WriteSpan(fates, cfg, l, addr0, data).line.slow == l.slow
  {
    hide *;
    var wide := WideSpan(cfg, addr0, |data|);
    QuickPageFacts(fates, cfg, addr0, |data|, d);
    OkControl(fates);
    SeenFromDie1(cfg, l.chip, addr0, |data|);
    EnterOnDie1(fates, l, wide);
    var e := Enter(fates, l, cfg.id, 0, wide);
    CanWriteDie1(cfg, l.chip, addr0, |data|, e.line.chip);
    QuickTurn(fates, cfg, e.line, OnDie(cfg, addr0), data, d);
    SpanLoopIs(fates, cfg, l, addr0, data);
    SpanIsEnd(fates, cfg, l, addr0, data);
    EndState(fates, SpanLoop(fates, cfg, l, addr0, data), 0, wide);
    CalmSlow(l, e.line);
    CalmSlow(SpanLoop(fates, cfg, l, addr0, data).line, WriteSpan(fates, cfg, l, addr0, data).line);
  }

  // ---------------------------------------------------------------- two writes

  /** A slow page on die 0 in 3-byte mode, returned as done, and then a page for die 1: it goes to
      die 0 and is returned as done too. */
  lemma NextOnDie0(fates: Fates, cfg: Config, l: Line, a1: nat, d1: seq<bv8>, slow: nat, a2: nat, d2: seq<bv8>, d: nat)
    requires AllOk(fates) && Takes(fates, PageCommand(cfg, a1, |d1|), slow) && Unflagged(cfg)
    requires Request(cfg, l.chip, a1, |d1|) && |d1| <= PAGE && !WideSpan(cfg, a1, |d1|) && DieOf(cfg, a1) == 0
    requires cfg.address.DieLo3Hi4? && MAX_READY_WAIT_COUNT <= slow < 2 * MAX_READY_WAIT_COUNT
    requires QuickPage(fates, cfg, a2, |d2|, d) && MB32 <= a2 && a2 + |d2| <= |Flat(l.chip.mem)|
    ensures var w1 := WriteSpan(fates, cfg, l, a1, d1); var w2 := WriteSpan(fates, cfg, w1.line, a2, d2);
            && w1.ret == 0 && w2.ret == 0
            && Flat(w2.line.chip.mem) == Chunked(Chunked(Flat(l.chip.mem), a1, d1), a2 - MB32, d2)
  {
    hide *;
    var w1 := WriteSpan(fates, cfg, l, a1, d1);
    OkControl(fates);
    QuickPageFacts(fates, cfg, a2, |d2|, d);
    OnePage(fates, cfg, l, a1, d1, slow);
    NarrowPage(fates, cfg, l, a1, d1, slow);
    BusyNow(cfg, w1.line.chip);
    SizeKept(Flat(l.chip.mem), Flat(w1.line.chip.mem), a1, d1);
    QuickWhileBusy(fates, cfg, w1.line, a2, d2, d);
    NotNothing(d2);
    DieSelectIgnored(fates, cfg, w1.line, a2, d2);
    WriteSpanFollows(fates, cfg, w1.line, a2, d2);
    OkWritten(fates, w1.line, Chunked(Flat(w1.line.chip.mem), a2 - MB32, d2), WideSpan(cfg, a2, |d2|),
              WriteSpan(fates, cfg, w1.line, a2, d2));
  }

  lemma BusyNow(cfg: Config, c: Chip)
    requires Probed(cfg) && Fits(cfg, c) && cfg.address.DieLo3Hi4? && Settled(c) && c.sel == 0 && !Sel(c).wide
    ensures BusyOnDie0(cfg, c)
  {
  }

  lemma SizeKept(f: seq<bv8>, g: seq<bv8>, addr: nat, data: seq<bv8>)
    requires g == Chunked(f, addr, data)
    ensures |g| == |f|
  {
  }

  lemma NotNothing(data: seq<bv8>)
    requires 0 < |data|
    ensures data != []
  {
  }

  lemma OkWritten(fates: Fates, l: Line, f: seq<bv8>, wide: bool, r: Out)
    requires AllOk(fates) && SpanWritten(l, f, wide, r) && Follows(fates, l, r.line)
    ensures r.ret == 0 && Flat(r.line.chip.mem) == f
  {
    hide Flat, AtRest, AllOk;
  }

  /** A slow page on die 1 in 3-byte mode, returned as done, and then a page for die 0: it goes to
      die 1 and is returned as done too. */
  lemma NextOnDie1(fates: Fates, cfg: Config, l: Line, a1: nat, d1: seq<bv8>, slow: nat, a2: nat, d2: seq<bv8>, d: nat)
    requires AllOk(fates) && Takes(fates, PageCommand(cfg, a1, |d1|), slow) && Unflagged(cfg)
    requires Request(cfg, l.chip, a1, |d1|) && |d1| <= PAGE && !WideSpan(cfg, a1, |d1|) && DieOf(cfg, a1) == 1
    requires cfg.address.DieLo3Hi4? && MAX_READY_WAIT_COUNT <= slow < 2 * MAX_READY_WAIT_COUNT
    requires QuickPage(fates, cfg, a2, |d2|, d) && a2 + |d2| <= MB32
    ensures var w1 := WriteSpan(fates, cfg, l, a1, d1); var w2 := WriteSpan(fates, cfg, w1.line, a2, d2);
            && w1.ret == 0 && w2.ret == 0 && |w1.line.chip.mem| == 2 && w2.line.chip.sel == 1
            && Flat(w1.line.chip.mem) == Chunked(Flat(l.chip.mem), a1, d1)
            && w2.line.chip.mem == w1.line.chip.mem[1 := DieWritten(w1.line.chip, 1, a2, d2)]
  {
    hide *;
    var w1 := WriteSpan(fates, cfg, l, a1, d1);
    OkControl(fates);
    QuickPageFacts(fates, cfg, a2, |d2|, d);
    OnePage(fates, cfg, l, a1, d1, slow);
    NarrowPage(fates, cfg, l, a1, d1, slow);
    LeftNow(cfg, w1.line.chip, slow);
    QuickOnDie1(fates, cfg, w1.line, a2, d2, d);
    NotNothing(d2);
    WriteAstray(fates, cfg, w1.line, a2, d2);
    WriteSpanFollows(fates, cfg, w1.line, a2, d2);
    OkOnDie1(fates, cfg, w1.line, DieWritten(w1.line.chip, 1, a2, d2), WideSpan(cfg, a2, |d2|),
             WriteSpan(fates, cfg, w1.line, a2, d2));
  }

  lemma LeftNow(cfg: Config, c: Chip, slow: nat)
    requires Probed(cfg) && Fits(cfg, c) && cfg.address.DieLo3Hi4? && Settled(c) && c.sel == 1 && !Sel(c).wide
    requires Sel(c).busy == Less(slow) && slow < 2 * MAX_READY_WAIT_COUNT
    ensures LeftOnDie1(cfg, c)
  {
  }

  lemma OkOnDie1(fates: Fates, cfg: Config, l: Line, m: seq<bv8>, wide: bool, r: Out)
    requires AllOk(fates) && WrittenOnDie1(cfg, l, m, wide, r) && Follows(fates, l, r.line)
    ensures r.ret == 0 && |l.chip.mem| == 2 && r.line.chip.sel == 1 && r.line.chip.mem == l.chip.mem[1 := m]
  {
    hide AllOk;
  }
}
