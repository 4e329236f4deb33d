/** Programming and erasing: what reaches the memory, and which failures are reported. */
module SpiWrites {
  import opened Arith
  import opened SpiChip
  import opened SpiFlat
  import opened SpiProtocol
  import opened SpiLine
  import opened SpiOutcomes
  import opened SpiFaults

  // ---------------------------------------------------------------- one array command

  /** The program command buffer decodes to the address in the mode the driver has entered. */
  lemma ProgramParses(cfg: Config, addr: nat, last: int)
    requires Probed(cfg) && addr < 0x1_0000_0000 && (!Wide(cfg, cfg.ioWrite, last) ==> addr < MB16)
    ensures Parse(cfg.id, Wide(cfg, cfg.ioWrite, last), ProgramCommand(cfg, addr, last)) == Program(addr)
  {
    var cmd := ProgramCommand(cfg, addr, last);
    if Wide(cfg, cfg.ioWrite, last) {
      assert cmd[1..5] == WideAddress(addr);
      ParseWide(cfg.id, true, addr, cmd);
    } else {
      assert cmd[1..4] == NarrowAddress(addr);
      ParseNarrow(cfg.id, addr, cmd);
    }
  }

  /** So does the erase command buffer. */
  lemma EraseParses(cfg: Config, addr: nat)
    requires addr < 0x1_0000_0000 && (!Wide(cfg, cfg.ioWrite, addr) ==> addr < MB16)
    ensures Parse(cfg.id, Wide(cfg, cfg.ioWrite, addr), EraseCommand(cfg, addr)) == SpiChip.Erase(addr)
  {
    var cmd := EraseCommand(cfg, addr);
    if Wide(cfg, cfg.ioWrite, addr) {
      assert cmd[1..5] == WideAddress(addr);
      ParseWide(cfg.id, true, addr, cmd);
    } else {
      assert cmd[1..4] == NarrowAddress(addr);
      ParseNarrow(cfg.id, addr, cmd);
    }
  }

  lemma SendArray(fates: Fates, l: Line, cmd: seq<Byte>, data: seq<bv8>)
    requires IsArray(cmd)
    ensures var r, f := Send(fates, l, cmd, data), fates(l.sent, cmd);
            && r.line.chip == (if f.ok || f.seen then Execute(l.chip, cmd, data, f.delay) else l.chip)
            && (r.ret == 0 <==> f.ok) && Blamed(l, r.line, Sel(l.chip).wide, !f.ok)
            && r.line.slow == Count(l.slow, (f.ok || f.seen) && f.delay >= MAX_READY_WAIT_COUNT)
  {
    hide Execute;
  }

  /** Enable and disable around a command that did not arrive. */
  lemma CycleMissed(c: Chip, d0: nat, d2: nat)
    requires Idle(c)
    ensures WellFormed(Execute(c, [0x06], [], d0))
    ensures Execute(Execute(c, [0x06], [], d0), [0x04], [], d2) == c
    ensures Sel(Execute(c, [0x06], [], d0)).wide == Sel(c).wide
  {
    LatchCommand(c, true, d0);
    LatchCommand(WithLatch(c, true), false, d2);
    hide Execute;
    RegsTwice(c, Sel(c).(wel := true), Sel(c));
  }

  /** What the three transfers of an array command leave behind. */
  ghost predicate CarryResult(l: Line, cmd: seq<Byte>, data: seq<bv8>, r: Out)
    requires ArrayWrite(l.chip, cmd)
  {
    && Settled(r.line.chip) && Moved(l.chip, r.line.chip) && Shape(l.chip, r.line.chip)
    && Blamed(l, r.line, Sel(l.chip).wide, r.ret != 0)
    && (r.ret == 0 ==> Carried(l.chip, cmd, data, r.line.chip))
    && l.slow <= r.line.slow && (Steady(r.line.chip) <==> r.line.slow == l.slow)
  }

  lemma CarryOutcome(fates: Fates, l: Line, cmd: seq<Byte>, data: seq<bv8>)
    requires ButSelectOk(fates) && Idle(l.chip) && IsArray(cmd) && ArrayWrite(l.chip, cmd)
    ensures CarryResult(l, cmd, data, Carry(fates, l, cmd, data))
  {
    CarryFollows(fates, l, cmd, data);
    hide Execute, Send, Parse, ArrayWrite, Idle, Quick, Dead, AllOk;
    var e := Send(fates, l, [0x06], []).line;
    var s := Send(fates, e, cmd, data).line;
    SendControl(fates, l, [0x06]);
    SendArray(fates, e, cmd, data);
    SendControl(fates, s, [0x04]);
    var d0, f, d2 := fates(l.sent, [0x06]).delay, fates(e.sent, cmd), fates(s.sent, [0x04]).delay;
    CycleMissed(l.chip, d0, d2);
    IdleMoved(l.chip);
    if f.ok || f.seen {
      Cycle(l.chip, cmd, data, d0, f.delay, d2);
    }
  }

  lemma IdleMoved(c: Chip)
    requires Idle(c)
    ensures Steady(c) && Sel(c).busy == 0 && Moved(c, c)
  {
  }

  /** All transfers but write enables succeed. */
  ghost predicate ButEnableOk(fates: Fates) { forall n, cmd :: cmd != [0x06] ==> fates(n, cmd).ok }

  /** The result of the write enable is not looked at: when it is lost, the array command is
      refused by the chip and reported as carried out. */
  lemma EnableLost(fates: Fates, l: Line, cmd: seq<Byte>, data: seq<bv8>)
    requires Idle(l.chip) && ArrayWrite(l.chip, cmd) && IsArray(cmd)
    requires ButEnableOk(fates)
    ensures var r, f := Carry(fates, l, cmd, data), fates(l.sent, [0x06]);
            && r.ret == 0
            && (f.ok || f.seen ==> Carried(l.chip, cmd, data, r.line.chip))
            && (!f.ok && !f.seen ==> r.line.chip.mem == l.chip.mem && r.line.chip.refused == l.chip.refused + 1)
  {
    var e := Send(fates, l, [0x06], []).line;
    var s := Send(fates, e, cmd, data).line;
    var d0, f, d2 := fates(l.sent, [0x06]).delay, fates(e.sent, cmd), fates(s.sent, [0x04]).delay;
    assert cmd != [0x06] by { assert |cmd| != |[0x06]|; }
    if fates(l.sent, [0x06]).ok || fates(l.sent, [0x06]).seen {
      hide Execute, Parse, ArrayWrite;
      Cycle(l.chip, cmd, data, d0, f.delay, d2);
    } else {
      Refused(l.chip, cmd, data, f.delay);
      hide Execute, Parse, ArrayWrite;
      LatchCommand(s.chip, false, d2);
    }
  }

  lemma Refused(c: Chip, cmd: seq<Byte>, data: seq<bv8>, delay: nat)
    requires Idle(c) && ArrayWrite(c, cmd)
    ensures Execute(c, cmd, data, delay) == c.(refused := c.refused + 1)
  {
  }

  /** The flag status register is polled by the chips that want it; a slow program is noticed there. */
  lemma FlagOutcome(fates: Fates, l: Line, id: nat)
    requires ButSelectOk(fates) && Settled(l.chip)
    ensures var r := Flag(fates, l, id);
            && Calm(l, r.line) && Later(l.chip, r.line.chip) && r.line.chip.id == l.chip.id
            && (Steady(l.chip) ==> r.ret == 0 && Steady(r.line.chip))
            && (r.ret == 0 && !Steady(l.chip) ==> r.line.chip == l.chip)
  {
    WaitOutcome(fates, l, true);
    hide Poll;
  }

  // ---------------------------------------------------------------- the programming loop

  /** The selected die is in the mode for a write up to `last` and has that many bytes. */
  ghost predicate CanWrite(cfg: Config, c: Chip, last: int) {
    && Settled(c) && c.id == cfg.id && Sel(c).wide == Wide(cfg, cfg.ioWrite, last) && last < |c.mem[c.sel]|
    && last < 0x1_0000_0000 && (!Wide(cfg, cfg.ioWrite, last) ==> last < MB16)
  }

  /** The memory with die `sel` replaced. */
  function Put(c: Live, m: seq<bv8>): seq<seq<bv8>> { c.mem[c.sel := m] }

  ghost predicate LoopResult(l: Line, addr: nat, data: seq<bv8>, r: Ended) {
    && Settled(r.line.chip) && Moved(l.chip, r.line.chip) && Shape(l.chip, r.line.chip) && l.slow <= r.line.slow
    && (r.end.Done? ==>
          && Blamed(l, r.line, Sel(l.chip).wide, false)
          && r.line.chip.mem == Put(l.chip, Chunked(l.chip.mem[l.chip.sel], addr, data)))
    && (r.line.slow == l.slow ==>
          && Steady(r.line.chip) && (r.end.Done? || r.end.Failed?)
          && Blamed(l, r.line, Sel(l.chip).wide, r.end.Failed?))
    && (r.line.slow > l.slow ==> r.end.NotReady? || r.end.NotFlagged? || !Steady(r.line.chip))
  }

  /** A chip that is still busy with the last chunk when the driver gives up. */
  lemma SlowTurn(fates: Fates, cfg: Config, l: Line, addr: nat, chunk: seq<bv8>, last: int)
    requires ButSelectOk(fates) && Settled(l.chip) && !Steady(l.chip)
    ensures var r := WriteTurn(fates, cfg, l, addr, chunk, last);
            r.end == NotReady && Calm(l, r.line) && Later(l.chip, r.line.chip)
  {
    hide Poll, Carry, Flag, ProgramCommand;
    WaitOutcome(fates, l, false);
  }

  ghost predicate TurnResult(l: Line, addr: nat, chunk: seq<bv8>, r: Ended) {
    && Settled(r.line.chip) && Moved(l.chip, r.line.chip) && Shape(l.chip, r.line.chip) && l.slow <= r.line.slow
    && (r.end.Done? ==>
          && Blamed(l, r.line, Sel(l.chip).wide, false)
          && r.line.chip.mem == Put(l.chip, Programmed(l.chip.mem[l.chip.sel], addr, chunk)))
    && (r.line.slow == l.slow ==>
          && Steady(r.line.chip) && (r.end.Done? || r.end.Failed?)
          && Blamed(l, r.line, Sel(l.chip).wide, r.end.Failed?))
    && (r.line.slow > l.slow ==> r.end.NotFlagged? || !Steady(r.line.chip))
  }

  lemma TurnOutcome(fates: Fates, cfg: Config, l: Line, addr: nat, chunk: seq<bv8>, last: int)
    requires ButSelectOk(fates) && Probed(cfg) && CanWrite(cfg, l.chip, last) && Steady(l.chip) && addr <= last
    ensures TurnResult(l, addr, chunk, WriteTurn(fates, cfg, l, addr, chunk, last))
  {
    var cmd := ProgramCommand(cfg, addr, last);
    var w := Wait(fates, l).line;
    ProgramParses(cfg, addr, last);
    WaitOutcome(fates, l, false);
    ModeOfLater(l.chip, w.chip);
    hide Poll, Carry, Flag, ProgramCommand, Parse, Wide, Programmed, Shape, CarryResult, TurnResult;
    CarryOutcome(fates, w, cmd, chunk);
    var k := Carry(fates, w, cmd, chunk);
    CarrySettled(w, cmd, chunk, k);
    FlagOutcome(fates, k.line, cfg.id);
    TurnParts(l, w, cmd, addr, chunk, k, Flag(fates, k.line, cfg.id));
  }

  lemma ModeOfLater(c: Chip, d: Chip)
    requires Steady(c) && WellFormed(d) && Later(c, d) && Sel(d).busy == 0
    ensures Idle(d) && d.id == c.id && Sel(d).wide == Sel(c).wide && |d.mem[d.sel]| == |c.mem[c.sel]|
  {
  }

  lemma CarrySettled(l: Line, cmd: seq<Byte>, data: seq<bv8>, r: Out)
    requires ArrayWrite(l.chip, cmd) && CarryResult(l, cmd, data, r)
    ensures Settled(r.line.chip)
  {
  }

  lemma TurnParts(l: Line, w: Line, cmd: seq<Byte>, addr: nat, chunk: seq<bv8>, k: Out, f: Out)
    requires Steady(l.chip) && Calm(l, w) && Later(l.chip, w.chip) && addr < |l.chip.mem[l.chip.sel]|
    requires Parse(w.chip.id, Sel(w.chip).wide, cmd) == Program(addr) && CarryResult(w, cmd, chunk, k)
    requires k.ret <= 0 && Calm(k.line, f.line) && Later(k.line.chip, f.line.chip)
    requires Steady(k.line.chip) ==> f.ret == 0 && Steady(f.line.chip)
    requires f.ret == 0 && !Steady(k.line.chip) ==> f.line.chip == k.line.chip
    ensures TurnResult(l, addr, chunk,
                       Ended(f.line, if f.ret != 0 then NotFlagged else if k.ret < 0 then Failed else Done))
  {
    hide Parse, Programmed, SectorErased;
    DivModUnique(addr, 0, addr, |w.chip.mem[w.chip.sel]|);
  }

  lemma TurnCanWrite(cfg: Config, l: Line, addr: nat, chunk: seq<bv8>, last: int, r: Ended)
    requires CanWrite(cfg, l.chip, last) && TurnResult(l, addr, chunk, r)
    ensures CanWrite(cfg, r.line.chip, last)
  {
    hide Wide;
  }

  lemma NothingWritten(l: Line, addr: nat)
    requires Steady(l.chip)
    ensures LoopResult(l, addr, [], Ended(l, Done))
  {
    ChunkedNothing(l.chip.mem[l.chip.sel], addr);
  }

  lemma LoopStops(l: Line, addr: nat, data: seq<bv8>, n: nat, r: Ended)
    requires n <= |data| && TurnResult(l, addr, data[..n], r) && r.end != Done
    ensures LoopResult(l, addr, data, r)
  {
    hide Programmed, Chunked;
  }

  lemma LoopContinues(l: Line, addr: nat, data: seq<bv8>, n: nat, t: Ended, r: Ended)
    requires data != [] && n == ChunkSize(data) && TurnResult(l, addr, data[..n], t) && t.end == Done
    requires t.line.slow == l.slow && LoopResult(t.line, addr + n, data[n..], r)
    ensures LoopResult(l, addr, data, r)
  {
    var m := l.chip.mem[l.chip.sel];
    ChunkedTurn(m, addr, data, n);
    SetTwice(l.chip.mem, l.chip.sel, Programmed(m, addr, data[..n]),
             Chunked(Programmed(m, addr, data[..n]), addr + n, data[n..]));
    hide Programmed, Chunked;
  }

  /** After a slow chunk the next turn gives up; after the last one the chip is left busy. */
  lemma SlowEnd(fates: Fates, cfg: Config, l: Line, addr: nat, data: seq<bv8>, n: nat, last: int, t: Ended)
    requires ButSelectOk(fates) && data != [] && n == ChunkSize(data) && TurnResult(l, addr, data[..n], t)
    requires t.end == Done
    requires t.line.slow > l.slow
    ensures LoopResult(l, addr, data, WriteLoop(fates, cfg, t.line, addr + n, data[n..], last))
  {
    var m := l.chip.mem[l.chip.sel];
    ChunkedTurn(m, addr, data, n);
    ChunkedNothing(Programmed(m, addr, data[..n]), addr + n);
    hide WriteTurn, Programmed, Chunked;
    if data[n..] != [] {
      SlowTurn(fates, cfg, t.line, addr + n, data[n..][..ChunkSize(data[n..])], last);
    }
  }

  lemma {:induction false} LoopOutcome(fates: Fates, cfg: Config, l: Line, addr: nat, data: seq<bv8>, last: int)
    requires ButSelectOk(fates) && Probed(cfg) && CanWrite(cfg, l.chip, last) && Steady(l.chip)
    requires addr + |data| == last + 1
    ensures LoopResult(l, addr, data, WriteLoop(fates, cfg, l, addr, data, last))
    decreases |data|
  {
    hide WriteTurn, CanWrite, LoopResult, Steady, Settled, Moved, Shape, Programmed;
    if data == [] {
      NothingWritten(l, addr);
    } else {
      var n := ChunkSize(data);
      var t := WriteTurn(fates, cfg, l, addr, data[..n], last);
      TurnOutcome(fates, cfg, l, addr, data[..n], last);
      TurnCanWrite(cfg, l, addr, data[..n], last, t);
      if t.end != Done {
        LoopStops(l, addr, data, n, t);
      } else if t.line.slow > l.slow {
        SlowEnd(fates, cfg, l, addr, data, n, last, t);
      } else {
        LoopOutcome(fates, cfg, t.line, addr + n, data[n..], last);
        LoopContinues(l, addr, data, n, t, WriteLoop(fates, cfg, t.line, addr + n, data[n..], last));
      }
    }
  }

  // ---------------------------------------------------------------- spi_generic_write

  /** After a loop without a slow chunk: mode and die are restored, and the error of a failed
      chunk is what leaving the mode returns. */
  lemma EndOutcome(fates: Fates, r: Ended, die: Byte, wide: bool)
    requires ButSelectOk(fates) && Steady(r.line.chip) && die <= 1 && Sel(r.line.chip).wide == wide
    requires (die == 0 ==> r.line.chip.sel == 0) && (r.end.Done? || r.end.Failed?)
    ensures var o := WriteEnd(fates, r, r.line.chip.id, die, wide);
            && Calm(r.line, o.line) && Same(r.line.chip, o.line.chip) && AtRest(o.line.chip)
            && o.ret == if r.end.Failed? && !wide then -1 else 0
  {
    hide Leave, PickDie, Steady, AtRest, Same, ButSelectOk;
    if r.end.Failed? {
      LeaveOutcome(fates, r.line, die, wide, -1);
    } else {
      LeaveOutcome(fates, r.line, die, wide, 0);
    }
  }

  /** The chip after `Enter` can be written, on the die the request landed on. */
  lemma Entered(cfg: Config, c: Chip, addr: nat, n: nat, e: Chip)
    requires Request(cfg, c, addr, n)
    requires Steady(e) && Same(c, e) && Landing(cfg, addr, e.sel)
    requires Sel(e).wide == Wide(cfg, cfg.ioWrite, OnDie(cfg, addr) + n - 1)
    ensures CanWrite(cfg, e, OnDie(cfg, addr) + n - 1)
  {
    Placed(cfg, cfg.ioWrite, c, addr, n, e.sel);
    hide Wide, Flat;
  }

  /** Four address bytes are used for the request. */
  predicate WideSpan(cfg: Config, addr0: nat, n: nat) { Wide(cfg, cfg.ioWrite, OnDie(cfg, addr0) + n - 1) }

  /** The programming loop of a request on one die. */
  function SpanLoop(fates: Fates, cfg: Config, l: Line, addr0: nat, data: seq<bv8>): Ended {
    WriteLoop(fates, cfg, Enter(fates, l, cfg.id, DieOf(cfg, addr0), WideSpan(cfg, addr0, |data|)).line,
              OnDie(cfg, addr0), data, OnDie(cfg, addr0) + |data| - 1)
  }

  /** Where a request that landed on die `k` is once its array commands are through; `m` is what
      they make of the memory of the die. */
  ghost predicate SpanResult(l: Line, k: nat, wide: bool, m: seq<bv8>, r: Ended) {
    && Settled(r.line.chip) && r.line.chip.sel == k < |l.chip.mem| && Sel(r.line.chip).wide == wide
    && r.line.chip.refused == l.chip.refused && Shape(l.chip, r.line.chip) && l.slow <= r.line.slow
    && (r.end.Done? ==> Blamed(l, r.line, wide, false) && r.line.chip.mem == l.chip.mem[k := m])
    && (r.line.slow == l.slow ==>
          Steady(r.line.chip) && (r.end.Done? || r.end.Failed?) && Blamed(l, r.line, wide, r.end.Failed?))
    && (r.line.slow > l.slow ==> r.end.NotReady? || r.end.NotFlagged? || !Steady(r.line.chip))
  }

  lemma LoopFrom(l: Line, e: Line, k: nat, wide: bool, addr: nat, data: seq<bv8>, r: Ended)
    requires Calm(l, e) && Same(l.chip, e.chip) && e.chip.sel == k && Sel(e.chip).wide == wide
    requires LoopResult(e, addr, data, r)
    ensures k < |l.chip.mem| && SpanResult(l, k, wide, Chunked(l.chip.mem[k], addr, data), r)
  {
    hide Chunked;
  }

  /** What a write of `data` makes of die `k`. */
  function DieWritten(c: Live, k: nat, addr: nat, data: seq<bv8>): seq<bv8> {
    if k < |c.mem| then Chunked(c.mem[k], addr, data) else []
  }

  lemma SpanOutcome(fates: Fates, cfg: Config, l: Line, addr0: nat, data: seq<bv8>)
    requires ButSelectOk(fates) && Request(cfg, l.chip, addr0, |data|)
    ensures var die, wide, r := DieOf(cfg, addr0), WideSpan(cfg, addr0, |data|), SpanLoop(fates, cfg, l, addr0, data);
            var k := Landed(fates, l, die);
            && l.chip.id == cfg.id && k <= die <= 1 && Landing(cfg, addr0, k)
            && SpanResult(l, k, wide, DieWritten(l.chip, k, OnDie(cfg, addr0), data), r)
            && WriteSpan(fates, cfg, l, addr0, data) == WriteEnd(fates, r, cfg.id, die, wide)
  {
    hide Request, Enter, WriteLoop, WriteEnd, Wide, DieOf, OnDie, CanWrite, LoopResult, SpanResult, Steady,
         AtRest, Idle, Same, Calm, ButSelectOk, Landed, Landing, Chunked;
    var die, addr := DieOf(cfg, addr0), OnDie(cfg, addr0);
    var last := addr + |data| - 1;
    var wide := Wide(cfg, cfg.ioWrite, last);
    EnterRequest(fates, cfg, l, addr0, |data|, wide);
    var e := Enter(fates, l, cfg.id, die, wide).line;
    Entered(cfg, l.chip, addr0, |data|, e.chip);
    LoopOutcome(fates, cfg, e, addr, data, last);
    LoopFrom(l, e, Landed(fates, l, die), wide, addr, data, WriteLoop(fates, cfg, e, addr, data, last));
  }

  /** The result of a request on one die that turns the flat array into `f`: a failed transfer is
      reported exactly if no 4-byte mode had to be left, and without failures the array is `f`. */
  ghost predicate SpanWritten(l: Line, f: seq<bv8>, wide: bool, r: Out) {
    && AtRest(r.line.chip) && r.line.chip.refused == l.chip.refused && Shape(l.chip, r.line.chip)
    && Blamed(l, r.line, wide, SomeFault(l, r.line))
    && (r.ret != 0 <==> SomeFault(l, r.line) && !wide)
    && (!SomeFault(l, r.line) ==> Flat(r.line.chip.mem) == f)
  }

  lemma SpanParts(l: Line, k: nat, wide: bool, m: seq<bv8>, f: seq<bv8>, r: Ended, o: Out)
    requires SpanResult(l, k, wide, m, r) && r.line.slow == l.slow && Flat(l.chip.mem[k := m]) == f
    requires Calm(r.line, o.line) && Same(r.line.chip, o.line.chip) && AtRest(o.line.chip)
    requires o.ret == if r.end.Failed? && !wide then -1 else 0
    ensures SpanWritten(l, f, wide, o)
  {
    hide Flat, Settled;
  }

  lemma SpanSteady(l: Line, k: nat, wide: bool, m: seq<bv8>, r: Ended)
    requires SpanResult(l, k, wide, m, r) && r.line.slow == l.slow
    ensures Steady(r.line.chip) && r.line.chip.sel == k && Sel(r.line.chip).wide == wide
    ensures (r.end.Done? || r.end.Failed?) && r.line.chip.id == l.chip.id
  {
  }

  lemma SlowBetween(fates: Fates, l: Line, k: nat, wide: bool, m: seq<bv8>, r: Ended, o: Line)
    requires SpanResult(l, k, wide, m, r) && Follows(fates, r.line, o) && o.slow == l.slow
    ensures r.line.slow == l.slow
  {
  }

  /** A request on one die without a slow program: what it does, wherever it lands. */
  lemma WriteLanded(fates: Fates, cfg: Config, l: Line, addr0: nat, data: seq<bv8>)
    requires ButSelectOk(fates) && Request(cfg, l.chip, addr0, |data|)
    requires WriteSpan(fates, cfg, l, addr0, data).line.slow == l.slow
    ensures SpanWritten(l, Chunked(Flat(l.chip.mem), Place(fates, cfg, l, addr0), data), WideSpan(cfg, addr0, |data|),
                        WriteSpan(fates, cfg, l, addr0, data))
  {
    hide *;
    var die, wide := DieOf(cfg, addr0), WideSpan(cfg, addr0, |data|);
    var k, r := Landed(fates, l, die), SpanLoop(fates, cfg, l, addr0, data);
    var m := DieWritten(l.chip, k, OnDie(cfg, addr0), data);
    SpanOutcome(fates, cfg, l, addr0, data);
    FlatWritten(cfg, l.chip, addr0, data, k);
    WriteEndFollows(fates, r, cfg.id, die, wide);
    SlowBetween(fates, l, k, wide, m, r, WriteSpan(fates, cfg, l, addr0, data).line);
    SpanSteady(l, k, wide, m, r);
    EndOutcome(fates, r, die, wide);
    PlaceIs(fates, cfg, l, addr0);
    SpanParts(l, k, wide, m, Chunked(Flat(l.chip.mem), Place(fates, cfg, l, addr0), data), r,
              WriteSpan(fates, cfg, l, addr0, data));
  }

  lemma PlaceIs(fates: Fates, cfg: Config, l: Line, addr: nat)
    ensures Place(fates, cfg, l, addr) == At(Landed(fates, l, DieOf(cfg, addr)), OnDie(cfg, addr))
  {
    hide Landed, DieOf, OnDie;
  }

  lemma FlatWritten(cfg: Config, c: Live, addr0: nat, data: seq<bv8>, k: nat)
    requires Request(cfg, c, addr0, |data|) && Landing(cfg, addr0, k)
    ensures var addr := OnDie(cfg, addr0);
            k < |c.mem| && Flat(c.mem[k := DieWritten(c, k, addr, data)]) == Chunked(Flat(c.mem), At(k, addr), data)
  {
    Placed(cfg, cfg.ioWrite, c, addr0, |data|, k);
    FlatChunked(c.mem, k, OnDie(cfg, addr0), data);
    hide Chunked, Flat;
  }

  /** Without a failure the bytes are programmed, and a failed transfer is reported exactly if no
      4-byte mode had to be left. */
  lemma WriteReported(fates: Fates, cfg: Config, l: Line, addr0: nat, data: seq<bv8>)
    requires ControlOk(fates) && Request(cfg, l.chip, addr0, |data|)
    requires WriteSpan(fates, cfg, l, addr0, data).line.slow == l.slow
    ensures SpanWritten(l, Chunked(Flat(l.chip.mem), addr0, data), WideSpan(cfg, addr0, |data|),
                        WriteSpan(fates, cfg, l, addr0, data))
  {
    hide *;
    ControlButSelect(fates);
    RightPlace(fates, cfg, l, l.chip, addr0, |data|);
    WriteLanded(fates, cfg, l, addr0, data);
  }

  // ---------------------------------------------------------------- spi_generic_erase

  /** The erase command of a request, and the flag status where the chip wants it read. */
  function EraseTry(fates: Fates, cfg: Config, l: Line, addr0: nat): Ended {
    var addr := OnDie(cfg, addr0);
    var e := Enter(fates, Wait(fates, l).line, cfg.id, DieOf(cfg, addr0), Wide(cfg, cfg.ioWrite, addr)).line;
    var k := Carry(fates, e, EraseCommand(cfg, addr), []);
    var f := Flag(fates, k.line, cfg.id);
    Ended(f.line, if f.ret != 0 then NotFlagged else if k.ret < 0 then Failed else Done)
  }

  /** After the erase command: here the result of leaving the mode is always the result. */
  function EraseEnd(fates: Fates, r: Ended, id: nat, die: Byte, wide: bool): (o: Out) {
    if r.end.NotFlagged? then Out(r.line, -1)
    else Leave(fates, r.line, id, die, wide, if r.end.Failed? then -1 else 0)
  }

  /** What an erase at `addr` makes of die `k`. */
  function DieErased(c: Live, k: nat, addr: nat): seq<bv8> {
    if k < |c.mem| then SectorErased(c.mem[k], c.sector, addr) else []
  }

  /** The erase command and the flag status on the die that is selected. */
  lemma EraseTurn(fates: Fates, cfg: Config, l: Line, addr: nat)
    requires ButSelectOk(fates) && Idle(l.chip) && CanWrite(cfg, l.chip, addr)
    ensures var k := Carry(fates, l, EraseCommand(cfg, addr), []); var f := Flag(fates, k.line, cfg.id);
            SpanResult(l, l.chip.sel, Sel(l.chip).wide, DieErased(l.chip, l.chip.sel, addr),
                       Ended(f.line, if f.ret != 0 then NotFlagged else if k.ret < 0 then Failed else Done))
  {
    var cmd := EraseCommand(cfg, addr);
    EraseParses(cfg, addr);
    CarryOutcome(fates, l, cmd, []);
    var k := Carry(fates, l, cmd, []);
    CarrySettled(l, cmd, [], k);
    FlagOutcome(fates, k.line, cfg.id);
    hide Carry, Flag, EraseCommand, Parse, Wide, ButSelectOk, SectorErased, Programmed;
    ErasePieces(l, cmd, addr, k, Flag(fates, k.line, cfg.id));
  }

  lemma ErasePieces(l: Line, cmd: seq<Byte>, addr: nat, k: Out, f: Out)
    requires Idle(l.chip) && addr < |l.chip.mem[l.chip.sel]|
    requires Parse(l.chip.id, Sel(l.chip).wide, cmd) == SpiChip.Erase(addr) && CarryResult(l, cmd, [], k)
    requires k.ret <= 0 && Calm(k.line, f.line) && Later(k.line.chip, f.line.chip)
    requires Steady(k.line.chip) ==> f.ret == 0 && Steady(f.line.chip)
    requires f.ret == 0 && !Steady(k.line.chip) ==> f.line.chip == k.line.chip
    ensures SpanResult(l, l.chip.sel, Sel(l.chip).wide, DieErased(l.chip, l.chip.sel, addr),
                       Ended(f.line, if f.ret != 0 then NotFlagged else if k.ret < 0 then Failed else Done))
  {
    hide Parse, Programmed, SectorErased;
    DivModUnique(addr, 0, addr, |l.chip.mem[l.chip.sel]|);
  }

  /** Entering changes nothing a result is compared with. */
  lemma ResultFrom(l: Line, e: Line, k: nat, wide: bool, addr: nat, r: Ended)
    requires Calm(l, e) && Same(l.chip, e.chip) && SpanResult(e, k, wide, DieErased(e.chip, k, addr), r)
    ensures SpanResult(l, k, wide, DieErased(l.chip, k, addr), r)
  {
    hide SectorErased, Settled;
  }

  lemma EraseOutcome(fates: Fates, cfg: Config, l: Line, addr0: nat)
    requires ButSelectOk(fates) && Request(cfg, l.chip, addr0, 1)
    ensures var die, wide := DieOf(cfg, addr0), Wide(cfg, cfg.ioWrite, OnDie(cfg, addr0));
            var r := EraseTry(fates, cfg, l, addr0);
            var k := Landed(fates, Wait(fates, l).line, die);
            && l.chip.id == cfg.id && k <= die <= 1 && Landing(cfg, addr0, k)
            && SpanResult(l, k, wide, DieErased(l.chip, k, OnDie(cfg, addr0)), r)
            && EraseSector(fates, cfg, l, addr0) == EraseEnd(fates, r, cfg.id, die, wide)
  {
    hide Request, Poll, Enter, Leave, Carry, Flag, Wide, DieOf, OnDie, SectorErased, Steady, AtRest, Idle, Same, Calm,
         ButSelectOk, CanWrite, EraseCommand, Landed, Landing, SpanResult, DieErased;
    var die, addr := DieOf(cfg, addr0), OnDie(cfg, addr0);
    var wide := Wide(cfg, cfg.ioWrite, addr);
    var w := Wait(fates, l).line;
    WaitRequest(fates, cfg, l, addr0, 1);
    EnterRequest(fates, cfg, w, addr0, 1, wide);
    var e := Enter(fates, w, cfg.id, die, wide).line;
    SameThen(l, w, e);
    SameMem(l.chip, w.chip);
    Entered(cfg, l.chip, addr0, 1, e.chip);
    EraseTurn(fates, cfg, e, addr);
    ResultFrom(l, e, Landed(fates, w, die), wide, addr, EraseTry(fates, cfg, l, addr0));
  }

  lemma EraseEndOutcome(fates: Fates, r: Ended, die: Byte, wide: bool)
    requires ButSelectOk(fates) && Steady(r.line.chip) && die <= 1 && Sel(r.line.chip).wide == wide
    requires (die == 0 ==> r.line.chip.sel == 0) && (r.end.Done? || r.end.Failed?)
    ensures var o := EraseEnd(fates, r, r.line.chip.id, die, wide);
            && Calm(r.line, o.line) && Same(r.line.chip, o.line.chip) && AtRest(o.line.chip)
            && o.ret == if r.end.Failed? && !wide then -1 else 0
  {
    hide Leave, Steady, AtRest, Same, ButSelectOk;
    LeaveOutcome(fates, r.line, die, wide, if r.end.Failed? then -1 else 0);
  }

  lemma SectorPositive(c: Live)
    ensures c.sector > 0
  {
  }

  lemma EraseEndFollows(fates: Fates, r: Ended, id: nat, die: Byte, wide: bool)
    ensures Follows(fates, r.line, EraseEnd(fates, r, id, die, wide).line)
  {
    hide Follows, Leave;
    Nothing(fates, r.line);
    LeaveFollows(fates, r.line, id, die, wide, if r.end.Failed? then -1 else 0);
  }

  lemma FlatErased(cfg: Config, c: Live, addr0: nat, k: nat)
    requires Request(cfg, c, addr0, 1) && Landing(cfg, addr0, k)
    ensures var addr := OnDie(cfg, addr0);
            k < |c.mem| && Flat(c.mem[k := DieErased(c, k, addr)]) == SectorErased(Flat(c.mem), c.sector, At(k, addr))
  {
    Placed(cfg, cfg.ioWrite, c, addr0, 1, k);
    FlatSectorErased(c.mem, k, c.sector, OnDie(cfg, addr0));
    hide SectorErased, Flat;
  }

  /** A sector erase that is not slow: what it does, wherever it lands. */
  lemma EraseLanded(fates: Fates, cfg: Config, l: Line, addr0: nat)
    requires ButSelectOk(fates) && Request(cfg, l.chip, addr0, 1)
    requires EraseSector(fates, cfg, l, addr0).line.slow == l.slow
    ensures SpanWritten(l, SectorErased(Flat(l.chip.mem), l.chip.sector, Place(fates, cfg, Wait(fates, l).line, addr0)),
                        Wide(cfg, cfg.ioWrite, OnDie(cfg, addr0)), EraseSector(fates, cfg, l, addr0))
  {
    hide *;
    var die, wide, w := DieOf(cfg, addr0), Wide(cfg, cfg.ioWrite, OnDie(cfg, addr0)), Wait(fates, l).line;
    var k, r := Landed(fates, w, die), EraseTry(fates, cfg, l, addr0);
    var m := DieErased(l.chip, k, OnDie(cfg, addr0));
    EraseOutcome(fates, cfg, l, addr0);
    FlatErased(cfg, l.chip, addr0, k);
    EraseEndFollows(fates, r, cfg.id, die, wide);
    SlowBetween(fates, l, k, wide, m, r, EraseSector(fates, cfg, l, addr0).line);
    SpanSteady(l, k, wide, m, r);
    EraseEndOutcome(fates, r, die, wide);
    SectorPositive(l.chip);
    PlaceIs(fates, cfg, w, addr0);
    SpanParts(l, k, wide, m, SectorErased(Flat(l.chip.mem), l.chip.sector, Place(fates, cfg, w, addr0)), r,
              EraseSector(fates, cfg, l, addr0));
  }

  /** Without a failure the sector is erased, and a failed transfer is reported exactly if no
      4-byte mode had to be left. */
  lemma EraseReported(fates: Fates, cfg: Config, l: Line, addr0: nat)
    requires ControlOk(fates) && Request(cfg, l.chip, addr0, 1)
    requires EraseSector(fates, cfg, l, addr0).line.slow == l.slow
    ensures SpanWritten(l, SectorErased(Flat(l.chip.mem), l.chip.sector, addr0),
                        Wide(cfg, cfg.ioWrite, OnDie(cfg, addr0)), EraseSector(fates, cfg, l, addr0))
  {
    hide *;
    ControlButSelect(fates);
    RightPlace(fates, cfg, Wait(fates, l).line, l.chip, addr0, 1);
    EraseLanded(fates, cfg, l, addr0);
  }

  // ---------------------------------------------------------------- over both dies, by pages, by blocks

  /** The result of turning the flat array into `f`: a failure is reported exactly if it happened
      in 3-byte mode, and without failures the array is `f`. */
  ghost predicate Stores(l: Line, f: seq<bv8>, r: Out) {
    && AtRest(r.line.chip) && r.line.chip.refused == l.chip.refused && Shape(l.chip, r.line.chip)
    && l.faults3 <= r.line.faults3 && l.faults4 <= r.line.faults4
    && (r.ret == 0 <==> r.line.faults3 == l.faults3)
    && (!SomeFault(l, r.line) ==> Flat(r.line.chip.mem) == f)
  }

  lemma WrittenStores(l: Line, f: seq<bv8>, wide: bool, r: Out)
    requires SpanWritten(l, f, wide, r)
    ensures Stores(l, f, r)
  {
    hide Flat, AtRest;
  }

  /** What is needed between two requests. */
  ghost predicate Usable(cfg: Config, c: Chip) { Probed(cfg) && Fits(cfg, c) && AtRest(c) }

  lemma StoresUsable(cfg: Config, l: Line, f: seq<bv8>, r: Out)
    requires Usable(cfg, l.chip) && Stores(l, f, r)
    ensures Usable(cfg, r.line.chip) && |Flat(r.line.chip.mem)| == |Flat(l.chip.mem)|
    ensures r.line.chip.sector == l.chip.sector
  {
    ShapeFits(cfg, l.chip, r.line.chip);
    ShapeFlat(l.chip, r.line.chip);
    hide Flat;
  }

  lemma NothingStored(l: Line)
    requires AtRest(l.chip)
    ensures Stores(l, Flat(l.chip.mem), Out(l, 0))
  {
    hide Flat;
  }

  /** A failed part ends the request. */
  lemma StoresStops(l: Line, f: seq<bv8>, g: seq<bv8>, r: Out)
    requires Stores(l, f, r) && r.ret != 0
    ensures forall ret :: ret != 0 ==> Stores(l, g, r.(ret := ret))
  {
    hide Flat;
  }

  lemma StoresContinues(l: Line, f: seq<bv8>, r: Out, g: seq<bv8>, o: Out)
    requires Stores(l, f, r) && r.ret == 0 && Stores(r.line, g, o)
    ensures forall h :: (!SomeFault(l, r.line) ==> h == g) ==> Stores(l, h, o)
  {
    hide Flat, Settled;
  }

  lemma SpanStores(fates: Fates, cfg: Config, l: Line, addr: nat, data: seq<bv8>)
    requires ControlOk(fates) && Request(cfg, l.chip, addr, |data|)
    requires WriteSpan(fates, cfg, l, addr, data).line.slow == l.slow
    ensures Stores(l, Chunked(Flat(l.chip.mem), addr, data), WriteSpan(fates, cfg, l, addr, data))
  {
    hide *;
    WriteReported(fates, cfg, l, addr, data);
    WrittenStores(l, Chunked(Flat(l.chip.mem), addr, data), WideSpan(cfg, addr, |data|),
                  WriteSpan(fates, cfg, l, addr, data));
  }

  /** Neither part is slow if both together are not. */
  lemma NoneSlow(fates: Fates, l: Line, w: Line, r: Line)
    requires Follows(fates, l, w) && Follows(fates, w, r) && r.slow == l.slow
    ensures w.slow == l.slow
  {
  }

  /** `spi_generic_write` */
  lemma WriteBytesResult(fates: Fates, cfg: Config, l: Line, addr: nat, data: seq<bv8>)
    requires ControlOk(fates) && Usable(cfg, l.chip) && addr + |data| <= |Flat(l.chip.mem)|
    requires WriteBytes(fates, cfg, l, addr, data).line.slow == l.slow
    ensures Stores(l, Written(Flat(l.chip.mem), addr, data, Cut(cfg)), WriteBytes(fates, cfg, l, addr, data))
  {
    hide WriteSpan, Stores, Flat, Fits, AtRest, Chunked, SomeFault, ControlOk, Follows;
    var f := Flat(l.chip.mem);
    if data == [] {
      ChunkedNothing(f, addr);
      NothingStored(l);
    } else if OneDie(cfg, addr, |data|) {
      SpanStores(fates, cfg, l, addr, data);
    } else {
      var n := MB32 - addr;
      var w := WriteSpan(fates, cfg, l, addr, data[..n]);
      var o := WriteSpan(fates, cfg, w.line, MB32, data[n..]);
      var f1 := Chunked(f, addr, data[..n]);
      WriteSpanFollows(fates, cfg, l, addr, data[..n]);
      WriteSpanFollows(fates, cfg, w.line, MB32, data[n..]);
      if w.ret != 0 {
        SpanStores(fates, cfg, l, addr, data[..n]);
        StoresStops(l, f1, Written(f, addr, data, Cut(cfg)), w);
      } else {
        NoneSlow(fates, l, w.line, o.line);
        SpanStores(fates, cfg, l, addr, data[..n]);
        StoresUsable(cfg, l, f1, w);
        SpanStores(fates, cfg, w.line, MB32, data[n..]);
        StoresFlat(l, f1, w);
        StoresContinues(l, f1, w, Chunked(Flat(w.line.chip.mem), MB32, data[n..]), o);
      }
    }
  }

  lemma StoresFlat(l: Line, f: seq<bv8>, r: Out)
    requires Stores(l, f, r)
    ensures !SomeFault(l, r.line) ==> Flat(r.line.chip.mem) == f
  {
    hide Flat;
  }

  lemma PageRestSafe(addr: nat, data: seq<bv8>)
    ensures PageSafe(addr, PageRest(addr, data))
  {
  }

  lemma CutIsPage(cfg: Config)
    ensures Cut(cfg) % PAGE == 0
  {
  }

  /** One page of the walk. */
  lemma PageStores(fates: Fates, cfg: Config, l: Line, addr: nat, data: seq<bv8>)
    requires ControlOk(fates) && Usable(cfg, l.chip) && addr + |data| <= |Flat(l.chip.mem)| && PageSafe(addr, |data|)
    requires WriteBytes(fates, cfg, l, addr, data).line.slow == l.slow
    ensures Stores(l, Cleared(Flat(l.chip.mem), addr, data), WriteBytes(fates, cfg, l, addr, data))
  {
    hide *;
    WriteBytesResult(fates, cfg, l, addr, data);
    CutIsPage(cfg);
    WrittenExact(Flat(l.chip.mem), addr, data, Cut(cfg));
  }

  /** `write_one_chip`: the range is programmed, and a failed page is reported exactly if it was
      sent in 3-byte mode. */
  lemma {:induction false} WritePagesResult(fates: Fates, cfg: Config, l: Line, addr: nat, data: seq<bv8>)
    requires ControlOk(fates) && Usable(cfg, l.chip) && addr + |data| <= |Flat(l.chip.mem)|
    requires WritePages(fates, cfg, l, addr, data).line.slow == l.slow
    ensures Stores(l, Cleared(Flat(l.chip.mem), addr, data), WritePages(fates, cfg, l, addr, data))
    decreases |data|
  {
    hide WriteBytes, Stores, Flat, Usable, Cleared, PageRest, PageSafe, SomeFault, ControlOk, Follows;
    var f := Flat(l.chip.mem);
    if data == [] {
      NothingCleared(f, addr);
      UsableAtRest(cfg, l.chip);
      NothingStored(l);
    } else {
      var n := PageRest(addr, data);
      var w := WriteBytes(fates, cfg, l, addr, data[..n]);
      var o := WritePages(fates, cfg, w.line, addr + n, data[n..]);
      var f1 := Cleared(f, addr, data[..n]);
      PageRestSafe(addr, data);
      WriteBytesFollows(fates, cfg, l, addr, data[..n]);
      WritePagesFollows(fates, cfg, w.line, addr + n, data[n..]);
      if w.ret != 0 {
        PageStores(fates, cfg, l, addr, data[..n]);
        StoresStops(l, f1, Cleared(f, addr, data), w);
      } else {
        NoneSlow(fates, l, w.line, o.line);
        PageStores(fates, cfg, l, addr, data[..n]);
        StoresUsable(cfg, l, f1, w);
        WritePagesResult(fates, cfg, w.line, addr + n, data[n..]);
        StoresFlat(l, f1, w);
        ClearedTwice(f, addr, data[..n], data[n..]);
        assert data[..n] + data[n..] == data;
        StoresContinues(l, f1, w, Cleared(Flat(w.line.chip.mem), addr + n, data[n..]), o);
      }
    }
  }

  lemma NothingCleared(f: seq<bv8>, addr: nat)
    ensures Cleared(f, addr, []) == f
  {
  }

  lemma UsableAtRest(cfg: Config, c: Chip)
    requires Usable(cfg, c)
    ensures AtRest(c)
  {
  }

  /** One block of the erase loop. */
  lemma BlockStores(fates: Fates, cfg: Config, l: Line, addr: nat)
    requires ControlOk(fates) && Request(cfg, l.chip, addr, 1)
    requires EraseSector(fates, cfg, l, addr).line.slow == l.slow
    ensures Stores(l, SectorErased(Flat(l.chip.mem), l.chip.sector, addr), EraseSector(fates, cfg, l, addr))
  {
    hide *;
    SectorPositive(l.chip);
    EraseReported(fates, cfg, l, addr);
    WrittenStores(l, SectorErased(Flat(l.chip.mem), l.chip.sector, addr), Wide(cfg, cfg.ioWrite, OnDie(cfg, addr)),
                  EraseSector(fates, cfg, l, addr));
  }

  /** The loop of `spi_flash_erase`, for as many turns as it makes. */
  lemma {:induction false} EraseBlocksResult(fates: Fates, cfg: Config, l: Line, addr: nat, step: nat, n: nat)
    requires ControlOk(fates) && Usable(cfg, l.chip) && (n > 0 ==> addr + (n - 1) * step < |Flat(l.chip.mem)|)
    requires EraseBlocks(fates, cfg, l, addr, step, n).line.slow == l.slow
    ensures Stores(l, EraseWalk(Flat(l.chip.mem), l.chip.sector, addr, step, n),
                   EraseBlocks(fates, cfg, l, addr, step, n))
    decreases n
  {
    hide EraseSector, Stores, Flat, Fits, AtRest, SectorErased, SomeFault, ControlOk, Follows;
    var f, sector := Flat(l.chip.mem), l.chip.sector;
    if n == 0 {
      NothingStored(l);
    } else {
      assert addr <= addr + (n - 1) * step;
      var e := EraseSector(fates, cfg, l, addr);
      var o := EraseBlocks(fates, cfg, e.line, addr + step, step, n - 1);
      var f1 := SectorErased(f, sector, addr);
      EraseSectorFollows(fates, cfg, l, addr);
      EraseBlocksFollows(fates, cfg, e.line, addr + step, step, n - 1);
      if e.ret != 0 {
        BlockStores(fates, cfg, l, addr);
        StoresStops(l, f1, EraseWalk(f, sector, addr, step, n), e);
      } else {
        NoneSlow(fates, l, e.line, o.line);
        BlockStores(fates, cfg, l, addr);
        StoresUsable(cfg, l, f1, e);
        assert n > 1 ==> addr + step + (n - 2) * step == addr + (n - 1) * step;
        EraseBlocksResult(fates, cfg, e.line, addr + step, step, n - 1);
        StoresFlat(l, f1, e);
        StoresContinues(l, f1, e, EraseWalk(Flat(e.line.chip.mem), sector, addr + step, step, n - 1), o);
      }
    }
  }
}
