/** Failures of a request for which 0 is returned: exactly which, whatever becomes of the other
  transfers. */
module SpiUnreported {
  import opened SpiChip
  import opened SpiFlat
  import opened SpiProtocol
  import opened SpiLine
  import opened SpiOutcomes
  import opened SpiFaults
  import opened SpiWrites
  import SpiReads
  import SpiSlow

  // ---------------------------------------------------------------- when waiting succeeds

  /** Status reads number `n` to `n + b` succeed. */
  predicate ReadsOk(fates: Fates, flag: bool, n: nat, b: nat)
    decreases b
  {
    fates(n, PollCommand(flag)).ok && (b > 0 ==> ReadsOk(fates, flag, n + 1, b - 1))
  }

  lemma OneRead(fates: Fates, l: Line, flag: bool)
    ensures var s := Send(fates, l, PollCommand(flag), []);
            && (s.ret == 0 <==> fates(l.sent, PollCommand(flag)).ok) && s.line.sent == l.sent + 1
            && (s.ret == 0 ==> s.line.chip == WithRegs(l.chip, Polled(Sel(l.chip))))
  {
    StatusCommand(l.chip, flag, fates(l.sent, PollCommand(flag)).delay);
    hide Execute, Answer, WithRegs;
  }

  lemma OneAnswer(c: Live, flag: bool)
    ensures SaysReady(flag, Answer(c, PollCommand(flag), 1)[0]) <==> Sel(c).busy == 0
  {
    StatusCommand(c, flag, 0);
    hide Execute, Answer, SaysReady, WithRegs;
    StatusBits(Sel(c).busy > 0, Sel(c).wel);
  }

  /** Waiting succeeds if and only if the die gets ready within the polls that are left and every
      status read up to the one that says so succeeds. */
  lemma {:induction false} PollIff(fates: Fates, l: Line, flag: bool, count: nat)
    requires count <= MAX_READY_WAIT_COUNT
    ensures var r, b := Poll(fates, l, flag, count), Sel(l.chip).busy;
            && (r.ret == 0 <==> b < MAX_READY_WAIT_COUNT - count && ReadsOk(fates, flag, l.sent, b))
            && (r.ret == 0 ==> r.line.sent == l.sent + b + 1 && r.line.chip == Waited(l.chip, b))
    decreases MAX_READY_WAIT_COUNT - count
  {
    hide Answer, Send, SaysReady, WithRegs, PollCommand, Waited;
    var c, b := l.chip, Sel(l.chip).busy;
    if count < MAX_READY_WAIT_COUNT {
      var s := Send(fates, l, PollCommand(flag), []);
      OneRead(fates, l, flag);
      OneAnswer(c, flag);
      WaitedNot(c);
      WaitedOnceMore(c, if b == 0 then 0 else b - 1);
      RegsTwice(c, Polled(Sel(c)), Sel(c));
      if s.ret == 0 && b > 0 {
        PollIff(fates, s.line, flag, count + 1);
      }
    }
  }

  /** Leaving 4-byte mode succeeds: the die gets ready in time, the status reads that show it
      succeed, and so does the mode command. */
  predicate CanExit(fates: Fates, l: Line, id: nat) {
    var b := Sel(l.chip).busy;
    && b < MAX_READY_WAIT_COUNT && ReadsOk(fates, false, l.sent, b)
    && fates(l.sent + b + (if ModeNeedsLatch(id) then 2 else 1), ModeCommand(false)).ok
  }

  lemma SwitchIff(fates: Fates, l: Line, latch: bool, wide: bool)
    ensures Switch(fates, l, latch, wide).ret == 0 <==>
            fates(if latch then l.sent + 1 else l.sent, ModeCommand(wide)).ok
  {
    hide Execute, ModeCommand;
  }

  lemma ExitIff(fates: Fates, l: Line, id: nat)
    ensures ChangeMode(fates, l, id, false).ret == 0 <==> CanExit(fates, l, id)
  {
    hide Poll, Switch, ReadsOk, ModeCommand, Waited, ModeNeedsLatch;
    PollIff(fates, l, false, 0);
    SwitchIff(fates, Wait(fates, l).line, ModeNeedsLatch(id), false);
  }

  // ---------------------------------------------------------------- failed array transfers

  /** The error of a data transfer is replaced by what leaving 4-byte mode returns. */
  lemma ErrorReplaced(fates: Fates, l: Line, id: nat, die: Byte, wide: bool)
    ensures Leave(fates, l, id, die, wide, -1).ret != 0 <==> !wide || !CanExit(fates, l, id)
  {
    ExitIff(fates, l, id);
    hide ChangeMode, CanExit;
  }

  /** A failed data transfer is reported by the write exactly if there is no mode to leave or
      it cannot be left. */
  lemma WriteErrorIff(fates: Fates, cfg: Config, l: Line, addr: nat, data: seq<bv8>)
    requires Enter(fates, l, cfg.id, DieOf(cfg, addr), WideSpan(cfg, addr, |data|)).ret == 0
    requires SpanLoop(fates, cfg, l, addr, data).end == Failed
    ensures WriteSpan(fates, cfg, l, addr, data).ret != 0 <==>
            !WideSpan(cfg, addr, |data|) || !CanExit(fates, SpanLoop(fates, cfg, l, addr, data).line, cfg.id)
  {
    hide Enter, WriteLoop, Leave, CanExit, Wide, DieOf, OnDie;
    ErrorReplaced(fates, SpanLoop(fates, cfg, l, addr, data).line, cfg.id, DieOf(cfg, addr),
                  WideSpan(cfg, addr, |data|));
  }

  /** The transfers of a read, once the request has been entered. */
  function ReadEntered(fates: Fates, cfg: Config, l: Line, addr: nat, n: nat, buf: seq<bv8>, at: nat): Got
    requires Probed(cfg)
  {
    var last := OnDie(cfg, addr) + n - 1;
    var e := Enter(fates, Wait(fates, l).line, cfg.id, DieOf(cfg, addr), Wide(cfg, cfg.ioRead, last));
    ReadLoop(fates, cfg, e.line, OnDie(cfg, addr), n, last, buf, at)
  }

  /** So it is by the read, */
  lemma ReadErrorIff(fates: Fates, cfg: Config, l: Line, addr: nat, n: nat, buf: seq<bv8>, at: nat)
    requires Probed(cfg) && Wait(fates, l).ret == 0
    requires var wide := Wide(cfg, cfg.ioRead, OnDie(cfg, addr) + n - 1);
             Enter(fates, Wait(fates, l).line, cfg.id, DieOf(cfg, addr), wide).ret == 0
    requires ReadEntered(fates, cfg, l, addr, n, buf, at).ret != 0
    ensures ReadSpan(fates, cfg, l, addr, n, buf, at).ret != 0 <==>
            || !Wide(cfg, cfg.ioRead, OnDie(cfg, addr) + n - 1)
            || !CanExit(fates, ReadEntered(fates, cfg, l, addr, n, buf, at).line, cfg.id)
  {
    hide Enter, ReadLoop, Leave, CanExit, Wide, DieOf, OnDie, Wait;
    ErrorReplaced(fates, ReadEntered(fates, cfg, l, addr, n, buf, at).line, cfg.id, DieOf(cfg, addr),
                  Wide(cfg, cfg.ioRead, OnDie(cfg, addr) + n - 1));
  }

  /** and by the erase. */
  lemma EraseErrorIff(fates: Fates, cfg: Config, l: Line, addr: nat)
    requires Wait(fates, l).ret == 0
    requires Enter(fates, Wait(fates, l).line, cfg.id, DieOf(cfg, addr),
                   Wide(cfg, cfg.ioWrite, OnDie(cfg, addr))).ret == 0
    requires EraseTry(fates, cfg, l, addr).end == Failed
    ensures EraseSector(fates, cfg, l, addr).ret != 0 <==>
            !Wide(cfg, cfg.ioWrite, OnDie(cfg, addr)) || !CanExit(fates, EraseTry(fates, cfg, l, addr).line, cfg.id)
  {
    hide Enter, Carry, Flag, Leave, CanExit, Wide, DieOf, OnDie, Wait, EraseCommand;
    ErrorReplaced(fates, EraseTry(fates, cfg, l, addr).line, cfg.id, DieOf(cfg, addr),
                  Wide(cfg, cfg.ioWrite, OnDie(cfg, addr)));
  }

  // ---------------------------------------------------------------- nothing gets through

  /** With no array command getting through, a write that uses 4-byte mode is done in name only, */
  lemma WriteUnreported(fates: Fates, cfg: Config, l: Line, addr: nat, data: seq<bv8>)
    requires ControlOk(fates) && Dead(fates) && Request(cfg, l.chip, addr, |data|)
    requires WideSpan(cfg, addr, |data|)
    ensures var r := WriteSpan(fates, cfg, l, addr, data); r.ret == 0 && r.line.chip.mem == l.chip.mem
  {
    hide *;
    WriteSpanFollows(fates, cfg, l, addr, data);
    DeadFollows(fates, l, WriteSpan(fates, cfg, l, addr, data).line);
    WriteReported(fates, cfg, l, addr, data);
    WideIsZero(l, Chunked(Flat(l.chip.mem), addr, data), WriteSpan(fates, cfg, l, addr, data));
  }

  lemma DeadFollows(fates: Fates, l: Line, r: Line)
    requires Dead(fates) && Follows(fates, l, r)
    ensures r.chip.mem == l.chip.mem && r.slow == l.slow
  {
    hide Dead, Quick, AllOk;
  }

  lemma WideIsZero(l: Line, f: seq<bv8>, r: Out)
    requires SpanWritten(l, f, true, r)
    ensures r.ret == 0
  {
    hide AtRest, Flat;
  }

  /** and so is an erase, */
  lemma EraseUnreported(fates: Fates, cfg: Config, l: Line, addr: nat)
    requires ControlOk(fates) && Dead(fates) && Request(cfg, l.chip, addr, 1)
    requires Wide(cfg, cfg.ioWrite, OnDie(cfg, addr))
    ensures var r := EraseSector(fates, cfg, l, addr); r.ret == 0 && r.line.chip.mem == l.chip.mem
  {
    hide *;
    EraseSectorFollows(fates, cfg, l, addr);
    DeadFollows(fates, l, EraseSector(fates, cfg, l, addr).line);
    SectorPositive(l.chip);
    EraseReported(fates, cfg, l, addr);
    WideIsZero(l, SectorErased(Flat(l.chip.mem), l.chip.sector, addr), EraseSector(fates, cfg, l, addr));
  }

  /** and a read. */
  lemma ReadUnreported(fates: Fates, cfg: Config, l: Line, addr: nat, n: nat, buf: seq<bv8>, at: nat)
    requires Probed(cfg) && ControlOk(fates) && Dead(fates) && Request(cfg, l.chip, addr, n)
    requires Wide(cfg, cfg.ioRead, OnDie(cfg, addr) + n - 1)
    ensures var g := ReadSpan(fates, cfg, l, addr, n, buf, at); g.ret == 0 && g.buf == buf
  {
    SpiReads.ReadReported(fates, cfg, l, addr, n, buf, at);
    ReadSpanFollows(fates, cfg, l, addr, n, buf, at);
    hide ReadSpan, Wide, OnDie, Dead, ControlOk, Request, Flat, Stored;
  }

  // ---------------------------------------------------------------- the write enable is lost

  lemma IdleWait(fates: Fates, l: Line)
    requires ButEnableOk(fates) && Idle(l.chip)
    ensures var w := Wait(fates, l); w.ret == 0 && w.line.chip == l.chip && w.line.sent == l.sent + 1
  {
    assert PollCommand(false) != [0x06] by { assert PollCommand(false)[0] == 0x05; }
    PollIff(fates, l, false, 0);
    IdleNow(l.chip);
    hide Poll, Waited;
  }

  lemma IdleNow(c: Live)
    requires Idle(c)
    ensures Waited(c, Sel(c).busy) == c
  {
    WaitedNot(c);
  }

  /** A page in 3-byte mode on die 0 of an idle chip: it is returned as written in any case, and
      programmed exactly if the chip saw the write enable. */
  lemma EnableLostPage(fates: Fates, cfg: Config, l: Line, addr: nat, data: seq<bv8>)
    requires ButEnableOk(fates) && Request(cfg, l.chip, addr, |data|) && Idle(l.chip) && |data| <= PAGE
    requires DieOf(cfg, addr) == 0 && !WideSpan(cfg, addr, |data|) && cfg.id != 0x2020BA && cfg.id != 0x2021BA
    ensures var r, f := WriteSpan(fates, cfg, l, addr, data), fates(l.sent + 1, [0x06]);
            && r.ret == 0
            && Flat(r.line.chip.mem) ==
               if f.ok || f.seen then Chunked(Flat(l.chip.mem), addr, data) else Flat(l.chip.mem)
  {
    hide *;
    var a := OnDie(cfg, addr);
    var last := a + |data| - 1;
    var cmd := ProgramCommand(cfg, a, last);
    var w := Wait(fates, l).line;
    OnePageCan(cfg, l.chip, addr, data);
    IdleWait(fates, l);
    PageParses(cfg, l.chip, a, last);
    EnableLost(fates, w, cmd, data);
    PageCarried(cfg, l.chip, addr, data, Carry(fates, w, cmd, data).line.chip);
    PageIsCarry(fates, cfg, l, addr, data);
  }

  lemma OnePageCan(cfg: Config, c: Live, addr: nat, data: seq<bv8>)
    requires Request(cfg, c, addr, |data|) && DieOf(cfg, addr) == 0 && !WideSpan(cfg, addr, |data|)
    ensures CanWrite(cfg, c, OnDie(cfg, addr) + |data| - 1) && Probed(cfg) && data != []
    ensures !Wide(cfg, cfg.ioWrite, OnDie(cfg, addr) + |data| - 1)
  {
    Placed(cfg, cfg.ioWrite, c, addr, |data|, 0);
    hide Wide, Flat;
  }

  lemma PageParses(cfg: Config, c: Live, a: nat, last: int)
    requires Probed(cfg) && CanWrite(cfg, c, last) && a <= last
    ensures ArrayWrite(c, ProgramCommand(cfg, a, last))
    ensures Parse(c.id, Sel(c).wide, ProgramCommand(cfg, a, last)) == Program(a)
  {
    ProgramParses(cfg, a, last);
    hide ProgramCommand, Parse, Wide;
  }

  lemma PageCarried(cfg: Config, c: Live, addr: nat, data: seq<bv8>, d: Live)
    requires Request(cfg, c, addr, |data|) && DieOf(cfg, addr) == 0 && |data| <= PAGE
    requires var a := OnDie(cfg, addr); var cmd := ProgramCommand(cfg, a, a + |data| - 1);
             ArrayWrite(c, cmd) && Parse(c.id, Sel(c).wide, cmd) == Program(a)
    ensures var a := OnDie(cfg, addr); var cmd := ProgramCommand(cfg, a, a + |data| - 1);
            Carried(c, cmd, data, d) ==> Flat(d.mem) == Chunked(Flat(c.mem), addr, data)
  {
    hide ProgramCommand, Parse, SectorErased, Flat, Chunked, Programmed;
    var a := OnDie(cfg, addr);
    Placed(cfg, cfg.ioWrite, c, addr, |data|, 0);
    FlatWritten(cfg, c, addr, data, 0);
    WholeChunk(c.mem[0], a, data);
    Small(a, |c.mem[0]|);
  }

  lemma Small(a: nat, n: nat)
    requires a < n
    ensures a % n == a
  {
  }

  lemma WholeChunk(m: seq<bv8>, a: nat, data: seq<bv8>)
    requires 0 < |data| <= PAGE
    ensures Chunked(m, a, data) == Programmed(m, a, data)
  {
    ChunkedTurn(m, a, data, |data|);
    assert data[..|data|] == data && data[|data|..] == [];
    ChunkedNothing(Programmed(m, a, data), a + |data|);
    hide Programmed;
  }

  lemma PageIsCarry(fates: Fates, cfg: Config, l: Line, addr: nat, data: seq<bv8>)
    requires DieOf(cfg, addr) == 0 && !WideSpan(cfg, addr, |data|) && cfg.id != 0x2020BA && cfg.id != 0x2021BA
    requires data != [] && |data| <= PAGE && Wait(fates, l).ret == 0
    requires var a := OnDie(cfg, addr);
             Carry(fates, Wait(fates, l).line, ProgramCommand(cfg, a, a + |data| - 1), data).ret == 0
    ensures var a := OnDie(cfg, addr);
            WriteSpan(fates, cfg, l, addr, data) ==
            Out(Carry(fates, Wait(fates, l).line, ProgramCommand(cfg, a, a + |data| - 1), data).line, 0)
  {
    hide Wait, Carry, ProgramCommand, Wide, OnDie, WriteLoop;
    var a := OnDie(cfg, addr);
    TurnIsCarry(fates, cfg, l, a, data, a + |data| - 1);
    SpiSlow.LoopOfOne(fates, cfg, l, a, data, a + |data| - 1);
    hide WriteTurn;
  }

  lemma TurnIsCarry(fates: Fates, cfg: Config, l: Line, a: nat, data: seq<bv8>, last: int)
    requires cfg.id != 0x2020BA && cfg.id != 0x2021BA && Wait(fates, l).ret == 0
    requires Carry(fates, Wait(fates, l).line, ProgramCommand(cfg, a, last), data).ret == 0
    ensures WriteTurn(fates, cfg, l, a, data, last) ==
            Ended(Carry(fates, Wait(fates, l).line, ProgramCommand(cfg, a, last), data).line, Done)
  {
    hide Wait, Carry, ProgramCommand;
  }
}
