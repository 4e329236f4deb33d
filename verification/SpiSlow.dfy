/** What the driver makes of chips that are busy for longer than it waits: the die and the mode a
  request leaves behind, and where the next request goes. */
module SpiSlow {
  import opened SpiChip
  import opened SpiFlat
  import opened SpiProtocol
  import opened SpiLine
  import opened SpiOutcomes
  import opened SpiFaults
  import opened SpiWrites

  // ---------------------------------------------------------------- leaving a request

  /** Every die keeps its address mode. */
  ghost predicate SameModes(c: Chip, d: Chip) {
    |d.regs| == |c.regs| && forall k :: 0 <= k < |c.regs| ==> d.regs[k].wide == c.regs[k].wide
  }

  lemma DieCommand(c: Chip, die: Byte, delay: nat)
    requires WellFormed(c)
    ensures var d := Execute(c, [0xC2, die], [], delay);
            SameModes(c, d) && d.sel == if Sel(c).busy > 0 || die >= |c.mem| then c.sel else die
  {
  }

  /** The way back to die 0 is taken if and only if the chip gets ready in time. */
  lemma PickBack(fates: Fates, l: Line)
    requires ButSelectOk(fates) && Settled(l.chip)
    ensures var r := PickDie(fates, l, 0);
            && Calm(l, r.line) && SameModes(l.chip, r.line.chip)
            && r.line.chip.sel == if Steady(l.chip) then 0 else l.chip.sel
  {
    hide Poll, Execute;
    var w := Wait(fates, l).line;
    WaitOutcome(fates, l, false);
    LaterModes(l.chip, w.chip);
    SendSelect(fates, w, 0);
    hide Send;
    DieCommand(w.chip, 0, fates(w.sent, [0xC2, 0]).delay);
  }

  lemma LaterModes(c: Chip, d: Chip)
    requires Settled(c) && Later(c, d)
    ensures SameModes(c, d)
  {
  }

  /** How long the chip may stay busy for the driver to get back to die 0. */
  function Limit(wide: bool): nat { if wide then 2 * MAX_READY_WAIT_COUNT else MAX_READY_WAIT_COUNT }

  /** What leaving a request does, `b` being the number of status reads the chip needs to get
      ready. */
  ghost predicate LeftBehind(l: Line, die: Byte, wide: bool, soFar: int, r: Out) {
    var b := Sel(l.chip).busy;
    && Calm(l, r.line) && |r.line.chip.regs| == |l.chip.regs|
    && r.ret == (if !wide then soFar else if b < MAX_READY_WAIT_COUNT then 0 else -1)
    && r.line.chip.sel == (if die == 1 && b < Limit(wide) then 0 else l.chip.sel)
    && (r.line.chip.regs[l.chip.sel].wide <==> wide && b >= MAX_READY_WAIT_COUNT)
  }

  lemma LeaveState(fates: Fates, l: Line, die: Byte, wide: bool, soFar: int)
    requires ButSelectOk(fates) && Settled(l.chip) && Sel(l.chip).wide == wide
    ensures LeftBehind(l, die, wide, soFar, Leave(fates, l, l.chip.id, die, wide, soFar))
  {
    hide PickDie, ChangeMode;
    var s := if wide then ChangeMode(fates, l, l.chip.id, false).line else l;
    ModeOutcome(fates, l, false);
    PickBack(fates, s);
  }

  /** After a successful request everything is in its place exactly if the driver did not have to
      give up waiting. */
  lemma RestIff(fates: Fates, l: Line, die: Byte, wide: bool, soFar: int)
    requires ButSelectOk(fates) && Settled(l.chip) && Sel(l.chip).wide == wide && die <= 1 && l.chip.sel == die
    ensures AtRest(Leave(fates, l, l.chip.id, die, wide, soFar).line.chip) <==> Steady(l.chip)
  {
    hide Leave;
    LeaveState(fates, l, die, wide, soFar);
    if Steady(l.chip) {
      LeaveOutcome(fates, l, die, wide, soFar);
    } else if !wide && die == 0 {
      LeaveNothing(fates, l, soFar);
    }
  }

  lemma LeaveNothing(fates: Fates, l: Line, soFar: int)
    ensures Leave(fates, l, l.chip.id, 0, false, soFar) == Out(l, soFar)
  {
  }

  // ---------------------------------------------------------------- after a write

  /** Given up in the loop, or with the chip still busy at the end. */
  predicate Abandoned(r: Ended) {
    r.end.NotReady? || r.end.NotFlagged? || Sel(r.line.chip).busy >= MAX_READY_WAIT_COUNT
  }

  lemma SpanAbandoned(l: Line, k: nat, wide: bool, m: seq<bv8>, r: Ended)
    requires SpanResult(l, k, wide, m, r)
    ensures Abandoned(r) <==> r.line.slow > l.slow
    ensures Settled(r.line.chip) && r.line.chip.sel == k && Sel(r.line.chip).wide == wide
    ensures r.line.chip.id == l.chip.id && k < |r.line.chip.regs|
    ensures !Abandoned(r) <==> Steady(r.line.chip) && (r.end.Done? || r.end.Failed?)
  {
  }

  /** What a write leaves behind on the die it landed on. */
  lemma EndState(fates: Fates, r: Ended, die: Byte, wide: bool)
    requires ButSelectOk(fates) && Settled(r.line.chip) && die <= 1 && Sel(r.line.chip).wide == wide
    ensures var o, b := WriteEnd(fates, r, r.line.chip.id, die, wide), Sel(r.line.chip).busy;
            && Calm(r.line, o.line) && |o.line.chip.regs| == |r.line.chip.regs|
            && (o.line.chip.regs[r.line.chip.sel].wide <==> wide && Abandoned(r))
            && (die == 1 && r.line.chip.sel == 1 ==>
                  (o.line.chip.sel == 0 <==> !r.end.NotFlagged? && b < Limit(wide && !r.end.NotReady?)))
            && (r.end.Done? ==> o.ret == 0)
  {
    hide Leave, PickDie, Calm, SameModes;
    match r.end {
      case NotReady =>
        PickBack(fates, r.line);
        CalmSelf(r.line);
        ModesAt(r.line.chip, PickDie(fates, r.line, 0).line.chip, r.line.chip.sel);
      case NotFlagged =>
        CalmSelf(r.line);
      case Failed =>
        LeaveState(fates, r.line, die, wide, -1);
      case Done =>
        LeaveState(fates, r.line, die, wide, 0);
    }
  }

  lemma CalmSelf(l: Line)
    ensures Calm(l, l)
  {
  }

  lemma ModesAt(c: Chip, d: Chip, k: nat)
    requires SameModes(c, d) && k < |c.regs|
    ensures |d.regs| == |c.regs| && d.regs[k].wide == c.regs[k].wide
  {
  }

  lemma CalmSlow(l: Line, r: Line)
    requires Calm(l, r)
    ensures r.slow == l.slow
  {
  }

  /** A write leaves its die in 4-byte mode if and only if it entered that mode and one of its
      page programs takes longer than the driver waits. */
  lemma ModeStaysOn(fates: Fates, cfg: Config, l: Line, addr0: nat, data: seq<bv8>)
    requires ControlOk(fates) && Request(cfg, l.chip, addr0, |data|)
    ensures var r, die := WriteSpan(fates, cfg, l, addr0, data), DieOf(cfg, addr0);
            && die < |r.line.chip.regs|
            && (r.line.chip.regs[die].wide <==> WideSpan(cfg, addr0, |data|) && r.line.slow > l.slow)
  {
    hide *;
    var die, wide := DieOf(cfg, addr0), WideSpan(cfg, addr0, |data|);
    var r := SpanLoop(fates, cfg, l, addr0, data);
    SpanOnDie(fates, cfg, l, addr0, data);
    EndState(fates, r, die, wide);
    CalmSlow(r.line, WriteSpan(fates, cfg, l, addr0, data).line);
  }

  /** The loop of a request whose die select gets through. */
  lemma SpanOnDie(fates: Fates, cfg: Config, l: Line, addr0: nat, data: seq<bv8>)
    requires ControlOk(fates) && Request(cfg, l.chip, addr0, |data|)
    ensures var die, wide, r := DieOf(cfg, addr0), WideSpan(cfg, addr0, |data|), SpanLoop(fates, cfg, l, addr0, data);
            && ButSelectOk(fates) && die <= 1 && r.line.chip.id == cfg.id
            && Settled(r.line.chip) && r.line.chip.sel == die < |r.line.chip.regs| && Sel(r.line.chip).wide == wide
            && (Abandoned(r) <==> r.line.slow > l.slow) && l.slow <= r.line.slow
            && (!Abandoned(r) <==> Steady(r.line.chip) && (r.end.Done? || r.end.Failed?))
            && WriteSpan(fates, cfg, l, addr0, data) == WriteEnd(fates, r, cfg.id, die, wide)
  {
    hide *;
    ControlButSelect(fates);
    RightPlace(fates, cfg, l, l.chip, addr0, |data|);
    SpanOutcome(fates, cfg, l, addr0, data);
    SpanAbandoned(l, DieOf(cfg, addr0), WideSpan(cfg, addr0, |data|),
                  DieWritten(l.chip, DieOf(cfg, addr0), OnDie(cfg, addr0), data), SpanLoop(fates, cfg, l, addr0, data));
    ResultSlow(l, DieOf(cfg, addr0), WideSpan(cfg, addr0, |data|),
               DieWritten(l.chip, DieOf(cfg, addr0), OnDie(cfg, addr0), data), SpanLoop(fates, cfg, l, addr0, data));
  }

  lemma ResultSlow(l: Line, k: nat, wide: bool, m: seq<bv8>, r: Ended)
    requires SpanResult(l, k, wide, m, r)
    ensures l.slow <= r.line.slow
  {
  }

  /** A write for die 1 leaves die 0 selected if and only if the chip, where the loop ends, is not
      waiting to be flagged ready and needs fewer status reads than the driver makes on the way
      back: twice the usual number if there is a mode to leave as well. */
  lemma WriteSelects(fates: Fates, cfg: Config, l: Line, addr0: nat, data: seq<bv8>)
    requires ControlOk(fates) && Request(cfg, l.chip, addr0, |data|) && DieOf(cfg, addr0) == 1
    ensures var r := SpanLoop(fates, cfg, l, addr0, data);
            WriteSpan(fates, cfg, l, addr0, data).line.chip.sel == 0 <==>
            !r.end.NotFlagged? && Sel(r.line.chip).busy < Limit(WideSpan(cfg, addr0, |data|) && !r.end.NotReady?)
  {
    hide *;
    SpanOnDie(fates, cfg, l, addr0, data);
    EndState(fates, SpanLoop(fates, cfg, l, addr0, data), 1, WideSpan(cfg, addr0, |data|));
  }

  /** A write that returns 0 leaves die 0 selected, 3-byte mode and a chip that gets ready in time
      if and only if none of its page programs takes longer than the driver waits. */
  lemma WriteRestIff(fates: Fates, cfg: Config, l: Line, addr0: nat, data: seq<bv8>)
    requires ControlOk(fates) && Request(cfg, l.chip, addr0, |data|)
    ensures var r := WriteSpan(fates, cfg, l, addr0, data);
            r.ret == 0 ==> (AtRest(r.line.chip) <==> r.line.slow == l.slow)
  {
    hide *;
    var die, wide := DieOf(cfg, addr0), WideSpan(cfg, addr0, |data|);
    var r := SpanLoop(fates, cfg, l, addr0, data);
    SpanOnDie(fates, cfg, l, addr0, data);
    EndState(fates, r, die, wide);
    CalmSlow(r.line, WriteSpan(fates, cfg, l, addr0, data).line);
    EndRest(fates, r, die, wide);
  }

  lemma EndRest(fates: Fates, r: Ended, die: Byte, wide: bool)
    requires ButSelectOk(fates) && Settled(r.line.chip) && Sel(r.line.chip).wide == wide && die <= 1
    requires r.line.chip.sel == die
    requires !Abandoned(r) <==> Steady(r.line.chip) && (r.end.Done? || r.end.Failed?)
    ensures var o := WriteEnd(fates, r, r.line.chip.id, die, wide);
            o.ret == 0 ==> (AtRest(o.line.chip) <==> !Abandoned(r))
  {
    hide Leave, PickDie, AtRest, Steady, Settled, Abandoned;
    if r.end.Done? {
      RestIff(fates, r.line, die, wide, 0);
    } else if r.end.Failed? {
      RestIff(fates, r.line, die, wide, -1);
    }
  }

  // ---------------------------------------------------------------- after an erase

  lemma EraseOnDie(fates: Fates, cfg: Config, l: Line, addr0: nat)
    requires ControlOk(fates) && Request(cfg, l.chip, addr0, 1)
    ensures var die, wide := DieOf(cfg, addr0), Wide(cfg, cfg.ioWrite, OnDie(cfg, addr0));
            var r := EraseTry(fates, cfg, l, addr0);
            && ButSelectOk(fates) && die <= 1 && r.line.chip.id == cfg.id && !r.end.NotReady?
            && Settled(r.line.chip) && r.line.chip.sel == die < |r.line.chip.regs| && Sel(r.line.chip).wide == wide
            && (Abandoned(r) <==> r.line.slow > l.slow) && l.slow <= r.line.slow
            && (!Abandoned(r) <==> Steady(r.line.chip) && (r.end.Done? || r.end.Failed?))
            && EraseSector(fates, cfg, l, addr0) == EraseEnd(fates, r, cfg.id, die, wide)
  {
    hide *;
    var die, wide, r := DieOf(cfg, addr0), Wide(cfg, cfg.ioWrite, OnDie(cfg, addr0)), EraseTry(fates, cfg, l, addr0);
    ControlButSelect(fates);
    RightPlace(fates, cfg, Wait(fates, l).line, l.chip, addr0, 1);
    EraseOutcome(fates, cfg, l, addr0);
    TryEnds(fates, cfg, l, addr0);
    SpanAbandoned(l, die, wide, DieErased(l.chip, die, OnDie(cfg, addr0)), r);
    ResultSlow(l, die, wide, DieErased(l.chip, die, OnDie(cfg, addr0)), r);
  }

  lemma TryEnds(fates: Fates, cfg: Config, l: Line, addr0: nat)
    ensures !EraseTry(fates, cfg, l, addr0).end.NotReady?
  {
    hide Wait, Enter, Carry, Flag, Wide, DieOf, OnDie, EraseCommand;
  }

  lemma EraseEndState(fates: Fates, r: Ended, die: Byte, wide: bool)
    requires ButSelectOk(fates) && Settled(r.line.chip) && die <= 1 && Sel(r.line.chip).wide == wide && !r.end.NotReady?
    ensures var o, b := EraseEnd(fates, r, r.line.chip.id, die, wide), Sel(r.line.chip).busy;
            && Calm(r.line, o.line) && |o.line.chip.regs| == |r.line.chip.regs|
            && (o.line.chip.regs[r.line.chip.sel].wide <==> wide && Abandoned(r))
            && (die == 1 && r.line.chip.sel == 1 ==> (o.line.chip.sel == 0 <==> !r.end.NotFlagged? && b < Limit(wide)))
  {
    hide Leave, Calm;
    CalmSelf(r.line);
    LeaveState(fates, r.line, die, wide, if r.end.Failed? then -1 else 0);
  }

  /** An erase leaves its die in 4-byte mode if and only if it entered that mode and takes longer
      than the driver waits. */
  lemma EraseModeStaysOn(fates: Fates, cfg: Config, l: Line, addr0: nat)
    requires ControlOk(fates) && Request(cfg, l.chip, addr0, 1)
    ensures var r, die := EraseSector(fates, cfg, l, addr0), DieOf(cfg, addr0);
            && die < |r.line.chip.regs|
            && (r.line.chip.regs[die].wide <==> Wide(cfg, cfg.ioWrite, OnDie(cfg, addr0)) && r.line.slow > l.slow)
  {
    hide *;
    var r := EraseTry(fates, cfg, l, addr0);
    EraseOnDie(fates, cfg, l, addr0);
    EraseEndState(fates, r, DieOf(cfg, addr0), Wide(cfg, cfg.ioWrite, OnDie(cfg, addr0)));
    CalmSlow(r.line, EraseSector(fates, cfg, l, addr0).line);
  }

  /** An erase on die 1 leaves die 0 selected under the same condition as a write. */
  lemma EraseSelects(fates: Fates, cfg: Config, l: Line, addr0: nat)
    requires ControlOk(fates) && Request(cfg, l.chip, addr0, 1) && DieOf(cfg, addr0) == 1
    ensures var r := EraseTry(fates, cfg, l, addr0);
            EraseSector(fates, cfg, l, addr0).line.chip.sel == 0 <==>
            !r.end.NotFlagged? && Sel(r.line.chip).busy < Limit(Wide(cfg, cfg.ioWrite, OnDie(cfg, addr0)))
  {
    hide *;
    EraseOnDie(fates, cfg, l, addr0);
    EraseEndState(fates, EraseTry(fates, cfg, l, addr0), 1, Wide(cfg, cfg.ioWrite, OnDie(cfg, addr0)));
  }

  /** An erase that returns 0 leaves everything in its place if and only if it does not take longer
      than the driver waits. */
  lemma EraseRestIff(fates: Fates, cfg: Config, l: Line, addr0: nat)
    requires ControlOk(fates) && Request(cfg, l.chip, addr0, 1)
    ensures var r := EraseSector(fates, cfg, l, addr0);
            r.ret == 0 ==> (AtRest(r.line.chip) <==> r.line.slow == l.slow)
  {
    hide *;
    var die, wide := DieOf(cfg, addr0), Wide(cfg, cfg.ioWrite, OnDie(cfg, addr0));
    var r := EraseTry(fates, cfg, l, addr0);
    EraseOnDie(fates, cfg, l, addr0);
    EraseEndState(fates, r, die, wide);
    CalmSlow(r.line, EraseSector(fates, cfg, l, addr0).line);
    EraseEndRest(fates, r, die, wide);
  }

  lemma EraseEndRest(fates: Fates, r: Ended, die: Byte, wide: bool)
    requires ButSelectOk(fates) && Settled(r.line.chip) && Sel(r.line.chip).wide == wide && die <= 1
    requires r.line.chip.sel == die
    requires !r.end.NotReady? && (!Abandoned(r) <==> Steady(r.line.chip) && (r.end.Done? || r.end.Failed?))
    ensures var o := EraseEnd(fates, r, r.line.chip.id, die, wide);
            o.ret == 0 ==> (AtRest(o.line.chip) <==> !Abandoned(r))
  {
    hide Leave, AtRest, Steady, Settled, Abandoned;
    RestIff(fates, r.line, die, wide, if r.end.Failed? then -1 else 0);
  }

  // ---------------------------------------------------------------- as the MTD layer sees it

  predicate InPage(addr: nat, n: nat) { addr % PAGE + n <= PAGE }

  /** No page lies on two dies. */
  lemma PageOnDie(cfg: Config, addr: nat, n: nat)
    requires InPage(addr, n)
    ensures OneDie(cfg, addr, n)
  {
    CutIsPage(cfg);
    hide Cut;
    var c := Cut(cfg);
    if addr < c < addr + n {
      PageBelow(addr, c);
    }
  }

  lemma PageBelow(addr: nat, c: nat)
    requires addr < c && c % PAGE == 0
    ensures addr - addr % PAGE + PAGE <= c
  {
  }

  lemma OnePageIs(fates: Fates, cfg: Config, l: Line, addr: nat, data: seq<bv8>)
    requires InPage(addr, |data|) && data != []
    ensures var w := WriteSpan(fates, cfg, l, addr, data);
            WritePages(fates, cfg, l, addr, data) == Out(w.line, if w.ret != 0 then -1 else 0)
  {
    PageOnDie(cfg, addr, |data|);
    hide WriteSpan, Cut;
    assert data[..|data|] == data && data[|data|..] == [];
    assert PageRest(addr, data) == |data|;
    assert WriteBytes(fates, cfg, l, addr, data) == WriteSpan(fates, cfg, l, addr, data);
  }

  lemma UsableRequest(cfg: Config, c: Chip, addr: nat, n: nat)
    requires Usable(cfg, c) && n > 0 && addr + n <= |Flat(c.mem)| && OneDie(cfg, addr, n)
    ensures Request(cfg, c, addr, n)
  {
    hide Flat;
  }

  /** A page that is returned as written. */
  lemma OnePageRest(fates: Fates, cfg: Config, l: Line, addr: nat, data: seq<bv8>)
    requires ControlOk(fates) && Usable(cfg, l.chip) && addr + |data| <= |Flat(l.chip.mem)| && InPage(addr, |data|)
    ensures var r := WritePages(fates, cfg, l, addr, data);
            r.ret == 0 ==> (AtRest(r.line.chip) <==> r.line.slow == l.slow)
  {
    hide WritePages, WriteSpan, InPage, Usable, ControlOk, Flat, AtRest;
    if data == [] {
      NoPage(fates, cfg, l, addr);
      UsableAtRest(cfg, l.chip);
    } else {
      PageOnDie(cfg, addr, |data|);
      UsableRequest(cfg, l.chip, addr, |data|);
      OnePageIs(fates, cfg, l, addr, data);
      WriteRestIff(fates, cfg, l, addr, data);
    }
  }

  lemma NoPage(fates: Fates, cfg: Config, l: Line, addr: nat)
    ensures WritePages(fates, cfg, l, addr, []) == Out(l, 0)
  {
  }

  /** A block that is returned as erased. */
  lemma OneBlockRest(fates: Fates, cfg: Config, l: Line, addr: nat, step: nat)
    requires ControlOk(fates) && Usable(cfg, l.chip) && addr < |Flat(l.chip.mem)|
    ensures var r := EraseBlocks(fates, cfg, l, addr, step, 1);
            r.ret == 0 ==> (AtRest(r.line.chip) <==> r.line.slow == l.slow)
  {
    hide EraseSector, Usable, ControlOk, Flat, AtRest;
    UsableRequest(cfg, l.chip, addr, 1);
    EraseRestIff(fates, cfg, l, addr);
  }

  // ---------------------------------------------------------------- one page

  /** The chip is not one of those whose flag status is read. */
  predicate Unflagged(cfg: Config) { cfg.id != 0x2020BA && cfg.id != 0x2021BA }

  function PageCommand(cfg: Config, addr0: nat, n: nat): seq<Byte> {
    ProgramCommand(cfg, OnDie(cfg, addr0), OnDie(cfg, addr0) + n - 1)
  }

  /** The program of this command takes `d` status reads. */
  ghost predicate Takes(fates: Fates, cmd: seq<Byte>, d: nat) { forall n :: fates(n, cmd).delay == d }

  lemma CarryBusy(fates: Fates, l: Line, cmd: seq<Byte>, data: seq<bv8>, d: nat)
    requires AllOk(fates) && Takes(fates, cmd, d) && Idle(l.chip) && IsArray(cmd) && ArrayWrite(l.chip, cmd)
    ensures var k := Carry(fates, l, cmd, data); k.ret == 0 && Sel(k.line.chip).busy == d
  {
    var e := Send(fates, l, [0x06], []).line;
    var s := Send(fates, e, cmd, data).line;
    OkControl(fates);
    SendControl(fates, l, [0x06]);
    SendArray(fates, e, cmd, data);
    SendControl(fates, s, [0x04]);
    Cycle(l.chip, cmd, data, fates(l.sent, [0x06]).delay, d, fates(s.sent, [0x04]).delay);
    hide Execute, Send, Parse, ArrayWrite, Idle;
  }

  lemma OkControl(fates: Fates)
    requires AllOk(fates)
    ensures ControlOk(fates) && ButSelectOk(fates)
  {
  }

  lemma TurnBusy(fates: Fates, cfg: Config, l: Line, addr: nat, chunk: seq<bv8>, last: int, d: nat)
    requires AllOk(fates) && Takes(fates, ProgramCommand(cfg, addr, last), d) && Unflagged(cfg)
    requires Probed(cfg) && CanWrite(cfg, l.chip, last) && Steady(l.chip) && addr <= last
    ensures var t := WriteTurn(fates, cfg, l, addr, chunk, last); t.end == Done && Sel(t.line.chip).busy == d
  {
    hide Poll, Carry, ProgramCommand, Parse, Wide, AllOk, Takes;
    var cmd := ProgramCommand(cfg, addr, last);
    var w := Wait(fates, l).line;
    OkControl(fates);
    ProgramParses(cfg, addr, last);
    WaitOutcome(fates, l, false);
    ModeOfLater(l.chip, w.chip);
    CarryBusy(fates, w, cmd, chunk, d);
  }

  lemma LoopOfOne(fates: Fates, cfg: Config, l: Line, addr: nat, data: seq<bv8>, last: int)
    requires data != [] && |data| <= PAGE && WriteTurn(fates, cfg, l, addr, data, last).end == Done
    ensures WriteLoop(fates, cfg, l, addr, data, last) == WriteTurn(fates, cfg, l, addr, data, last)
  {
    hide WriteTurn;
    assert data[..ChunkSize(data)] == data && data[ChunkSize(data)..] == [];
  }

  lemma SpanLoopIs(fates: Fates, cfg: Config, l: Line, addr0: nat, data: seq<bv8>)
    ensures SpanLoop(fates, cfg, l, addr0, data) ==
            WriteLoop(fates, cfg, Enter(fates, l, cfg.id, DieOf(cfg, addr0), WideSpan(cfg, addr0, |data|)).line,
                      OnDie(cfg, addr0), data, OnDie(cfg, addr0) + |data| - 1)
  {
    hide WriteLoop, Enter, DieOf, OnDie, WideSpan;
  }

  /** The loop over a single page, with all transfers succeeding. */
  lemma PageLoop(fates: Fates, cfg: Config, l: Line, addr0: nat, data: seq<bv8>, d: nat)
    requires AllOk(fates) && Takes(fates, PageCommand(cfg, addr0, |data|), d) && Unflagged(cfg)
    requires Request(cfg, l.chip, addr0, |data|) && |data| <= PAGE
    ensures var r := SpanLoop(fates, cfg, l, addr0, data); r.end == Done && Sel(r.line.chip).busy == d
  {
    hide *;
    var addr, wide := OnDie(cfg, addr0), WideSpan(cfg, addr0, |data|);
    var last := addr + |data| - 1;
    OkControl(fates);
    NotEmpty(cfg, l.chip, addr0, data);
    SpanLoopIs(fates, cfg, l, addr0, data);
    PageCommandIs(cfg, addr0, |data|);
    EnterRequest(fates, cfg, l, addr0, |data|, wide);
    var e := Enter(fates, l, cfg.id, DieOf(cfg, addr0), wide).line;
    Entered(cfg, l.chip, addr0, |data|, e.chip);
    TurnBusy(fates, cfg, e, addr, data, last, d);
    LoopOfOne(fates, cfg, e, addr, data, last);
  }

  lemma PageCommandIs(cfg: Config, addr0: nat, n: nat)
    ensures PageCommand(cfg, addr0, n) == ProgramCommand(cfg, OnDie(cfg, addr0), OnDie(cfg, addr0) + n - 1)
    ensures WideSpan(cfg, addr0, n) == Wide(cfg, cfg.ioWrite, OnDie(cfg, addr0) + n - 1)
  {
    hide ProgramCommand, Wide, OnDie;
  }

  lemma NotEmpty(cfg: Config, c: Chip, addr0: nat, data: seq<bv8>)
    requires Request(cfg, c, addr0, |data|)
    ensures data != []
  {
  }

  /** A page program that takes `d` status reads, every transfer succeeding: it is done and
      reported as done; the die stays in 4-byte mode, and die 1 stays selected, exactly as `d`
      says. */
  lemma OnePage(fates: Fates, cfg: Config, l: Line, addr0: nat, data: seq<bv8>, d: nat)
    requires AllOk(fates) && Takes(fates, PageCommand(cfg, addr0, |data|), d) && Unflagged(cfg)
    requires Request(cfg, l.chip, addr0, |data|) && |data| <= PAGE
    ensures var o, die, wide := WriteSpan(fates, cfg, l, addr0, data), DieOf(cfg, addr0), WideSpan(cfg, addr0, |data|);
            && o.ret == 0 && die < |o.line.chip.regs|
            && Flat(o.line.chip.mem) == Chunked(Flat(l.chip.mem), addr0, data)
            && (o.line.chip.regs[die].wide <==> wide && d >= MAX_READY_WAIT_COUNT)
            && (die == 1 ==> (o.line.chip.sel == 0 <==> d < Limit(wide)))
  {
    hide *;
    var die, wide := DieOf(cfg, addr0), WideSpan(cfg, addr0, |data|);
    var r, m := SpanLoop(fates, cfg, l, addr0, data), DieWritten(l.chip, die, OnDie(cfg, addr0), data);
    OkControl(fates);
    PageLoop(fates, cfg, l, addr0, data, d);
    SpanOnDie(fates, cfg, l, addr0, data);
    EndState(fates, r, die, wide);
    DoneAbandoned(r);
    RightPlace(fates, cfg, l, l.chip, addr0, |data|);
    SpanOutcome(fates, cfg, l, addr0, data);
    FlatWritten(cfg, l.chip, addr0, data, die);
    PlaceIs(fates, cfg, l, addr0);
    WriteEndFollows(fates, r, cfg.id, die, wide);
    DoneMemory(fates, l, die, wide, m, r, WriteSpan(fates, cfg, l, addr0, data).line);
  }

  lemma DoneAbandoned(r: Ended)
    requires r.end == Done
    ensures Abandoned(r) <==> Sel(r.line.chip).busy >= MAX_READY_WAIT_COUNT
    ensures Limit(false) == MAX_READY_WAIT_COUNT && forall wide :: Limit(wide) == Limit(wide && !r.end.NotReady?)
    ensures !r.end.NotFlagged?
  {
  }

  lemma DoneMemory(fates: Fates, l: Line, k: nat, wide: bool, m: seq<bv8>, r: Ended, o: Line)
    requires SpanResult(l, k, wide, m, r) && r.end == Done && Calm(r.line, o) && Follows(fates, r.line, o)
    ensures o.chip.mem == l.chip.mem[k := m]
  {
  }

  /** The state a page in 3-byte mode leaves behind. */
  lemma NarrowPage(fates: Fates, cfg: Config, l: Line, addr0: nat, data: seq<bv8>, d: nat)
    requires AllOk(fates) && Takes(fates, PageCommand(cfg, addr0, |data|), d) && Unflagged(cfg)
    requires Request(cfg, l.chip, addr0, |data|) && |data| <= PAGE && !WideSpan(cfg, addr0, |data|)
    ensures var c, die := WriteSpan(fates, cfg, l, addr0, data).line.chip, DieOf(cfg, addr0);
            && Settled(c) && Probed(cfg) && Fits(cfg, c) && !Sel(c).wide
            && Sel(c).busy == (if die == 1 then Less(d) else d)
            && c.sel == (if d < MAX_READY_WAIT_COUNT then 0 else die)
  {
    hide *;
    OkControl(fates);
    PageLoop(fates, cfg, l, addr0, data, d);
    SpanOnDie(fates, cfg, l, addr0, data);
    NarrowEnd(fates, SpanLoop(fates, cfg, l, addr0, data), DieOf(cfg, addr0));
    WriteSpanFollows(fates, cfg, l, addr0, data);
    FollowsFits(fates, cfg, l, addr0, |data|, WriteSpan(fates, cfg, l, addr0, data).line);
  }

  lemma NarrowEnd(fates: Fates, r: Ended, die: Byte)
    requires ButSelectOk(fates) && Settled(r.line.chip) && !Sel(r.line.chip).wide && r.end == Done
    requires die <= 1 && r.line.chip.sel == die
    ensures var c, b := WriteEnd(fates, r, r.line.chip.id, die, false).line.chip, Sel(r.line.chip).busy;
            && Settled(c) && !Sel(c).wide && Sel(c).busy == (if die == 1 then Less(b) else b)
            && c.sel == (if b < MAX_READY_WAIT_COUNT then 0 else die)
  {
    hide PickDie;
    PickOutcome(fates, r.line, 0);
  }

  lemma FollowsFits(fates: Fates, cfg: Config, l: Line, addr: nat, n: nat, r: Line)
    requires Request(cfg, l.chip, addr, n) && Follows(fates, l, r)
    ensures Probed(cfg) && Fits(cfg, r.chip)
  {
    ShapeFits(cfg, l.chip, r.chip);
    hide Flat;
  }

  /** A quick page, whatever die it lands on: nothing is counted as slow. */
  lemma QuickTurn(fates: Fates, cfg: Config, l: Line, addr: nat, data: seq<bv8>, d: nat)
    requires AllOk(fates) && Takes(fates, ProgramCommand(cfg, addr, addr + |data| - 1), d) && Unflagged(cfg)
    requires Probed(cfg) && CanWrite(cfg, l.chip, addr + |data| - 1) && Steady(l.chip)
    requires 0 < |data| <= PAGE && d < MAX_READY_WAIT_COUNT
    ensures var r := WriteLoop(fates, cfg, l, addr, data, addr + |data| - 1);
            r.end == Done && r.line.slow == l.slow && Settled(r.line.chip) && Sel(r.line.chip).wide == Sel(l.chip).wide
            && r.line.chip.id == cfg.id
  {
    hide *;
    var last := addr + |data| - 1;
    OkControl(fates);
    TurnBusy(fates, cfg, l, addr, data, last, d);
    LoopOfOne(fates, cfg, l, addr, data, last);
    TurnOutcome(fates, cfg, l, addr, data, last);
    TurnQuick(cfg, l, addr, data, last, WriteTurn(fates, cfg, l, addr, data, last));
  }

  lemma TurnQuick(cfg: Config, l: Line, addr: nat, data: seq<bv8>, last: int, t: Ended)
    requires CanWrite(cfg, l.chip, last) && TurnResult(l, addr, data, t) && t.end == Done
    requires Sel(t.line.chip).busy < MAX_READY_WAIT_COUNT
    ensures t.line.slow == l.slow && Settled(t.line.chip) && Sel(t.line.chip).wide == Sel(l.chip).wide
    ensures t.line.chip.id == cfg.id
  {
    hide Programmed, Wide;
  }

  // ---------------------------------------------------------------- a chip that is always slow

  /** Every program takes one poll too long. */
  const SLOW: Fates := (n: nat, cmd: seq<Byte>) => Fate(true, true, MAX_READY_WAIT_COUNT)

  lemma SlowCarry(l: Line, cmd: seq<Byte>, data: seq<bv8>)
    requires IsArray(cmd)
    ensures Carry(SLOW, l, cmd, data).line.slow > l.slow
  {
    var e := Send(SLOW, l, [0x06], []).line;
    var s := Send(SLOW, e, cmd, data).line;
    SendFollows(SLOW, l, [0x06], []);
    SendArray(SLOW, e, cmd, data);
    SendFollows(SLOW, s, [0x04], []);
    hide Send, AllOk, Dead, Quick;
  }

  lemma SlowChunk(cfg: Config, l: Line, addr: nat, chunk: seq<bv8>, last: int)
    requires Steady(l.chip)
    ensures WriteTurn(SLOW, cfg, l, addr, chunk, last).line.slow > l.slow
  {
    hide Poll, Carry, Flag, ProgramCommand, AllOk, Dead, Quick;
    SlowControl();
    ControlButSelect(SLOW);
    WaitOutcome(SLOW, l, false);
    var w := Wait(SLOW, l).line;
    SlowCarry(w, ProgramCommand(cfg, addr, last), chunk);
    FlagFollows(SLOW, Carry(SLOW, w, ProgramCommand(cfg, addr, last), chunk).line, cfg.id);
  }

  lemma SlowControl()
    ensures ControlOk(SLOW)
  {
  }

  lemma SlowLoop(cfg: Config, l: Line, addr: nat, data: seq<bv8>, last: int)
    requires Steady(l.chip) && data != []
    ensures WriteLoop(SLOW, cfg, l, addr, data, last).line.slow > l.slow
  {
    hide WriteTurn, AllOk, Dead, Quick;
    var n := ChunkSize(data);
    SlowChunk(cfg, l, addr, data[..n], last);
    WriteLoopFollows(SLOW, cfg, WriteTurn(SLOW, cfg, l, addr, data[..n], last).line, addr + n, data[n..], last);
  }

  lemma SlowSpan(cfg: Config, l: Line, addr0: nat, data: seq<bv8>)
    requires Request(cfg, l.chip, addr0, |data|)
    ensures SpanLoop(SLOW, cfg, l, addr0, data).line.slow > l.slow
  {
    hide *;
    SpanLoopIs(SLOW, cfg, l, addr0, data);
    NotEmpty(cfg, l.chip, addr0, data);
    SlowControl();
    var wide := WideSpan(cfg, addr0, |data|);
    ControlButSelect(SLOW);
    EnterRequest(SLOW, cfg, l, addr0, |data|, wide);
    var e := Enter(SLOW, l, cfg.id, DieOf(cfg, addr0), wide).line;
    CalmSlow(l, e);
    SlowLoop(cfg, e, OnDie(cfg, addr0), data, OnDie(cfg, addr0) + |data| - 1);
  }

  lemma FollowsSlow(fates: Fates, l: Line, r: Line)
    requires Follows(fates, l, r)
    ensures l.slow <= r.slow
  {
  }

  /** Then any write that uses 4-byte mode leaves it on. */
  lemma EveryProgramSlow(cfg: Config, l: Line, addr0: nat, data: seq<bv8>)
    requires Request(cfg, l.chip, addr0, |data|) && WideSpan(cfg, addr0, |data|)
    ensures var r, die := WriteSpan(SLOW, cfg, l, addr0, data), DieOf(cfg, addr0);
            die < |r.line.chip.regs| && r.line.chip.regs[die].wide
  {
    hide *;
    SlowControl();
    SlowSpan(cfg, l, addr0, data);
    SpanOnDie(SLOW, cfg, l, addr0, data);
    var r := SpanLoop(SLOW, cfg, l, addr0, data);
    WriteEndFollows(SLOW, r, cfg.id, DieOf(cfg, addr0), WideSpan(cfg, addr0, |data|));
    FollowsSlow(SLOW, r.line, WriteSpan(SLOW, cfg, l, addr0, data).line);
    ModeStaysOn(SLOW, cfg, l, addr0, data);
  }
}
