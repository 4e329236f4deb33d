/** What the driver makes of array transfers that fail and of chips that are slow, while register
  and mode commands get through. */
module SpiFaults {
  import opened SpiChip
  import opened SpiFlat
  import opened SpiProtocol
  import opened SpiLine

  /** All commands without an address succeed. */
  ghost predicate ControlOk(fates: Fates) {
    forall n, cmd :: !IsArray(cmd) ==> fates(n, cmd).ok
  }

  const SELECT_DIE_1: seq<Byte> := [0xC2, 1]

  /** So do all of them but the select of die 1, which nobody checks. */
  ghost predicate ButSelectOk(fates: Fates) {
    forall n, cmd :: !IsArray(cmd) && cmd != SELECT_DIE_1 ==> fates(n, cmd).ok
  }

  lemma ControlButSelect(fates: Fates)
    requires ControlOk(fates)
    ensures ButSelectOk(fates)
  {
  }

  /** The select of die 1 that is sent once the chip of `l` is ready reaches the chip. */
  predicate Arrives(fates: Fates, l: Line) {
    var f := fates(Wait(fates, l).line.sent, SELECT_DIE_1);
    f.ok || f.seen
  }

  lemma ControlArrives(fates: Fates, l: Line)
    requires ControlOk(fates)
    ensures Arrives(fates, l)
  {
    assert !IsArray(SELECT_DIE_1);
  }

  /** The die that is selected for a request on `die`. */
  function Landed(fates: Fates, l: Line, die: Byte): Byte { if die == 1 && !Arrives(fates, l) then 0 else die }

  /** Where in the flat array a request for `addr` goes. */
  function Place(fates: Fates, cfg: Config, l: Line, addr: nat): nat {
    At(Landed(fates, l, DieOf(cfg, addr)), OnDie(cfg, addr))
  }

  ghost predicate Calm(l: Line, r: Line) {
    r.faults3 == l.faults3 && r.faults4 == l.faults4 && r.hits == l.hits && r.slow == l.slow
  }

  lemma SendControl(fates: Fates, l: Line, cmd: seq<Byte>)
    requires ButSelectOk(fates) && !IsArray(cmd) && cmd != SELECT_DIE_1
    ensures var r, d := Send(fates, l, cmd, []), fates(l.sent, cmd).delay;
            r.ret == 0 && Calm(l, r.line) && r.line.chip == Execute(l.chip, cmd, [], d)
  {
    hide Execute;
  }

  lemma StatusBits(busy: bool, wel: bool)
    ensures SaysReady(false, (if busy then 1 else 0) | (if wel then 2 else 0)) <==> !busy
    ensures SaysReady(true, if busy then 0 else 0x80) <==> !busy
  {
  }

  lemma StatusRead(fates: Fates, l: Line, flag: bool)
    requires ButSelectOk(fates)
    ensures var s := Send(fates, l, PollCommand(flag), []);
            s.ret == 0 && Calm(l, s.line) && s.line.chip == WithRegs(l.chip, Polled(Sel(l.chip)))
    ensures SaysReady(flag, Answer(l.chip, PollCommand(flag), 1)[0]) <==> Sel(l.chip).busy == 0
  {
    SendControl(fates, l, PollCommand(flag));
    StatusCommand(l.chip, flag, fates(l.sent, PollCommand(flag)).delay);
    hide Execute, Answer, Send, SaysReady, WithRegs;
    StatusBits(Sel(l.chip).busy > 0, Sel(l.chip).wel);
  }

  /** Polling ends with the die ready if and only if it gets ready within the polls that are left. */
  lemma {:induction false} PollOutcome(fates: Fates, l: Line, flag: bool, count: nat)
    requires ButSelectOk(fates) && count <= MAX_READY_WAIT_COUNT
    ensures var r, left := Poll(fates, l, flag, count), MAX_READY_WAIT_COUNT - count;
            && Calm(l, r.line) && r.line.chip == Waited(l.chip, left)
            && r.ret == if Sel(l.chip).busy < left then 0 else 1
    decreases MAX_READY_WAIT_COUNT - count
  {
    hide Answer, Send, SaysReady, WithRegs, PollCommand, Waited, ButSelectOk;
    var c := l.chip;
    if count == MAX_READY_WAIT_COUNT {
      WaitedNot(c);
    } else {
      var s := Send(fates, l, PollCommand(flag), []);
      StatusRead(fates, l, flag);
      WaitedOnceMore(c, MAX_READY_WAIT_COUNT - count - 1);
      WaitedOnceMore(c, MAX_READY_WAIT_COUNT - count);
      RegsTwice(c, Polled(Sel(c)), Sel(c));
      if Sel(c).busy > 0 {
        PollOutcome(fates, s.line, flag, count + 1);
      }
    }
  }

  lemma WaitedNot(c: Chip)
    requires WellFormed(c)
    ensures Waited(c, 0) == c
  {
    RegsTwice(c, Sel(c), Sel(c));
    assert PolledTimes(Sel(c), 0) == Sel(c);
  }

  /** `d` is `c` some status reads later. */
  ghost predicate Later(c: Chip, d: Chip)
    requires WellFormed(c)
  {
    Settled(d) && Same(c, d) && d.sel == c.sel && Sel(d).wide == Sel(c).wide
  }

  function Less(busy: nat): nat {
    if busy < MAX_READY_WAIT_COUNT then 0 else busy - MAX_READY_WAIT_COUNT
  }

  lemma WaitOutcome(fates: Fates, l: Line, flag: bool)
    requires ButSelectOk(fates) && Settled(l.chip)
    ensures var r := Poll(fates, l, flag, 0);
            && Calm(l, r.line) && Later(l.chip, r.line.chip) && Sel(r.line.chip).busy == Less(Sel(l.chip).busy)
            && r.ret == if Steady(l.chip) then 0 else 1
  {
    hide Poll, Waited;
    PollOutcome(fates, l, flag, 0);
    WaitedSettles(l.chip, MAX_READY_WAIT_COUNT);
  }

  // ---------------------------------------------------------------- die and mode

  /** The die is selected if and only if the chip gets ready in time and sees the command. */
  lemma PickOutcome(fates: Fates, l: Line, die: Byte)
    requires ButSelectOk(fates) && Settled(l.chip) && !Sel(l.chip).wide && die < |l.chip.mem|
    ensures var r := PickDie(fates, l, die);
            && Calm(l, r.line) && Same(l.chip, r.line.chip) && Settled(r.line.chip) && !Sel(r.line.chip).wide
            && Sel(r.line.chip).busy == Less(Sel(l.chip).busy)
            && (Steady(l.chip) ==> r.line.chip.sel == if die == 1 && !Arrives(fates, l) then l.chip.sel else die)
            && (!Steady(l.chip) ==> r.ret == -1 && r.line.chip.sel == l.chip.sel)
  {
    hide Poll, Execute;
    var w := Wait(fates, l);
    WaitOutcome(fates, l, false);
    if Steady(l.chip) {
      SendSelect(fates, w.line, die);
      hide Send;
      Selected(w.line.chip, die, fates(w.line.sent, [0xC2, die]).delay);
    }
  }

  lemma SendSelect(fates: Fates, l: Line, die: Byte)
    requires ButSelectOk(fates)
    ensures var s, f := Send(fates, l, [0xC2, die], []), fates(l.sent, [0xC2, die]);
            && Calm(l, s.line)
            && (die != 1 ==> f.ok)
            && s.line.chip == if f.ok || f.seen then Execute(l.chip, [0xC2, die], [], f.delay) else l.chip
  {
    hide Execute;
    assert !IsArray([0xC2, die]);
    if die != 1 {
      assert [0xC2, die][1] != SELECT_DIE_1[1];
    }
  }

  lemma SwitchOutcome(fates: Fates, l: Line, wide: bool)
    requires ButSelectOk(fates) && Idle(l.chip)
    ensures var r := Switch(fates, l, ModeNeedsLatch(l.chip.id), wide);
            && Calm(l, r.line) && r.ret == 0 && Idle(r.line.chip)
            && r.line.chip == WithRegs(l.chip, Sel(l.chip).(wide := wide))
  {
    hide Execute, Send, ModeCommand, WithRegs, Idle;
    var m := ModeCommand(wide);
    ModeIsControl(wide);
    if ModeNeedsLatch(l.chip.id) {
      var e := Send(fates, l, [0x06], []).line;
      var s := Send(fates, e, m, []).line;
      SendControl(fates, l, [0x06]);
      SendControl(fates, e, m);
      SendControl(fates, s, [0x04]);
      SwitchedMode(l.chip, wide, fates(l.sent, [0x06]).delay, fates(e.sent, m).delay, fates(s.sent, [0x04]).delay);
    } else {
      SendControl(fates, l, m);
      SwitchedMode(l.chip, wide, 0, fates(l.sent, m).delay, 0);
    }
  }

  lemma ModeIsControl(wide: bool)
    ensures !IsArray(ModeCommand(wide)) && ModeCommand(wide) != SELECT_DIE_1
  {
    assert |ModeCommand(wide)| != |SELECT_DIE_1|;
  }

  /** The mode changes if and only if the chip gets ready in time. */
  lemma ModeOutcome(fates: Fates, l: Line, wide: bool)
    requires ButSelectOk(fates) && Settled(l.chip)
    ensures var r := ChangeMode(fates, l, l.chip.id, wide);
            && Calm(l, r.line) && Same(l.chip, r.line.chip) && Settled(r.line.chip) && r.line.chip.sel == l.chip.sel
            && Sel(r.line.chip).busy == Less(Sel(l.chip).busy)
            && r.ret == (if Steady(l.chip) then 0 else -1)
            && Sel(r.line.chip).wide == if Steady(l.chip) then wide else Sel(l.chip).wide
  {
    hide Poll, Switch;
    WaitOutcome(fates, l, false);
    if Steady(l.chip) {
      SwitchOutcome(fates, Wait(fates, l).line, wide);
    }
  }

  lemma EnterOutcome(fates: Fates, l: Line, die: Byte, wide: bool)
    requires ButSelectOk(fates) && AtRest(l.chip) && die <= 1 && die < |l.chip.mem|
    ensures var r := Enter(fates, l, l.chip.id, die, wide);
            && r.ret == 0 && Calm(l, r.line) && Same(l.chip, r.line.chip) && Steady(r.line.chip)
            && r.line.chip.sel == Landed(fates, l, die) && Sel(r.line.chip).wide == wide
            && (Idle(l.chip) ==> Idle(r.line.chip))
  {
    hide PickDie, ChangeMode, Arrives;
    var l1 := if die == 1 then PickDie(fates, l, 1).line else l;
    if die == 1 {
      PickOutcome(fates, l, 1);
    }
    ModeOutcome(fates, l1, true);
  }

  lemma LeaveOutcome(fates: Fates, l: Line, die: Byte, wide: bool, soFar: int)
    requires ButSelectOk(fates) && Steady(l.chip) && die <= 1 && Sel(l.chip).wide == wide
    requires die == 0 ==> l.chip.sel == 0
    ensures var r := Leave(fates, l, l.chip.id, die, wide, soFar);
            && r.ret == (if wide then 0 else soFar)
            && Calm(l, r.line) && Same(l.chip, r.line.chip) && AtRest(r.line.chip)
  {
    hide PickDie, ChangeMode;
    var s := if wide then ChangeMode(fates, l, l.chip.id, false).line else l;
    ModeOutcome(fates, l, false);
    PickOutcome(fates, s, 0);
  }

  // ---------------------------------------------------------------- blame

  /** Between `l` and `r` no array transfer failed in the other mode, and one failed in the given
      mode if and only if `failed`. */
  ghost predicate Blamed(l: Line, r: Line, wide: bool, failed: bool) {
    if wide then r.faults3 == l.faults3 && r.faults4 >= l.faults4 && (failed <==> r.faults4 > l.faults4)
    else r.faults4 == l.faults4 && r.faults3 >= l.faults3 && (failed <==> r.faults3 > l.faults3)
  }

  /** Some array transfer failed. */
  predicate SomeFault(l: Line, r: Line) { r.faults3 + r.faults4 > l.faults3 + l.faults4 }

  /** A request for `n` bytes on one die, made while the chip is at rest. */
  ghost predicate Request(cfg: Config, c: Chip, addr: nat, n: nat) {
    Probed(cfg) && Fits(cfg, c) && AtRest(c) && n > 0 && addr + n <= |Flat(c.mem)| && OneDie(cfg, addr, n)
  }

  /** The dies a request can end up on: its own, or die 0. */
  predicate Landing(cfg: Config, addr: nat, k: nat) { k == DieOf(cfg, addr) || (k == 0 && DieOf(cfg, addr) == 1) }

  /** Where a request on one die is, and that its addresses fit their bytes, wherever it lands. */
  lemma Placed(cfg: Config, io: IoMode, c: Chip, addr: nat, n: nat, k: nat)
    requires Fits(cfg, c) && n > 0 && addr + n <= |Flat(c.mem)| && OneDie(cfg, addr, n) && Landing(cfg, addr, k)
    ensures var a := OnDie(cfg, addr);
            && c.id == cfg.id && k <= 1 && k < |c.mem| && a + n <= |c.mem[k]|
            && a + n <= 0x1_0000_0000 && (!Wide(cfg, io, a + n - 1) ==> a + n <= MB16)
            && At(k, a) + n <= |Flat(c.mem)| && Flat(c.mem)[At(k, a)..At(k, a) + n] == c.mem[k][a..a + n]
            && (k == DieOf(cfg, addr) ==> At(k, a) == addr)
  {
    Located(cfg, c, addr, n);
    NarrowReaches(cfg, io, c, DieOf(cfg, addr), OnDie(cfg, addr) + n - 1);
    if |c.mem| == 1 { FlatOne(c.mem); } else { FlatTwo(c.mem); }
    hide Flat, Wide;
  }

  lemma RightPlace(fates: Fates, cfg: Config, l: Line, c: Chip, addr: nat, n: nat)
    requires ControlOk(fates) && Request(cfg, c, addr, n)
    ensures Landed(fates, l, DieOf(cfg, addr)) == DieOf(cfg, addr) && Place(fates, cfg, l, addr) == addr
  {
    ControlArrives(fates, l);
    Placed(cfg, cfg.ioWrite, c, addr, n, DieOf(cfg, addr));
    hide Arrives, Flat;
  }

  lemma EnterRequest(fates: Fates, cfg: Config, l: Line, addr: nat, n: nat, wide: bool)
    requires ButSelectOk(fates) && Request(cfg, l.chip, addr, n)
    ensures var k, r := Landed(fates, l, DieOf(cfg, addr)), Enter(fates, l, cfg.id, DieOf(cfg, addr), wide);
            && r.ret == 0 && (Idle(l.chip) ==> Idle(r.line.chip)) && Calm(l, r.line) && Same(l.chip, r.line.chip)
            && Steady(r.line.chip) && r.line.chip.sel == k && k <= DieOf(cfg, addr) <= 1 && Landing(cfg, addr, k)
            && Sel(r.line.chip).wide == wide && l.chip.id == cfg.id && Probed(cfg)
  {
    Placed(cfg, cfg.ioWrite, l.chip, addr, n, DieOf(cfg, addr));
    hide Enter, DieOf, Flat, Fits, Arrives;
    EnterOutcome(fates, l, DieOf(cfg, addr), wide);
  }

  lemma WaitRequest(fates: Fates, cfg: Config, l: Line, addr: nat, n: nat)
    requires ButSelectOk(fates) && Request(cfg, l.chip, addr, n)
    ensures var w := Wait(fates, l);
            && w.ret == 0 && Calm(l, w.line) && Same(l.chip, w.line.chip) && Idle(w.line.chip)
            && Request(cfg, w.line.chip, addr, n)
  {
    hide Poll, Flat;
    WaitOutcome(fates, l, false);
    ShapeFits(cfg, l.chip, Wait(fates, l).line.chip);
  }

  lemma IdleSteady(c: Chip)
    requires Idle(c)
    ensures Steady(c)
  {
  }

  lemma SameMem(c: Chip, d: Chip)
    requires Same(c, d)
    ensures d.mem == c.mem && d.id == c.id
  {
  }

  lemma SameThen(l: Line, w: Line, e: Line)
    requires Calm(l, w) && Calm(w, e) && Same(l.chip, w.chip) && Same(w.chip, e.chip)
    ensures Calm(l, e) && Same(l.chip, e.chip)
  {
  }
}
