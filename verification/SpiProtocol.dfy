/** The states a chip passes through while the driver works on it, and what the driver's
  command sequences do to them. */
module SpiProtocol {
  import opened Arith
  import opened SpiChip
  import opened SpiFlat

  /** `address32` of a chip: 3 bytes only, 4 bytes only, both, or both on each of two dies. */
  datatype AddressMode = Addr3 | Addr4 | Lo3Hi4 | DieLo3Hi4

  datatype IoMode = Normal | Fast | Dual | TwoIo | Quad | FourIo

  datatype Config = Config(id: nat, address: AddressMode, ioRead: IoMode, ioWrite: IoMode, maxRead: nat, burst: bool)

  /** What probing establishes: a read size for the controller and one of the three ways to write. */
  predicate Probed(cfg: Config) {
    cfg.maxRead > 0 && (cfg.ioWrite.Normal? || cfg.ioWrite.Quad? || cfg.ioWrite.FourIo?)
  }

  /** Four address bytes are used for an access up to `last`. */
  predicate Wide(cfg: Config, io: IoMode, last: int) {
    || io.FourIo? || io.Quad?
    || (last >= MB16 && (cfg.address.Lo3Hi4? || cfg.address.DieLo3Hi4?))
    || cfg.address.Addr4?
  }

  /** The chip is the one the tables describe. */
  ghost predicate Fits(cfg: Config, c: Chip) {
    && WellFormed(c) && Dies(c.mem) && c.id == cfg.id
    && (|c.mem| == 2 <==> cfg.address.DieLo3Hi4?)
    && (forall k :: 0 <= k < |c.mem| ==> DieFits(cfg, c.sector, |c.mem[k]|))
    && (|c.mem| == 2 ==> MB32 % c.sector == 0)
  }

  predicate DieFits(cfg: Config, sector: nat, size: nat)
    requires sector > 0
  {
    && size % PAGE == 0 && size % sector == 0 && size < 0x8000_0000
    && (cfg.address.Addr3? ==> size <= MB16)
  }

  // ---------------------------------------------------------------- states

  const IDLE := Regs(false, false, 0)

  /** Only the selected die may be in 4-byte mode or busy, and its latch is set only while busy. */
  ghost predicate Settled(c: Chip) {
    && WellFormed(c) && (Sel(c).busy == 0 ==> !Sel(c).wel)
    && forall k :: 0 <= k < |c.regs| && k != c.sel ==> c.regs[k] == IDLE
  }

  /** And what is going on ends before the driver stops waiting. */
  ghost predicate Steady(c: Chip) { Settled(c) && Sel(c).busy < MAX_READY_WAIT_COUNT }

  ghost predicate Idle(c: Chip) { Steady(c) && Sel(c).busy == 0 }

  /** Between two requests: die 0 selected, 3-byte mode; the last program may still be going on. */
  ghost predicate AtRest(c: Chip) { Steady(c) && c.sel == 0 && !Sel(c).wide }

  /** Nothing happened but register changes and die selection, and no command was refused. */
  ghost predicate Same(c: Chip, d: Chip) {
    d.mem == c.mem && d.id == c.id && d.sector == c.sector && d.refused == c.refused && |d.regs| == |c.regs|
  }

  /** The chip after `n` status reads. */
  function Waited(c: Chip, n: nat): Chip
    requires WellFormed(c)
  {
    WithRegs(c, PolledTimes(Sel(c), n))
  }

  function PolledTimes(r: Regs, n: nat): Regs {
    if n < r.busy then r.(busy := r.busy - n)
    else if r.busy > 0 then r.(busy := 0, wel := false)
    else r
  }

  lemma PolledOnceMore(r: Regs, n: nat)
    ensures PolledTimes(Polled(r), n) == PolledTimes(r, n + 1)
  {
  }

  lemma RegsTwice(c: Chip, r: Regs, r': Regs)
    requires WellFormed(c)
    ensures WellFormed(WithRegs(c, r)) && Sel(WithRegs(c, r)) == r
    ensures WithRegs(WithRegs(c, r), r') == WithRegs(c, r') && WithRegs(c, Sel(c)) == c
  {
  }

  lemma WaitedOnceMore(c: Chip, n: nat)
    requires WellFormed(c)
    ensures WellFormed(WithRegs(c, Polled(Sel(c)))) && Waited(WithRegs(c, Polled(Sel(c))), n) == Waited(c, n + 1)
    ensures Sel(c).busy == 0 ==> Waited(c, n) == c && WithRegs(c, Polled(Sel(c))) == c
  {
    hide WithRegs, Sel, Polled;
    RegsTwice(c, Polled(Sel(c)), PolledTimes(Polled(Sel(c)), n));
    PolledOnceMore(Sel(c), n);
    IdleStays(Sel(c));
  }

  lemma IdleStays(r: Regs)
    ensures r.busy == 0 ==> Polled(r) == r
  {
  }

  /** Status reads change nothing but how long the die stays busy. */
  lemma WaitedSettles(c: Chip, n: nat)
    requires Settled(c)
    ensures var d := Waited(c, n);
            && Settled(d) && Same(c, d) && d.sel == c.sel && Sel(d).wide == Sel(c).wide
            && Sel(d).busy == (if n < Sel(c).busy then Sel(c).busy - n else 0)
  {
  }

  /** No command takes the chip apart, and only array commands touch memory. */
  lemma ExecuteShape(c: Chip, cmd: seq<Byte>, data: seq<bv8>, delay: nat)
    requires WellFormed(c)
    ensures WellFormed(Execute(c, cmd, data, delay)) && Shape(c, Execute(c, cmd, data, delay))
    ensures |cmd| < 4 ==> Execute(c, cmd, data, delay).mem == c.mem
  {
  }

  lemma ShapeFits(cfg: Config, c: Chip, d: Chip)
    requires Fits(cfg, c) && WellFormed(d) && Shape(c, d)
    ensures Fits(cfg, d)
  {
  }

  /** What no command changes. */
  ghost predicate Shape(c: Chip, d: Chip) {
    && |d.mem| == |c.mem| && d.id == c.id && d.sector == c.sector
    && forall k :: 0 <= k < |c.mem| ==> |d.mem[k]| == |c.mem[k]|
  }

  lemma ShapeFlat(c: Chip, d: Chip)
    requires Dies(c.mem) && Shape(c, d)
    ensures Dies(d.mem) && |Flat(d.mem)| == |Flat(c.mem)|
  {
    if |c.mem| == 1 {
      FlatOne(c.mem);
      FlatOne(d.mem);
    } else {
      FlatTwo(c.mem);
      FlatTwo(d.mem);
    }
  }

  // ---------------------------------------------------------------- command sequences

  function ModeCommand(wide: bool): seq<Byte> { [if wide then 0xB7 else 0xE9] }

  function WithLatch(c: Chip, on: bool): Chip
    requires WellFormed(c)
  {
    if Sel(c).busy > 0 then c else WithRegs(c, Sel(c).(wel := on))
  }

  function WithMode(c: Chip, wide: bool): Chip
    requires WellFormed(c)
  {
    if Sel(c).busy > 0 || (ModeNeedsLatch(c.id) && !Sel(c).wel) then c else WithRegs(c, Sel(c).(wide := wide))
  }

  lemma LatchCommand(c: Chip, on: bool, delay: nat)
    requires WellFormed(c)
    ensures Execute(c, [if on then 0x06 else 0x04], [], delay) == WithLatch(c, on)
  {
  }

  lemma ModeChange(c: Chip, wide: bool, delay: nat)
    requires WellFormed(c)
    ensures Execute(c, ModeCommand(wide), [], delay) == WithMode(c, wide)
  {
  }

  lemma StatusCommand(c: Chip, flag: bool, delay: nat)
    requires WellFormed(c)
    ensures Execute(c, [if flag then 0x70 else 0x05], [], delay) == WithRegs(c, Polled(Sel(c)))
    ensures Answer(c, [if flag then 0x70 else 0x05], 1)[0] ==
            if flag then (if Sel(c).busy > 0 then 0 else 0x80)
            else (if Sel(c).busy > 0 then 1 else 0) | (if Sel(c).wel then 2 else 0)
  {
  }

  /** The mode change, with the latch for chips that want it. */
  function Switched(c: Chip, wide: bool, latch: bool, d0: nat, d1: nat, d2: nat): Chip
    requires WellFormed(c)
  {
    if latch then Execute(Execute(Execute(c, [0x06], [], d0), ModeCommand(wide), [], d1), [0x04], [], d2)
    else Execute(c, ModeCommand(wide), [], d1)
  }

  lemma SwitchedMode(c: Chip, wide: bool, d0: nat, d1: nat, d2: nat)
    requires Idle(c)
    ensures Switched(c, wide, ModeNeedsLatch(c.id), d0, d1, d2) == WithRegs(c, Sel(c).(wide := wide))
    ensures Idle(WithRegs(c, Sel(c).(wide := wide)))
  {
    hide Execute, ModeCommand;
    if ModeNeedsLatch(c.id) {
      LatchCommand(c, true, d0);
      ModeChange(WithLatch(c, true), wide, d1);
      LatchCommand(WithMode(WithLatch(c, true), wide), false, d2);
    } else {
      ModeChange(c, wide, d1);
    }
  }

  lemma Selected(c: Chip, die: Byte, delay: nat)
    requires Idle(c) && !Sel(c).wide && die < |c.mem|
    ensures Execute(c, [0xC2, die], [], delay) == c.(sel := die) && Idle(c.(sel := die)) && !Sel(c.(sel := die)).wide
  {
  }

  /** A read command on an idle die: its bytes in order, nothing changed. */
  lemma ReadAnswer(c: Chip, cmd: seq<Byte>, addr: nat, n: nat, delay: nat)
    requires Idle(c) && Parse(c.id, Sel(c).wide, cmd) == Read(addr) && addr + n <= |c.mem[c.sel]|
    ensures Execute(c, cmd, [], delay) == c && Answer(c, cmd, n) == c.mem[c.sel][addr..addr + n]
  {
    hide Parse;
    var m := c.mem[c.sel];
    var data := Answer(c, cmd, n);
    forall k | 0 <= k < n
      ensures data[k] == m[addr + k]
    {
      DivModUnique(addr + k, 0, addr + k, |m|);
    }
  }

  /** The command programs or erases. */
  ghost predicate ArrayWrite(c: Chip, command: seq<Byte>)
    requires WellFormed(c)
  {
    var p := Parse(c.id, Sel(c).wide, command);
    p.Program? || p.Erase?
  }

  /** The command was carried out, once, on the selected die, and no other was refused. */
  ghost predicate Carried(c: Chip, command: seq<Byte>, data: seq<bv8>, d: Chip)
    requires WellFormed(c) && ArrayWrite(c, command)
  {
    var p := Parse(c.id, Sel(c).wide, command);
    && Settled(d) && Moved(c, d)
    && d.mem == c.mem[c.sel := if p.Program? then Programmed(c.mem[c.sel], p.addr % |c.mem[c.sel]|, data)
                               else SectorErased(c.mem[c.sel], c.sector, p.addr % |c.mem[c.sel]|)]
  }

  /** The selected die and its mode stay. */
  ghost predicate Moved(c: Chip, d: Chip)
    requires WellFormed(c) && WellFormed(d)
  {
    d.sel == c.sel && Sel(d).wide == Sel(c).wide && d.refused == c.refused
  }

  /** Write enable, the array command, write disable. */
  lemma Cycle(c: Chip, cmd: seq<Byte>, data: seq<bv8>, d0: nat, delay: nat, d2: nat)
    requires Idle(c) && ArrayWrite(c, cmd)
    ensures var d := Execute(Execute(Execute(c, [0x06], [], d0), cmd, data, delay), [0x04], [], d2);
            Carried(c, cmd, data, d) && Sel(d).busy == delay
  {
    var r := Sel(c);
    LatchCommand(c, true, d0);
    var c1 := WithLatch(c, true);
    assert c1 == WithRegs(c, r.(wel := true));
    var c2 := Execute(c1, cmd, data, delay);
    assert Sel(c2) == Started(r.(wel := true), delay);
    assert c2.mem == c.mem[c.sel := c2.mem[c.sel]];
    LatchCommand(c2, false, d2);
  }

  // ---------------------------------------------------------------- command buffers

  function ArrayCommand(op: Byte, addr: nat): Command {
    if IsRead(op) then Read(addr)
    else if IsProgram(op) then Program(addr)
    else if IsErase(op) then Erase(addr)
    else Malformed
  }

  /** Four address bytes and the right number of dummies decode to the address. */
  lemma ParseWide(id: nat, wide: bool, addr: nat, cmd: seq<Byte>)
    requires |cmd| >= 5 && |cmd| == 5 + DummyBytes(cmd[0], id) && AddressBytes(cmd[0], wide) == 4
    requires addr < 0x1_0000_0000 && cmd[1..5] == [Byte3(addr), Byte2(addr), Byte1(addr), Byte0(addr)]
    ensures Parse(id, wide, cmd) == ArrayCommand(cmd[0], addr)
  {
    AddressRoundTrip(addr);
  }

  /** So do three below 16 megabytes. */
  lemma ParseNarrow(id: nat, addr: nat, cmd: seq<Byte>)
    requires |cmd| >= 4 && |cmd| == 4 + DummyBytes(cmd[0], id) && AddressBytes(cmd[0], false) == 3
    requires addr < MB16 && cmd[1..4] == [Byte2(addr), Byte1(addr), Byte0(addr)]
    ensures Parse(id, false, cmd) == ArrayCommand(cmd[0], addr)
  {
    AddressRoundTrip(addr);
  }

  /** Three address bytes are used only where they reach. */
  lemma NarrowReaches(cfg: Config, io: IoMode, c: Chip, die: nat, last: nat)
    requires Fits(cfg, c) && die < |c.mem| && last < |c.mem[die]|
    ensures last < 0x1_0000_0000 && (!Wide(cfg, io, last) ==> last < MB16)
  {
  }

  // ---------------------------------------------------------------- requests and dies

  function DieOf(cfg: Config, addr: nat): Byte {
    if cfg.address.DieLo3Hi4? && addr >= MB32 then 1 else 0
  }

  /** Address on the die. */
  function OnDie(cfg: Config, addr: nat): nat {
    if cfg.address.DieLo3Hi4? && addr >= MB32 then addr - MB32 else addr
  }

  /** Where the second die starts; 0 when there is none. */
  function Cut(cfg: Config): nat { if cfg.address.DieLo3Hi4? then MB32 else 0 }

  predicate OneDie(cfg: Config, addr: nat, n: nat) { !(addr < Cut(cfg) < addr + n) }

  /** Where a request is that stays on one die. */
  lemma Located(cfg: Config, c: Chip, addr: nat, n: nat)
    requires Fits(cfg, c) && n > 0 && addr + n <= |Flat(c.mem)| && OneDie(cfg, addr, n)
    ensures DieOf(cfg, addr) < |c.mem| && At(DieOf(cfg, addr), OnDie(cfg, addr)) == addr
    ensures OnDie(cfg, addr) + n <= |c.mem[DieOf(cfg, addr)]|
    ensures forall a :: addr <= a < addr + n ==> Flat(c.mem)[a] == c.mem[DieOf(cfg, addr)][a - addr + OnDie(cfg, addr)]
  {
    if |c.mem| == 1 { FlatOne(c.mem); } else { FlatTwo(c.mem); }
  }
}
