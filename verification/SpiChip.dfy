/** A serial NOR flash chip of one or two dies as the driver sees it: what each command does to
  its registers and its memory.  A page program wraps inside its 256-byte page and only
  clears bits; while a die is busy it takes nothing but status reads. */
module SpiChip {

  type Byte = x: nat | x < 256

  const PAGE: nat := 256
  const MB16: nat := 0x100_0000
  const MB32: nat := 0x200_0000
  const MAX_READY_WAIT_COUNT: nat := 4_000_000

  /** `wide` is 4-byte address mode, `wel` the write enable latch; a die with `busy > 0` has the
      write-in-progress bit set and needs that many more status reads to finish. */
  datatype Regs = Regs(wide: bool, wel: bool, busy: nat)

  /** `id` is the JEDEC identification, `sector` what the erase command clears, `refused` counts
      the array commands that were malformed or came at the wrong time. */
  datatype Chip = Chip(id: nat, sector: nat, mem: seq<seq<bv8>>, regs: seq<Regs>, sel: nat, refused: nat)

  predicate WellFormed(c: Chip) {
    && 0 < |c.mem| == |c.regs| && c.sel < |c.mem| && 0 < c.sector
    && forall k :: 0 <= k < |c.mem| ==> |c.mem[k]| > 0
  }

  type Live = c: Chip | WellFormed(c) witness Chip(0, 1, [[0]], [Regs(false, false, 0)], 0, 0)

  // ---------------------------------------------------------------- commands

  datatype Command = Malformed | Status | FlagStatus | WriteEnable | WriteDisable | SetMode(wide: bool)
                   | SelectDie(die: Byte) | Read(addr: nat) | Program(addr: nat) | Erase(addr: nat)

  /** Address bytes an opcode takes: the four-byte opcodes do not depend on the mode. */
  function AddressBytes(op: Byte, wide: bool): nat {
    if op == 0x13 || op == 0x0C || op == 0x12 || op == 0xDC || wide then 4 else 3
  }

  /** Dummy bytes between address and data. */
  function DummyBytes(op: Byte, id: nat): nat {
    match op
    case 0x0B => 1
    case 0x0C => 1
    case 0x3B => 1
    case 0x6B => 1
    case 0xBB => if id / 0x10000 == 0x20 then 2 else 1
    case 0xEB => 3
    case _ => 0
  }

  predicate IsRead(op: Byte) {
    op == 0x03 || op == 0x13 || op == 0x0B || op == 0x0C || op == 0x3B || op == 0xBB || op == 0x6B || op == 0xEB
  }

  predicate IsProgram(op: Byte) { op == 0x02 || op == 0x12 || op == 0x32 || op == 0x38 }

  predicate IsErase(op: Byte) { op == 0xD8 || op == 0xDC }

  function BigEndian(bytes: seq<Byte>): nat {
    if bytes == [] then 0 else BigEndian(bytes[..|bytes| - 1]) * 256 + bytes[|bytes| - 1]
  }

  function ParseArray(id: nat, wide: bool, cmd: seq<Byte>): Command
    requires |cmd| > 0
  {
    var n := AddressBytes(cmd[0], wide);
    if |cmd| != 1 + n + DummyBytes(cmd[0], id) then Malformed
    else if IsRead(cmd[0]) then Read(BigEndian(cmd[1..1 + n]))
    else if IsProgram(cmd[0]) then Program(BigEndian(cmd[1..1 + n]))
    else if IsErase(cmd[0]) then Erase(BigEndian(cmd[1..1 + n]))
    else Malformed
  }

  /** What a die in the given mode takes a command for. */
  function Parse(id: nat, wide: bool, cmd: seq<Byte>): Command {
    if |cmd| == 0 then Malformed
    else if cmd == [0x05] then Status
    else if cmd == [0x70] then FlagStatus
    else if cmd == [0x06] then WriteEnable
    else if cmd == [0x04] then WriteDisable
    else if cmd == [0xB7] then SetMode(true)
    else if cmd == [0xE9] then SetMode(false)
    else if |cmd| == 2 && cmd[0] == 0xC2 then SelectDie(cmd[1])
    else ParseArray(id, wide, cmd)
  }

  // ---------------------------------------------------------------- effects on memory

  /** The bytes of `data` go round inside the page of `addr`; the last ones to hit a cell count. */
  function Latched(addr: nat, data: seq<bv8>, j: nat): (k: int)
    ensures k == -1 || (0 <= k < |data| && (addr + k) % PAGE == j % PAGE)
  {
    var r := (j % PAGE + PAGE - addr % PAGE) % PAGE;
    LatchedCell(addr, j, r);
    if r < |data| then
      var turns := (|data| - 1 - r) / PAGE;
      LatchedTurn(addr, j, r, turns);
      r + PAGE * turns
    else -1
  }

  lemma LatchedCell(addr: nat, j: nat, r: nat)
    requires r == (j % PAGE + PAGE - addr % PAGE) % PAGE
    ensures (addr + r) % PAGE == j % PAGE
  {
  }

  lemma LatchedTurn(addr: nat, j: nat, r: nat, turns: nat)
    requires (addr + r) % PAGE == j % PAGE
    ensures (addr + (r + PAGE * turns)) % PAGE == j % PAGE
  {
  }

  /** Page program: only bits of the page are cleared. */
  function Programmed(mem: seq<bv8>, addr: nat, data: seq<bv8>): (m: seq<bv8>)
    ensures |m| == |mem|
  {
    seq(|mem|, j requires 0 <= j < |mem| =>
      if j / PAGE == addr / PAGE && Latched(addr, data, j) >= 0 then mem[j] & data[Latched(addr, data, j)]
      else mem[j])
  }

  /** Sector erase: the sector the address lies in becomes all ones. */
  function SectorErased(mem: seq<bv8>, sector: nat, addr: nat): (m: seq<bv8>)
    requires sector > 0
    ensures |m| == |mem|
  {
    seq(|mem|, j requires 0 <= j < |mem| => if j / sector == addr / sector then 0xFF else mem[j])
  }

  // ---------------------------------------------------------------- one transfer

  function Sel(c: Chip): Regs
    requires WellFormed(c)
  {
    c.regs[c.sel]
  }

  function WithRegs(c: Chip, r: Regs): Chip
    requires WellFormed(c)
  {
    c.(regs := c.regs[c.sel := r])
  }

  function WithMem(c: Chip, m: seq<bv8>): Chip
    requires WellFormed(c)
  {
    c.(mem := c.mem[c.sel := m])
  }

  /** One status read later. */
  function Polled(r: Regs): Regs {
    if r.busy > 1 then r.(busy := r.busy - 1)
    else if r.busy == 1 then r.(busy := 0, wel := false)
    else r
  }

  /** A program or erase has started and takes `delay` status reads. */
  function Started(r: Regs, delay: nat): Regs {
    if delay == 0 then r.(wel := false) else r.(busy := delay)
  }

  /** Micron chips change the address mode only with the latch set. */
  predicate ModeNeedsLatch(id: nat) { id == 0x2019BA || id == 0x2020BA || id == 0x2021BA }

  /** What a transfer does to the chip.  `delay` is how long a program or erase takes. */
  function Execute(c: Chip, cmd: seq<Byte>, data: seq<bv8>, delay: nat): Chip
    requires WellFormed(c)
  {
    var r := Sel(c);
    match Parse(c.id, r.wide, cmd)
    case Malformed => c.(refused := c.refused + 1)
    case Status => WithRegs(c, Polled(r))
    case FlagStatus => WithRegs(c, Polled(r))
    case WriteEnable => if r.busy > 0 then c else WithRegs(c, r.(wel := true))
    case WriteDisable => if r.busy > 0 then c else WithRegs(c, r.(wel := false))
    case SetMode(wide) => if r.busy > 0 || (ModeNeedsLatch(c.id) && !r.wel) then c else WithRegs(c, r.(wide := wide))
    case SelectDie(die) => if r.busy > 0 || die >= |c.mem| then c else c.(sel := die)
    case Read(addr) => if r.busy > 0 then c.(refused := c.refused + 1) else c
    case Program(addr) =>
      if r.busy > 0 || !r.wel then c.(refused := c.refused + 1)
      else WithRegs(WithMem(c, Programmed(c.mem[c.sel], addr % |c.mem[c.sel]|, data)), Started(r, delay))
    case Erase(addr) =>
      if r.busy > 0 || !r.wel then c.(refused := c.refused + 1)
      else WithRegs(WithMem(c, SectorErased(c.mem[c.sel], c.sector, addr % |c.mem[c.sel]|)), Started(r, delay))
  }

  /** What the chip puts on the line for `n` bytes; nothing drives it when a command is refused. */
  function Answer(c: Chip, cmd: seq<Byte>, n: nat): (data: seq<bv8>)
    requires WellFormed(c)
    ensures |data| == n
  {
    var r := Sel(c);
    var m := c.mem[c.sel];
    match Parse(c.id, r.wide, cmd)
    case Status => seq(n, k => (if r.busy > 0 then 1 else 0) | (if r.wel then 2 else 0))
    case FlagStatus => seq(n, k => if r.busy > 0 then 0 else 0x80)
    case Read(addr) =>
      if r.busy > 0 then seq(n, k => 0xFF)
      else seq(n, k requires 0 <= k < n => m[(addr + k) % |m|])
    case _ => seq(n, k => 0xFF)
  }

  // ---------------------------------------------------------------- addresses

  function Byte3(addr: nat): Byte { addr / 0x100_0000 % 256 }
  function Byte2(addr: nat): Byte { addr / 0x1_0000 % 256 }
  function Byte1(addr: nat): Byte { addr / 0x100 % 256 }
  function Byte0(addr: nat): Byte { addr % 256 }

  /** Three address bytes carry 24 bits, four carry 32. */
  lemma AddressRoundTrip(addr: nat)
    ensures addr < 0x100_0000 ==> BigEndian([Byte2(addr), Byte1(addr), Byte0(addr)]) == addr
    ensures addr < 0x1_0000_0000 ==> BigEndian([Byte3(addr), Byte2(addr), Byte1(addr), Byte0(addr)]) == addr
  {
    var a, b, c, d := Byte3(addr), Byte2(addr), Byte1(addr), Byte0(addr);
    BigEndianThree(b, c, d);
    BigEndianFour(a, b, c, d);
    assert addr / 0x100_0000 == addr / 0x1_0000 / 256;
    assert addr / 0x1_0000 == addr / 0x100 / 256;
  }

  lemma BigEndianThree(b: Byte, c: Byte, d: Byte)
    ensures BigEndian([b, c, d]) == (b * 256 + c) * 256 + d
  {
    assert [b, c, d][..2] == [b, c] && [b, c][..1] == [b] && [b][..0] == [];
    assert BigEndian([b]) == b;
    assert BigEndian([b, c]) == BigEndian([b]) * 256 + c;
  }

  lemma BigEndianFour(a: Byte, b: Byte, c: Byte, d: Byte)
    ensures BigEndian([a, b, c, d]) == ((a * 256 + b) * 256 + c) * 256 + d
  {
    BigEndianThree(a, b, c);
    assert [a, b, c, d][..3] == [a, b, c];
  }
}
