/** The flash driver as functions of what becomes of each transfer: `generic.c`, and the walks of
  `spiaccess.c` over pages, pieces and blocks. */
module SpiLine {
  import opened SpiChip
  import opened SpiProtocol

  // ---------------------------------------------------------------- transfers

  /** What becomes of a transfer: whether the controller reports success, whether the chip saw a
      transfer that was not reported as a success, and how many status reads a program or erase
      started by it takes. */
  datatype Fate = Fate(ok: bool, seen: bool, delay: nat)

  /** The fate of transfer number `n`, which may depend on its command bytes. */
  type Fates = (nat, seq<Byte>) -> Fate

  /** The chip and what happened on the way to it: the number of transfers, of array transfers
      that failed with the selected die in 3-byte and in 4-byte mode, of array commands that
      reached the chip, and of those among them that take longer than the driver waits. */
  datatype Line = Line(chip: Live, sent: nat, faults3: nat, faults4: nat, hits: nat, slow: nat)

  datatype Out = Out(line: Line, ret: int)

  /** Commands with an address; all others have at most two bytes. */
  predicate IsArray(cmd: seq<Byte>) { |cmd| >= 4 }

  function Count(n: nat, more: bool): nat { if more then n + 1 else n }

  /** `spi_transfer` */
  function Send(fates: Fates, l: Line, cmd: seq<Byte>, data: seq<bv8>): (r: Out)
    ensures r.ret == 0 || r.ret == -1
  {
    var f := fates(l.sent, cmd);
    var arrived, wide := f.ok || f.seen, Sel(l.chip).wide;
    ExecuteShape(l.chip, cmd, data, f.delay);
    Out(Line(if arrived then Execute(l.chip, cmd, data, f.delay) else l.chip,
             l.sent + 1,
             Count(l.faults3, IsArray(cmd) && !f.ok && !wide),
             Count(l.faults4, IsArray(cmd) && !f.ok && wide),
             Count(l.hits, IsArray(cmd) && arrived),
             Count(l.slow, IsArray(cmd) && arrived && f.delay >= MAX_READY_WAIT_COUNT)),
        if f.ok then 0 else -1)
  }

  /** The ready indication of the flag status register or of the status register. */
  predicate SaysReady(flag: bool, sr: bv8) { if flag then sr & 0x80 != 0 else sr & 0x01 == 0 }

  function PollCommand(flag: bool): seq<Byte> { [if flag then 0x70 else 0x05] }

  /** Poll a status register, `count` times so far. */
  function Poll(fates: Fates, l: Line, flag: bool, count: nat): (r: Out)
    ensures r.ret == 0 || r.ret == 1
    decreases MAX_READY_WAIT_COUNT - count
  {
    if count >= MAX_READY_WAIT_COUNT then Out(l, 1)
    else
      var s := Send(fates, l, PollCommand(flag), []);
      if s.ret < 0 then Out(s.line, 1)
      else if SaysReady(flag, Answer(l.chip, PollCommand(flag), 1)[0]) then Out(s.line, 0)
      else Poll(fates, s.line, flag, count + 1)
  }

  /** `wait_till_ready` */
  function Wait(fates: Fates, l: Line): (r: Out)
    ensures r.ret == 0 || r.ret == 1
  {
    Poll(fates, l, false, 0)
  }

  // ---------------------------------------------------------------- die and mode

  /** `spi_generic_select_die` */
  function PickDie(fates: Fates, l: Line, die: Byte): (r: Out)
    ensures r.ret == 0 || r.ret == -1
  {
    var w := Wait(fates, l);
    if w.ret != 0 then Out(w.line, -1) else Send(fates, w.line, [0xC2, die], [])
  }

  /** The mode command, between write enable and write disable for chips that want the latch;
      only what the mode command itself returns counts. */
  function Switch(fates: Fates, l: Line, latch: bool, wide: bool): (r: Out)
    ensures r.ret == 0 || r.ret == -1
  {
    var e := if latch then Send(fates, l, [0x06], []).line else l;
    var s := Send(fates, e, ModeCommand(wide), []);
    Out(if latch then Send(fates, s.line, [0x04], []).line else s.line, s.ret)
  }

  /** `enter_4byte_addr_mode` and `exit_4byte_addr_mode` */
  function ChangeMode(fates: Fates, l: Line, id: nat, wide: bool): (r: Out)
    ensures r.ret == 0 || r.ret == -1
  {
    var w := Wait(fates, l);
    if w.ret != 0 then Out(w.line, -1) else Switch(fates, w.line, ModeNeedsLatch(id), wide)
  }

  /** Select the die and enter 4-byte mode where the request needs it; what the die select
      returns is not looked at. */
  function Enter(fates: Fates, l: Line, id: nat, die: Byte, wide: bool): (r: Out)
    ensures r.ret == 0 || r.ret == -1
  {
    var l1 := if die == 1 then PickDie(fates, l, 1).line else l;
    if !wide then Out(l1, 0)
    else
      var s := ChangeMode(fates, l1, id, true);
      if s.ret < 0 && die == 1 then Out(PickDie(fates, s.line, 0).line, s.ret) else s
  }

  /** Exit 4-byte mode and go back to die 0; what the exit returns replaces the result so far. */
  function Leave(fates: Fates, l: Line, id: nat, die: Byte, wide: bool, soFar: int): (r: Out) {
    var s := if wide then ChangeMode(fates, l, id, false) else Out(l, soFar);
    Out(if die == 1 then PickDie(fates, s.line, 0).line else s.line, s.ret)
  }

  // ---------------------------------------------------------------- command buffers

  /** Spansion and two-die chips have opcodes of their own for four address bytes. */
  predicate FourByteOpcodes(cfg: Config) { cfg.id == 0x011902 || cfg.address.DieLo3Hi4? }

  predicate Micron(cfg: Config) { cfg.id / 0x10000 == 0x20 }

  function WideAddress(addr: nat): seq<Byte> { [Byte3(addr), Byte2(addr), Byte1(addr), Byte0(addr)] }

  function NarrowAddress(addr: nat): seq<Byte> { [Byte2(addr), Byte1(addr), Byte0(addr)] }

  function ReadCommand(cfg: Config, addr: nat, last: int): (cmd: seq<Byte>)
    ensures IsArray(cmd)
  {
    if Wide(cfg, cfg.ioRead, last) then
      match cfg.ioRead
      case Normal => [if FourByteOpcodes(cfg) then 0x13 else 0x03] + WideAddress(addr)
      case Fast => [if FourByteOpcodes(cfg) then 0x0C else 0x0B] + WideAddress(addr) + [0]
      case Dual => [0x3B] + WideAddress(addr) + [0]
      case TwoIo => [0xBB] + WideAddress(addr) + if Micron(cfg) then [0, 0] else [0]
      case Quad => [0x6B] + WideAddress(addr) + [0]
      case FourIo => [0xEB] + WideAddress(addr) + [0, 0, 0]
    else
      match cfg.ioRead
      case Fast => [0x0B] + NarrowAddress(addr) + [0]
      case Dual => [0x3B] + NarrowAddress(addr) + [0]
      case TwoIo => [0xBB] + NarrowAddress(addr) + if Micron(cfg) then [0, 0] else [0]
      case _ => [0x03] + NarrowAddress(addr)
  }

  function ProgramCommand(cfg: Config, addr: nat, last: int): (cmd: seq<Byte>)
    ensures IsArray(cmd)
  {
    if Wide(cfg, cfg.ioWrite, last) then
      [if cfg.ioWrite.Quad? then 0x32 else if cfg.ioWrite.FourIo? then 0x38
       else if FourByteOpcodes(cfg) then 0x12 else 0x02] + WideAddress(addr)
    else [0x02] + NarrowAddress(addr)
  }

  function EraseCommand(cfg: Config, addr: nat): (cmd: seq<Byte>)
    ensures IsArray(cmd)
  {
    if Wide(cfg, cfg.ioWrite, addr) then [if FourByteOpcodes(cfg) then 0xDC else 0xD8] + WideAddress(addr)
    else [0xD8] + NarrowAddress(addr)
  }

  // ---------------------------------------------------------------- reading

  /** The buffer with `data` at `at`. */
  function Stored(buf: seq<bv8>, at: nat, data: seq<bv8>): (b: seq<bv8>)
    ensures |b| == |buf|
  {
    seq(|buf|, k requires 0 <= k < |buf| => if at <= k < at + |data| then data[k - at] else buf[k])
  }

  datatype Got = Got(line: Line, ret: int, buf: seq<bv8>)

  /** Bytes of the next transfer. */
  function ReadSize(cfg: Config, bytes: nat): (n: nat)
    ensures n <= bytes && (bytes > 0 && cfg.maxRead > 0 ==> n > 0)
  {
    if cfg.burst || cfg.ioRead.Quad? || cfg.ioRead.FourIo? || cfg.maxRead > bytes then bytes else cfg.maxRead
  }

  /** The transfer loop of `spi_generic_read`; a transfer that fails delivers nothing. */
  function ReadLoop(fates: Fates, cfg: Config, l: Line, addr: nat, bytes: nat, last: int, buf: seq<bv8>, at: nat)
    : (g: Got)
    requires Probed(cfg)
    ensures (g.ret == 0 || g.ret == -1) && |g.buf| == |buf|
    decreases bytes
  {
    if bytes == 0 then Got(l, 0, buf)
    else
      var n, cmd := ReadSize(cfg, bytes), ReadCommand(cfg, addr, last);
      var s := Send(fates, l, cmd, []);
      if s.ret < 0 then Got(s.line, -1, buf)
      else ReadLoop(fates, cfg, s.line, addr + n, bytes - n, last, Stored(buf, at, Answer(l.chip, cmd, n)), at + n)
  }

  /** `spi_generic_read` for a request on one die. */
  function ReadSpan(fates: Fates, cfg: Config, l: Line, addr0: nat, bytes: nat, buf: seq<bv8>, at: nat): (g: Got)
    requires Probed(cfg)
    ensures |g.buf| == |buf|
  {
    var die, addr := DieOf(cfg, addr0), OnDie(cfg, addr0);
    var last := addr + bytes - 1;
    var wide := Wide(cfg, cfg.ioRead, last);
    var w := Wait(fates, l);
    if w.ret != 0 then Got(w.line, -1, buf)
    else
      var e := Enter(fates, w.line, cfg.id, die, wide);
      if e.ret < 0 then Got(e.line, e.ret, buf)
      else
        var g := ReadLoop(fates, cfg, e.line, addr, bytes, last, buf, at);
        var o := Leave(fates, g.line, cfg.id, die, wide, g.ret);
        Got(o.line, if g.ret < 0 then o.ret else 0, g.buf)
  }

  /** `spi_generic_read`: a request over both dies is done in two. */
  function ReadBytes(fates: Fates, cfg: Config, l: Line, addr: nat, bytes: nat, buf: seq<bv8>, at: nat): (g: Got)
    requires Probed(cfg)
    ensures |g.buf| == |buf|
  {
    if bytes == 0 then Got(l, 0, buf)
    else if OneDie(cfg, addr, bytes) then ReadSpan(fates, cfg, l, addr, bytes, buf, at)
    else
      var n := MB32 - addr;
      var g := ReadSpan(fates, cfg, l, addr, n, buf, at);
      if g.ret != 0 then g else ReadSpan(fates, cfg, g.line, MB32, bytes - n, g.buf, at + n)
  }

  const SPI_READ_PAGE_SIZE: nat := 4096

  /** `read_one_chip` */
  function ReadPieces(fates: Fates, cfg: Config, l: Line, addr: nat, len: nat, buf: seq<bv8>, at: nat): (g: Got)
    requires Probed(cfg)
    ensures (g.ret == 0 || g.ret == -1) && |g.buf| == |buf|
    decreases len
  {
    if len == 0 then Got(l, 0, buf)
    else
      var n := if len >= SPI_READ_PAGE_SIZE then SPI_READ_PAGE_SIZE else len;
      var g := ReadBytes(fates, cfg, l, addr, n, buf, at);
      if g.ret != 0 then g.(ret := -1) else ReadPieces(fates, cfg, g.line, addr + n, len - n, g.buf, at + n)
  }

  // ---------------------------------------------------------------- programming and erasing

  /** Write enable, the command, write disable; what the enable and the disable return is not
      looked at. */
  function Carry(fates: Fates, l: Line, cmd: seq<Byte>, data: seq<bv8>): (r: Out)
    ensures r.ret == 0 || r.ret == -1
  {
    var e := Send(fates, l, [0x06], []).line;
    var s := Send(fates, e, cmd, data);
    Out(Send(fates, s.line, [0x04], []).line, s.ret)
  }

  /** `require_read_flag_status`, for the two Micron chips that ask for it. */
  function Flag(fates: Fates, l: Line, id: nat): (r: Out)
    ensures r.ret == 0 || r.ret == 1
  {
    if id == 0x2020BA || id == 0x2021BA then Poll(fates, l, true, 0) else Out(l, 0)
  }

  /** How the programming loop ends. */
  datatype LoopEnd = Done | NotReady | NotFlagged | Failed

  datatype Ended = Ended(line: Line, end: LoopEnd)

  function ChunkSize(data: seq<bv8>): nat { if |data| < PAGE then |data| else PAGE }

  /** One turn of the loop: wait for the chip, then program up to a page. */
  function WriteTurn(fates: Fates, cfg: Config, l: Line, addr: nat, chunk: seq<bv8>, last: int): (r: Ended) {
    var w := Wait(fates, l);
    if w.ret != 0 then Ended(w.line, NotReady)
    else
      var k := Carry(fates, w.line, ProgramCommand(cfg, addr, last), chunk);
      var f := Flag(fates, k.line, cfg.id);
      Ended(f.line, if f.ret != 0 then NotFlagged else if k.ret < 0 then Failed else Done)
  }

  /** The programming loop of `spi_generic_write`. */
  function WriteLoop(fates: Fates, cfg: Config, l: Line, addr: nat, data: seq<bv8>, last: int): (r: Ended)
    decreases |data|
  {
    if data == [] then Ended(l, Done)
    else
      var n := ChunkSize(data);
      var t := WriteTurn(fates, cfg, l, addr, data[..n], last);
      if t.end != Done then t else WriteLoop(fates, cfg, t.line, addr + n, data[n..], last)
  }

  /** After the loop; when the chip does not get ready, the exit from 4-byte mode is skipped. */
  function WriteEnd(fates: Fates, r: Ended, id: nat, die: Byte, wide: bool): (o: Out) {
    match r.end
    case NotReady => Out(if die == 1 then PickDie(fates, r.line, 0).line else r.line, -1)
    case NotFlagged => Out(r.line, -1)
    case Failed => Leave(fates, r.line, id, die, wide, -1)
    case Done => Leave(fates, r.line, id, die, wide, 0).(ret := 0)
  }

  /** `spi_generic_write` for a request on one die. */
  function WriteSpan(fates: Fates, cfg: Config, l: Line, addr0: nat, data: seq<bv8>): (r: Out) {
    var die, addr := DieOf(cfg, addr0), OnDie(cfg, addr0);
    var last := addr + |data| - 1;
    var wide := Wide(cfg, cfg.ioWrite, last);
    var e := Enter(fates, l, cfg.id, die, wide);
    if e.ret < 0 then e
    else WriteEnd(fates, WriteLoop(fates, cfg, e.line, addr, data, last), cfg.id, die, wide)
  }

  /** `spi_generic_write`: a request over both dies is done in two. */
  function WriteBytes(fates: Fates, cfg: Config, l: Line, addr: nat, data: seq<bv8>): (r: Out) {
    if data == [] then Out(l, 0)
    else if OneDie(cfg, addr, |data|) then WriteSpan(fates, cfg, l, addr, data)
    else
      var n := MB32 - addr;
      var w := WriteSpan(fates, cfg, l, addr, data[..n]);
      if w.ret != 0 then w else WriteSpan(fates, cfg, w.line, MB32, data[n..])
  }

  /** Bytes up to the end of the page. */
  function PageRest(addr: nat, data: seq<bv8>): (n: nat)
    ensures n <= |data| && (data != [] ==> n > 0)
  {
    if addr % PAGE + |data| <= PAGE then |data| else PAGE - addr % PAGE
  }

  /** `write_one_chip`: page by page. */
  function WritePages(fates: Fates, cfg: Config, l: Line, addr: nat, data: seq<bv8>): (r: Out)
    ensures r.ret == 0 || r.ret == -1
    decreases |data|
  {
    if data == [] then Out(l, 0)
    else
      var n := PageRest(addr, data);
      var w := WriteBytes(fates, cfg, l, addr, data[..n]);
      if w.ret != 0 then Out(w.line, -1) else WritePages(fates, cfg, w.line, addr + n, data[n..])
  }

  /** `spi_generic_erase` */
  function EraseSector(fates: Fates, cfg: Config, l: Line, addr0: nat): (r: Out) {
    var die, addr := DieOf(cfg, addr0), OnDie(cfg, addr0);
    var wide := Wide(cfg, cfg.ioWrite, addr);
    var w := Wait(fates, l);
    if w.ret != 0 then Out(w.line, -1)
    else
      var e := Enter(fates, w.line, cfg.id, die, wide);
      if e.ret < 0 then e
      else
        var k := Carry(fates, e.line, EraseCommand(cfg, addr), []);
        var f := Flag(fates, k.line, cfg.id);
        if f.ret != 0 then Out(f.line, -1) else Leave(fates, f.line, cfg.id, die, wide, k.ret)
  }

  /** `n` turns of the loop of `spi_flash_erase`. */
  function EraseBlocks(fates: Fates, cfg: Config, l: Line, addr: nat, step: nat, n: nat): (r: Out)
    decreases n
  {
    if n == 0 then Out(l, 0)
    else
      var e := EraseSector(fates, cfg, l, addr);
      if e.ret != 0 then e else EraseBlocks(fates, cfg, e.line, addr + step, step, n - 1)
  }
}
