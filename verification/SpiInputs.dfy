/** One input for each way in which a request is returned as done and is not: chips of the tables,
  all erased, and single bytes. */
module SpiInputs {
  import opened SpiChip
  import opened SpiFlat
  import opened SpiProtocol
  import opened SpiLine
  import opened SpiOutcomes
  import opened SpiFaults
  import opened SpiWrites
  import opened SpiSlow
  import SpiAstray
  import SpiUnreported

  function Erased(size: nat): (m: seq<bv8>)
    ensures |m| == size && forall k :: 0 <= k < |m| ==> m[k] == 0xFF
  {
    seq(size, k => 0xFF)
  }

  /** A byte is a single call of the chip driver. */
  lemma OneByteWrite(fates: Fates, cfg: Config, l: Line, addr: nat, b: bv8)
    requires WriteSpan(fates, cfg, l, addr, [b]).ret == 0
    ensures WritePages(fates, cfg, l, addr, [b]) == WriteSpan(fates, cfg, l, addr, [b])
  {
    hide WriteSpan;
    assert [b][..1] == [b] && [b][1..] == [];
    assert PageRest(addr, [b]) == 1;
    assert WriteBytes(fates, cfg, l, addr, [b]) == WriteSpan(fates, cfg, l, addr, [b]);
  }

  // ---------------------------------------------------------------- nothing gets through

  /** A Micron N25Q256A on a controller with quad input and output. */
  const N25Q256A: Config := Config(0x2019BA, Lo3Hi4, Quad, Quad, 256, false)

  function MicronChip(): (c: Live) {
    Chip(0x2019BA, 0x1_0000, [Erased(MB32)], [IDLE], 0, 0)
  }

  /** Register and mode commands get through, commands with an address do not. */
  const CONTROL_ONLY: Fates := (n: nat, cmd: seq<Byte>) => Fate(!IsArray(cmd), false, 0)

  lemma MicronRequest()
    ensures Request(N25Q256A, MicronChip(), 0, 1) && OnDie(N25Q256A, 0) == 0 && Probed(N25Q256A)
    ensures Wide(N25Q256A, N25Q256A.ioRead, 0) && Wide(N25Q256A, N25Q256A.ioWrite, 0)
  {
    hide Erased;
    FlatOne(MicronChip().mem);
    assert MB32 % PAGE == 0 && MB32 % 0x1_0000 == 0;
  }

  lemma ControlFates()
    ensures ControlOk(CONTROL_ONLY) && Dead(CONTROL_ONLY)
  {
  }

  /** The MTD layer is told that a byte was written, a block erased and a byte read; memory and
      buffer are as they were. */
  lemma OneByteUnreported(l: Line, b: bv8)
    requires l.chip == MicronChip()
    ensures var w := WritePages(CONTROL_ONLY, N25Q256A, l, 0, [b]); w.ret == 0 && w.line.chip.mem == l.chip.mem
    ensures var e := EraseBlocks(CONTROL_ONLY, N25Q256A, l, 0, 0x1_0000, 1); e.ret == 0 && e.line.chip.mem == l.chip.mem
    ensures var g := ReadPieces(CONTROL_ONLY, N25Q256A, l, 0, 1, [b], 0); g.ret == 0 && g.buf == [b]
  {
    MicronRequest();
    ControlFates();
    hide Request, Wide, OnDie, WriteSpan, EraseSector, ReadSpan, ControlOk, Dead, MicronChip;
    SpiUnreported.WriteUnreported(CONTROL_ONLY, N25Q256A, l, 0, [b]);
    OneByteWrite(CONTROL_ONLY, N25Q256A, l, 0, b);
    SpiUnreported.EraseUnreported(CONTROL_ONLY, N25Q256A, l, 0);
    SpiUnreported.ReadUnreported(CONTROL_ONLY, N25Q256A, l, 0, 1, [b], 0);
  }

  // ---------------------------------------------------------------- the write enable is lost

  /** A Winbond W25Q128 on a controller without quad output. */
  const W25Q128: Config := Config(0xEF1840, Addr3, Normal, Normal, 256, false)

  function WinbondChip(): (c: Live) {
    Chip(0xEF1840, 0x1_0000, [Erased(MB16)], [IDLE], 0, 0)
  }

  /** Everything but write enables gets through. */
  const NO_ENABLE: Fates := (n: nat, cmd: seq<Byte>) => Fate(cmd != [0x06], false, 0)

  lemma WinbondRequest()
    ensures Request(W25Q128, WinbondChip(), 0, 1) && Idle(WinbondChip())
    ensures DieOf(W25Q128, 0) == 0 && !WideSpan(W25Q128, 0, 1)
  {
    hide Erased;
    FlatOne(WinbondChip().mem);
    assert MB16 % PAGE == 0 && MB16 % 0x1_0000 == 0;
  }

  /** The MTD layer is told that the byte was written; the chip refused it. */
  lemma ByteNotEnabled(l: Line, b: bv8)
    requires l.chip == WinbondChip()
    ensures var w := WritePages(NO_ENABLE, W25Q128, l, 0, [b]);
            w.ret == 0 && Flat(w.line.chip.mem) == Flat(l.chip.mem)
  {
    WinbondRequest();
    assert ButEnableOk(NO_ENABLE);
    hide Request, Idle, DieOf, WideSpan, WriteSpan, ButEnableOk, WinbondChip, Flat, Chunked;
    SpiUnreported.EnableLostPage(NO_ENABLE, W25Q128, l, 0, [b]);
    OneByteWrite(NO_ENABLE, W25Q128, l, 0, b);
  }

  // ---------------------------------------------------------------- the wrong die

  /** A Winbond W25M512 on a controller without quad output. */
  const W25M512: Config := Config(0xEF1971, DieLo3Hi4, Normal, Normal, 256, false)

  function TwoDieChip(): (c: Live) {
    Chip(0xEF1971, 0x1_0000, [Erased(MB32), Erased(MB32)], [IDLE, IDLE], 0, 0)
  }

  /** Everything gets through; the program at address 0x100 of a die takes one poll too long. */
  const LATE: Fates := (n: nat, cmd: seq<Byte>) =>
    Fate(true, true, if cmd == [0x02, 0, 1, 0] then MAX_READY_WAIT_COUNT else 0)

  lemma TwoDieRequest(addr: nat)
    requires addr < 2 * MB32
    ensures var c := TwoDieChip();
            Request(W25M512, c, addr, 1) && |Flat(c.mem)| == 2 * MB32 && Flat(c.mem) == Erased(MB32) + Erased(MB32)
  {
    hide Erased;
    FlatTwo(TwoDieChip().mem);
    assert MB32 % PAGE == 0 && MB32 % 0x1_0000 == 0;
  }

  /** The two programs that occur: at address 0x100 of a die, slow, and at its start. */
  lemma LateCommands(addr: nat)
    requires addr == 0 || addr == MB32
    ensures AllOk(LATE) && Unflagged(W25M512) && W25M512.address.DieLo3Hi4?
    ensures Takes(LATE, PageCommand(W25M512, addr + 0x100, 1), MAX_READY_WAIT_COUNT)
    ensures Takes(LATE, PageCommand(W25M512, addr, 1), 0)
    ensures !WideSpan(W25M512, addr + 0x100, 1)
    ensures DieOf(W25M512, addr + 0x100) == DieOf(W25M512, addr) == if addr == 0 then 0 else 1
  {
    assert NarrowAddress(0x100) == [0, 1, 0] && NarrowAddress(0) == [0, 0, 0];
    assert PageCommand(W25M512, addr + 0x100, 1) == [0x02, 0, 1, 0];
    assert PageCommand(W25M512, addr, 1) == [0x02, 0, 0, 0];
    assert [0x02, 0, 0, 0][2] != [0x02, 0, 1, 0][2];
  }

  /** After a slow byte on die 0, a byte written to the first address of die 1 is found at the
      first address of die 0; both writes return 0. */
  lemma WrongDie0(l: Line)
    requires l.chip == TwoDieChip()
    ensures var w1 := WritePages(LATE, W25M512, l, 0x100, [0]); var w2 := WritePages(LATE, W25M512, w1.line, MB32, [0]);
            var f := Flat(w2.line.chip.mem);
            w1.ret == 0 && w2.ret == 0 && |f| == 2 * MB32 && f[MB32] == 0xFF && f[0] == 0
  {
    TwoDieRequest(0x100);
    LateCommands(0);
    LateCommands(MB32);
    var f := Flat(l.chip.mem);
    BytesOnBlank(f);
    hide Request, AllOk, Takes, Unflagged, WideSpan, DieOf, WriteSpan, TwoDieChip, Flat, Chunked, Erased;
    SpiAstray.NextOnDie0(LATE, W25M512, l, 0x100, [0], MAX_READY_WAIT_COUNT, MB32, [0], 0);
    var w1 := WriteSpan(LATE, W25M512, l, 0x100, [0]);
    OneByteWrite(LATE, W25M512, l, 0x100, 0);
    OneByteWrite(LATE, W25M512, w1.line, MB32, 0);
  }

  lemma BytesOnBlank(f: seq<bv8>)
    requires f == Erased(MB32) + Erased(MB32)
    ensures var g := Chunked(Chunked(f, 0x100, [0]), 0, [0]); |g| == 2 * MB32 && g[MB32] == 0xFF && g[0] == 0
  {
    ChunkedExact(f, 0x100, [0]);
    ChunkedExact(Cleared(f, 0x100, [0]), 0, [0]);
    hide Chunked, Erased;
  }

  /** After a slow byte on die 1, a byte written to the first address of die 0 is found at the
      first address of die 1; both writes return 0, and die 1 stays selected. */
  lemma WrongDie1(l: Line)
    requires l.chip == TwoDieChip()
    ensures var w1 := WritePages(LATE, W25M512, l, MB32 + 0x100, [0]);
            var w2 := WritePages(LATE, W25M512, w1.line, 0, [0]);
            var c := w2.line.chip;
            && w1.ret == 0 && w2.ret == 0 && c.sel == 1
            && |c.mem| == 2 && |c.mem[0]| == |c.mem[1]| == MB32 && c.mem[0][0] == 0xFF && c.mem[1][0] == 0
  {
    TwoDieRequest(MB32 + 0x100);
    LateCommands(0);
    LateCommands(MB32);
    hide Request, AllOk, Takes, Unflagged, WideSpan, DieOf, WriteSpan, Flat, Chunked, Erased, DieWritten;
    SpiAstray.NextOnDie1(LATE, W25M512, l, MB32 + 0x100, [0], MAX_READY_WAIT_COUNT, 0, [0], 0);
    var w1 := WriteSpan(LATE, W25M512, l, MB32 + 0x100, [0]);
    OneByteWrite(LATE, W25M512, l, MB32 + 0x100, 0);
    OneByteWrite(LATE, W25M512, w1.line, 0, 0);
    WriteSpanFollows(LATE, W25M512, l, MB32 + 0x100, [0]);
    Die0Same(l.chip, w1.line.chip);
    ByteOnDie1(w1.line.chip);
  }

  /** A byte on die 1 leaves die 0 alone. */
  lemma Die0Same(c: Live, d: Live)
    requires c == TwoDieChip() && Shape(c, d) && Flat(d.mem) == Chunked(Flat(c.mem), MB32 + 0x100, [0])
    ensures |d.mem| == 2 && |d.mem[0]| == |d.mem[1]| == MB32 && d.mem[0][0] == 0xFF
  {
    FlatTwo(c.mem);
    FlatTwo(d.mem);
    ChunkedExact(Flat(c.mem), MB32 + 0x100, [0]);
    hide Chunked, Erased, Flat;
    assert |d.mem[0]| == |c.mem[0]| && |d.mem[1]| == |c.mem[1]|;
    assert Flat(d.mem)[0] == d.mem[0][0];
  }

  lemma ByteOnDie1(c: Live)
    requires |c.mem| == 2 && |c.mem[1]| == MB32
    ensures var m := DieWritten(c, 1, 0, [0]); |m| == MB32 && m[0] == 0
  {
    ChunkedExact(c.mem[1], 0, [0]);
    hide Chunked;
  }
}
