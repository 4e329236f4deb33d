/** Reading: what arrives, and which failures are reported. */
module SpiReads {
  import opened SpiChip
  import opened SpiFlat
  import opened SpiProtocol
  import opened SpiLine
  import opened SpiFaults

  /** Every read command buffer decodes to the address in the mode the driver has entered. */
  lemma ReadParses(cfg: Config, addr: nat, last: int)
    requires addr < 0x1_0000_0000 && (!Wide(cfg, cfg.ioRead, last) ==> addr < MB16)
    ensures Parse(cfg.id, Wide(cfg, cfg.ioRead, last), ReadCommand(cfg, addr, last)) == SpiChip.Read(addr)
  {
    var cmd := ReadCommand(cfg, addr, last);
    if Wide(cfg, cfg.ioRead, last) {
      assert cmd[1..5] == WideAddress(addr);
      ParseWide(cfg.id, true, addr, cmd);
    } else {
      assert cmd[1..4] == NarrowAddress(addr);
      ParseNarrow(cfg.id, addr, cmd);
    }
  }

  /** The selected die is in the mode for a read up to `last` and has that many bytes. */
  ghost predicate CanRead(cfg: Config, c: Chip, last: int) {
    Idle(c) && c.id == cfg.id && Sel(c).wide == Wide(cfg, cfg.ioRead, last) && last < |c.mem[c.sel]|
  }

  lemma ReadTransfer(fates: Fates, cfg: Config, l: Line, addr: nat, n: nat, last: int)
    requires CanRead(cfg, l.chip, last) && addr + n <= last + 1
    requires last < 0x1_0000_0000 && addr <= last && (!Wide(cfg, cfg.ioRead, last) ==> last < MB16)
    ensures var cmd := ReadCommand(cfg, addr, last); var s := Send(fates, l, cmd, []);
            && s.line.chip == l.chip && Blamed(l, s.line, Sel(l.chip).wide, s.ret != 0)
            && Answer(l.chip, cmd, n) == l.chip.mem[l.chip.sel][addr..addr + n]
  {
    var cmd := ReadCommand(cfg, addr, last);
    ReadParses(cfg, addr, last);
    ReadAnswer(l.chip, cmd, addr, n, fates(l.sent, cmd).delay);
    hide Execute, Answer, Parse, ReadCommand, Wide, Idle;
  }

  lemma StoredTwice(buf: seq<bv8>, at: nat, a: seq<bv8>, b: seq<bv8>)
    ensures Stored(Stored(buf, at, a), at + |a|, b) == Stored(buf, at, a + b)
  {
  }

  lemma Piece(m: seq<bv8>, a: nat, b: nat, c: nat)
    requires a <= b <= c <= |m|
    ensures m[a..b] + m[b..c] == m[a..c]
  {
  }

  lemma {:induction false} ReadLoopOutcome(fates: Fates, cfg: Config, l: Line, addr: nat, bytes: nat, last: int,
                                           buf: seq<bv8>, at: nat)
    requires Probed(cfg) && CanRead(cfg, l.chip, last) && addr + bytes == last + 1
    requires last < 0x1_0000_0000 && (!Wide(cfg, cfg.ioRead, last) ==> last < MB16)
    ensures var g := ReadLoop(fates, cfg, l, addr, bytes, last, buf, at);
            && g.line.chip == l.chip && Blamed(l, g.line, Sel(l.chip).wide, g.ret != 0)
            && (g.ret == 0 ==> g.buf == Stored(buf, at, l.chip.mem[l.chip.sel][addr..addr + bytes]))
    decreases bytes
  {
    hide Send, Answer, ReadCommand, ReadSize, Stored, Wide, Idle, Settled;
    var m := l.chip.mem[l.chip.sel];
    if bytes == 0 {
      StoredNothing(buf, at, m[addr..addr]);
    } else {
      var n, cmd := ReadSize(cfg, bytes), ReadCommand(cfg, addr, last);
      var s := Send(fates, l, cmd, []);
      ReadTransfer(fates, cfg, l, addr, n, last);
      if s.ret == 0 {
        var b := Stored(buf, at, Answer(l.chip, cmd, n));
        ReadLoopOutcome(fates, cfg, s.line, addr + n, bytes - n, last, b, at + n);
        Piece(m, addr, addr + n, addr + bytes);
        StoredTwice(buf, at, m[addr..addr + n], m[addr + n..addr + bytes]);
      }
    }
  }

  lemma StoredNothing(buf: seq<bv8>, at: nat, data: seq<bv8>)
    requires data == []
    ensures Stored(buf, at, data) == buf
  {
  }

  /** The chip after `Enter` can be read, on the die the request landed on. */
  lemma Entered(cfg: Config, c: Chip, addr: nat, n: nat, e: Chip)
    requires Request(cfg, c, addr, n) && Idle(e) && Same(c, e) && Landing(cfg, addr, e.sel)
    requires Sel(e).wide == Wide(cfg, cfg.ioRead, OnDie(cfg, addr) + n - 1)
    ensures var a := OnDie(cfg, addr); var last := a + n - 1;
            && CanRead(cfg, e, last) && last < 0x1_0000_0000 && (!Wide(cfg, cfg.ioRead, last) ==> last < MB16)
            && e.id == cfg.id && At(e.sel, a) + n <= |Flat(c.mem)| && e.sel < |e.mem| && a + n <= |e.mem[e.sel]|
            && Flat(c.mem)[At(e.sel, a)..At(e.sel, a) + n] == e.mem[e.sel][a..a + n]
  {
    Placed(cfg, cfg.ioRead, c, addr, n, e.sel);
    hide Wide, Flat;
  }

  /** The result of reading `n` bytes at `addr0` from one die into the buffer. */
  ghost predicate SpanRead(l: Line, addr0: nat, n: nat, wide: bool, buf: seq<bv8>, at: nat, g: Got) {
    && AtRest(g.line.chip) && Same(l.chip, g.line.chip)
    && Blamed(l, g.line, wide, SomeFault(l, g.line))
    && (g.ret != 0 <==> SomeFault(l, g.line) && !wide)
    && addr0 + n <= |Flat(l.chip.mem)|
    && (!SomeFault(l, g.line) ==> g.buf == Stored(buf, at, Flat(l.chip.mem)[addr0..addr0 + n]))
  }

  lemma SpanParts(l: Line, e: Line, addr0: nat, n: nat, wide: bool, buf: seq<bv8>, at: nat, data: seq<bv8>, g: Got,
                  o: Out)
    requires Calm(l, e) && Same(l.chip, e.chip) && g.line.chip == e.chip && Sel(e.chip).wide == wide
    requires Blamed(e, g.line, wide, g.ret != 0) && (g.ret == 0 ==> g.buf == Stored(buf, at, data))
    requires Calm(g.line, o.line) && Same(g.line.chip, o.line.chip) && AtRest(o.line.chip)
    requires o.ret == if wide then 0 else g.ret
    requires g.ret <= 0 && addr0 + n <= |Flat(l.chip.mem)| && data == Flat(l.chip.mem)[addr0..addr0 + n]
    ensures SpanRead(l, addr0, n, wide, buf, at, Got(o.line, if g.ret < 0 then o.ret else 0, g.buf))
  {
    hide Flat, Stored, AtRest;
  }

  /** A request on one die: the chip is left as it was, up to status reads; without a failure the
      buffer gets the bytes of the place where the request went; and a failed transfer is reported
      exactly if no 4-byte mode had to be left. */
  lemma ReadLanded(fates: Fates, cfg: Config, l: Line, addr0: nat, bytes: nat, buf: seq<bv8>, at: nat)
    requires Probed(cfg) && ButSelectOk(fates) && Request(cfg, l.chip, addr0, bytes)
    ensures SpanRead(l, Place(fates, cfg, Wait(fates, l).line, addr0), bytes,
                     Wide(cfg, cfg.ioRead, OnDie(cfg, addr0) + bytes - 1), buf, at,
                     ReadSpan(fates, cfg, l, addr0, bytes, buf, at))
  {
    hide Request, Poll, Enter, Leave, ReadLoop, Wide, DieOf, OnDie, Flat, Stored, Steady, AtRest, Idle, Same, Calm,
         ButSelectOk, Blamed, SpanRead, CanRead, Landed, Landing;
    var die, addr := DieOf(cfg, addr0), OnDie(cfg, addr0);
    var last := addr + bytes - 1;
    var wide := Wide(cfg, cfg.ioRead, last);
    var w := Wait(fates, l).line;
    WaitRequest(fates, cfg, l, addr0, bytes);
    EnterRequest(fates, cfg, w, addr0, bytes, wide);
    var e := Enter(fates, w, cfg.id, die, wide).line;
    SameThen(l, w, e);
    Entered(cfg, l.chip, addr0, bytes, e.chip);
    ReadLoopOutcome(fates, cfg, e, addr, bytes, last, buf, at);
    var g := ReadLoop(fates, cfg, e, addr, bytes, last, buf, at);
    IdleSteady(g.line.chip);
    LeaveOutcome(fates, g.line, die, wide, g.ret);
    var from := Place(fates, cfg, w, addr0);
    SpanParts(l, e, from, bytes, wide, buf, at, Flat(l.chip.mem)[from..from + bytes], g,
              Leave(fates, g.line, cfg.id, die, wide, g.ret));
  }

  /** If the die select gets through, the place is the right one. */
  lemma ReadReported(fates: Fates, cfg: Config, l: Line, addr0: nat, bytes: nat, buf: seq<bv8>, at: nat)
    requires Probed(cfg) && ControlOk(fates) && Request(cfg, l.chip, addr0, bytes)
    ensures SpanRead(l, addr0, bytes, Wide(cfg, cfg.ioRead, OnDie(cfg, addr0) + bytes - 1), buf, at,
                     ReadSpan(fates, cfg, l, addr0, bytes, buf, at))
  {
    hide *;
    ControlButSelect(fates);
    RightPlace(fates, cfg, Wait(fates, l).line, l.chip, addr0, bytes);
    ReadLanded(fates, cfg, l, addr0, bytes, buf, at);
  }

  // ---------------------------------------------------------------- over both dies, in pieces

  /** The result of reading `n` bytes at `addr` into the buffer: a failure is reported exactly if
      it happened in 3-byte mode, and without failures all bytes are there. */
  ghost predicate ReadResult(l: Line, addr: nat, n: nat, buf: seq<bv8>, at: nat, g: Got) {
    && AtRest(g.line.chip) && Same(l.chip, g.line.chip)
    && l.faults3 <= g.line.faults3 && l.faults4 <= g.line.faults4
    && (g.ret == 0 <==> g.line.faults3 == l.faults3)
    && addr + n <= |Flat(l.chip.mem)|
    && (!SomeFault(l, g.line) ==> g.buf == Stored(buf, at, Flat(l.chip.mem)[addr..addr + n]))
  }

  lemma SpanResult(fates: Fates, cfg: Config, l: Line, addr: nat, n: nat, buf: seq<bv8>, at: nat)
    requires Probed(cfg) && ControlOk(fates) && Request(cfg, l.chip, addr, n)
    ensures ReadResult(l, addr, n, buf, at, ReadSpan(fates, cfg, l, addr, n, buf, at))
    ensures Fits(cfg, ReadSpan(fates, cfg, l, addr, n, buf, at).line.chip)
  {
    ReadReported(fates, cfg, l, addr, n, buf, at);
    SameFits(cfg, l.chip, ReadSpan(fates, cfg, l, addr, n, buf, at).line.chip);
    hide ReadSpan, Wide, OnDie, Flat, Stored, Fits, AtRest;
  }

  lemma SameFits(cfg: Config, c: Chip, d: Chip)
    requires Fits(cfg, c) && WellFormed(d) && Same(c, d)
    ensures Fits(cfg, d)
  {
    ShapeFits(cfg, c, d);
  }

  lemma NothingRead(l: Line, addr: nat, buf: seq<bv8>, at: nat)
    requires AtRest(l.chip) && addr <= |Flat(l.chip.mem)|
    ensures ReadResult(l, addr, 0, buf, at, Got(l, 0, buf))
  {
    StoredNothing(buf, at, Flat(l.chip.mem)[addr..addr]);
  }

  /** A failed first part ends the request. */
  lemma ReadStops(l: Line, addr: nat, n: nat, m: nat, buf: seq<bv8>, at: nat, g: Got)
    requires ReadResult(l, addr, n, buf, at, g) && g.ret != 0 && addr + n + m <= |Flat(l.chip.mem)|
    ensures forall ret :: ret != 0 ==> ReadResult(l, addr, n + m, buf, at, g.(ret := ret))
  {
    hide Flat, Stored, AtRest;
  }

  lemma ReadContinues(l: Line, addr: nat, n: nat, m: nat, buf: seq<bv8>, at: nat, g: Got, h: Got)
    requires ReadResult(l, addr, n, buf, at, g) && g.ret == 0
    requires ReadResult(g.line, addr + n, m, g.buf, at + n, h)
    ensures ReadResult(l, addr, n + m, buf, at, h)
  {
    hide Flat, Stored, AtRest;
    var f := Flat(l.chip.mem);
    Piece(f, addr, addr + n, addr + n + m);
    StoredTwice(buf, at, f[addr..addr + n], f[addr + n..addr + n + m]);
  }

  /** `spi_generic_read` */
  lemma ReadBytesResult(fates: Fates, cfg: Config, l: Line, addr: nat, n: nat, buf: seq<bv8>, at: nat)
    requires ControlOk(fates) && Probed(cfg) && Fits(cfg, l.chip) && AtRest(l.chip) && addr + n <= |Flat(l.chip.mem)|
    ensures ReadResult(l, addr, n, buf, at, ReadBytes(fates, cfg, l, addr, n, buf, at))
    ensures Fits(cfg, ReadBytes(fates, cfg, l, addr, n, buf, at).line.chip)
  {
    hide ReadSpan, ReadResult, Flat, Fits, AtRest;
    if n == 0 {
      NothingRead(l, addr, buf, at);
    } else if OneDie(cfg, addr, n) {
      SpanResult(fates, cfg, l, addr, n, buf, at);
    } else {
      var n1 := MB32 - addr;
      SpanResult(fates, cfg, l, addr, n1, buf, at);
      var g := ReadSpan(fates, cfg, l, addr, n1, buf, at);
      ResultSame(l, addr, n1, buf, at, g);
      if g.ret != 0 {
        ReadStops(l, addr, n1, n - n1, buf, at, g);
      } else {
        SpanResult(fates, cfg, g.line, MB32, n - n1, g.buf, at + n1);
        ReadContinues(l, addr, n1, n - n1, buf, at, g, ReadSpan(fates, cfg, g.line, MB32, n - n1, g.buf, at + n1));
      }
    }
  }

  lemma ResultSame(l: Line, addr: nat, n: nat, buf: seq<bv8>, at: nat, g: Got)
    requires ReadResult(l, addr, n, buf, at, g)
    ensures AtRest(g.line.chip) && g.line.chip.mem == l.chip.mem
  {
  }

  /** `read_one_chip`: reading as much as is asked for reports a failed transfer exactly if it
      was made in 3-byte mode. */
  lemma {:induction false} ReadPiecesResult(fates: Fates, cfg: Config, l: Line, addr: nat, len: nat, buf: seq<bv8>,
                                            at: nat)
    requires ControlOk(fates) && Probed(cfg) && Fits(cfg, l.chip) && AtRest(l.chip) && addr + len <= |Flat(l.chip.mem)|
    ensures ReadResult(l, addr, len, buf, at, ReadPieces(fates, cfg, l, addr, len, buf, at))
    decreases len
  {
    hide ReadBytes, ReadResult, Flat, Fits, AtRest;
    if len == 0 {
      NothingRead(l, addr, buf, at);
    } else {
      var n := if len >= SPI_READ_PAGE_SIZE then SPI_READ_PAGE_SIZE else len;
      ReadBytesResult(fates, cfg, l, addr, n, buf, at);
      var g := ReadBytes(fates, cfg, l, addr, n, buf, at);
      ResultSame(l, addr, n, buf, at, g);
      if g.ret != 0 {
        ReadStops(l, addr, n, len - n, buf, at, g);
      } else {
        ReadPiecesResult(fates, cfg, g.line, addr + n, len - n, g.buf, at + n);
        ReadContinues(l, addr, n, len - n, buf, at, g,
                      ReadPieces(fates, cfg, g.line, addr + n, len - n, g.buf, at + n));
      }
    }
  }
}
