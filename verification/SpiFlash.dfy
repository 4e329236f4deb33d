/** The flash driver as it runs: `generic.c` talks to the chip, `spiaccess.c` splits requests of
  the MTD layer into what the chip driver can do.  Every method does what its counterpart in
  `SpiLine` does, whatever becomes of the transfers. */
module SpiFlash {
  import opened SpiChip
  import opened SpiFlat
  import opened SpiProtocol
  import opened SpiErase
  import opened SpiLine
  import opened SpiOutcomes
  import opened SpiFaults
  import SpiReads
  import SpiSlow
  import SpiWrites

  const EINVAL: int := 22

  datatype FlashState = FlReady | FlWriting | FlErasing

  class Driver {
    const cfg: Config
    /** What becomes of each transfer. */
    const fates: Fates
    /** The chip, and what happened to the transfers so far. */
    var line: Line
    var locked: bool
    var state: FlashState

    ghost predicate Valid()
      reads this
    {
      Probed(cfg) && Fits(cfg, line.chip)
    }

    /** The flat contents of the chip. */
    ghost function Contents(): seq<bv8>
      reads this
    {
      Flat(line.chip.mem)
    }

    constructor (cfg: Config, fates: Fates, chip: Live)
      requires Probed(cfg) && Fits(cfg, chip)
      ensures Valid() && !locked && this.cfg == cfg && this.fates == fates && line == Line(chip, 0, 0, 0, 0, 0)
    {
      this.cfg, this.fates, line := cfg, fates, Line(chip, 0, 0, 0, 0, 0);
      locked, state := false, FlReady;
    }

    // ---------------------------------------------------------------- the wire

    /** `spi_transfer` without data or with data for the chip. */
    method Send(cmd: seq<Byte>, data: seq<bv8>) returns (ret: int)
      modifies `line
      ensures Out(line, ret) == SpiLine.Send(fates, old(line), cmd, data)
    {
      var r := SpiLine.Send(fates, line, cmd, data);
      line, ret := r.line, r.ret;
    }

    /** `spi_transfer` that takes data from the chip. */
    method Receive(cmd: seq<Byte>, n: nat) returns (ret: int, data: seq<bv8>)
      modifies `line
      ensures Out(line, ret) == SpiLine.Send(fates, old(line), cmd, []) && data == Answer(old(line).chip, cmd, n)
    {
      data := Answer(line.chip, cmd, n);
      ret := Send(cmd, []);
    }

    /** Poll a status register until it says ready: the write-in-progress bit of the status
        register gone, or the ready bit of the flag status register set. */
    method Poll(flag: bool) returns (ret: int)
      modifies `line
      ensures Out(line, ret) == SpiLine.Poll(fates, old(line), flag, 0)
    {
      hide SpiLine.Send, Answer;
      var count := 0;
      while count < MAX_READY_WAIT_COUNT
        invariant count <= MAX_READY_WAIT_COUNT
        invariant SpiLine.Poll(fates, line, flag, count) == SpiLine.Poll(fates, old(line), flag, 0)
      {
        var retval, sr := Receive([if flag then 0x70 else 0x05], 1);
        if retval < 0 {
          break;
        }
        if (flag && sr[0] & 0x80 != 0) || (!flag && sr[0] & 0x01 == 0) {
          return 0;
        }
        count := count + 1;
      }
      ret := 1;
    }

    /** `wait_till_ready` */
    method WaitTillReady() returns (ret: int)
      modifies `line
      ensures Out(line, ret) == Wait(fates, old(line))
    {
      ret := Poll(false);
    }

    /** `spi_generic_select_die` */
    method SelectDie(die: Byte) returns (ret: int)
      modifies `line
      ensures Out(line, ret) == PickDie(fates, old(line), die)
    {
      hide Wait, SpiLine.Send;
      var wait := WaitTillReady();
      if wait != 0 {
        return -1;
      }
      ret := Send([0xC2, die], []);
    }

    /** `enter_4byte_addr_mode` and `exit_4byte_addr_mode` */
    method SetAddressMode(wide: bool) returns (ret: int)
      modifies `line
      ensures Out(line, ret) == ChangeMode(fates, old(line), cfg.id, wide)
    {
      hide Wait, SpiLine.Send;
      var wait := WaitTillReady();
      if wait != 0 {
        return -1;
      }
      var ignored;
      if ModeNeedsLatch(cfg.id) {
        ignored := Send([0x06], []);
      }
      ret := Send(ModeCommand(wide), []);
      if ModeNeedsLatch(cfg.id) {
        ignored := Send([0x04], []);
      }
    }

    // ---------------------------------------------------------------- reading

    /** The command buffer of a read with four address bytes. */
    method SetUpWideRead(addr: nat, last: int) returns (command: array<Byte>, size: nat)
      requires Wide(cfg, cfg.ioRead, last)
      ensures fresh(command) && size <= command.Length && command[..size] == ReadCommand(cfg, addr, last)
    {
      command := new Byte[8](i => 0);
      var op;
      match cfg.ioRead {
        case Normal => op, size := if FourByteOpcodes(cfg) then 0x13 else 0x03, 5;
        case Fast => op, size := if FourByteOpcodes(cfg) then 0x0C else 0x0B, 6;
        case Dual => op, size := 0x3B, 6;
        case TwoIo => op, size := 0xBB, if Micron(cfg) then 7 else 6;
        case Quad => op, size := 0x6B, 6;
        case FourIo => op, size := 0xEB, 8;
      }
      command[0], command[1], command[2], command[3], command[4] :=
        op, Byte3(addr), Byte2(addr), Byte1(addr), Byte0(addr);
    }

    /** The same with three address bytes. */
    method SetUpNarrowRead(addr: nat, last: int) returns (command: array<Byte>, size: nat)
      requires !Wide(cfg, cfg.ioRead, last)
      ensures fresh(command) && size <= command.Length && command[..size] == ReadCommand(cfg, addr, last)
    {
      command := new Byte[8](i => 0);
      var op;
      match cfg.ioRead {
        case Normal => op, size := 0x03, 4;
        case Fast => op, size := 0x0B, 5;
        case Dual => op, size := 0x3B, 5;
        case TwoIo => op, size := 0xBB, if Micron(cfg) then 6 else 5;
      }
      command[0], command[1], command[2], command[3] := op, Byte2(addr), Byte1(addr), Byte0(addr);
    }

    /** One transfer of the loop. */
    method ReadChunk(addr: nat, last: int, n: nat, buff: array<bv8>, at: nat) returns (ret: int)
      requires at + n <= buff.Length
      modifies `line, buff
      ensures var cmd := ReadCommand(cfg, addr, last);
              && Out(line, ret) == SpiLine.Send(fates, old(line), cmd, [])
              && buff[..] == if ret < 0 then old(buff[..])
                             else Stored(old(buff[..]), at, Answer(old(line).chip, cmd, n))
    {
      hide SpiLine.Send, Answer, ReadCommand;
      var command, size;
      if Wide(cfg, cfg.ioRead, last) {
        command, size := SetUpWideRead(addr, last);
      } else {
        command, size := SetUpNarrowRead(addr, last);
      }
      var data;
      ret, data := Receive(command[..size], n);
      if ret >= 0 {
        Store(buff, at, data);
      }
    }

    /** The bytes go to the buffer. */
    method Store(buff: array<bv8>, at: nat, data: seq<bv8>)
      requires at + |data| <= buff.Length
      modifies buff
      ensures buff[..] == Stored(old(buff[..]), at, data)
    {
      forall k | 0 <= k < |data| {
        buff[at + k] := data[k];
      }
    }

    /** The transfer loop of `spi_generic_read`. */
    method ReadLoop(addr0: nat, bytes0: nat, last: int, buff: array<bv8>, at0: nat) returns (ret: int)
      requires Probed(cfg) && at0 + bytes0 <= buff.Length
      modifies `line, buff
      ensures Got(line, ret, buff[..]) ==
              SpiLine.ReadLoop(fates, cfg, old(line), addr0, bytes0, last, old(buff[..]), at0)
    {
      hide SpiLine.Send, Answer, ReadCommand, Stored;
      var addr: nat, bytes: nat, at: nat := addr0, bytes0, at0;
      while bytes > 0
        invariant at + bytes <= buff.Length
        invariant SpiLine.ReadLoop(fates, cfg, line, addr, bytes, last, buff[..], at) ==
                  SpiLine.ReadLoop(fates, cfg, old(line), addr0, bytes0, last, old(buff[..]), at0)
      {
        var transfer := bytes;
        if !cfg.burst && !cfg.ioRead.Quad? && !cfg.ioRead.FourIo? {
          transfer := if cfg.maxRead > bytes then bytes else cfg.maxRead;
        }
        var retval := ReadChunk(addr, last, transfer, buff, at);
        if retval < 0 {
          return -1;
        }
        bytes, addr, at := bytes - transfer, addr + transfer, at + transfer;
      }
      ret := 0;
    }

    // ---------------------------------------------------------------- around a request

    method Down()
      requires !locked
      modifies `locked
      ensures locked
    {
      locked := true;
    }

    method Up()
      requires locked
      modifies `locked
      ensures !locked
    {
      locked := false;
    }

    /** Select the die and enter 4-byte mode where the request needs it.  What the die select
        returns is not looked at. */
    method Enter(die: Byte, wide: bool) returns (ret: int)
      modifies `line
      ensures Out(line, ret) == SpiLine.Enter(fates, old(line), cfg.id, die, wide)
    {
      hide PickDie, ChangeMode;
      var ignored;
      if die == 1 {
        ignored := SelectDie(1);
      }
      ret := 0;
      if wide {
        ret := SetAddressMode(true);
        if ret < 0 && die == 1 {
          ignored := SelectDie(0);
        }
      }
    }

    /** Exit 4-byte mode and go back to die 0; what the exit returns replaces the result so far. */
    method Leave(die: Byte, wide: bool, soFar: int) returns (ret: int)
      modifies `line
      ensures Out(line, ret) == SpiLine.Leave(fates, old(line), cfg.id, die, wide, soFar)
    {
      hide PickDie, ChangeMode;
      ret := soFar;
      if wide {
        ret := SetAddressMode(false);
      }
      if die == 1 {
        var ignored := SelectDie(0);
      }
    }

    // ---------------------------------------------------------------- spi_generic_read

    /** `spi_generic_read` for a request on one die. */
    method ReadSpan(addr0: nat, bytes: nat, buff: array<bv8>, at: nat) returns (ret: int)
      requires Probed(cfg) && !locked && at + bytes <= buff.Length
      modifies `line, `locked, buff
      ensures !locked
      ensures Got(line, ret, buff[..]) == SpiLine.ReadSpan(fates, cfg, old(line), addr0, bytes, old(buff[..]), at)
    {
      hide Wait, SpiLine.Enter, SpiLine.Leave, SpiLine.ReadLoop, Wide, DieOf, OnDie;
      var die, addr := DieOf(cfg, addr0), OnDie(cfg, addr0);
      var last := addr + bytes - 1;
      Down();
      var wait := WaitTillReady();
      if wait != 0 {
        Up();
        return -1;
      }
      var wide := Wide(cfg, cfg.ioRead, last);
      ret := Enter(die, wide);
      if ret < 0 {
        Up();
        return;
      }
      ret := ReadLoop(addr, bytes, last, buff, at);
      if ret < 0 {
        ret := Leave(die, wide, ret);
        Up();
        return;
      }
      ret := Leave(die, wide, 0);
      Up();
      ret := 0;
    }

    /** `spi_generic_read`: a request over both dies is done in two. */
    method Read(addr: nat, bytes: nat, buff: array<bv8>, at: nat) returns (ret: int)
      requires Probed(cfg) && !locked && at + bytes <= buff.Length
      modifies `line, `locked, buff
      ensures !locked
      ensures Got(line, ret, buff[..]) == ReadBytes(fates, cfg, old(line), addr, bytes, old(buff[..]), at)
      decreases bytes
    {
      hide SpiLine.ReadSpan;
      if bytes == 0 {
        return 0;
      }
      if !OneDie(cfg, addr, bytes) {
        var transfer := MB32 - addr;
        ret := Read(addr, transfer, buff, at);
        if ret != 0 {
          return;
        }
        ret := ReadSpan(addr + transfer, bytes - transfer, buff, at + transfer);
      } else {
        ret := ReadSpan(addr, bytes, buff, at);
      }
    }

    // ---------------------------------------------------------------- programming and erasing

    /** The command buffer of a page program. */
    method SetUpProgram(addr: nat, last: int) returns (command: array<Byte>, size: nat)
      requires Probed(cfg)
      ensures fresh(command) && size <= command.Length && command[..size] == ProgramCommand(cfg, addr, last)
    {
      command := new Byte[5](i => 0);
      if Wide(cfg, cfg.ioWrite, last) {
        var op;
        match cfg.ioWrite {
          case Normal => op := if FourByteOpcodes(cfg) then 0x12 else 0x02;
          case Quad => op := 0x32;
          case FourIo => op := 0x38;
        }
        command[0], command[1], command[2], command[3], command[4] :=
          op, Byte3(addr), Byte2(addr), Byte1(addr), Byte0(addr);
        size := 5;
      } else {
        command[0], command[1], command[2], command[3] := 0x02, Byte2(addr), Byte1(addr), Byte0(addr);
        size := 4;
      }
    }

    /** The command buffer of a sector erase. */
    method SetUpErase(addr: nat) returns (command: array<Byte>, size: nat)
      ensures fresh(command) && size <= command.Length && command[..size] == EraseCommand(cfg, addr)
    {
      command := new Byte[5](i => 0);
      if Wide(cfg, cfg.ioWrite, addr) {
        command[0], command[1], command[2], command[3], command[4] :=
          if FourByteOpcodes(cfg) then 0xDC else 0xD8, Byte3(addr), Byte2(addr), Byte1(addr), Byte0(addr);
        size := 5;
      } else {
        command[0], command[1], command[2], command[3] := 0xD8, Byte2(addr), Byte1(addr), Byte0(addr);
        size := 4;
      }
    }

    /** Write enable, the command, write disable.  What the enable and the disable return is
        not looked at. */
    method Carry(command: seq<Byte>, data: seq<bv8>) returns (ret: int)
      modifies `line
      ensures Out(line, ret) == SpiLine.Carry(fates, old(line), command, data)
    {
      hide SpiLine.Send;
      var ignored := Send([0x06], []);
      ret := Send(command, data);
      ignored := Send([0x04], []);
    }

    /** `require_read_flag_status`, for the two Micron chips that ask for it. */
    method Flag() returns (ret: int)
      modifies `line
      ensures Out(line, ret) == SpiLine.Flag(fates, old(line), cfg.id)
    {
      ret := 0;
      if cfg.id == 0x2020BA || cfg.id == 0x2021BA {
        ret := Poll(true);
      }
    }

    // ---------------------------------------------------------------- spi_generic_write

    /** One turn of the programming loop: wait for the chip, then program up to a page. */
    method WriteTurn(addr: nat, chunk: seq<bv8>, last: int) returns (end: LoopEnd)
      requires Probed(cfg)
      modifies `line
      ensures Ended(line, end) == SpiLine.WriteTurn(fates, cfg, old(line), addr, chunk, last)
    {
      hide Wait, SpiLine.Carry, SpiLine.Flag, ProgramCommand;
      var wait := WaitTillReady();
      if wait != 0 {
        return NotReady;
      }
      var command, size := SetUpProgram(addr, last);
      var retval := Carry(command[..size], chunk);
      var notReady := Flag();
      if notReady != 0 {
        return NotFlagged;
      }
      end := if retval < 0 then Failed else Done;
    }

    /** The programming loop of `spi_generic_write`. */
    method WriteLoop(addr0: nat, data: seq<bv8>, last: int) returns (end: LoopEnd)
      requires Probed(cfg)
      modifies `line
      ensures Ended(line, end) == SpiLine.WriteLoop(fates, cfg, old(line), addr0, data, last)
    {
      hide SpiLine.WriteTurn;
      var addr: nat, buff: seq<bv8> := addr0, data;
      while buff != []
        invariant SpiLine.WriteLoop(fates, cfg, line, addr, buff, last) ==
                  SpiLine.WriteLoop(fates, cfg, old(line), addr0, data, last)
        decreases |buff|
      {
        var transfer := PAGE;
        if |buff| < transfer {
          transfer := |buff|;
        }
        end := WriteTurn(addr, buff[..transfer], last);
        if end != Done {
          return;
        }
        addr, buff := addr + transfer, buff[transfer..];
      }
      end := Done;
    }

    /** `spi_generic_write` for a request on one die.  When the chip does not get ready the exit
        from 4-byte mode is skipped. */
    method WriteSpan(addr0: nat, data: seq<bv8>) returns (ret: int)
      requires Probed(cfg) && !locked
      modifies `line, `locked
      ensures !locked && Out(line, ret) == SpiLine.WriteSpan(fates, cfg, old(line), addr0, data)
    {
      hide SpiLine.Enter, SpiLine.Leave, SpiLine.WriteLoop, PickDie, Wide, DieOf, OnDie;
      var die, addr := DieOf(cfg, addr0), OnDie(cfg, addr0);
      var last := addr + |data| - 1;
      Down();
      var wide := Wide(cfg, cfg.ioWrite, last);
      ret := Enter(die, wide);
      if ret < 0 {
        Up();
        return;
      }
      var end := WriteLoop(addr, data, last);
      match end {
        case NotReady =>
          if die == 1 {
            var ignored := SelectDie(0);
          }
          ret := -1;
        case NotFlagged =>
          ret := -1;
        case Failed =>
          ret := Leave(die, wide, -1);
        case Done =>
          ret := Leave(die, wide, 0);
          ret := 0;
      }
      Up();
    }

    /** `spi_generic_write`: a request over both dies is done in two. */
    method Write(addr: nat, data: seq<bv8>) returns (ret: int)
      requires Probed(cfg) && !locked
      modifies `line, `locked
      ensures !locked && Out(line, ret) == WriteBytes(fates, cfg, old(line), addr, data)
      decreases |data|
    {
      hide SpiLine.WriteSpan;
      if |data| == 0 {
        return 0;
      }
      if !OneDie(cfg, addr, |data|) {
        var transfer := MB32 - addr;
        ret := Write(addr, data[..transfer]);
        if ret != 0 {
          return;
        }
        ret := WriteSpan(addr + transfer, data[transfer..]);
      } else {
        ret := WriteSpan(addr, data);
      }
    }

    // ---------------------------------------------------------------- spi_generic_erase

    /** `spi_generic_erase` */
    method Erase(addr0: nat) returns (ret: int)
      requires !locked
      modifies `line, `locked
      ensures !locked && Out(line, ret) == EraseSector(fates, cfg, old(line), addr0)
    {
      hide Wait, SpiLine.Enter, SpiLine.Leave, SpiLine.Carry, SpiLine.Flag, EraseCommand, Wide, DieOf, OnDie;
      var die, addr := DieOf(cfg, addr0), OnDie(cfg, addr0);
      Down();
      var wait := WaitTillReady();
      if wait != 0 {
        Up();
        return -1;
      }
      var wide := Wide(cfg, cfg.ioWrite, addr);
      ret := Enter(die, wide);
      if ret < 0 {
        Up();
        return;
      }
      var command, size := SetUpErase(addr);
      ret := Carry(command[..size], []);
      var notReady := Flag();
      if notReady != 0 {
        Up();
        return -1;
      }
      ret := Leave(die, wide, ret);
      Up();
    }

    // ---------------------------------------------------------------- the MTD layer

    /** `read_one_chip`: pieces of 4 kilobytes. */
    method ReadOneChip(adr0: nat, len0: nat, buf: array<bv8>) returns (ret: int)
      requires Probed(cfg) && !locked && len0 <= buf.Length
      modifies this, buf
      ensures !locked && Got(line, ret, buf[..]) == ReadPieces(fates, cfg, old(line), adr0, len0, old(buf[..]), 0)
    {
      hide ReadBytes;
      state := FlReady;
      var bytes, i: nat, adr: nat, len: nat := SPI_READ_PAGE_SIZE, 0, adr0, len0;
      while len >= bytes
        invariant !locked && i + len <= buf.Length
        invariant ReadPieces(fates, cfg, line, adr, len, buf[..], i) ==
                  ReadPieces(fates, cfg, old(line), adr0, len0, old(buf[..]), 0)
      {
        var failed := Read(adr, bytes, buf, i);
        if failed != 0 {
          return -1;
        }
        len, i, adr := len - bytes, i + bytes, adr + bytes;
      }
      if len != 0 {
        var failed := Read(adr, len, buf, i);
        if failed != 0 {
          return -1;
        }
      }
      ret := 0;
    }

    /** `write_one_chip`: up to the end of the first page, then page by page. */
    method WriteOneChip(addr: nat, data: seq<bv8>) returns (ret: int)
      requires Probed(cfg) && !locked && data != []
      modifies this
      ensures !locked && Out(line, ret) == SpiLine.WritePages(fates, cfg, old(line), addr, data)
    {
      hide WriteBytes;
      state := FlWriting;
      var pageOffset := addr % PAGE;
      if pageOffset + |data| <= PAGE {
        assert data[..|data|] == data && data[|data|..] == [];
        var failed := Write(addr, data);
        if failed != 0 {
          return -1;
        }
      } else {
        var failed := WritePages(addr, data);
        if failed != 0 {
          return -1;
        }
      }
      state := FlReady;
      ret := 0;
    }

    /** The part of `write_one_chip` for more than one page. */
    method WritePages(addr: nat, data: seq<bv8>) returns (ret: int)
      requires Probed(cfg) && !locked && addr % PAGE + |data| > PAGE
      modifies `line, `locked
      ensures !locked && Out(line, ret) == SpiLine.WritePages(fates, cfg, old(line), addr, data)
    {
      hide WriteBytes, SpiLine.WritePages, PageRest;
      var pageSize: nat := PAGE - addr % PAGE;
      assert data[0..] == data && data[0..pageSize] == data[..pageSize];
      FirstPage(addr, data);
      PageTurn(fates, cfg, line, addr, data, 0, pageSize);
      var failed := Write(addr, data[..pageSize]);
      if failed != 0 {
        return -1;
      }
      var i: nat := pageSize;
      while i < |data|
        invariant !locked && i <= |data| && (i == |data| || (addr + i) % PAGE == 0)
        invariant SpiLine.WritePages(fates, cfg, line, addr + i, data[i..]) ==
                  SpiLine.WritePages(fates, cfg, old(line), addr, data)
      {
        pageSize := |data| - i;
        if pageSize > PAGE {
          pageSize := PAGE;
        }
        NextPage(addr + i, data[i..]);
        PageTurn(fates, cfg, line, addr, data, i, pageSize);
        failed := Write(addr + i, data[i..i + pageSize]);
        if failed != 0 {
          return -1;
        }
        i := i + pageSize;
      }
      PagesDone(fates, cfg, line, addr + i, data[i..]);
      ret := 0;
    }

    /** `spi_flash_read` */
    method FlashRead(mtd: Mtd, from: nat, len: nat, buf: array<bv8>) returns (ret: int, retlen: nat)
      requires Valid() && !locked && mtd.size == |Contents()| && len <= buf.Length
      modifies this, buf
      ensures Valid() && !locked
      ensures from + len > mtd.size ==> ret == -EINVAL && line == old(line) && buf[..] == old(buf[..])
      ensures from + len <= mtd.size ==>
                var g := ReadPieces(fates, cfg, old(line), from, len, old(buf[..]), 0);
                && line == g.line && buf[..] == g.buf
                && ret == (if g.ret == 0 then 0 else -EINVAL) && retlen == if g.ret == 0 then len else 0
      ensures from + len <= mtd.size && ControlOk(fates) && old(AtRest(line.chip)) ==>
                && AtRest(line.chip) && Contents() == old(Contents()) && line.chip.refused == old(line).chip.refused
                && (ret == 0 <==> line.faults3 == old(line).faults3)
                && (!SomeFault(old(line), line) ==>
                      ret == 0 && retlen == len && buf[..len] == Contents()[from..from + len])
    {
      retlen := 0;
      if from + len > mtd.size {
        return -EINVAL, retlen;
      }
      ghost var l, b := line, buf[..];
      ReadTheorem(fates, cfg, l, from, len, b);
      hide ReadPieces, Fits, AtRest, Flat, Probed, ControlOk;
      ret := ReadOneChip(from, len, buf);
      if ret == 0 {
        retlen := len;
      } else {
        ret := -EINVAL;
      }
    }

    /** `spi_flash_write` */
    method FlashWrite(mtd: Mtd, to: nat, buf: seq<bv8>) returns (ret: int, retlen: nat)
      requires Valid() && !locked && mtd.size == |Contents()|
      modifies this
      ensures Valid() && !locked
      ensures to + |buf| > mtd.size ==> ret == -EINVAL && retlen == 0 && line == old(line)
      ensures to + |buf| <= mtd.size ==>
                var r := SpiLine.WritePages(fates, cfg, old(line), to, buf);
                && line == r.line && ret == (if r.ret == 0 then 0 else -EINVAL)
                && retlen == if r.ret == 0 then |buf| else 0
      ensures Quick(fates) ==> line.slow == old(line).slow
      ensures to + |buf| <= mtd.size && ControlOk(fates) && line.slow == old(line).slow && old(AtRest(line.chip)) ==>
                && AtRest(line.chip) && line.chip.refused == old(line).chip.refused
                && (ret == 0 <==> line.faults3 == old(line).faults3)
                && (!SomeFault(old(line), line) ==>
                      ret == 0 && retlen == |buf| && Contents() == Cleared(old(Contents()), to, buf))
      ensures to + |buf| <= mtd.size && SpiSlow.InPage(to, |buf|)
              && ControlOk(fates) && old(AtRest(line.chip)) && ret == 0 ==>
                (AtRest(line.chip) <==> line.slow == old(line).slow)
    {
      retlen := 0;
      if to > mtd.size {
        return -EINVAL, retlen;
      }
      if |buf| + to > mtd.size {
        return -EINVAL, retlen;
      }
      ghost var l := line;
      WriteTheorem(fates, cfg, l, to, buf);
      if |buf| == 0 {
        return 0, retlen;
      }
      hide SpiLine.WritePages, Fits, AtRest, Flat, Probed, ControlOk, Quick, Cleared, SpiSlow.InPage;
      var failed := WriteOneChip(to, buf);
      if failed == 0 {
        return 0, |buf|;
      }
      ret := -EINVAL;
    }

    /** `spi_flash_erase` for a request whose loop ends; `done` is the callback. */
    method FlashErase(mtd: Mtd, addr: nat, length: nat) returns (ret: int, done: bool)
      requires Valid() && !locked && mtd.size == |Contents()| && MapOk(mtd)
      requires Accepted(mtd, addr, length) ==> WholeBlocks(mtd, addr, length)
      modifies this
      ensures Valid() && !locked
      ensures !Accepted(mtd, addr, length) ==> ret == -EINVAL && !done && line == old(line)
      ensures Accepted(mtd, addr, length) ==>
                && Out(line, ret) ==
                   SpiLine.EraseBlocks(fates, cfg, old(line), addr, EraseSizeAt(mtd, addr), Turns(mtd, addr, length))
                && (done <==> ret == 0)
      ensures Quick(fates) ==> line.slow == old(line).slow
      ensures Accepted(mtd, addr, length)
              && ControlOk(fates) && line.slow == old(line).slow && old(AtRest(line.chip)) ==>
                && AtRest(line.chip) && line.chip.refused == old(line).chip.refused
                && (ret == 0 <==> line.faults3 == old(line).faults3)
                && (!SomeFault(old(line), line) ==>
                      && ret == 0
                      && Contents() == EraseWalk(old(Contents()), line.chip.sector, addr, EraseSizeAt(mtd, addr),
                                                 Turns(mtd, addr, length)))
      ensures Uniform(mtd, line.chip.sector) ==>
                line.chip.sector > 0 &&
                if Aligned(|old(Contents())|, line.chip.sector, addr, length) then
                  ControlOk(fates) && line.slow == old(line).slow && old(AtRest(line.chip))
                  && !SomeFault(old(line), line) ==>
                    ret == 0 && Contents() == Erased(old(Contents()), addr, length)
                else ret == -22 && line == old(line)
      ensures Accepted(mtd, addr, length) && length == EraseSizeAt(mtd, addr)
              && ControlOk(fates) && old(AtRest(line.chip)) && ret == 0 ==>
                (AtRest(line.chip) <==> line.slow == old(line).slow)
    {
      ghost var l := line;
      if Uniform(mtd, line.chip.sector) {
        AcceptedUniform(mtd, addr, length, line.chip.sector);
        if Accepted(mtd, addr, length) {
          UniformErase(mtd, addr, length, Contents(), line.chip.sector);
        }
      }
      if Accepted(mtd, addr, length) {
        EraseTheorem(fates, cfg, l, addr, EraseSizeAt(mtd, addr), length);
      }
      hide SpiLine.EraseBlocks, Fits, AtRest, Flat, Probed, ControlOk, Quick, EraseWalk;
      done := false;
      if addr > mtd.size || length + addr > mtd.size {
        return -EINVAL, done;
      }
      var first, i := FindRegions(mtd, addr, length);
      if addr % mtd.regions[first].eraseSize != 0 {
        return -EINVAL, done;
      }
      if (addr + length) % mtd.regions[i].eraseSize != 0 {
        return -EINVAL, done;
      }
      ret := EraseBlocks(addr, length, mtd.regions[first].eraseSize);
      done := ret == 0;
    }

    /** The two walks over the erase regions: where the request starts and where it ends. */
    method FindRegions(mtd: Mtd, addr: nat, length: nat) returns (first: nat, i: nat)
      requires MapOk(mtd)
      ensures first < |mtd.regions| && i < |mtd.regions|
      ensures mtd.regions[first].eraseSize == EraseSizeAt(mtd, addr)
      ensures mtd.regions[i].eraseSize == EraseSizeAt(mtd, addr + length)
    {
      i := 0;
      while i < |mtd.regions| && addr >= mtd.regions[i].offset
        invariant i <= |mtd.regions| && WalkFrom(mtd.regions, 0, addr) == WalkFrom(mtd.regions, i, addr)
      {
        i := i + 1;
      }
      first := i - 1;
      i := first;
      WalkShared(mtd.regions, 0, first, addr, addr + length);
      while i < |mtd.regions| && addr + length >= mtd.regions[i].offset
        invariant first <= i <= |mtd.regions|
        invariant WalkFrom(mtd.regions, 0, addr + length) == WalkFrom(mtd.regions, i, addr + length)
      {
        i := i + 1;
      }
      i := i - 1;
    }

    /** The erase loop, with the remaining length in 32-bit arithmetic. */
    method EraseBlocks(addr: nat, length: nat, step: nat) returns (ret: int)
      requires !locked && length < WORD && step > 0 && length % step == 0
      modifies this
      ensures !locked && Out(line, ret) == SpiLine.EraseBlocks(fates, cfg, old(line), addr, step, length / step)
    {
      hide EraseSector;
      var adr: nat, len: nat := addr, length;
      ghost var n: nat := 0;
      LeftAt(length, step, 0);
      while len != 0
        invariant !locked && n <= length / step && adr == addr + n * step && len == Left(length, step, n)
        invariant len == length - n * step
        invariant SpiLine.EraseBlocks(fates, cfg, line, adr, step, length / step - n) ==
                  SpiLine.EraseBlocks(fates, cfg, old(line), addr, step, length / step)
        decreases length / step - n
      {
        LeftAt(length, step, n);
        LeftAt(length, step, n + 1);
        state := FlErasing;
        ret := Erase(adr);
        state := FlReady;
        if ret != 0 {
          return;
        }
        adr, len := adr + step, (len - step) % WORD;
        n := n + 1;
      }
      LeftAt(length, step, n);
      ret := 0;
    }
  }

  // ---------------------------------------------------------------- what the requests come to

  lemma FirstPage(addr: nat, data: seq<bv8>)
    requires addr % PAGE + |data| > PAGE
    ensures PageRest(addr, data) == PAGE - addr % PAGE && (addr + (PAGE - addr % PAGE)) % PAGE == 0
  {
  }

  lemma NextPage(addr: nat, data: seq<bv8>)
    requires addr % PAGE == 0
    ensures PageRest(addr, data) == (if |data| > PAGE then PAGE else |data|) && (addr + PAGE) % PAGE == 0
  {
  }

  /** One turn of the page loop. */
  lemma PageTurn(fates: Fates, cfg: Config, l: Line, addr: nat, data: seq<bv8>, i: nat, n: nat)
    requires i < |data| && n == PageRest(addr + i, data[i..])
    ensures i + n <= |data|
    ensures var w := WriteBytes(fates, cfg, l, addr + i, data[i..i + n]);
            SpiLine.WritePages(fates, cfg, l, addr + i, data[i..]) ==
            if w.ret != 0 then Out(w.line, -1)
            else SpiLine.WritePages(fates, cfg, w.line, addr + (i + n), data[i + n..])
  {
    hide WriteBytes, PageRest;
    assert data[i..][..n] == data[i..i + n] && data[i..][n..] == data[i + n..];
  }

  lemma PagesDone(fates: Fates, cfg: Config, l: Line, addr: nat, data: seq<bv8>)
    requires data == []
    ensures SpiLine.WritePages(fates, cfg, l, addr, data) == Out(l, 0)
  {
  }

  lemma ReadTheorem(fates: Fates, cfg: Config, l: Line, from: nat, len: nat, b: seq<bv8>)
    requires Probed(cfg) && Fits(cfg, l.chip) && from + len <= |Flat(l.chip.mem)| && len <= |b|
    ensures var g := ReadPieces(fates, cfg, l, from, len, b, 0);
            && Fits(cfg, g.line.chip)
            && (ControlOk(fates) && AtRest(l.chip) ==>
                  && AtRest(g.line.chip) && g.line.chip.mem == l.chip.mem && g.line.chip.refused == l.chip.refused
                  && (g.ret == 0 <==> g.line.faults3 == l.faults3)
                  && (!SomeFault(l, g.line) ==> g.ret == 0 && g.buf[..len] == Flat(l.chip.mem)[from..from + len]))
  {
    ReadPiecesFollows(fates, cfg, l, from, len, b, 0);
    FollowsFits(fates, cfg, l, ReadPieces(fates, cfg, l, from, len, b, 0).line);
    if ControlOk(fates) && AtRest(l.chip) {
      SpiReads.ReadPiecesResult(fates, cfg, l, from, len, b, 0);
      StoredAt(b, Flat(l.chip.mem)[from..from + len]);
    }
    hide ReadPieces, Flat, Fits, AtRest, Stored, ControlOk, AllOk, Dead, Quick;
  }

  lemma StoredAt(b: seq<bv8>, data: seq<bv8>)
    requires |data| <= |b|
    ensures Stored(b, 0, data)[..|data|] == data
  {
  }

  lemma WriteTheorem(fates: Fates, cfg: Config, l: Line, to: nat, data: seq<bv8>)
    requires Probed(cfg) && Fits(cfg, l.chip) && to + |data| <= |Flat(l.chip.mem)|
    ensures var r := SpiLine.WritePages(fates, cfg, l, to, data);
            && Fits(cfg, r.line.chip) && (Quick(fates) ==> r.line.slow == l.slow)
            && (ControlOk(fates) && r.line.slow == l.slow && AtRest(l.chip) ==>
                  SpiWrites.Stores(l, Cleared(Flat(l.chip.mem), to, data), r))
            && (ControlOk(fates) && AtRest(l.chip) && SpiSlow.InPage(to, |data|) && r.ret == 0 ==>
                  (AtRest(r.line.chip) <==> r.line.slow == l.slow))
  {
    WritePagesFollows(fates, cfg, l, to, data);
    FollowsFits(fates, cfg, l, SpiLine.WritePages(fates, cfg, l, to, data).line);
    QuickFollows(fates, l, SpiLine.WritePages(fates, cfg, l, to, data).line);
    hide *;
    if ControlOk(fates) && AtRest(l.chip) {
      UsableNow(cfg, l.chip);
      if SpiLine.WritePages(fates, cfg, l, to, data).line.slow == l.slow {
        SpiWrites.WritePagesResult(fates, cfg, l, to, data);
      }
      if SpiSlow.InPage(to, |data|) {
        SpiSlow.OnePageRest(fates, cfg, l, to, data);
      }
    }
  }

  lemma EraseTheorem(fates: Fates, cfg: Config, l: Line, addr: nat, step: nat, length: nat)
    requires Probed(cfg) && Fits(cfg, l.chip) && addr + length <= |Flat(l.chip.mem)| && step > 0 && length % step == 0
    ensures length < WORD
    ensures var r := SpiLine.EraseBlocks(fates, cfg, l, addr, step, length / step);
            && Fits(cfg, r.line.chip) && r.line.chip.sector == l.chip.sector && (Quick(fates) ==> r.line.slow == l.slow)
            && (ControlOk(fates) && r.line.slow == l.slow && AtRest(l.chip) ==>
                  SpiWrites.Stores(l, EraseWalk(Flat(l.chip.mem), l.chip.sector, addr, step, length / step), r))
            && (ControlOk(fates) && AtRest(l.chip) && length == step && r.ret == 0 ==>
                  (AtRest(r.line.chip) <==> r.line.slow == l.slow))
  {
    hide *;
    var n := length / step;
    BelowWord(cfg, l.chip);
    LastBlockInside(addr, step, length);
    EraseBlocksFollows(fates, cfg, l, addr, step, n);
    FollowsFits(fates, cfg, l, SpiLine.EraseBlocks(fates, cfg, l, addr, step, n).line);
    QuickFollows(fates, l, SpiLine.EraseBlocks(fates, cfg, l, addr, step, n).line);
    if ControlOk(fates) && AtRest(l.chip) {
      UsableNow(cfg, l.chip);
      if SpiLine.EraseBlocks(fates, cfg, l, addr, step, n).line.slow == l.slow {
        SpiWrites.EraseBlocksResult(fates, cfg, l, addr, step, n);
      }
      if length == step {
        SpiSlow.OneBlockRest(fates, cfg, l, addr, step);
      }
    }
  }

  lemma QuickFollows(fates: Fates, l: Line, r: Line)
    requires Follows(fates, l, r)
    ensures Quick(fates) ==> r.slow == l.slow
  {
  }

  lemma LastBlockInside(addr: nat, step: nat, length: nat)
    requires step > 0 && length % step == 0
    ensures length / step > 0 ==> addr + (length / step - 1) * step < addr + length
  {
    var n := length / step;
    assert length == n * step;
    assert (n - 1) * step == n * step - step;
  }

  lemma FollowsFits(fates: Fates, cfg: Config, l: Line, r: Line)
    requires Fits(cfg, l.chip) && Follows(fates, l, r)
    ensures Fits(cfg, r.chip) && r.chip.sector == l.chip.sector
  {
    ShapeFits(cfg, l.chip, r.chip);
  }

  lemma UsableNow(cfg: Config, c: Chip)
    requires Probed(cfg) && Fits(cfg, c) && AtRest(c)
    ensures SpiWrites.Usable(cfg, c)
  {
  }

  lemma BelowWord(cfg: Config, c: Chip)
    requires Fits(cfg, c)
    ensures |Flat(c.mem)| < WORD
  {
    if |c.mem| == 1 { FlatOne(c.mem); } else { FlatTwo(c.mem); }
  }
}
