/** The commands of the driver against what their opcodes stand for: how many data lines each of them
  uses; and into how many transfers a read is cut. */
module SpiOpcodes {
  import opened SpiChip
  import opened SpiProtocol
  import opened SpiLine

  /** Data lines an opcode uses for the address and for the data. */
  function LinesOf(op: Byte): (nat, nat) {
    match op
    case 0x3B => (1, 2) // dual output
    case 0xBB => (2, 2) // dual input and output
    case 0x6B => (1, 4) // quad output
    case 0x32 => (1, 4) // quad page program
    case 0xEB => (4, 4) // quad input and output
    case 0x38 => (4, 4) // quad page program, address on four lines
    case _ => (1, 1)
  }

  /** The lines the I/O mode is for. */
  function LinesFor(io: IoMode): (nat, nat) {
    match io
    case Normal => (1, 1)
    case Fast => (1, 1)
    case Dual => (1, 2)
    case TwoIo => (2, 2)
    case Quad => (1, 4)
    case FourIo => (4, 4)
  }

  /** Every read is sent with an opcode for the lines of the I/O mode, followed by three or four
      address bytes and as many zero bytes as the chip waits before it answers: none for a plain
      read, one for the fast, dual and quad ones, three for four lines both ways, and one, on Micron
      chips two, for two lines both ways.  The opcodes that always take four address bytes are for
      one Spansion chip and for the two-die chips. */
  lemma ReadLines(cfg: Config, addr: nat, last: int)
    ensures var cmd := ReadCommand(cfg, addr, last);
            var n := if Wide(cfg, cfg.ioRead, last) then 5 else 4;
            && IsRead(cmd[0]) && LinesOf(cmd[0]) == LinesFor(cfg.ioRead)
            && |cmd| == n + (match cfg.ioRead
                             case Normal => 0
                             case Fast => 1
                             case Dual => 1
                             case TwoIo => if 0x20_0000 <= cfg.id < 0x21_0000 then 2 else 1
                             case Quad => 1
                             case FourIo => 3)
            && (forall i :: n <= i < |cmd| ==> cmd[i] == 0)
            && (cmd[0] in {0x13, 0x0C} <==>
                  n == 5 && cfg.ioRead in {Normal, Fast} && (cfg.id == 0x01_1902 || cfg.address == DieLo3Hi4))
  {
  }

  /** So is every page program, in the three modes there are; data follows the address at once. */
  lemma ProgramLines(cfg: Config, addr: nat, last: int)
    requires Probed(cfg)
    ensures var cmd := ProgramCommand(cfg, addr, last);
            && IsProgram(cmd[0]) && LinesOf(cmd[0]) == LinesFor(cfg.ioWrite)
            && |cmd| == (if Wide(cfg, cfg.ioWrite, last) then 5 else 4)
            && (cmd[0] == 0x12 <==>
                  |cmd| == 5 && cfg.ioWrite == Normal && (cfg.id == 0x01_1902 || cfg.address == DieLo3Hi4))
  {
  }

  // ---------------------------------------------------------------- the cut into transfers

  /** A whole read at once: the controller reads in bursts, or four lines are used. */
  predicate AtOnce(cfg: Config) { cfg.burst || cfg.ioRead == Quad || cfg.ioRead == FourIo }

  /** `k` transfers of at most `m` bytes, all but the last one full. */
  predicate Cut(bytes: nat, m: nat, k: int) { (k - 1) * m < bytes <= k * m }

  lemma CutMore(bytes: nat, m: nat, k: int)
    requires Cut(bytes, m, k)
    ensures Cut(bytes + m, m, k + 1)
  {
  }

  lemma CutOne(bytes: nat, m: nat)
    requires 0 < bytes <= m
    ensures Cut(bytes, m, 1)
  {
  }

  /** No transfer is larger than the controller can read, unless it is the whole read; and none is
      smaller than it could be. */
  lemma TransferSize(cfg: Config, bytes: nat)
    ensures AtOnce(cfg) ==> ReadSize(cfg, bytes) == bytes
    ensures !AtOnce(cfg) ==> ReadSize(cfg, bytes) <= cfg.maxRead
    ensures !AtOnce(cfg) && ReadSize(cfg, bytes) < cfg.maxRead ==> ReadSize(cfg, bytes) == bytes
  {
  }

  /** One transfer where that is possible, and else as few as the largest one allows. */
  predicate InTransfers(cfg: Config, bytes: nat, k: int) {
    if bytes == 0 then k == 0 else if AtOnce(cfg) then k == 1 else Cut(bytes, cfg.maxRead, k)
  }

  lemma OneTransferMore(cfg: Config, bytes: nat, k: int)
    requires Probed(cfg) && bytes > 0 && InTransfers(cfg, bytes - ReadSize(cfg, bytes), k)
    ensures InTransfers(cfg, bytes, k + 1)
  {
    TransferSize(cfg, bytes);
    var n := ReadSize(cfg, bytes);
    hide ReadSize, Cut;
    if !AtOnce(cfg) {
      if n == bytes {
        CutOne(bytes, cfg.maxRead);
      } else {
        CutMore(bytes - n, cfg.maxRead, k);
      }
    }
  }

  /** A read that succeeds takes no more transfers than it needs. */
  lemma {:induction false} ReadTransfers(fates: Fates, cfg: Config, l: Line, addr: nat, bytes: nat, last: int,
                                         buf: seq<bv8>, at: nat)
    requires Probed(cfg)
    ensures var g := ReadLoop(fates, cfg, l, addr, bytes, last, buf, at);
            g.ret == 0 ==> InTransfers(cfg, bytes, g.line.sent - l.sent)
    decreases bytes
  {
    if bytes == 0 {
      hide ReadSize, Answer, Stored, ReadCommand, Send;
    } else {
      var n, cmd := ReadSize(cfg, bytes), ReadCommand(cfg, addr, last);
      var s := Send(fates, l, cmd, []);
      SentOnce(fates, l, cmd);
      hide ReadSize, InTransfers, Answer, Stored, ReadCommand, Send;
      if s.ret == 0 {
        var b := Stored(buf, at, Answer(l.chip, cmd, n));
        ReadTransfers(fates, cfg, s.line, addr + n, bytes - n, last, b, at + n);
        var g := ReadLoop(fates, cfg, s.line, addr + n, bytes - n, last, b, at + n);
        if g.ret == 0 {
          OneTransferMore(cfg, bytes, g.line.sent - s.line.sent);
        }
      }
    }
  }

  lemma SentOnce(fates: Fates, l: Line, cmd: seq<Byte>)
    ensures Send(fates, l, cmd, []).line.sent == l.sent + 1
  {
  }
}
