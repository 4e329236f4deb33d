/** What every call of the driver keeps, whatever becomes of its transfers. */
module SpiOutcomes {
  import opened SpiChip
  import opened SpiProtocol
  import opened SpiLine

  /** Every transfer succeeds. */
  ghost predicate AllOk(fates: Fates) {
    forall n, cmd :: fates(n, cmd).ok
  }

  /** No array command reaches the chip. */
  ghost predicate Dead(fates: Fates) {
    forall n, cmd :: IsArray(cmd) ==> !fates(n, cmd).ok && !fates(n, cmd).seen
  }

  /** No program or erase takes longer than the driver waits. */
  ghost predicate Quick(fates: Fates) {
    forall n, cmd :: fates(n, cmd).delay < MAX_READY_WAIT_COUNT
  }

  /** What any number of transfers keeps: the shape of the chip, its memory unless an array
      command reached it, and what is known of the transfers. */
  ghost predicate Follows(fates: Fates, l: Line, r: Line) {
    && Shape(l.chip, r.chip)
    && l.faults3 <= r.faults3 && l.faults4 <= r.faults4 && l.hits <= r.hits && l.slow <= r.slow
    && (r.hits == l.hits ==> r.chip.mem == l.chip.mem && r.slow == l.slow)
    && (AllOk(fates) ==> r.faults3 == l.faults3 && r.faults4 == l.faults4)
    && (Dead(fates) ==> r.hits == l.hits)
    && (Quick(fates) ==> r.slow == l.slow)
  }

  lemma Then(fates: Fates, a: Line, b: Line, c: Line)
    requires Follows(fates, a, b) && Follows(fates, b, c)
    ensures Follows(fates, a, c)
  {
    hide AllOk, Dead, Quick;
  }

  lemma Nothing(fates: Fates, l: Line)
    ensures Follows(fates, l, l)
  {
  }

  lemma SendFollows(fates: Fates, l: Line, cmd: seq<Byte>, data: seq<bv8>)
    ensures Follows(fates, l, Send(fates, l, cmd, data).line)
  {
    ExecuteShape(l.chip, cmd, data, fates(l.sent, cmd).delay);
    hide Execute;
  }

  lemma {:induction false} PollFollows(fates: Fates, l: Line, flag: bool, count: nat)
    ensures Follows(fates, l, Poll(fates, l, flag, count).line)
    decreases MAX_READY_WAIT_COUNT - count
  {
    hide Follows, Send, Answer, SaysReady, PollCommand;
    Nothing(fates, l);
    if count < MAX_READY_WAIT_COUNT {
      var s := Send(fates, l, PollCommand(flag), []);
      SendFollows(fates, l, PollCommand(flag), []);
      PollFollows(fates, s.line, flag, count + 1);
      Then(fates, l, s.line, Poll(fates, s.line, flag, count + 1).line);
    }
  }

  lemma PickFollows(fates: Fates, l: Line, die: Byte)
    ensures Follows(fates, l, PickDie(fates, l, die).line)
  {
    hide Follows, Send, Poll;
    var w := Wait(fates, l);
    PollFollows(fates, l, false, 0);
    SendFollows(fates, w.line, [0xC2, die], []);
    Then(fates, l, w.line, Send(fates, w.line, [0xC2, die], []).line);
  }

  lemma SwitchFollows(fates: Fates, l: Line, latch: bool, wide: bool)
    ensures Follows(fates, l, Switch(fates, l, latch, wide).line)
  {
    hide Follows, Send, ModeCommand;
    Nothing(fates, l);
    var e := if latch then Send(fates, l, [0x06], []).line else l;
    var s := Send(fates, e, ModeCommand(wide), []).line;
    var d := Send(fates, s, [0x04], []).line;
    SendFollows(fates, l, [0x06], []);
    SendFollows(fates, e, ModeCommand(wide), []);
    SendFollows(fates, s, [0x04], []);
    Then(fates, l, e, s);
    Then(fates, l, s, d);
  }

  lemma ModeFollows(fates: Fates, l: Line, id: nat, wide: bool)
    ensures Follows(fates, l, ChangeMode(fates, l, id, wide).line)
  {
    hide Follows, Switch, Poll;
    var w := Wait(fates, l);
    PollFollows(fates, l, false, 0);
    SwitchFollows(fates, w.line, ModeNeedsLatch(id), wide);
    Then(fates, l, w.line, Switch(fates, w.line, ModeNeedsLatch(id), wide).line);
  }

  lemma EnterFollows(fates: Fates, l: Line, id: nat, die: Byte, wide: bool)
    ensures Follows(fates, l, Enter(fates, l, id, die, wide).line)
  {
    hide Follows, ChangeMode, PickDie;
    Nothing(fates, l);
    var l1 := if die == 1 then PickDie(fates, l, 1).line else l;
    var s := ChangeMode(fates, l1, id, true).line;
    PickFollows(fates, l, 1);
    ModeFollows(fates, l1, id, true);
    PickFollows(fates, s, 0);
    Then(fates, l, l1, s);
    Then(fates, l, s, PickDie(fates, s, 0).line);
  }

  lemma LeaveFollows(fates: Fates, l: Line, id: nat, die: Byte, wide: bool, soFar: int)
    ensures Follows(fates, l, Leave(fates, l, id, die, wide, soFar).line)
  {
    hide Follows, ChangeMode, PickDie;
    Nothing(fates, l);
    var s := if wide then ChangeMode(fates, l, id, false).line else l;
    ModeFollows(fates, l, id, false);
    PickFollows(fates, s, 0);
    Then(fates, l, s, PickDie(fates, s, 0).line);
  }

  // ---------------------------------------------------------------- reading

  /** Only bytes `at` to `at + n` of the buffer are written, and none if nothing got through. */
  ghost predicate BufferKept(fates: Fates, buf: seq<bv8>, at: nat, n: nat, buf': seq<bv8>) {
    && |buf'| == |buf|
    && (forall k :: 0 <= k < |buf| && !(at <= k < at + n) ==> buf'[k] == buf[k])
    && (Dead(fates) ==> buf' == buf)
  }

  ghost predicate ReadFollows(fates: Fates, l: Line, buf: seq<bv8>, at: nat, n: nat, g: Got) {
    Follows(fates, l, g.line) && BufferKept(fates, buf, at, n, g.buf)
  }

  lemma BufferThen(fates: Fates, a: seq<bv8>, at: nat, n: nat, b: seq<bv8>, m: nat, c: seq<bv8>)
    requires BufferKept(fates, a, at, n, b) && BufferKept(fates, b, at + n, m, c)
    ensures BufferKept(fates, a, at, n + m, c)
  {
  }

  lemma BufferNothing(fates: Fates, buf: seq<bv8>, at: nat, n: nat)
    ensures BufferKept(fates, buf, at, n, buf)
  {
  }

  lemma BufferWider(fates: Fates, a: seq<bv8>, at: nat, n: nat, b: seq<bv8>, m: nat)
    requires BufferKept(fates, a, at, n, b) && n <= m
    ensures BufferKept(fates, a, at, m, b)
  {
  }

  lemma StoredKept(fates: Fates, l: Line, cmd: seq<Byte>, buf: seq<bv8>, at: nat, data: seq<bv8>)
    requires IsArray(cmd) && Send(fates, l, cmd, []).ret == 0
    ensures BufferKept(fates, buf, at, |data|, Stored(buf, at, data))
  {
  }

  lemma {:induction false} ReadLoopFollows(fates: Fates, cfg: Config, l: Line, addr: nat, bytes: nat, last: int,
                                           buf: seq<bv8>, at: nat)
    requires Probed(cfg)
    ensures ReadFollows(fates, l, buf, at, bytes, ReadLoop(fates, cfg, l, addr, bytes, last, buf, at))
    decreases bytes
  {
    hide Follows, BufferKept, Send, Answer, ReadCommand, ReadSize, Stored;
    Nothing(fates, l);
    BufferNothing(fates, buf, at, bytes);
    if bytes > 0 {
      var n, cmd := ReadSize(cfg, bytes), ReadCommand(cfg, addr, last);
      var s := Send(fates, l, cmd, []);
      SendFollows(fates, l, cmd, []);
      if s.ret == 0 {
        var b := Stored(buf, at, Answer(l.chip, cmd, n));
        StoredKept(fates, l, cmd, buf, at, Answer(l.chip, cmd, n));
        ReadLoopFollows(fates, cfg, s.line, addr + n, bytes - n, last, b, at + n);
        var g := ReadLoop(fates, cfg, s.line, addr + n, bytes - n, last, b, at + n);
        Then(fates, l, s.line, g.line);
        BufferThen(fates, buf, at, n, b, bytes - n, g.buf);
      }
    }
  }

  lemma ReadSpanFollows(fates: Fates, cfg: Config, l: Line, addr0: nat, bytes: nat, buf: seq<bv8>, at: nat)
    requires Probed(cfg)
    ensures ReadFollows(fates, l, buf, at, bytes, ReadSpan(fates, cfg, l, addr0, bytes, buf, at))
  {
    var die, addr := DieOf(cfg, addr0), OnDie(cfg, addr0);
    var last := addr + bytes - 1;
    var wide := Wide(cfg, cfg.ioRead, last);
    hide Follows, BufferKept, Poll, Enter, Leave, ReadLoop, Wide, DieOf, OnDie;
    var w := Wait(fates, l);
    var e := Enter(fates, w.line, cfg.id, die, wide);
    var g := ReadLoop(fates, cfg, e.line, addr, bytes, last, buf, at);
    var o := Leave(fates, g.line, cfg.id, die, wide, g.ret);
    BufferNothing(fates, buf, at, bytes);
    PollFollows(fates, l, false, 0);
    EnterFollows(fates, w.line, cfg.id, die, wide);
    ReadLoopFollows(fates, cfg, e.line, addr, bytes, last, buf, at);
    LeaveFollows(fates, g.line, cfg.id, die, wide, g.ret);
    Then(fates, l, w.line, e.line);
    Then(fates, l, e.line, g.line);
    Then(fates, l, g.line, o.line);
  }

  lemma ReadBytesFollows(fates: Fates, cfg: Config, l: Line, addr: nat, bytes: nat, buf: seq<bv8>, at: nat)
    requires Probed(cfg)
    ensures ReadFollows(fates, l, buf, at, bytes, ReadBytes(fates, cfg, l, addr, bytes, buf, at))
  {
    hide Follows, BufferKept, ReadSpan;
    Nothing(fates, l);
    BufferNothing(fates, buf, at, bytes);
    ReadSpanFollows(fates, cfg, l, addr, bytes, buf, at);
    if !OneDie(cfg, addr, bytes) {
      var n := MB32 - addr;
      var g := ReadSpan(fates, cfg, l, addr, n, buf, at);
      var h := ReadSpan(fates, cfg, g.line, MB32, bytes - n, g.buf, at + n);
      ReadSpanFollows(fates, cfg, l, addr, n, buf, at);
      ReadSpanFollows(fates, cfg, g.line, MB32, bytes - n, g.buf, at + n);
      Then(fates, l, g.line, h.line);
      BufferWider(fates, buf, at, n, g.buf, bytes);
      BufferThen(fates, buf, at, n, g.buf, bytes - n, h.buf);
    }
  }

  lemma {:induction false} ReadPiecesFollows(fates: Fates, cfg: Config, l: Line, addr: nat, len: nat, buf: seq<bv8>,
                                             at: nat)
    requires Probed(cfg)
    ensures ReadFollows(fates, l, buf, at, len, ReadPieces(fates, cfg, l, addr, len, buf, at))
    decreases len
  {
    hide Follows, BufferKept, ReadBytes;
    Nothing(fates, l);
    BufferNothing(fates, buf, at, len);
    if len > 0 {
      var n := if len >= SPI_READ_PAGE_SIZE then SPI_READ_PAGE_SIZE else len;
      var g := ReadBytes(fates, cfg, l, addr, n, buf, at);
      var h := ReadPieces(fates, cfg, g.line, addr + n, len - n, g.buf, at + n);
      ReadBytesFollows(fates, cfg, l, addr, n, buf, at);
      ReadPiecesFollows(fates, cfg, g.line, addr + n, len - n, g.buf, at + n);
      Then(fates, l, g.line, h.line);
      BufferWider(fates, buf, at, n, g.buf, len);
      BufferThen(fates, buf, at, n, g.buf, len - n, h.buf);
    }
  }

  // ---------------------------------------------------------------- programming and erasing

  lemma CarryFollows(fates: Fates, l: Line, cmd: seq<Byte>, data: seq<bv8>)
    ensures Follows(fates, l, Carry(fates, l, cmd, data).line)
  {
    hide Follows, Send;
    var e := Send(fates, l, [0x06], []).line;
    var s := Send(fates, e, cmd, data).line;
    var d := Send(fates, s, [0x04], []).line;
    SendFollows(fates, l, [0x06], []);
    SendFollows(fates, e, cmd, data);
    SendFollows(fates, s, [0x04], []);
    Then(fates, l, e, s);
    Then(fates, l, s, d);
  }

  lemma FlagFollows(fates: Fates, l: Line, id: nat)
    ensures Follows(fates, l, Flag(fates, l, id).line)
  {
    Nothing(fates, l);
    PollFollows(fates, l, true, 0);
    hide Follows, Poll;
  }

  lemma WriteTurnFollows(fates: Fates, cfg: Config, l: Line, addr: nat, chunk: seq<bv8>, last: int)
    ensures Follows(fates, l, WriteTurn(fates, cfg, l, addr, chunk, last).line)
  {
    hide Follows, Poll, Carry, Flag, ProgramCommand;
    var w := Wait(fates, l).line;
    var k := Carry(fates, w, ProgramCommand(cfg, addr, last), chunk).line;
    var f := Flag(fates, k, cfg.id).line;
    PollFollows(fates, l, false, 0);
    CarryFollows(fates, w, ProgramCommand(cfg, addr, last), chunk);
    FlagFollows(fates, k, cfg.id);
    Then(fates, l, w, k);
    Then(fates, l, k, f);
  }

  lemma {:induction false} WriteLoopFollows(fates: Fates, cfg: Config, l: Line, addr: nat, data: seq<bv8>, last: int)
    ensures Follows(fates, l, WriteLoop(fates, cfg, l, addr, data, last).line)
    decreases |data|
  {
    hide Follows, WriteTurn;
    Nothing(fates, l);
    if data != [] {
      var n := ChunkSize(data);
      var t := WriteTurn(fates, cfg, l, addr, data[..n], last).line;
      WriteTurnFollows(fates, cfg, l, addr, data[..n], last);
      WriteLoopFollows(fates, cfg, t, addr + n, data[n..], last);
      Then(fates, l, t, WriteLoop(fates, cfg, t, addr + n, data[n..], last).line);
    }
  }

  lemma WriteEndFollows(fates: Fates, r: Ended, id: nat, die: Byte, wide: bool)
    ensures Follows(fates, r.line, WriteEnd(fates, r, id, die, wide).line)
  {
    hide Follows, PickDie, Leave;
    Nothing(fates, r.line);
    PickFollows(fates, r.line, 0);
    LeaveFollows(fates, r.line, id, die, wide, -1);
    LeaveFollows(fates, r.line, id, die, wide, 0);
  }

  lemma WriteSpanFollows(fates: Fates, cfg: Config, l: Line, addr0: nat, data: seq<bv8>)
    ensures Follows(fates, l, WriteSpan(fates, cfg, l, addr0, data).line)
  {
    var die, addr := DieOf(cfg, addr0), OnDie(cfg, addr0);
    var last := addr + |data| - 1;
    var wide := Wide(cfg, cfg.ioWrite, last);
    hide Follows, Enter, WriteLoop, WriteEnd, Wide, DieOf, OnDie;
    var e := Enter(fates, l, cfg.id, die, wide).line;
    var r := WriteLoop(fates, cfg, e, addr, data, last);
    EnterFollows(fates, l, cfg.id, die, wide);
    WriteLoopFollows(fates, cfg, e, addr, data, last);
    WriteEndFollows(fates, r, cfg.id, die, wide);
    Then(fates, l, e, r.line);
    Then(fates, l, r.line, WriteEnd(fates, r, cfg.id, die, wide).line);
  }

  lemma WriteBytesFollows(fates: Fates, cfg: Config, l: Line, addr: nat, data: seq<bv8>)
    ensures Follows(fates, l, WriteBytes(fates, cfg, l, addr, data).line)
  {
    hide Follows, WriteSpan;
    Nothing(fates, l);
    WriteSpanFollows(fates, cfg, l, addr, data);
    if !OneDie(cfg, addr, |data|) {
      var n := MB32 - addr;
      var w := WriteSpan(fates, cfg, l, addr, data[..n]).line;
      WriteSpanFollows(fates, cfg, l, addr, data[..n]);
      WriteSpanFollows(fates, cfg, w, MB32, data[n..]);
      Then(fates, l, w, WriteSpan(fates, cfg, w, MB32, data[n..]).line);
    }
  }

  lemma {:induction false} WritePagesFollows(fates: Fates, cfg: Config, l: Line, addr: nat, data: seq<bv8>)
    ensures Follows(fates, l, WritePages(fates, cfg, l, addr, data).line)
    decreases |data|
  {
    hide Follows, WriteBytes, PageRest;
    Nothing(fates, l);
    if data != [] {
      var n := PageRest(addr, data);
      var w := WriteBytes(fates, cfg, l, addr, data[..n]).line;
      WriteBytesFollows(fates, cfg, l, addr, data[..n]);
      WritePagesFollows(fates, cfg, w, addr + n, data[n..]);
      Then(fates, l, w, WritePages(fates, cfg, w, addr + n, data[n..]).line);
    }
  }

  lemma EraseSectorFollows(fates: Fates, cfg: Config, l: Line, addr0: nat)
    ensures Follows(fates, l, EraseSector(fates, cfg, l, addr0).line)
  {
    var die, addr := DieOf(cfg, addr0), OnDie(cfg, addr0);
    var wide := Wide(cfg, cfg.ioWrite, addr);
    hide Follows, Poll, Enter, Leave, Carry, Flag, EraseCommand, Wide, DieOf, OnDie;
    var w := Wait(fates, l).line;
    var e := Enter(fates, w, cfg.id, die, wide).line;
    var k := Carry(fates, e, EraseCommand(cfg, addr), []);
    var f := Flag(fates, k.line, cfg.id).line;
    PollFollows(fates, l, false, 0);
    EnterFollows(fates, w, cfg.id, die, wide);
    CarryFollows(fates, e, EraseCommand(cfg, addr), []);
    FlagFollows(fates, k.line, cfg.id);
    LeaveFollows(fates, f, cfg.id, die, wide, k.ret);
    Then(fates, l, w, e);
    Then(fates, l, e, k.line);
    Then(fates, l, k.line, f);
    Then(fates, l, f, Leave(fates, f, cfg.id, die, wide, k.ret).line);
  }

  lemma {:induction false} EraseBlocksFollows(fates: Fates, cfg: Config, l: Line, addr: nat, step: nat, n: nat)
    ensures Follows(fates, l, EraseBlocks(fates, cfg, l, addr, step, n).line)
    decreases n
  {
    hide Follows, EraseSector;
    Nothing(fates, l);
    if n > 0 {
      var e := EraseSector(fates, cfg, l, addr).line;
      EraseSectorFollows(fates, cfg, l, addr);
      EraseBlocksFollows(fates, cfg, e, addr + step, step, n - 1);
      Then(fates, l, e, EraseBlocks(fates, cfg, e, addr + step, step, n - 1).line);
    }
  }
}
