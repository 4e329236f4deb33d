/** The transmit side of the FTGMAC100 driver: a ring of descriptors between the network stack,
  the driver and the controller, as functions on values. */
module FtgmacTx {

  const TX_QUEUE_ENTRIES: nat := 512
  const MAX_PKT_SIZE: bv32 := 1518
  const ETH_ZLEN: bv32 := 60

  const EDOTR: bv32 := 0x8000
  const CRC_ERR: bv32 := 0x8_0000
  const LTS: bv32 := 0x1000_0000
  const FTS: bv32 := 0x2000_0000
  const OWN: bv32 := 0x8000_0000
  const TCP_CHKSUM: bv32 := 0x2_0000
  const UDP_CHKSUM: bv32 := 0x4_0000
  const IP_CHKSUM: bv32 := 0x8_0000
  const TXIC: bv32 := 0x8000_0000

  const IPPROTO_TCP: nat := 6
  const IPPROTO_UDP: nat := 17

  /** A socket buffer: `id` tells buffers apart, `dma` is where it is mapped. */
  datatype Packet = Packet(id: nat, len: bv32, dma: bv32, partial: bool, ip: bool, proto: nat)

  datatype Held = Nothing | Skb(p: Packet)

  /** The four descriptor words; the third keeps the socket buffer. */
  datatype TxDesc = TxDesc(d0: bv32, d1: bv32, skb: Held, d3: bv32)

  /** `clean` is `tx_clean_pointer`, `next` is `tx_pointer`; `freed` lists the accepted buffers given
      back so far and `dropped` the refused ones. */
  datatype Tx = Tx(des: seq<TxDesc>, clean: nat, next: nat, pending: nat, stopped: bool,
                   freed: seq<Packet>, dropped: seq<Packet>)

  function Next(pointer: nat): nat { (pointer + 1) % TX_QUEUE_ENTRIES }

  function LengthOf(p: Packet): bv32 { if p.len < ETH_ZLEN then ETH_ZLEN else p.len }

  predicate Owned(d: TxDesc) { d.d0 & OWN != 0 }

  // ---------------------------------------------------------------- steps

  function Reset(d: TxDesc): TxDesc { TxDesc(d.d0 & EDOTR, 0, Nothing, 0) }

  /** Every setter ORs its bits in. */
  function With(w: bv32, bits: bv32): bv32 { w | bits }

  /** `FTGMAC100_TXDES0_TXBUF_SIZE` */
  function SizeField(len: bv32): bv32 { len & 0x3FFF }

  /** The second word with the checksum offload bits on top. */
  function WithOffload(w: bv32, p: Packet): bv32 {
    if !p.partial || !p.ip then w
    else if p.proto == IPPROTO_TCP then With(With(w, IP_CHKSUM), TCP_CHKSUM)
    else if p.proto == IPPROTO_UDP then With(With(w, IP_CHKSUM), UDP_CHKSUM)
    else With(w, IP_CHKSUM)
  }

  function WithFrame(w: bv32, p: Packet): bv32 {
    With(With(With(With(w, SizeField(LengthOf(p))), FTS), LTS), OWN)
  }

  function Filled(d: TxDesc, p: Packet): TxDesc {
    TxDesc(WithFrame(d.d0, p), WithOffload(With(d.d1, TXIC), p), Skb(p), p.dma)
  }

  predicate Shape(s: Tx) {
    |s.des| == TX_QUEUE_ENTRIES && s.clean < TX_QUEUE_ENTRIES && s.next < TX_QUEUE_ENTRIES
  }

  /** `ftgmac100_xmit`. */
  function Xmit(s: Tx, p: Packet): Tx
    requires Shape(s)
  {
    s.(des := s.des[s.next := Filled(s.des[s.next], p)], next := Next(s.next), pending := s.pending + 1,
       stopped := s.stopped || s.pending + 1 == TX_QUEUE_ENTRIES)
  }

  predicate Sendable(p: Packet, mapped: bool) { p.len <= MAX_PKT_SIZE && mapped }

  /** `ftgmac100_hard_start_xmit`; `mapped` says whether the buffer could be mapped. */
  function StartXmit(s: Tx, p: Packet, mapped: bool): Tx
    requires Shape(s)
  {
    if Sendable(p, mapped) then Xmit(s, p) else s.(dropped := s.dropped + [p])
  }

  /** The controller is done with the descriptor in slot `j`, well or not. */
  function Sent(s: Tx, j: nat, error: bool): Tx
    requires Shape(s) && j < TX_QUEUE_ENTRIES
  {
    var d := s.des[j];
    if Owned(d) then s.(des := s.des[j := d.(d0 := (d.d0 & !OWN) | (if error then CRC_ERR else 0))]) else s
  }

  /** `ftgmac100_tx_complete_packet`. */
  function CompletePacket(s: Tx): (Tx, bool)
    requires Shape(s)
  {
    var d := s.des[s.clean];
    if s.pending == 0 || Owned(d) then (s, false)
    else (s.(freed := s.freed + (match d.skb case Skb(p) => [p] case Nothing => []),
             des := s.des[s.clean := Reset(d)], clean := Next(s.clean), pending := s.pending - 1, stopped := false),
          true)
  }

  /** `ftgmac100_tx_complete`. */
  function Complete(s: Tx): Tx
    requires Shape(s)
    decreases s.pending
  {
    var (t, more) := CompletePacket(s);
    if more then Complete(t) else t
  }

  /** The buffers in a stretch of the ring, in slot order. */
  function Buffers(des: seq<TxDesc>): seq<Packet> {
    if des == [] then [] else (match des[0].skb case Skb(p) => [p] case Nothing => []) + Buffers(des[1..])
  }

  /** `ftgmac100_stop` up to `ftgmac100_free_buffers`: the ring itself is gone afterwards. */
  function Stop(s: Tx): Tx {
    s.(stopped := true, freed := s.freed + Buffers(s.des), des := [])
  }

  /** Slot `j` of a ring nothing is queued in. */
  function Vacant(j: nat): TxDesc {
    TxDesc(if j == TX_QUEUE_ENTRIES - 1 then EDOTR else 0, 0, Nothing, 0)
  }

  /** After `ftgmac100_alloc_buffers` and `ftgmac100_open`. */
  function Opened(): Tx {
    Tx(seq(TX_QUEUE_ENTRIES, j requires 0 <= j => Vacant(j)), 0, 0, 0, false, [], [])
  }

  // ---------------------------------------------------------------- invariant

  /** Position in the pending window of what is in slot `j`. */
  function Position(clean: nat, j: nat): int {
    if j >= clean then j - clean else j + TX_QUEUE_ENTRIES - clean
  }

  /** Slot of position `i`. */
  function SlotAt(clean: nat, i: nat): int {
    if clean + i < TX_QUEUE_ENTRIES then clean + i else clean + i - TX_QUEUE_ENTRIES
  }

  /** First descriptor word of a packet the controller is to send from slot `j`. */
  function Word(p: Packet, j: nat): bv32 {
    WithFrame(Vacant(j).d0, p)
  }

  predicate Queued(d: TxDesc, p: Packet, j: nat) {
    && d.skb == Skb(p) && d.d3 == p.dma && d.d1 == WithOffload(TXIC, p)
    && (if Owned(d) then d.d0 == Word(p, j) else d.d0 & EDOTR == Vacant(j).d0)
  }

  /** The packets `q` are in flight, oldest first, in the window that starts at `clean`; every
      slot outside the window is as good as new.  The queue is stopped while the ring is full. */
  ghost predicate Inv(s: Tx, q: seq<Packet>) {
    && Shape(s) && s.pending == |q| <= TX_QUEUE_ENTRIES
    && s.next == SlotAt(s.clean, |q|) % TX_QUEUE_ENTRIES
    && (s.stopped <==> s.pending == TX_QUEUE_ENTRIES)
    && forall j :: 0 <= j < TX_QUEUE_ENTRIES ==> SlotOk(s.des[j], s.clean, q, j)
  }

  predicate SlotOk(d: TxDesc, clean: nat, q: seq<Packet>, j: nat)
    requires clean < TX_QUEUE_ENTRIES && j < TX_QUEUE_ENTRIES
  {
    var i := Position(clean, j);
    if i < |q| then Queued(d, q[i], j) else d == Vacant(j)
  }

  lemma OpenedInv()
    ensures Inv(Opened(), [])
  {
  }

  // ---------------------------------------------------------------- what every step keeps

  /** An accepted packet goes to the end of the window.  Its slot was as good as new, so what
      is ORed into the descriptor is all there is in it: the length field is the length. */
  lemma XmitKeepsInv(s: Tx, q: seq<Packet>, p: Packet)
    requires Inv(s, q) && !s.stopped
    ensures Inv(Xmit(s, p), q + [p])
    ensures Xmit(s, p).des[s.next].d0 == Word(p, s.next) && Xmit(s, p).des[s.next].d1 == WithOffload(TXIC, p)
  {
    var t := Xmit(s, p);
    var n := s.next;
    assert Position(s.clean, n) == |q|;
    assert SlotOk(s.des[n], s.clean, q, n);
    FilledVacant(p, n);
    forall j | 0 <= j < TX_QUEUE_ENTRIES
      ensures SlotOk(t.des[j], t.clean, q + [p], j)
    {
      SlotJoins(s.des[j], s.clean, q, p, n, j);
    }
  }

  lemma SlotJoins(d: TxDesc, clean: nat, q: seq<Packet>, p: Packet, n: nat, j: nat)
    requires clean < TX_QUEUE_ENTRIES && j < TX_QUEUE_ENTRIES && n < TX_QUEUE_ENTRIES && |q| < TX_QUEUE_ENTRIES
    requires Position(clean, n) == |q| && SlotOk(d, clean, q, j) && Queued(Filled(Vacant(n), p), p, n)
    ensures SlotOk(if j == n then Filled(d, p) else d, clean, q + [p], j)
  {
    hide Filled, Queued, Vacant;
    assert j != n ==> Position(clean, j) != |q|;
  }

  lemma FilledVacant(p: Packet, j: nat)
    ensures Queued(Filled(Vacant(j), p), p, j)
  {
  }

  /** The length field of a packet that passes the size check is its length, at least 60. */
  lemma LengthField(p: Packet, j: nat)
    requires p.len <= MAX_PKT_SIZE
    ensures (Word(p, j) & 0x3FFF) as nat == if p.len as nat < 60 then 60 else p.len as nat
    ensures Word(p, j) & 0x8000 != 0 <==> j == 511
  {
    WordBits(p, j);
  }

  /** What the controller reads in the descriptor of a packet, bit by bit: the length, at least 60,
      first and last segment, owned by the controller, the end of the ring only where it is; interrupt
      on completion, and a checksum to fill in for each protocol that the stack has left to it.  All
      other bits are clear. */
  predicate FrameBits(d: TxDesc, p: Packet, atEnd: bool) {
    && (d.d0 & 0x3FFF) as nat == (if p.len as nat < 60 then 60 else p.len as nat)
    && d.d0 & 0x2000_0000 != 0 && d.d0 & 0x1000_0000 != 0 && d.d0 & 0x8000_0000 != 0
    && (d.d0 & 0x8000 != 0 <==> atEnd) && d.d0 & 0x4FFF_4000 == 0
    && d.d1 & 0x8000_0000 != 0
    && (d.d1 & 0x8_0000 != 0 <==> p.partial && p.ip)
    && (d.d1 & 0x2_0000 != 0 <==> p.partial && p.ip && p.proto == 6)
    && (d.d1 & 0x4_0000 != 0 <==> p.partial && p.ip && p.proto == 17)
    && d.d1 & 0x7FF1_FFFF == 0
    && d.skb == Skb(p) && d.d3 == p.dma
  }

  /** The word of a packet that passes the size check. */
  lemma WordBits(p: Packet, j: nat)
    requires p.len <= MAX_PKT_SIZE
    ensures var w := Word(p, j);
            && (w & 0x3FFF == if p.len < 60 then 60 else p.len)
            && w & 0x2000_0000 != 0 && w & 0x1000_0000 != 0 && w & 0x8000_0000 != 0
            && (w & 0x8000 != 0 <==> j == 511) && w & 0x4FFF_4000 == 0
  {
  }

  lemma OffloadBits(p: Packet)
    ensures var w := WithOffload(TXIC, p);
            && w & 0x8000_0000 != 0
            && (w & 0x8_0000 != 0 <==> p.partial && p.ip)
            && (w & 0x2_0000 != 0 <==> p.partial && p.ip && p.proto == 6)
            && (w & 0x4_0000 != 0 <==> p.partial && p.ip && p.proto == 17)
            && w & 0x7FF1_FFFF == 0
  {
  }

  /** Both words together make a frame. */
  lemma WordsMakeFrame(d: TxDesc, p: Packet, j: nat)
    requires p.len <= MAX_PKT_SIZE && d == TxDesc(Word(p, j), WithOffload(TXIC, p), Skb(p), p.dma)
    ensures FrameBits(d, p, j == 511)
  {
    WordBits(p, j);
    OffloadBits(p);
    hide Word, WithOffload;
  }

  lemma QueuedWords(d: TxDesc, p: Packet, j: nat)
    requires Queued(d, p, j) && d.d0 & 0x8000_0000 != 0
    ensures d == TxDesc(Word(p, j), WithOffload(TXIC, p), Skb(p), p.dma)
  {
    hide Word, WithOffload, Vacant;
  }

  lemma QueuedAt(s: Tx, q: seq<Packet>, i: nat)
    requires Inv(s, q) && i < |q|
    ensures |s.des| == 512 && Queued(s.des[(s.clean + i) % 512], q[i], (s.clean + i) % 512)
  {
    var j := (s.clean + i) % 512;
    assert Position(s.clean, j) == i;
    assert SlotOk(s.des[j], s.clean, q, j);
    hide Queued;
  }

  /** Every packet in flight that the controller still owns is in the ring in this form, in the order
      of the ring from the oldest on. */
  lemma FrameInRing(s: Tx, q: seq<Packet>, i: nat)
    requires Inv(s, q) && i < |q| && q[i].len <= MAX_PKT_SIZE
    ensures |s.des| == 512
    ensures var j := (s.clean + i) % 512;
            s.des[j].d0 & 0x8000_0000 != 0 ==> FrameBits(s.des[j], q[i], j == 511)
  {
    QueuedAt(s, q, i);
    hide *;
    var j := (s.clean + i) % 512;
    if s.des[j].d0 & 0x8000_0000 != 0 {
      QueuedWords(s.des[j], q[i], j);
      WordsMakeFrame(s.des[j], q[i], j);
    }
  }

  /** `p` is in slot `next` for the controller, the other slots are as they were, and the queue is
      stopped if that was the last free one. */
  ghost predicate Put(s: Tx, t: Tx, p: Packet) {
    && s.next < |s.des| == |t.des| && FrameBits(t.des[s.next], p, s.next == 511)
    && (forall j :: 0 <= j < |s.des| && j != s.next ==> t.des[j] == s.des[j])
    && t.next == (s.next + 1) % 512 && t.pending == s.pending + 1 && t.clean == s.clean
    && (t.stopped <==> t.pending == 512) && t.freed == s.freed && t.dropped == s.dropped
  }

  /** Offering a packet while the queue is awake: one of more than 1518 bytes, or one that cannot be
      mapped, is dropped and nothing else changes; any other is put in the next slot. */
  lemma OfferExact(s: Tx, q: seq<Packet>, p: Packet, mapped: bool)
    requires Inv(s, q) && !s.stopped
    ensures var t := StartXmit(s, p, mapped);
            if p.len as nat > 1518 || !mapped then t == s.(dropped := s.dropped + [p]) else Put(s, t, p)
  {
    LengthCheck(p);
    if Sendable(p, mapped) {
      XmitPuts(s, q, p);
    }
    hide Put, Inv, Xmit;
  }

  lemma LengthCheck(p: Packet)
    ensures p.len <= MAX_PKT_SIZE <==> p.len as nat <= 1518
  {
  }

  lemma XmitPuts(s: Tx, q: seq<Packet>, p: Packet)
    requires Inv(s, q) && !s.stopped && p.len <= MAX_PKT_SIZE
    ensures Put(s, Xmit(s, p), p)
  {
    NextVacant(s, q);
    FilledWords(p, s.next);
    WordsMakeFrame(Filled(Vacant(s.next), p), p, s.next);
    hide FrameBits, Filled, Vacant, Word, WithOffload, SlotOk;
  }

  lemma NextVacant(s: Tx, q: seq<Packet>)
    requires Inv(s, q) && !s.stopped
    ensures s.next < |s.des| && s.des[s.next] == Vacant(s.next)
  {
    assert Position(s.clean, s.next) == |q|;
    assert SlotOk(s.des[s.next], s.clean, q, s.next);
    hide Vacant, Queued;
  }

  lemma FilledWords(p: Packet, j: nat)
    ensures Filled(Vacant(j), p) == TxDesc(Word(p, j), WithOffload(TXIC, p), Skb(p), p.dma)
  {
    OrIntoZero(TXIC);
    hide WithFrame, WithOffload, With;
  }

  lemma OrIntoZero(w: bv32)
    ensures With(0, w) == w
  {
  }

  /** The controller may finish packets in any order; nothing else changes. */
  lemma SentKeepsInv(s: Tx, q: seq<Packet>, j: nat, error: bool)
    requires Inv(s, q) && j < TX_QUEUE_ENTRIES
    ensures Inv(Sent(s, j, error), q)
  {
  }

  /** Reclaiming frees the oldest packet once the controller is done with it. */
  lemma CompletePacketKeepsInv(s: Tx, q: seq<Packet>)
    requires Inv(s, q)
    ensures CompletePacket(s).1 <==> q != [] && !Owned(s.des[s.clean])
    ensures !CompletePacket(s).1 ==> CompletePacket(s).0 == s
    ensures CompletePacket(s).1 ==>
              && Inv(CompletePacket(s).0, q[1..]) && s.des[s.clean].skb == Skb(q[0])
              && CompletePacket(s).0.freed == s.freed + [q[0]] && CompletePacket(s).0.dropped == s.dropped
              && !CompletePacket(s).0.stopped
  {
    var (t, more) := CompletePacket(s);
    if more {
      assert Position(s.clean, s.clean) == 0;
      assert SlotOk(s.des[s.clean], s.clean, q, s.clean);
      forall j | 0 <= j < TX_QUEUE_ENTRIES
        ensures SlotOk(t.des[j], t.clean, q[1..], j)
      {
        SlotReclaimed(s.des[j], s.clean, q, j);
      }
    }
  }

  lemma SlotReclaimed(d: TxDesc, clean: nat, q: seq<Packet>, j: nat)
    requires clean < TX_QUEUE_ENTRIES && j < TX_QUEUE_ENTRIES && 0 < |q| <= TX_QUEUE_ENTRIES
    requires SlotOk(d, clean, q, j) && (j == clean ==> !Owned(d))
    ensures SlotOk(if j == clean then Reset(d) else d, Next(clean), q[1..], j)
  {
  }

  /** Reclaiming takes as long a prefix of the window as the controller is done with, and after
      freeing anything the queue is awake. */
  lemma {:induction false} CompleteKeepsInv(s: Tx, q: seq<Packet>) returns (k: nat)
    requires Inv(s, q)
    ensures k <= |q| && Inv(Complete(s), q[k..]) && Complete(s).freed == s.freed + q[..k]
    ensures Complete(s).dropped == s.dropped
    ensures k < |q| ==> Owned(Complete(s).des[Complete(s).clean])
    ensures k > 0 ==> !Complete(s).stopped
    ensures k == 0 ==> Complete(s) == s
    decreases |q|
  {
    CompletePacketKeepsInv(s, q);
    CompleteOnce(s);
    hide *;
    k := 0;
    if CompletePacket(s).1 {
      var m := CompleteKeepsInv(CompletePacket(s).0, q[1..]);
      k := m + 1;
      TailSlices(s.freed, q, m);
    } else {
      assert q[0..] == q && s.freed + q[..0] == s.freed;
    }
  }

  lemma CompleteOnce(s: Tx)
    requires Shape(s)
    ensures CompletePacket(s).1 ==> Shape(CompletePacket(s).0)
    ensures Complete(s) == if CompletePacket(s).1 then Complete(CompletePacket(s).0) else CompletePacket(s).0
  {
  }

  lemma TailSlices<T>(f: seq<T>, q: seq<T>, m: nat)
    requires m < |q|
    ensures q[1..][m..] == q[m + 1..] && f + [q[0]] + q[1..][..m] == f + q[..m + 1]
  {
  }

  // ---------------------------------------------------------------- stop

  lemma BuffersFrom(des: seq<TxDesc>, i: nat)
    requires i < |des|
    ensures Buffers(des[i..]) == (match des[i].skb case Skb(p) => [p] case Nothing => []) + Buffers(des[i + 1..])
  {
  }

  lemma {:induction false} BuffersConcat(a: seq<TxDesc>, b: seq<TxDesc>)
    ensures Buffers(a + b) == Buffers(a) + Buffers(b)
    decreases |a|
  {
    if a == [] {
      assert a + b == b;
    } else {
      assert (a + b)[1..] == a[1..] + b;
      BuffersConcat(a[1..], b);
    }
  }

  lemma {:induction false} BuffersNone(des: seq<TxDesc>)
    requires forall j :: 0 <= j < |des| ==> des[j].skb == Nothing
    ensures Buffers(des) == []
    decreases |des|
  {
    if des != [] {
      BuffersNone(des[1..]);
    }
  }

  lemma {:induction false} BuffersAll(des: seq<TxDesc>, q: seq<Packet>)
    requires |des| == |q| && forall j :: 0 <= j < |des| ==> des[j].skb == Skb(q[j])
    ensures Buffers(des) == q
    decreases |des|
  {
    if des != [] {
      BuffersAll(des[1..], q[1..]);
      assert [q[0]] + q[1..] == q;
    }
  }

  /** The packets in flight in the order of their slots. */
  function SlotOrder(clean: nat, q: seq<Packet>): seq<Packet>
    requires clean < TX_QUEUE_ENTRIES
  {
    var k := TX_QUEUE_ENTRIES - clean;
    if |q| <= k then q else q[k..] + q[..k]
  }

  lemma StretchHolds(s: Tx, q: seq<Packet>, lo: nat, hi: nat, from: nat, to: nat)
    requires Inv(s, q) && lo <= hi <= TX_QUEUE_ENTRIES && from <= to <= |q| && to - from == hi - lo
    requires forall j :: lo <= j < hi ==> Position(s.clean, j) == from + (j - lo)
    ensures Buffers(s.des[lo..hi]) == q[from..to]
  {
    forall j | 0 <= j < hi - lo
      ensures s.des[lo..hi][j].skb == Skb(q[from..to][j])
    {
      assert SlotOk(s.des[lo + j], s.clean, q, lo + j);
    }
    BuffersAll(s.des[lo..hi], q[from..to]);
  }

  lemma StretchEmpty(s: Tx, q: seq<Packet>, lo: nat, hi: nat)
    requires Inv(s, q) && lo <= hi <= TX_QUEUE_ENTRIES
    requires forall j :: lo <= j < hi ==> Position(s.clean, j) >= |q|
    ensures Buffers(s.des[lo..hi]) == []
  {
    forall j | 0 <= j < hi - lo
      ensures s.des[lo..hi][j].skb == Nothing
    {
      assert SlotOk(s.des[lo + j], s.clean, q, lo + j);
    }
    BuffersNone(s.des[lo..hi]);
  }

  lemma TwoStretches(des: seq<TxDesc>, a: nat)
    requires a <= |des|
    ensures Buffers(des) == Buffers(des[..a]) + Buffers(des[a..])
  {
    BuffersConcat(des[..a], des[a..]);
    assert des[..a] + des[a..] == des;
  }

  lemma ThreeStretches(des: seq<TxDesc>, a: nat, b: nat)
    requires a <= b <= |des|
    ensures Buffers(des) == Buffers(des[0..a]) + (Buffers(des[a..b]) + Buffers(des[b..|des|]))
  {
    hide *;
    TwoStretches(des, a);
    TwoStretches(des[a..], b - a);
    SliceOfSlice(des, a, b);
  }

  lemma SliceOfSlice<T>(s: seq<T>, a: nat, b: nat)
    requires a <= b <= |s|
    ensures s[..a] == s[0..a] && s[a..][..b - a] == s[a..b] && s[a..][b - a..] == s[b..|s|]
  {
  }

  lemma PlainWindow(s: Tx, q: seq<Packet>)
    requires Inv(s, q) && s.clean + |q| <= TX_QUEUE_ENTRIES
    ensures Buffers(s.des) == q
  {
    PlainEdges(s, q);
    hide *;
    ThreeStretches(s.des, s.clean, s.clean + |q|);
    StretchEmpty(s, q, 0, s.clean);
    StretchHolds(s, q, s.clean, s.clean + |q|, 0, |q|);
    StretchEmpty(s, q, s.clean + |q|, TX_QUEUE_ENTRIES);
    Bare(q);
  }

  lemma Bare<T>(q: seq<T>)
    ensures [] + (q[0..|q|] + []) == q
  {
  }

  lemma PlainEdges(s: Tx, q: seq<Packet>)
    requires Inv(s, q) && s.clean + |q| <= TX_QUEUE_ENTRIES
    ensures |s.des| == TX_QUEUE_ENTRIES
    ensures forall j :: 0 <= j < s.clean ==> Position(s.clean, j) >= |q|
    ensures forall j :: s.clean <= j < s.clean + |q| ==> Position(s.clean, j) == j - s.clean
    ensures forall j :: s.clean + |q| <= j < TX_QUEUE_ENTRIES ==> Position(s.clean, j) >= |q|
  {
  }

  lemma WrappedWindow(s: Tx, q: seq<Packet>, k: nat)
    requires Inv(s, q) && k == TX_QUEUE_ENTRIES - s.clean && |q| > k
    ensures Buffers(s.des) == q[k..] + q[..k]
  {
    WindowEdges(s, q, k);
    hide *;
    ThreeStretches(s.des, |q| - k, s.clean);
    StretchHolds(s, q, 0, |q| - k, k, |q|);
    StretchEmpty(s, q, |q| - k, s.clean);
    StretchHolds(s, q, s.clean, TX_QUEUE_ENTRIES, 0, k);
    Rejoined(q, k);
  }

  lemma Rejoined<T>(q: seq<T>, k: nat)
    requires k <= |q|
    ensures q[k..|q|] + ([] + q[0..k]) == q[k..] + q[..k]
  {
  }

  lemma WindowEdges(s: Tx, q: seq<Packet>, k: nat)
    requires Inv(s, q) && k == TX_QUEUE_ENTRIES - s.clean && |q| > k
    ensures |s.des| == TX_QUEUE_ENTRIES && 0 <= |q| - k <= s.clean < TX_QUEUE_ENTRIES
    ensures forall j :: 0 <= j < |q| - k ==> Position(s.clean, j) == k + j
    ensures forall j :: |q| - k <= j < s.clean ==> Position(s.clean, j) >= |q|
    ensures forall j :: s.clean <= j < TX_QUEUE_ENTRIES ==> Position(s.clean, j) == j - s.clean
  {
  }

  /** Stopping frees what is in flight, in the order of the slots. */
  lemma StopFrees(s: Tx, q: seq<Packet>)
    requires Inv(s, q)
    ensures Stop(s).freed == s.freed + SlotOrder(s.clean, q)
  {
    var k := TX_QUEUE_ENTRIES - s.clean;
    if |q| <= k { PlainWindow(s, q); } else { WrappedWindow(s, q, k); }
  }

  ghost predicate Distinct(q: seq<Packet>) {
    forall i, j :: 0 <= i < j < |q| ==> q[i] != q[j]
  }

  /** Slot order is submission order exactly when the window does not go round the end of the
      ring. */
  lemma SlotOrderIff(clean: nat, q: seq<Packet>)
    requires clean < TX_QUEUE_ENTRIES && |q| <= TX_QUEUE_ENTRIES && Distinct(q)
    ensures SlotOrder(clean, q) == q <==> clean + |q| <= TX_QUEUE_ENTRIES
  {
    var k := TX_QUEUE_ENTRIES - clean;
    if |q| > k {
      assert SlotOrder(clean, q)[0] == q[k];
      assert q[0] != q[k];
    }
  }

  /** In either order, each of them once. */
  lemma SlotOrderSame(clean: nat, q: seq<Packet>)
    requires clean < TX_QUEUE_ENTRIES
    ensures multiset(SlotOrder(clean, q)) == multiset(q)
  {
    var k := TX_QUEUE_ENTRIES - clean;
    if |q| > k {
      assert q == q[..k] + q[k..];
    }
  }

  // ---------------------------------------------------------------- runs

  datatype Event = Offer(p: Packet, mapped: bool) | Finish(slot: nat, error: bool) | Reclaim

  /** The stack offers packets only while the queue is awake. */
  function Step(s: Tx, e: Event): Tx
    requires Shape(s)
  {
    match e
    case Offer(p, mapped) => if s.stopped then s else StartXmit(s, p, mapped)
    case Finish(slot, error) => if slot < TX_QUEUE_ENTRIES then Sent(s, slot, error) else s
    case Reclaim => Complete(s)
  }

  lemma {:induction false} CompleteShape(s: Tx)
    requires Shape(s)
    ensures Shape(Complete(s))
    decreases s.pending
  {
    var (t, more) := CompletePacket(s);
    if more {
      CompleteShape(t);
    }
  }

  lemma StepShape(s: Tx, e: Event)
    requires Shape(s)
    ensures Shape(Step(s, e))
  {
    if e.Reclaim? {
      CompleteShape(s);
    }
  }

  function Run(s: Tx, es: seq<Event>): Tx
    requires Shape(s)
    decreases |es|
  {
    if es == [] then s
    else
      StepShape(s, es[0]);
      Run(Step(s, es[0]), es[1..])
  }

  /** What the driver accepts in one step. */
  function Taken(s: Tx, e: Event): seq<Packet> {
    if e.Offer? && !s.stopped && Sendable(e.p, e.mapped) then [e.p] else []
  }

  /** The packets the driver accepts on the way, in order. */
  function Accepted(s: Tx, es: seq<Event>): seq<Packet>
    requires Shape(s)
    decreases |es|
  {
    if es == [] then []
    else
      StepShape(s, es[0]);
      Taken(s, es[0])
      + Accepted(Step(s, es[0]), es[1..])
  }

  /** One step: what was freed and what is in flight together grow by what was accepted. */
  lemma StepSafe(s: Tx, q: seq<Packet>, e: Event) returns (q': seq<Packet>)
    requires Inv(s, q)
    ensures Shape(Step(s, e)) && Inv(Step(s, e), q')
    ensures Step(s, e).freed + q' == s.freed + q + Taken(s, e)
  {
    match e {
      case Offer(p, mapped) =>
        q' := q;
        if !s.stopped && Sendable(p, mapped) {
          q' := q + [p];
          XmitKeepsInv(s, q, p);
        }
      case Finish(slot, error) =>
        q' := q;
        if slot < TX_QUEUE_ENTRIES {
          SentKeepsInv(s, q, slot, error);
        }
      case Reclaim =>
        var k := CompleteKeepsInv(s, q);
        q' := q[k..];
        assert s.freed + q[..k] + q[k..] == s.freed + q;
    }
  }

  /** Over every run: the buffers freed, followed by those in flight, are the accepted ones in
      the order of their submission. */
  lemma {:induction false} EveryRunInOrder(s: Tx, q: seq<Packet>, es: seq<Event>) returns (q': seq<Packet>)
    requires Inv(s, q)
    ensures Inv(Run(s, es), q') && Run(s, es).freed + q' == s.freed + q + Accepted(s, es)
    decreases |es|
  {
    q' := q;
    RunOnce(s, es);
    hide *;
    if es == [] {
      assert s.freed + q + [] == s.freed + q;
    } else {
      var q1 := StepSafe(s, q, es[0]);
      q' := EveryRunInOrder(Step(s, es[0]), q1, es[1..]);
      Regroup(s.freed + q, Taken(s, es[0]),
              Accepted(Step(s, es[0]), es[1..]));
    }
  }

  lemma RunOnce(s: Tx, es: seq<Event>)
    requires Shape(s)
    ensures es == [] ==> Run(s, es) == s && Accepted(s, es) == []
    ensures es != [] ==>
              && Shape(Step(s, es[0])) && Run(s, es) == Run(Step(s, es[0]), es[1..])
              && Accepted(s, es) == Taken(s, es[0])
                                    + Accepted(Step(s, es[0]), es[1..])
  {
    if es != [] {
      StepShape(s, es[0]);
    }
  }

  lemma Regroup<T>(a: seq<T>, b: seq<T>, c: seq<T>)
    ensures a + b + c == a + (b + c)
  {
  }

  lemma DistinctTail(a: seq<Packet>, q: seq<Packet>)
    requires Distinct(a + q)
    ensures Distinct(q)
  {
    assert forall i :: 0 <= i < |q| ==> (a + q)[|a| + i] == q[i];
  }

  /** What a stop frees is in order of submission exactly if the window does not go round the end
      of the ring. */
  lemma StopInOrderIff(s: Tx, q: seq<Packet>)
    requires Inv(s, q) && Distinct(q)
    ensures Stop(s).freed == s.freed + q <==> s.clean + |q| <= TX_QUEUE_ENTRIES
  {
    StopFrees(s, q);
    SlotOrderIff(s.clean, q);
    SameAfter(s.freed, SlotOrder(s.clean, q), q);
    hide Inv, SlotOrder, Distinct;
  }

  lemma SameAfter<T>(f: seq<T>, a: seq<T>, b: seq<T>)
    requires |a| == |b|
    ensures f + a == f + b <==> a == b
  {
    assert (f + a)[|f|..] == a && (f + b)[|f|..] == b;
  }

  /** From open to stop, every accepted buffer is freed exactly once; in submission order until
      the stop, and to the end exactly if the window then does not go round the end of the ring. */
  lemma EveryBufferOnce(es: seq<Event>)
    ensures Shape(Opened())
    ensures var t := Run(Opened(), es);
            && multiset(Stop(t).freed) == multiset(Accepted(Opened(), es))
            && t.freed <= Accepted(Opened(), es)
            && (Distinct(Accepted(Opened(), es)) ==>
                  (Stop(t).freed == Accepted(Opened(), es) <==> t.clean + t.pending <= TX_QUEUE_ENTRIES))
  {
    OpenedInv();
    var q := EveryRunInOrder(Opened(), [], es);
    var t := Run(Opened(), es);
    assert [] + [] + Accepted(Opened(), es) == Accepted(Opened(), es);
    StopFrees(t, q);
    SlotOrderSame(t.clean, q);
    assert t.freed <= t.freed + q;
    if Distinct(t.freed + q) {
      DistinctTail(t.freed, q);
      StopInOrderIff(t, q);
    }
  }

  // ---------------------------------------------------------------- a run that wraps

  /** Packets sent and reclaimed one at a time, the last `n` of them from slot `i` on. */
  function OneByOne(i: nat, n: nat): seq<Event>
    decreases n
  {
    if n == 0 then []
    else [Offer(Packet(i, 100, 0, false, false, 0), true), Finish(i, false), Reclaim] + OneByOne(i + 1, n - 1)
  }

  lemma {:induction false} RunAppend(s: Tx, a: seq<Event>, b: seq<Event>)
    requires Shape(s)
    ensures Shape(Run(s, a)) && Run(s, a + b) == Run(Run(s, a), b)
    ensures Accepted(s, a + b) == Accepted(s, a) + Accepted(Run(s, a), b)
    decreases |a|
  {
    RunOnce(s, a);
    RunOnce(s, a + b);
    hide Run, Accepted, Step, Taken;
    if a == [] {
      assert a + b == b && Accepted(s, a) + Accepted(s, b) == Accepted(s, b);
    } else {
      assert (a + b)[1..] == a[1..] + b && (a + b)[0] == a[0];
      RunAppend(Step(s, a[0]), a[1..], b);
      Regroup(Taken(s, a[0]), Accepted(Step(s, a[0]), a[1..]), Accepted(Run(s, a), b));
    }
  }

  /** One packet through an empty ring moves the window on by a slot. */
  lemma SentAndReclaimed(s: Tx, p: Packet)
    requires Inv(s, []) && p.len <= MAX_PKT_SIZE
    ensures var t := Complete(Sent(StartXmit(s, p, true), s.clean, false));
            Inv(t, []) && t.clean == Next(s.clean) && !t.stopped && !s.stopped
  {
    var s1 := Xmit(s, p);
    XmitKeepsInv(s, [], p);
    assert [] + [p] == [p];
    assert s.next == s.clean;
    SentKeepsInv(s1, [p], s.clean, false);
    var s2 := Sent(s1, s.clean, false);
    NotOwnedOnceSent(s1, s.clean);
    CompletePacketKeepsInv(s2, [p]);
    var s3 := CompletePacket(s2).0;
    CompletePacketKeepsInv(s3, []);
    CompleteOnce(s2);
    CompleteOnce(s3);
    assert [p][1..] == [];
  }

  lemma NotOwnedOnceSent(s: Tx, j: nat)
    requires Shape(s) && j < TX_QUEUE_ENTRIES
    ensures !Owned(Sent(s, j, false).des[j])
  {
    ClearedOwn(s.des[j].d0);
  }

  lemma ClearedOwn(w: bv32)
    ensures ((w & !OWN) | 0) & OWN == 0
  {
  }

  lemma OneRound(s: Tx, i: nat, rest: seq<Event>) returns (t: Tx)
    requires Inv(s, []) && s.clean == i
    ensures Inv(t, []) && t.clean == Next(i)
    ensures var p := Packet(i, 100, 0, false, false, 0);
            Run(s, [Offer(p, true), Finish(i, false), Reclaim] + rest) == Run(t, rest)
  {
    var p := Packet(i, 100, 0, false, false, 0);
    SentAndReclaimed(s, p);
    t := Complete(Sent(StartXmit(s, p, true), i, false));
    hide Inv, StartXmit, Sent, Complete, Run;
    RunThree(s, Offer(p, true), Finish(i, false), Reclaim, rest);
  }

  /** `n` packets, one at a time. */
  lemma {:induction false} MovesOn(s: Tx, i: nat, n: nat)
    requires Inv(s, []) && s.clean == i && i + n < TX_QUEUE_ENTRIES
    ensures Inv(Run(s, OneByOne(i, n)), []) && Run(s, OneByOne(i, n)).clean == i + n
    decreases n
  {
    if n > 0 {
      var t := OneRound(s, i, OneByOne(i + 1, n - 1));
      hide Inv, Run;
      MovesOn(t, i + 1, n - 1);
    }
  }

  lemma RunThree(s: Tx, a: Event, b: Event, c: Event, rest: seq<Event>)
    requires Shape(s)
    ensures Shape(Step(s, a)) && Shape(Step(Step(s, a), b)) && Shape(Step(Step(Step(s, a), b), c))
    ensures Run(s, [a, b, c] + rest) == Run(Step(Step(Step(s, a), b), c), rest)
  {
    var es := [a, b, c] + rest;
    RunOnce(s, es);
    RunOnce(Step(s, a), es[1..]);
    RunOnce(Step(Step(s, a), b), es[1..][1..]);
    hide Run, Step;
    assert es[1..][1..][1..] == rest;
  }

  lemma WrapsRound(n: nat, a: Packet, b: Packet)
    requires n == TX_QUEUE_ENTRIES - 1 && a.len <= MAX_PKT_SIZE && b.len <= MAX_PKT_SIZE
    ensures Shape(Opened())
    ensures var t := Run(Opened(), OneByOne(0, n) + [Offer(a, true), Offer(b, true)]);
            Inv(t, [a, b]) && t.clean == n
  {
    OpenedInv();
    MovesOn(Opened(), 0, n);
    RunAppend(Opened(), OneByOne(0, n), [Offer(a, true), Offer(b, true)]);
    hide Inv, Run, OneByOne, Opened;
    TwoMore(Run(Opened(), OneByOne(0, n)), a, b);
  }

  /** All packets but two sent and reclaimed one at a time, so that the window of the two lies in
      the last slot and the first: a stop frees the younger one first. */
  lemma StopReorders(n: nat, a: Packet, b: Packet, es: seq<Event>)
    requires n == TX_QUEUE_ENTRIES - 1 && a.len <= MAX_PKT_SIZE && b.len <= MAX_PKT_SIZE
    requires es == OneByOne(0, n) + [Offer(a, true), Offer(b, true)]
    ensures Shape(Opened())
    ensures var t := Run(Opened(), es);
            && t.clean + t.pending > TX_QUEUE_ENTRIES
            && Stop(t).freed == t.freed + [b, a] && Accepted(Opened(), es) == t.freed + [a, b]
  {
    OpenedInv();
    WrapsRound(n, a, b);
    var t := Run(Opened(), es);
    var q := EveryRunInOrder(Opened(), [], es);
    InFlightUnique(t, q, [a, b]);
    StopFrees(t, [a, b]);
    assert t.pending == 2;
    hide Inv, Run, OneByOne, Accepted;
    assert [] + [] + Accepted(Opened(), es) == Accepted(Opened(), es);
    assert SlotOrder(t.clean, [a, b]) == [b, a];
  }

  lemma TwoMore(s: Tx, a: Packet, b: Packet)
    requires Inv(s, []) && s.clean == TX_QUEUE_ENTRIES - 1 && a.len <= MAX_PKT_SIZE && b.len <= MAX_PKT_SIZE
    ensures var t := Run(s, [Offer(a, true), Offer(b, true)]);
            Inv(t, [a, b]) && t.clean == TX_QUEUE_ENTRIES - 1 && t.pending == 2
  {
    XmitKeepsInv(s, [], a);
    var s1 := Xmit(s, a);
    assert [] + [a] == [a] && [a] + [b] == [a, b];
    XmitKeepsInv(s1, [a], b);
    var es := [Offer(a, true), Offer(b, true)];
    assert es[1..] == [Offer(b, true)] && es[1..][1..] == [];
    RunOnce(s, es);
    RunOnce(s1, es[1..]);
    RunOnce(Xmit(s1, b), []);
    hide Run, Inv, Xmit;
  }

  /** The ring determines what is in flight. */
  lemma InFlightUnique(s: Tx, q: seq<Packet>, r: seq<Packet>)
    requires Inv(s, q) && Inv(s, r)
    ensures q == r
  {
    forall i | 0 <= i < |q|
      ensures q[i] == r[i]
    {
      var j := SlotAt(s.clean, i);
      assert Position(s.clean, j) == i;
      assert SlotOk(s.des[j], s.clean, q, j) && SlotOk(s.des[j], s.clean, r, j);
    }
  }
}
