/** The receive side of the FTGMAC100 driver as it runs, on the descriptor array.  `segs` are the
  descriptors the controller has filled and the driver has not looked at, as segments; `given`
  are the pages handed to the network stack. */
module FtgmacRxRing {
  import opened FtgmacRx

  const RX_QUEUE_ENTRIES: nat := 256

  const VDBC: bv32 := 0x3FFF
  const EDORR: bv32 := 0x8000
  const RX_ERR: bv32 := 0x4_0000
  const CRC_ERR: bv32 := 0x8_0000
  const FTL: bv32 := 0x10_0000
  const RUNT: bv32 := 0x20_0000
  const RX_ODD_NB: bv32 := 0x40_0000
  const LRS: bv32 := 0x1000_0000
  const FRS: bv32 := 0x2000_0000
  const RXPKT_RDY: bv32 := 0x8000_0000
  const PROT_MASK: bv32 := 0x30_0000
  const PROT_TCPIP: bv32 := 0x20_0000
  const PROT_UDPIP: bv32 := 0x30_0000
  const TCP_CHKSUM_ERR: bv32 := 0x200_0000
  const UDP_CHKSUM_ERR: bv32 := 0x400_0000
  const IP_CHKSUM_ERR: bv32 := 0x800_0000

  /** The four descriptor words; the third keeps the page, the fourth where it is mapped. */
  datatype RxDesc = RxDesc(d0: bv32, d1: bv32, page: nat, dma: nat)

  predicate Has(w: bv32, bits: bv32) { w & bits != 0 }

  /** All status bits cleared, the end-of-ring bit kept. */
  function Owned(w: bv32): bv32 { w & EDORR }

  function Length(w: bv32): nat { (w & VDBC) as nat }

  predicate Failed(d0: bv32, d1: bv32) {
    || Has(d0, RX_ERR) || Has(d0, CRC_ERR) || Has(d1, IP_CHKSUM_ERR)
    || Has(d0, FTL) || Has(d0, RUNT) || Has(d0, RX_ODD_NB)
  }

  predicate Checked(d1: bv32) {
    || (d1 & PROT_MASK == PROT_TCPIP && !Has(d1, TCP_CHKSUM_ERR))
    || (d1 & PROT_MASK == PROT_UDPIP && !Has(d1, UDP_CHKSUM_ERR))
  }

  /** What a filled descriptor says. */
  function View(d: RxDesc): Seg {
    Seg(Has(d.d0, FRS), Has(d.d0, LRS), Length(d.d0), Failed(d.d0, d.d1), Checked(d.d1), d.page)
  }

  function MapOf(page: nat): nat { page * 4096 }

  function Next(pointer: nat): nat { (pointer + 1) % RX_QUEUE_ENTRIES }

  // ---------------------------------------------------------------- the ring and the list

  function Position(ptr: nat, j: nat): int {
    if j >= ptr then j - ptr else j + RX_QUEUE_ENTRIES - ptr
  }

  predicate SlotOk(d: RxDesc, ptr: nat, segs: seq<Seg>, j: nat)
    requires ptr < RX_QUEUE_ENTRIES && j < RX_QUEUE_ENTRIES
  {
    var i := Position(ptr, j);
    && (Has(d.d0, EDORR) <==> j == RX_QUEUE_ENTRIES - 1)
    && (if i < |segs| then Has(d.d0, RXPKT_RDY) && View(d) == segs[i]
        else !Has(d.d0, RXPKT_RDY) && !Has(d.d0, LRS))
  }

  /** The filled descriptors are `segs`, from `ptr` on, and nothing is left of earlier frames in the
      others; the end-of-ring bit is on the last slot and nowhere else. */
  ghost predicate Window(des: seq<RxDesc>, ptr: nat, segs: seq<Seg>) {
    && |des| == RX_QUEUE_ENTRIES && ptr < RX_QUEUE_ENTRIES && |segs| <= RX_QUEUE_ENTRIES
    && forall j :: 0 <= j < RX_QUEUE_ENTRIES ==> SlotOk(des[j], ptr, segs, j)
  }

  /** No page is in two places: in the ring twice, given away twice, or given away and still in
      the ring.  Pages from `next` on are free. */
  ghost predicate PagesOk(des: seq<RxDesc>, given: seq<nat>, next: nat) {
    && (forall i :: 0 <= i < |des| ==> 0 < des[i].page < next && des[i].dma == MapOf(des[i].page))
    && (forall i, j :: 0 <= i < j < |des| ==> des[i].page != des[j].page)
    && (forall i :: 0 <= i < |given| ==> given[i] < next)
    && (forall i, j :: 0 <= i < j < |given| ==> given[i] != given[j])
    && (forall i, j :: 0 <= i < |des| && 0 <= j < |given| ==> des[i].page != given[j])
  }

  /** The descriptor at the pointer goes back to the controller: the list loses its head. */
  lemma Advance(des: seq<RxDesc>, ptr: nat, segs: seq<Seg>, d: RxDesc)
    requires Window(des, ptr, segs) && segs != [] && d.d0 == Owned(des[ptr].d0)
    ensures Window(des[ptr := d], Next(ptr), segs[1..])
  {
  }

  lemma HeadSlot(des: seq<RxDesc>, ptr: nat, segs: seq<Seg>)
    requires Window(des, ptr, segs)
    ensures ptr < |des| && (Has(des[ptr].d0, RXPKT_RDY) <==> segs != [])
    ensures segs != [] ==> View(des[ptr]) == segs[0]
  {
  }

  lemma HeadSays(des: seq<RxDesc>, ptr: nat, segs: seq<Seg>)
    requires Window(des, ptr, segs) && segs != []
    ensures ptr < |des| && segs[0].page == des[ptr].page && segs[0].size == Length(des[ptr].d0)
    ensures segs[0].last == Has(des[ptr].d0, LRS)
  {
    HeadSlot(des, ptr, segs);
  }

  lemma SamePages(des: seq<RxDesc>, i: nat, d: RxDesc, given: seq<nat>, next: nat)
    requires PagesOk(des, given, next) && i < |des| && d.page == des[i].page && d.dma == des[i].dma
    ensures PagesOk(des[i := d], given, next)
  {
  }

  /** A page is given away and a new one takes its place. */
  lemma PageReplaced(des: seq<RxDesc>, i: nat, d: RxDesc, given: seq<nat>, next: nat)
    requires PagesOk(des, given, next) && i < |des| && d.page == next && d.dma == MapOf(next) && next > 0
    ensures PagesOk(des[i := d], given + [des[i].page], next + 1)
  {
  }

  /** Both at once, for a descriptor that is handed on with a new page. */
  lemma Replaced(des: seq<RxDesc>, ptr: nat, segs: seq<Seg>, given: seq<nat>, next: nat, des': seq<RxDesc>)
    requires Window(des, ptr, segs) && segs != [] && PagesOk(des, given, next) && next > 0
    requires des' == des[ptr := RxDesc(Owned(des[ptr].d0), des[ptr].d1, next, MapOf(next))]
    ensures Window(des', Next(ptr), segs[1..]) && PagesOk(des', given + [segs[0].page], next + 1)
  {
    HeadSays(des, ptr, segs);
    var d := RxDesc(Owned(des[ptr].d0), des[ptr].d1, next, MapOf(next));
    Advance(des, ptr, segs, d);
    PageReplaced(des, ptr, d, given, next);
  }

  // ---------------------------------------------------------------- when the frame loop ends

  /** The loop over the fragments of a frame, from `ptr` on, ends within `n` turns; each turn hands
      its descriptor on and leaves no status bits behind. */
  predicate EndsWithin(des: seq<RxDesc>, ptr: nat, n: nat)
    requires |des| == RX_QUEUE_ENTRIES && ptr < RX_QUEUE_ENTRIES
    decreases n
  {
    n > 0 && (Has(des[ptr].d0, LRS) || EndsWithin(des[ptr := Handed(des[ptr])], Next(ptr), n - 1))
  }

  function Handed(d: RxDesc): RxDesc { d.(d0 := Owned(d.d0)) }

  lemma HandedBits(w: bv32)
    ensures !Has(Owned(w), LRS)
  {
  }

  /** A last flag `i` slots ahead ends the loop. */
  lemma {:induction false} FlagEnds(des: seq<RxDesc>, ptr: nat, i: nat)
    requires |des| == RX_QUEUE_ENTRIES && ptr < RX_QUEUE_ENTRIES && i < RX_QUEUE_ENTRIES
    requires Has(des[(ptr + i) % RX_QUEUE_ENTRIES].d0, LRS)
    ensures EndsWithin(des, ptr, i + 1)
    decreases i
  {
    hide Has, Handed;
    if i > 0 && !Has(des[ptr].d0, LRS) {
      var des' := des[ptr := Handed(des[ptr])];
      assert (Next(ptr) + (i - 1)) % RX_QUEUE_ENTRIES == (ptr + i) % RX_QUEUE_ENTRIES != ptr;
      FlagEnds(des', Next(ptr), i - 1);
    }
  }

  /** Without a last flag anywhere it goes on for ever. */
  lemma {:induction false} NoFlagNoEnd(des: seq<RxDesc>, ptr: nat, n: nat)
    requires |des| == RX_QUEUE_ENTRIES && ptr < RX_QUEUE_ENTRIES
    requires forall j :: 0 <= j < RX_QUEUE_ENTRIES ==> !Has(des[j].d0, LRS)
    ensures !EndsWithin(des, ptr, n)
    decreases n
  {
    if n > 0 {
      HandedBits(des[ptr].d0);
      hide Has, Owned;
      NoFlagNoEnd(des[ptr := Handed(des[ptr])], Next(ptr), n - 1);
    }
  }

  /** The frame loop ends exactly if one of the filled descriptors has the last flag. */
  lemma FrameEndsIff(des: seq<RxDesc>, ptr: nat, segs: seq<Seg>)
    requires Window(des, ptr, segs)
    ensures (exists n :: EndsWithin(des, ptr, n)) <==> HasLast(segs)
  {
    hide Has, EndsWithin;
    HasLastIff(segs);
    if HasLast(segs) {
      var i :| 0 <= i < |segs| && segs[i].last;
      var j := (ptr + i) % RX_QUEUE_ENTRIES;
      assert Position(ptr, j) == i;
      assert SlotOk(des[j], ptr, segs, j);
      FlagEnds(des, ptr, i);
    } else {
      forall j | 0 <= j < RX_QUEUE_ENTRIES
        ensures !Has(des[j].d0, LRS)
      {
        assert SlotOk(des[j], ptr, segs, j);
      }
      forall n: nat
        ensures !EndsWithin(des, ptr, n)
      {
        NoFlagNoEnd(des, ptr, n);
      }
    }
  }

  lemma {:induction false} HasLastIff(segs: seq<Seg>)
    ensures HasLast(segs) <==> exists i :: 0 <= i < |segs| && segs[i].last
    decreases |segs|
  {
    if segs != [] {
      HasLastIff(segs[1..]);
      if HasLast(segs[1..]) {
        var i :| 0 <= i < |segs[1..]| && segs[1..][i].last;
        assert segs[i + 1].last;
      }
    }
  }

  // ---------------------------------------------------------------- the controller

  /** The controller fills the first free descriptor; `w0` and `w1` are its status words. */
  lemma Fill(des: seq<RxDesc>, ptr: nat, segs: seq<Seg>, i: nat, d: RxDesc)
    requires Window(des, ptr, segs) && |segs| < RX_QUEUE_ENTRIES
    requires i == (ptr + |segs|) % RX_QUEUE_ENTRIES
    requires Has(d.d0, EDORR) <==> Has(des[i].d0, EDORR)
    requires Has(d.d0, RXPKT_RDY)
    ensures Window(des[i := d], ptr, segs + [View(d)])
  {
  }

  function Merged(v: bv32, w: bv32): bv32 { (v & EDORR) | w }

  lemma MergedSize(v: bv32, w: bv32)
    ensures Merged(v, w) & VDBC == w & VDBC
  {
  }

  lemma MergedErrors(v: bv32, w: bv32)
    ensures Merged(v, w) & RX_ERR == w & RX_ERR && Merged(v, w) & CRC_ERR == w & CRC_ERR
    ensures Merged(v, w) & FTL == w & FTL && Merged(v, w) & RUNT == w & RUNT
    ensures Merged(v, w) & RX_ODD_NB == w & RX_ODD_NB
  {
  }

  /** The driver sees the status the controller wrote. */
  lemma MergedView(v: bv32, w0: bv32, w1: bv32, page: nat, dma: nat)
    requires Has(w0, RXPKT_RDY) && !Has(w0, EDORR)
    ensures Shows(View(RxDesc(Merged(v, w0), w1, page, dma)), w0, w1)
  {
    hide Merged, Checked;
    MergedBits(v, w0);
    MergedSize(v, w0);
    MergedErrors(v, w0);
  }

  lemma MergedBits(v: bv32, w: bv32)
    requires Has(w, RXPKT_RDY) && !Has(w, EDORR)
    ensures (Has(Merged(v, w), EDORR) <==> Has(v, EDORR)) && Has(Merged(v, w), RXPKT_RDY)
    ensures (Has(Merged(v, w), FRS) <==> Has(w, FRS)) && (Has(Merged(v, w), LRS) <==> Has(w, LRS))
  {
  }

  // ---------------------------------------------------------------- frames on the wire

  /** The segment says what the status words say. */
  predicate Shows(seg: Seg, w0: bv32, w1: bv32) {
    && seg.first == Has(w0, FRS) && seg.last == Has(w0, LRS) && seg.size == Length(w0)
    && seg.error == Failed(w0, w1) && seg.checked == Checked(w1)
  }

  predicate ShowsAll(run: seq<Seg>, words: seq<(bv32, bv32)>) {
    |run| == |words| && forall i :: 0 <= i < |run| ==> Shows(run[i], words[i].0, words[i].1)
  }

  /** The runs are what the driver sees of the first frames. */
  ghost predicate ShownFrames(runs: seq<seq<Seg>>, frames: seq<seq<(bv32, bv32)>>) {
    |runs| <= |frames| && forall i :: 0 <= i < |runs| ==> ShowsAll(runs[i], frames[i])
  }

  /** What the controller writes for a frame: filled descriptors, the first flag on the first only,
      the last flag on the last only; it leaves the end-of-ring bit alone. */
  predicate FrameWords(words: seq<(bv32, bv32)>) {
    && words != []
    && forall i :: 0 <= i < |words| ==>
         && Has(words[i].0, RXPKT_RDY) && !Has(words[i].0, EDORR)
         && (Has(words[i].0, FRS) <==> i == 0) && (Has(words[i].0, LRS) <==> i == |words| - 1)
  }

  function WordCount(frames: seq<seq<(bv32, bv32)>>): nat {
    if frames == [] then 0 else |frames[0]| + WordCount(frames[1..])
  }

  /** Every descriptor keeps its page. */
  ghost predicate SamePlaces(a: seq<RxDesc>, b: seq<RxDesc>) {
    |a| == |b| && forall j :: 0 <= j < |a| ==> a[j].page == b[j].page && a[j].dma == b[j].dma
  }

  /** The segments are in the pages of the ring from `at` on. */
  ghost predicate Landed(des: seq<RxDesc>, at: nat, run: seq<Seg>) {
    |des| == 256 && forall k :: 0 <= k < |run| ==> run[k].page == des[(at + k) % 256].page
  }

  /** The first `i` words have been received as `run`. */
  ghost predicate Arriving(first: seq<RxDesc>, des: seq<RxDesc>, at: nat, words: seq<(bv32, bv32)>, run: seq<Seg>,
                           i: nat)
  {
    && FrameWords(words) && i <= |words| && ShowsAll(run, words[..i])
    && Landed(first, at, run) && SamePlaces(first, des)
  }

  lemma NothingReceived(des: seq<RxDesc>, at: nat, words: seq<(bv32, bv32)>)
    requires |des| == 256 && FrameWords(words)
    ensures Arriving(des, des, at, words, [], 0)
  {
    hide FrameWords;
  }

  lemma NextWord(first: seq<RxDesc>, des: seq<RxDesc>, at: nat, words: seq<(bv32, bv32)>, run: seq<Seg>, i: nat,
                 ptr: nat, n: nat)
    requires Arriving(first, des, at, words, run, i) && i < |words| && at == (ptr + n) % RX_QUEUE_ENTRIES
    ensures (at + i) % RX_QUEUE_ENTRIES == (ptr + (n + |run|)) % RX_QUEUE_ENTRIES && |run| == i
    ensures Has(words[i].0, RXPKT_RDY) && !Has(words[i].0, EDORR)
  {
    Onward(ptr, n, i);
    hide Has, Shows, Landed, SamePlaces;
  }

  lemma OneReceived(first: seq<RxDesc>, before: seq<RxDesc>, des: seq<RxDesc>, at: nat, words: seq<(bv32, bv32)>,
                    run: seq<Seg>, i: nat, seg: Seg)
    requires Arriving(first, before, at, words, run, i) && i < |words| && Shows(seg, words[i].0, words[i].1)
    requires SamePlaces(before, des) && (at + i) % RX_QUEUE_ENTRIES < |before|
    requires seg.page == before[(at + i) % RX_QUEUE_ENTRIES].page
    ensures Arriving(first, des, at, words, run + [seg], i + 1)
  {
    hide FrameWords, Shows;
    OneLanded(first, before, des, at, run, seg);
    hide Landed, SamePlaces;
    assert words[..i + 1] == words[..i] + [words[i]];
  }

  lemma AllReceived(first: seq<RxDesc>, des: seq<RxDesc>, at: nat, words: seq<(bv32, bv32)>, run: seq<Seg>)
    requires Arriving(first, des, at, words, run, |words|)
    ensures ShowsAll(run, words) && OneFrame(run) && Landed(first, at, run) && SamePlaces(first, des)
  {
    assert words[..|words|] == words;
    hide Landed, SamePlaces;
    ShownIsFrame(run, words);
  }

  lemma OneLanded(first: seq<RxDesc>, before: seq<RxDesc>, after: seq<RxDesc>, at: nat, run: seq<Seg>, seg: Seg)
    requires Landed(first, at, run) && SamePlaces(first, before) && SamePlaces(before, after)
    requires seg.page == before[(at + |run|) % 256].page
    ensures Landed(first, at, run + [seg]) && SamePlaces(first, after)
  {
    var all := run + [seg];
    forall k | 0 <= k < |all|
      ensures all[k].page == first[(at + k) % 256].page
    {
      if k < |run| {
        assert all[k] == run[k];
      }
    }
  }

  lemma ShownIsFrame(run: seq<Seg>, words: seq<(bv32, bv32)>)
    requires FrameWords(words) && ShowsAll(run, words)
    ensures OneFrame(run)
  {
    hide Has;
    forall i | 0 <= i < |run|
      ensures (run[i].first <==> i == 0) && (run[i].last <==> i == |run| - 1)
    {
      assert Shows(run[i], words[i].0, words[i].1);
    }
  }

  // ---------------------------------------------------------------- from the wire to the stack

  /** Receive error, CRC error, too long, too short, odd nibble; or a wrong IP checksum. */
  predicate Bad(w0: bv32, w1: bv32) { w0 & 0x7C_0000 != 0 || w1 & 0x800_0000 != 0 }

  /** TCP without a TCP checksum error, or UDP without a UDP one. */
  predicate Vouched(w1: bv32) { w1 & 0x230_0000 == 0x20_0000 || w1 & 0x430_0000 == 0x30_0000 }

  /** The status bits for which a frame is dropped, and those for which the stack need not check it. */
  lemma StatusBits(w0: bv32, w1: bv32)
    ensures Failed(w0, w1) <==> Bad(w0, w1)
    ensures Checked(w1) <==> Vouched(w1)
  {
  }

  /** What the driver will make of the filled descriptor `k` places ahead: its flags, its length, its
      status and its page.  The descriptors behind the filled ones are the controller's. */
  lemma WindowShows(des: seq<RxDesc>, ptr: nat, segs: seq<Seg>, k: nat)
    requires Window(des, ptr, segs) && k < 256
    ensures |des| == 256
    ensures var d := des[(ptr + k) % 256];
            if k < |segs| then
              && (segs[k].first <==> d.d0 & 0x2000_0000 != 0) && (segs[k].last <==> d.d0 & 0x1000_0000 != 0)
              && segs[k].size == (d.d0 & 0x3FFF) as nat && (segs[k].error <==> Bad(d.d0, d.d1))
              && (segs[k].checked <==> Vouched(d.d1)) && segs[k].page == d.page && d.d0 & 0x8000_0000 != 0
            else d.d0 & 0x8000_0000 == 0
  {
    var j := (ptr + k) % 256;
    assert Position(ptr, j) == k;
    assert SlotOk(des[j], ptr, segs, j);
    StatusBits(des[j].d0, des[j].d1);
    hide Window, Position, Failed, Checked, Bad, Vouched;
  }

  function WireSize(w0: bv32): nat { (w0 & 0x3FFF) as nat }

  /** Bytes of a frame: what the status words of its segments say together. */
  function WireLength(words: seq<(bv32, bv32)>): nat {
    if words == [] then 0 else WireSize(words[0].0) + WireLength(words[1..])
  }

  /** The frame has the segments the status words tell of, one fragment each. */
  predicate Carries(f: Frame, words: seq<(bv32, bv32)>) {
    && words != [] && |f.sizes| == |f.pages| == |words| && f.len == WireLength(words)
    && (forall i :: 0 <= i < |words| ==> f.sizes[i] == WireSize(words[i].0))
    && (f.checked <==> Vouched(words[0].1))
  }

  /** The frames that pass: no error in the first status words, and memory for a socket buffer. */
  function Passed(frames: seq<seq<(bv32, bv32)>>, allocs: seq<bool>): seq<seq<(bv32, bv32)>> {
    if frames == [] then []
    else
      (if frames[0] != [] && !Bad(frames[0][0].0, frames[0][0].1) && (allocs == [] || allocs[0]) then [frames[0]]
       else [])
      + Passed(frames[1..], if allocs == [] then [] else allocs[1..])
  }

  /** One frame after the other. */
  ghost predicate CarriesAll(fs: seq<Frame>, frames: seq<seq<(bv32, bv32)>>) {
    |fs| == |frames| && forall i :: 0 <= i < |fs| ==> Carries(fs[i], frames[i])
  }

  lemma {:induction false} ShownLength(run: seq<Seg>, words: seq<(bv32, bv32)>)
    requires ShowsAll(run, words)
    ensures Sum(Sizes(run)) == WireLength(words)
    decreases |run|
  {
    hide Shows, WireSize;
    if run != [] {
      SizeShown(run[0], words[0].0, words[0].1);
      ShownLength(run[1..], words[1..]);
      assert Sizes(run)[1..] == Sizes(run[1..]);
    }
  }

  lemma SizeShown(seg: Seg, w0: bv32, w1: bv32)
    requires Shows(seg, w0, w1)
    ensures seg.size == WireSize(w0)
  {
    hide Has, Failed, Checked;
  }

  lemma ShownCarries(run: seq<Seg>, words: seq<(bv32, bv32)>)
    requires run != [] && ShowsAll(run, words)
    ensures Carries(FrameOf(run), words) && words != [] && (run[0].error <==> Bad(words[0].0, words[0].1))
  {
    ShownLength(run, words);
    StatusBits(words[0].0, words[0].1);
    hide Failed, Checked, Bad, Vouched, Sum, WireLength, WireSize, Length, Has;
    assert Shows(run[0], words[0].0, words[0].1);
    forall i | 0 <= i < |words|
      ensures Sizes(run)[i] == WireSize(words[i].0)
    {
      assert Shows(run[i], words[i].0, words[i].1);
      SizeShown(run[i], words[i].0, words[i].1);
    }
  }

  /** Of frames that arrived as they are shown, those are delivered that pass, in order. */
  lemma {:induction false} PassedDelivered(runs: seq<seq<Seg>>, frames: seq<seq<(bv32, bv32)>>, allocs: seq<bool>)
    requires |runs| == |frames| && AllFrames(runs) && ShownFrames(runs, frames)
    ensures CarriesAll(Deliverable(runs, allocs), Passed(frames, allocs))
    decreases |runs|
  {
    hide *;
    if |runs| == 0 {
      NothingPassed(runs, frames, allocs);
    } else {
      TailShown(runs, frames);
      ShownCarries(runs[0], frames[0]);
      PassedDelivered(runs[1..], frames[1..], Others(allocs));
      PassedCons(runs, frames, allocs);
    }
  }

  lemma {:induction false} NothingPassed(runs: seq<seq<Seg>>, frames: seq<seq<(bv32, bv32)>>, allocs: seq<bool>)
    requires |runs| == |frames| == 0
    ensures CarriesAll(Deliverable(runs, allocs), Passed(frames, allocs))
  {
  }

  lemma {:induction false} PassedCons(runs: seq<seq<Seg>>, frames: seq<seq<(bv32, bv32)>>, allocs: seq<bool>)
    requires |runs| > 0 && |frames| > 0 && runs[0] != [] && Carries(FrameOf(runs[0]), frames[0])
    requires frames[0] != [] && (runs[0][0].error <==> Bad(frames[0][0].0, frames[0][0].1))
    requires CarriesAll(Deliverable(runs[1..], Others(allocs)), Passed(frames[1..], Others(allocs)))
    ensures CarriesAll(Deliverable(runs, allocs), Passed(frames, allocs))
  {
    var pass := !runs[0][0].error && First(allocs);
    DeliverableOnce(runs, allocs);
    PassedOnce(frames, allocs);
    hide *;
    var fs, words := Deliverable(runs[1..], Others(allocs)), Passed(frames[1..], Others(allocs));
    CarriesCons(FrameOf(runs[0]), frames[0], pass, fs, words);
  }

  lemma {:induction false} DeliverableOnce(runs: seq<seq<Seg>>, allocs: seq<bool>)
    requires |runs| > 0 && runs[0] != []
    ensures Deliverable(runs, allocs) ==
            (if !runs[0][0].error && First(allocs) then [FrameOf(runs[0])] else [])
            + Deliverable(runs[1..], Others(allocs))
  {
    hide FrameOf;
  }

  lemma {:induction false} PassedOnce(frames: seq<seq<(bv32, bv32)>>, allocs: seq<bool>)
    requires |frames| > 0 && frames[0] != []
    ensures Passed(frames, allocs) ==
            (if !Bad(frames[0][0].0, frames[0][0].1) && First(allocs) then [frames[0]] else [])
            + Passed(frames[1..], Others(allocs))
  {
    hide Bad;
  }

  lemma CarriesCons(f: Frame, w: seq<(bv32, bv32)>, pass: bool, fs: seq<Frame>, words: seq<seq<(bv32, bv32)>>)
    requires Carries(f, w) && CarriesAll(fs, words)
    ensures CarriesAll((if pass then [f] else []) + fs, (if pass then [w] else []) + words)
  {
    hide Carries;
  }

  lemma TailShown(runs: seq<seq<Seg>>, frames: seq<seq<(bv32, bv32)>>)
    requires |runs| == |frames| > 0 && AllFrames(runs) && ShownFrames(runs, frames)
    ensures runs[0] != [] && ShowsAll(runs[0], frames[0])
    ensures AllFrames(runs[1..]) && ShownFrames(runs[1..], frames[1..])
  {
    hide ShowsAll;
    assert OneFrame(runs[0]);
    hide OneFrame;
  }

  /** The same for frames that were in the ring already and new ones, `k` of them in all. */
  lemma PassedOf(held: seq<seq<Seg>>, earlier: seq<seq<(bv32, bv32)>>, runs: seq<seq<Seg>>,
                 frames: seq<seq<(bv32, bv32)>>, k: nat, allocs: seq<bool>)
    requires |held| == |earlier| && AllFrames(held) && ShownFrames(held, earlier)
    requires |runs| == |frames| && AllFrames(runs) && ShownFrames(runs, frames) && k <= |held + runs|
    ensures |earlier + frames| == |held + runs|
    ensures CarriesAll(Deliverable((held + runs)[..k], allocs), Passed((earlier + frames)[..k], allocs))
  {
    hide OneFrame, ShowsAll, CarriesAll, Deliverable, Passed;
    PassedDelivered((held + runs)[..k], (earlier + frames)[..k], allocs);
  }

  lemma Onward(p: nat, a: nat, b: nat)
    ensures ((p + a) % RX_QUEUE_ENTRIES + b) % RX_QUEUE_ENTRIES == (p + (a + b)) % RX_QUEUE_ENTRIES
  {
  }

  lemma CountOnce(frames: seq<seq<(bv32, bv32)>>, i: nat)
    requires i < |frames|
    ensures WordCount(frames[i..]) == |frames[i]| + WordCount(frames[i + 1..])
  {
    assert frames[i..][1..] == frames[i + 1..];
  }

  /** The first `n` frames have arrived behind `base`, and there is room for the others. */
  ghost predicate Arrived(base: seq<Seg>, segs: seq<Seg>, n: nat, runs: seq<seq<Seg>>, frames: seq<seq<(bv32, bv32)>>) {
    && segs == base + Flatten(runs) && n == |runs| <= |frames| && AllFrames(runs) && ShownFrames(runs, frames)
    && |segs| + WordCount(frames[n..]) <= RX_QUEUE_ENTRIES
    && (forall i :: 0 <= i < |frames| ==> FrameWords(frames[i]))
  }

  lemma NothingArrived(segs: seq<Seg>, frames: seq<seq<(bv32, bv32)>>)
    requires |segs| + WordCount(frames) <= RX_QUEUE_ENTRIES
    requires forall i :: 0 <= i < |frames| ==> FrameWords(frames[i])
    ensures Arrived(segs, segs, 0, [], frames)
  {
    hide FrameWords;
    assert segs + Flatten([]) == segs && frames[0..] == frames;
  }

  lemma Room(base: seq<Seg>, segs: seq<Seg>, n: nat, runs: seq<seq<Seg>>, frames: seq<seq<(bv32, bv32)>>)
    requires Arrived(base, segs, n, runs, frames) && n < |frames|
    ensures FrameWords(frames[n]) && |segs| + |frames[n]| <= RX_QUEUE_ENTRIES
  {
    hide FrameWords, ShownFrames, AllFrames, Flatten;
    CountOnce(frames, n);
  }

  lemma OneMoreArrived(base: seq<Seg>, segs: seq<Seg>, n: nat, runs: seq<seq<Seg>>, frames: seq<seq<(bv32, bv32)>>,
                       run: seq<Seg>)
    requires n < |frames| && |run| <= |segs| && Arrived(base, segs[..|segs| - |run|], n, runs, frames)
    requires segs == segs[..|segs| - |run|] + run && ShowsAll(run, frames[n]) && OneFrame(run)
    ensures Arrived(base, segs, n + 1, runs + [run], frames) && |run| == |frames[n]|
  {
    hide FrameWords, Shows, OneFrame, Flatten;
    CountOnce(frames, n);
    FlattenAppend(runs, run);
    Regroup(base, Flatten(runs), run);
  }

  lemma AllArrived(base: seq<Seg>, segs: seq<Seg>, runs: seq<seq<Seg>>, frames: seq<seq<(bv32, bv32)>>)
    requires Arrived(base, segs, |frames|, runs, frames)
    ensures segs == base + Flatten(runs) && |runs| == |frames| && AllFrames(runs) && ShownFrames(runs, frames)
  {
  }

  /** Old frames and new ones, with what is left before them. */
  lemma Behind(junk: seq<Seg>, held: seq<seq<Seg>>, runs: seq<seq<Seg>>, allocs: seq<bool>, budget: nat)
    requires NoneFirst(junk) && AllFrames(held) && AllFrames(runs)
    ensures junk + Flatten(held) + Flatten(runs) == junk + Flatten(held + runs) && AllFrames(held + runs)
    ensures PollEnds(junk + Flatten(held + runs), allocs, budget)
  {
    hide *;
    FlattenTwo(held, runs);
    Regroup(junk, Flatten(held), Flatten(runs));
    FramesTogether(held, runs);
    TidyFrames(held + runs);
    TidyJunk(junk, Flatten(held + runs));
    TidyPoll(junk + Flatten(held + runs), allocs, budget);
  }

  lemma FramesTogether(held: seq<seq<Seg>>, runs: seq<seq<Seg>>)
    requires AllFrames(held) && AllFrames(runs)
    ensures AllFrames(held + runs)
  {
    hide OneFrame;
  }

  class RxRing {
    const des: array<RxDesc>
    var pointer: nat
    var nextPage: nat
    var delivered: seq<Frame>
    ghost var segs: seq<Seg>
    ghost var given: seq<nat>

    ghost predicate Valid()
      reads this, des
    {
      Window(des[..], pointer, segs) && PagesOk(des[..], given, nextPage) && nextPage > 0
    }

    // ---------------------------------------------------------------- setting up

    /** The receive part of `ftgmac100_alloc_buffers`, and `ftgmac100_open`. */
    constructor ()
      ensures Valid() && segs == [] && given == [] && delivered == [] && fresh(des)
    {
      des := new RxDesc[RX_QUEUE_ENTRIES](i => RxDesc(0, 0, 0, 0));
      pointer, nextPage, delivered, segs, given := 0, 1, [], [], [];
      new;
      var last := des[RX_QUEUE_ENTRIES - 1];
      des[RX_QUEUE_ENTRIES - 1] := last.(d0 := last.d0 | EDORR);
      var i := 0;
      while i < RX_QUEUE_ENTRIES
        invariant 0 <= i <= RX_QUEUE_ENTRIES && nextPage == i + 1
        invariant pointer == 0 && segs == [] && given == [] && delivered == []
        invariant forall j :: 0 <= j < RX_QUEUE_ENTRIES ==> des[j].d0 == if j == RX_QUEUE_ENTRIES - 1 then EDORR else 0
        invariant forall j :: 0 <= j < i ==> des[j].page == j + 1 && des[j].dma == MapOf(j + 1)
      {
        AllocPage(i);
        i := i + 1;
      }
      assert forall j :: 0 <= j < RX_QUEUE_ENTRIES ==> SlotOk(des[..][j], 0, [], j);
    }

    /** `ftgmac100_alloc_rx_page` when a page can be had: the descriptor gets it and goes to the
        controller. */
    method AllocPage(i: nat)
      requires i < des.Length
      modifies `nextPage, des
      ensures nextPage == old(nextPage) + 1
      ensures des[..] == old(des[..])[i := RxDesc(Owned(old(des[i]).d0), old(des[i]).d1, old(nextPage),
                                                  MapOf(old(nextPage)))]
    {
      var page := nextPage;
      nextPage := nextPage + 1;
      des[i] := des[i].(page := page);
      des[i] := des[i].(dma := MapOf(page));
      des[i] := des[i].(d0 := Owned(des[i].d0));
    }

    // ---------------------------------------------------------------- the controller

    /** The controller fills its next descriptor with the status words `w0` and `w1`. */
    method HardwareFill(i: nat, w0: bv32, w1: bv32) returns (ghost seg: Seg)
      requires Valid() && i == (pointer + |segs|) % RX_QUEUE_ENTRIES && |segs| < RX_QUEUE_ENTRIES
      requires Has(w0, RXPKT_RDY) && !Has(w0, EDORR)
      modifies `segs, des
      ensures Valid() && segs == old(segs) + [seg] && Shows(seg, w0, w1)
      ensures i < des.Length && seg.page == old(des[..])[i].page && SamePlaces(old(des[..]), des[..])
    {
      ghost var d := des[..];
      MergedBits(des[i].d0, w0);
      MergedView(des[i].d0, w0, w1, des[i].page, des[i].dma);
      hide Merged, Has, Failed, Checked, Length, View;
      des[i] := des[i].(d0 := Merged(des[i].d0, w0), d1 := w1);
      assert des[..] == d[i := des[i]];
      Fill(d, pointer, segs, i, des[i]);
      SamePages(d, i, des[i], given, nextPage);
      seg := View(des[i]);
      hide *;
      segs := segs + [seg];
    }

    /** The controller receives a frame: as many descriptors as it needs from its own pointer
        `at` on, all at once.  What the driver will see of it is `run`. */
    method HardwareReceive(at: nat, words: seq<(bv32, bv32)>) returns (ghost run: seq<Seg>)
      requires Valid() && at == (pointer + |segs|) % RX_QUEUE_ENTRIES
      requires FrameWords(words) && |segs| + |words| <= RX_QUEUE_ENTRIES
      modifies `segs, des
      ensures Valid() && segs == old(segs) + run && ShowsAll(run, words) && OneFrame(run)
      ensures Landed(old(des[..]), at, run) && SamePlaces(old(des[..]), des[..])
    {
      ghost var first := des[..];
      NothingReceived(first, at, words);
      hide *;
      run := [];
      var i := 0;
      while i < |words|
        invariant Valid() && 0 <= i <= |words| && segs == old(segs) + run
        invariant Arriving(first, des[..], at, words, run, i)
      {
        NextWord(first, des[..], at, words, run, i, pointer, |old(segs)|);
        ghost var before := des[..];
        ghost var seg := HardwareFill((at + i) % RX_QUEUE_ENTRIES, words[i].0, words[i].1);
        Regroup(old(segs), run, [seg]);
        OneReceived(first, before, des[..], at, words, run, i, seg);
        run := run + [seg];
        i := i + 1;
      }
      AllReceived(first, des[..], at, words, run);
    }

    /** The controller receives any number of frames, behind those that are still in the ring. */
    method ReceiveAll(at: nat, frames: seq<seq<(bv32, bv32)>>) returns (ghost runs: seq<seq<Seg>>)
      requires Valid() && at == (pointer + |segs|) % RX_QUEUE_ENTRIES
      requires forall i :: 0 <= i < |frames| ==> FrameWords(frames[i])
      requires |segs| + WordCount(frames) <= RX_QUEUE_ENTRIES
      modifies `segs, des
      ensures Valid() && segs == old(segs) + Flatten(runs) && |runs| == |frames| && AllFrames(runs)
      ensures ShownFrames(runs, frames)
    {
      runs := [];
      var i: nat, pos := 0, at;
      NothingArrived(segs, frames);
      hide *;
      while i < |frames|
        invariant Valid() && i <= |frames| && Arrived(old(segs), segs, i, runs, frames)
        invariant pos == (pointer + |segs|) % RX_QUEUE_ENTRIES
      {
        Room(old(segs), segs, i, runs, frames);
        ghost var run := HardwareReceive(pos, frames[i]);
        Onward(pointer, |segs| - |frames[i]|, |frames[i]|);
        OneMoreArrived(old(segs), segs, i, runs, frames, run);
        runs := runs + [run];
        pos := (pos + |frames[i]|) % RX_QUEUE_ENTRIES;
        i := i + 1;
      }
      AllArrived(old(segs), segs, runs, frames);
    }

    /** Then the driver polls: it delivers what was there and what arrived.  The ring may begin
        with what is left of a frame whose head was dropped.  If those held arrived as `earlier`, the
        new frames of the stack are, in order, the first `k` of all that pass. */
    method ReceiveAndPoll(at: nat, frames: seq<seq<(bv32, bv32)>>, budget: nat, allocs: seq<bool>,
                          ghost junk: seq<Seg>, ghost held: seq<seq<Seg>>, ghost earlier: seq<seq<(bv32, bv32)>>)
      returns (rx: nat, ghost runs: seq<seq<Seg>>, ghost k: nat)
      requires Valid() && segs == junk + Flatten(held) && NoneFirst(junk) && AllFrames(held)
      requires at == (pointer + |segs|) % RX_QUEUE_ENTRIES
      requires forall i :: 0 <= i < |frames| ==> FrameWords(frames[i])
      requires |segs| + WordCount(frames) <= RX_QUEUE_ENTRIES
      modifies this, des
      ensures Valid() && |runs| == |frames| && k <= |held + runs| && AllFrames(runs)
      ensures ShownFrames(runs, frames)
      ensures delivered == old(delivered) + Deliverable((held + runs)[..k], allocs)
      ensures segs == Flatten((held + runs)[k..])
      ensures rx == |Deliverable((held + runs)[..k], allocs)| && (k < |held + runs| ==> rx >= budget)
      ensures |held| == |earlier| && ShownFrames(held, earlier) ==>
                && |earlier + frames| == |held + runs| && old(|delivered|) <= |delivered|
                && CarriesAll(delivered[old(|delivered|)..], Passed((earlier + frames)[..k], allocs))
    {
      hide *;
      runs := ReceiveAll(at, frames);
      Behind(junk, held, runs, allocs, budget);
      k := PollDelivers(junk, held + runs, allocs, budget);
      var completed;
      rx, completed := Poll(budget, allocs);
      assert delivered[old(|delivered|)..] == Deliverable((held + runs)[..k], allocs);
      if |held| == |earlier| && ShownFrames(held, earlier) {
        PassedOf(held, earlier, runs, frames, k, allocs);
      }
    }

    // ---------------------------------------------------------------- one descriptor

    /** `ftgmac100_rxdes_set_dma_own` and `ftgmac100_rx_pointer_advance`: the page stays. */
    method GiveBack()
      requires Valid() && segs != []
      modifies `pointer, `segs, des
      ensures Valid() && segs == old(segs)[1..]
    {
      ghost var d := des[..];
      des[pointer] := des[pointer].(d0 := Owned(des[pointer].d0));
      assert des[..] == d[pointer := des[pointer]];
      Advance(d, pointer, segs, des[pointer]);
      SamePages(d, pointer, des[pointer], given, nextPage);
      hide *;
      pointer := (pointer + 1) % RX_QUEUE_ENTRIES;
      segs := segs[1..];
    }

    /** The page of the descriptor goes to the frame, a new one takes its place, and the
        descriptor goes back to the controller. */
    method TakeFragment() returns (page: nat, size: nat, last: bool)
      requires Valid() && segs != []
      modifies `pointer, `segs, `given, `nextPage, des
      ensures Valid() && segs == old(segs)[1..] && given == old(given) + [page]
      ensures page == old(segs)[0].page && size == old(segs)[0].size && last == old(segs)[0].last
    {
      page, size, last := HeadFragment();
      HandOn();
    }

    method HeadFragment() returns (page: nat, size: nat, last: bool)
      requires Valid() && segs != []
      ensures page == segs[0].page && size == segs[0].size && last == segs[0].last
    {
      HeadSays(des[..], pointer, segs);
      hide Window, PagesOk, Has, Length, View;
      page, size, last := des[pointer].page, Length(des[pointer].d0), Has(des[pointer].d0, LRS);
    }

    method HandOn()
      requires Valid() && segs != []
      modifies `pointer, `segs, `given, `nextPage, des
      ensures Valid() && segs == old(segs)[1..] && given == old(given) + [old(segs)[0].page]
    {
      ghost var d, next, rest, pages := des[..], nextPage, segs[1..], given + [segs[0].page];
      hide Window, PagesOk, SlotOk, Has, Owned, Length, View, MapOf;
      AllocPage(pointer);
      Replaced(d, pointer, segs, given, next, des[..]);
      pointer := (pointer + 1) % RX_QUEUE_ENTRIES;
      segs, given := rest, pages;
    }

    // ---------------------------------------------------------------- one packet

    method Ready() returns (ready: bool)
      requires Valid()
      ensures ready <==> segs != []
      ensures ready ==> pointer < des.Length && View(des[pointer]) == segs[0]
    {
      HeadSlot(des[..], pointer, segs);
      ready := Has(des[pointer].d0, RXPKT_RDY);
    }

    /** `ftgmac100_rx_locate_first_segment`. */
    method LocateFirstSegment() returns (found: bool)
      requires Valid()
      modifies `pointer, `segs, des
      ensures Valid() && segs == Located(old(segs)) && (found <==> segs != [])
    {
      hide Window, PagesOk;
      var ready := Ready();
      while ready
        invariant Valid() && (ready <==> segs != [])
        invariant ready ==> pointer < des.Length && View(des[pointer]) == segs[0]
        invariant Located(segs) == Located(old(segs))
        decreases |segs|
      {
        if Has(des[pointer].d0, FRS) {
          return true;
        }
        GiveBack();
        ready := Ready();
      }
      found := false;
    }

    /** `ftgmac100_rx_drop_packet`: to the end of the frame, or of what has been filled. */
    method DropPacket()
      requires Valid() && segs != []
      modifies `pointer, `segs, des
      ensures Valid() && segs == old(segs)[RunLength(old(segs))..]
    {
      hide Window, PagesOk;
      var done, ready := false, true;
      while !done && ready
        invariant Valid() && (ready <==> segs != [])
        invariant if done || !ready then segs == old(segs)[RunLength(old(segs))..]
                  else RunTail(segs) == RunTail(old(segs))
        decreases |segs|, !done
      {
        RunTailOnce(segs);
        HeadSlot(des[..], pointer, segs);
        if Has(des[pointer].d0, LRS) {
          done := true;
        }
        GiveBack();
        ready := Ready();
      }
    }

    /** `ftgmac100_rx_packet_error`. */
    method PacketError(d: RxDesc) returns (error: bool)
      ensures error == Failed(d.d0, d.d1) == Bad(d.d0, d.d1)
    {
      StatusBits(d.d0, d.d1);
      hide Bad, Has;
      error := false;
      if Has(d.d0, RX_ERR) {
        error := true;
      }
      if Has(d.d0, CRC_ERR) {
        error := true;
      } else if Has(d.d1, IP_CHKSUM_ERR) {
        error := true;
      }
      if Has(d.d0, FTL) {
        error := true;
      } else if Has(d.d0, RUNT) {
        error := true;
      } else if Has(d.d0, RX_ODD_NB) {
        error := true;
      }
    }

    /** One turn: the fragment is added to the frame. */
    method AddFragment(skb: Frame, ghost g: seq<nat>) returns (skb': Frame, last: bool)
      requires Valid() && segs != [] && given == g + skb.pages
      modifies `pointer, `segs, `given, `nextPage, des
      ensures Valid() && segs == old(segs)[1..] && last == old(segs)[0].last
      ensures skb' == WithFragment(skb, old(segs)[0]) && given == g + skb'.pages
    {
      var page, size;
      page, size, last := TakeFragment();
      Regroup(g, skb.pages, [page]);
      skb' := skb.(pages := skb.pages + [page], sizes := skb.sizes + [size], len := skb.len + size);
    }

    /** The fragments of a frame, to its last segment. */
    method TakeFrame(checked: bool) returns (skb: Frame)
      requires Valid() && HasLast(segs) && checked == segs[0].checked
      modifies `pointer, `segs, `given, `nextPage, des
      ensures Valid() && segs == old(segs)[RunLength(old(segs))..]
      ensures RunLength(old(segs)) > 0 && skb == FrameOf(old(segs)[..RunLength(old(segs))])
      ensures given == old(given) + skb.pages
    {
      skb := Frame([], [], 0, checked);
      var done := false;
      GatherIsFrame(segs, checked);
      assert given + [] == given;
      hide *;
      ghost var r, g, start := segs, given, skb;
      while !done
        invariant Valid() && given == g + skb.pages
        invariant if done then segs == RunTail(r) && skb == Gather(start, r)
                  else HasLast(segs) && RunTail(segs) == RunTail(r) && Gather(skb, segs) == Gather(start, r)
        decreases |segs|, !done
      {
        GatherOnce(skb, segs);
        RunTailOnce(segs);
        skb, done := AddFragment(skb, g);
      }
    }

    /** `ftgmac100_rx_packet`; `alloc` says whether there is memory for a socket buffer. */
    method RxPacket(alloc: bool) returns (retry: bool, processed: nat)
      requires Valid() && PacketEnds(segs, alloc)
      modifies this, des
      ensures Valid() && segs == Remaining(old(segs))
      ensures retry <==> Located(old(segs)) != []
      ensures var f := Received(old(segs), alloc);
              delivered == old(delivered) + f && processed == |f| && given == old(given) + PagesOf(f)
    {
      hide Window, PagesOk;
      processed := 0;
      retry := LocateFirstSegment();
      if !retry {
        return;
      }
      HeadSlot(des[..], pointer, segs);
      var error := PacketError(des[pointer]);
      if error || !alloc {
        DropPacket();
        return;
      }
      var skb := TakeFrame(Checked(des[pointer].d1));
      delivered := delivered + [skb];
      processed := 1;
    }

    /** One turn of the receive loop. */
    method PollTurn(alloc: bool, ghost whole: Polled, ghost d: seq<Frame>, ghost g: seq<nat>, ghost f: seq<Frame>,
                    ghost memory: seq<bool>, ghost budget: nat)
      returns (retry: bool, processed: nat, ghost frames: seq<Frame>)
      requires Valid() && alloc == First(memory) && Gave(d, g, f, delivered, given)
      requires SoFar(whole, f, segs, memory, budget, true, true)
      modifies this, des
      ensures Valid() && Gave(d, g, frames, delivered, given) && |frames| == |f| + processed
      ensures SoFar(whole, frames, segs, Others(memory), budget - processed, retry && processed < budget, retry)
      ensures |segs| <= old(|segs|) && (retry ==> |segs| < old(|segs|))
    {
      hide *;
      OneTurn(whole, f, segs, memory, budget);
      GaveMore(d, g, f, delivered, given, Received(segs, alloc));
      frames := f + Received(segs, alloc);
      retry, processed := RxPacket(alloc);
    }

    /** The receive part of `ftgmac100_poll`. */
    method Poll(budget: nat, allocs: seq<bool>) returns (rx: nat, completed: bool)
      requires Valid() && PollEnds(segs, allocs, budget)
      modifies this, des
      ensures Valid()
      ensures var p := FtgmacRx.Poll(old(segs), allocs, budget);
              && delivered == old(delivered) + p.frames && segs == p.rest && rx == |p.frames|
              && completed == !(p.more && rx == budget) && given == old(given) + PagesOf(p.frames)
      ensures budget > 0 && completed ==> segs == []
    {
      var memory := allocs;
      rx := 0;
      var retry, again := true, true;
      ghost var frames: seq<Frame>, whole := [], FtgmacRx.Poll(segs, allocs, budget);
      StartPolling(segs, allocs, budget, delivered, given);
      hide *;
      while again
        invariant Valid() && rx == |frames| && (again ==> rx <= budget && retry)
        invariant Gave(old(delivered), old(given), frames, delivered, given)
        invariant SoFar(whole, frames, segs, memory, budget - rx, again, retry)
        decreases |segs|, again
      {
        var processed;
        retry, processed, frames :=
          PollTurn(First(memory), whole, old(delivered), old(given), frames, memory, budget - rx);
        memory := Others(memory);
        rx := rx + processed;
        again := retry && rx < budget;
      }
      completed := !(retry && rx == budget);
      PollStops(old(segs), allocs, budget);
      AllPolled(whole, old(delivered), old(given), frames, delivered, given, segs, memory, budget - rx, retry);
    }
  }

  function Prefixed(f: seq<Frame>, p: Polled): Polled { p.(frames := f + p.frames) }

  /** The whole poll is the frames so far and, if it goes on, the poll of what is left. */
  ghost predicate SoFar(whole: Polled, f: seq<Frame>, segs: seq<Seg>, allocs: seq<bool>, budget: int, again: bool,
                        retry: bool)
  {
    if again then
      && budget >= 0 && PollEnds(segs, allocs, budget)
      && whole == Prefixed(f, FtgmacRx.Poll(segs, allocs, budget))
    else whole == Polled(f, segs, retry)
  }

  lemma StartPolling(segs: seq<Seg>, allocs: seq<bool>, budget: nat, delivered: seq<Frame>, given: seq<nat>)
    requires PollEnds(segs, allocs, budget)
    ensures SoFar(FtgmacRx.Poll(segs, allocs, budget), [], segs, allocs, budget, true, true)
    ensures Gave(delivered, given, [], delivered, given)
  {
    hide FtgmacRx.Poll, PollEnds;
    var p := FtgmacRx.Poll(segs, allocs, budget);
    assert [] + p.frames == p.frames;
  }

  lemma EndsOnce(segs: seq<Seg>, allocs: seq<bool>, budget: nat)
    requires PollEnds(segs, allocs, budget)
    ensures PacketEnds(segs, First(allocs))
    ensures var f := Received(segs, First(allocs));
            Located(segs) != [] && |f| < budget ==> PollEnds(Remaining(segs), Others(allocs), budget - |f|)
  {
  }

  lemma OneTurn(whole: Polled, f: seq<Frame>, segs: seq<Seg>, allocs: seq<bool>, budget: nat)
    requires SoFar(whole, f, segs, allocs, budget, true, true)
    ensures PacketEnds(segs, First(allocs)) && (Located(segs) != [] ==> |Remaining(segs)| < |segs|)
    ensures var g, more := Received(segs, First(allocs)), Located(segs) != [];
            SoFar(whole, f + g, Remaining(segs), Others(allocs), budget - |g|, more && |g| < budget, more)
  {
    PollOnce(f, segs, allocs, budget);
    EndsOnce(segs, allocs, budget);
    hide FtgmacRx.Poll, PollEnds, Prefixed, Received, Located, PacketEnds;
  }

  /** The frames have been delivered and their pages given away. */
  ghost predicate Gave(delivered: seq<Frame>, given: seq<nat>, f: seq<Frame>, delivered': seq<Frame>,
                       given': seq<nat>)
  {
    delivered' == delivered + f && given' == given + PagesOf(f)
  }

  lemma AllPolled(whole: Polled, delivered: seq<Frame>, given: seq<nat>, f: seq<Frame>, d: seq<Frame>, g: seq<nat>,
                  segs: seq<Seg>, allocs: seq<bool>, budget: int, retry: bool)
    requires SoFar(whole, f, segs, allocs, budget, false, retry) && Gave(delivered, given, f, d, g)
    ensures whole == Polled(f, segs, retry) && d == delivered + f && g == given + PagesOf(f)
  {
  }

  lemma GaveMore(delivered: seq<Frame>, given: seq<nat>, f: seq<Frame>, d: seq<Frame>, g: seq<nat>, h: seq<Frame>)
    requires Gave(delivered, given, f, d, g)
    ensures Gave(delivered, given, f + h, d + h, g + PagesOf(h))
  {
    PagesOfAppend(f, h);
    hide PagesOf;
    Regroup(delivered, f, h);
    Regroup(given, PagesOf(f), PagesOf(h));
  }

  lemma PollOnce(f: seq<Frame>, segs: seq<Seg>, allocs: seq<bool>, budget: nat)
    ensures var g := Received(segs, First(allocs));
            Prefixed(f, FtgmacRx.Poll(segs, allocs, budget)) ==
            if Located(segs) == [] || |g| >= budget then Polled(f + g, Remaining(segs), Located(segs) != [])
            else Prefixed(f + g, FtgmacRx.Poll(Remaining(segs), Others(allocs), budget - |g|))
    ensures Located(segs) == [] ==> Received(segs, First(allocs)) == []
  {
    var g := Received(segs, First(allocs));
    NothingLocated(segs, First(allocs));
    hide Received, Remaining, Located;
    if Located(segs) == [] {
      assert f + [] == f;
    } else if |g| < budget {
      var p := FtgmacRx.Poll(Remaining(segs), Others(allocs), budget - |g|);
      Regroup(f, g, p.frames);
    }
  }

  lemma NothingLocated(segs: seq<Seg>, alloc: bool)
    ensures Located(segs) == [] ==> Received(segs, alloc) == [] && Remaining(segs) == []
  {
  }

  lemma {:induction false} PagesOfAppend(f: seq<Frame>, g: seq<Frame>)
    ensures PagesOf(f + g) == PagesOf(f) + PagesOf(g)
    decreases |f|
  {
    if f == [] {
      assert f + g == g;
    } else {
      assert (f + g)[1..] == f[1..] + g;
      PagesOfAppend(f[1..], g);
    }
  }

  /** The pages of a list of frames. */
  function PagesOf(frames: seq<Frame>): seq<nat> {
    if frames == [] then [] else frames[0].pages + PagesOf(frames[1..])
  }

  /** What is left after the frame at the head. */
  function RunTail(segs: seq<Seg>): seq<Seg> { segs[RunLength(segs)..] }

  lemma RunTailOnce(segs: seq<Seg>)
    requires segs != []
    ensures RunTail(segs) == if segs[0].last then segs[1..] else RunTail(segs[1..])
  {
  }

  function WithFragment(skb: Frame, seg: Seg): Frame {
    Frame(skb.pages + [seg.page], skb.sizes + [seg.size], skb.len + seg.size, skb.checked)
  }

  /** The frame with the fragments up to the last segment added. */
  function Gather(skb: Frame, segs: seq<Seg>): Frame
    decreases |segs|
  {
    if segs == [] then skb
    else if segs[0].last then WithFragment(skb, segs[0])
    else Gather(WithFragment(skb, segs[0]), segs[1..])
  }

  lemma GatherOnce(skb: Frame, segs: seq<Seg>)
    requires HasLast(segs)
    ensures segs != []
    ensures Gather(skb, segs) ==
            if segs[0].last then WithFragment(skb, segs[0]) else Gather(WithFragment(skb, segs[0]), segs[1..])
    ensures segs[0].last || HasLast(segs[1..])
  {
  }

  /** The frame `g` is `skb` with the fragments of the run added. */
  predicate Adds(skb: Frame, run: seq<Seg>, g: Frame) {
    && g.pages == skb.pages + Pages(run) && g.sizes == skb.sizes + Sizes(run)
    && g.len == skb.len + Sum(Sizes(run)) && g.checked == skb.checked
  }

  lemma AddsCons(skb: Frame, seg: Seg, rest: seq<Seg>, g: Frame)
    requires Adds(WithFragment(skb, seg), rest, g)
    ensures Adds(skb, [seg] + rest, g)
  {
    var run := [seg] + rest;
    assert Pages(run) == [seg.page] + Pages(rest);
    assert Sizes(run) == [seg.size] + Sizes(rest) && Sizes(run)[1..] == Sizes(rest);
    Regroup(skb.pages, [seg.page], Pages(rest));
    Regroup(skb.sizes, [seg.size], Sizes(rest));
  }

  lemma AddsNothing(skb: Frame)
    ensures Adds(skb, [], skb)
  {
  }

  lemma {:induction false} GatherAdds(skb: Frame, segs: seq<Seg>)
    ensures Adds(skb, segs[..RunLength(segs)], Gather(skb, segs))
    decreases |segs|
  {
    hide Adds;
    if segs == [] {
      AddsNothing(skb);
    } else {
      var one := WithFragment(skb, segs[0]);
      if segs[0].last {
        assert segs[..1] == [segs[0]] + [];
        AddsNothing(one);
        AddsCons(skb, segs[0], [], one);
      } else {
        GatherAdds(one, segs[1..]);
        var rest := segs[1..][..RunLength(segs[1..])];
        assert segs[..RunLength(segs)] == [segs[0]] + rest;
        AddsCons(skb, segs[0], rest, Gather(one, segs[1..]));
      }
    }
  }

  /** The loop that gathers fragments makes the frame. */
  lemma GatherIsFrame(segs: seq<Seg>, checked: bool)
    requires HasLast(segs) && checked == segs[0].checked
    ensures RunLength(segs) > 0 && Gather(Frame([], [], 0, checked), segs) == FrameOf(segs[..RunLength(segs)])
    ensures RunTail(segs) == segs[RunLength(segs)..]
  {
    GatherAdds(Frame([], [], 0, checked), segs);
  }

  lemma Regroup<T>(a: seq<T>, b: seq<T>, c: seq<T>)
    ensures a + b + c == a + (b + c)
  {
  }
}
