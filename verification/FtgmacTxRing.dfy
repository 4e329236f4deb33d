/** The transmit side of the FTGMAC100 driver as it runs, on the descriptor array.  `Value` is its
  state; every method changes it as the function of the same name says. */
module FtgmacTxRing {
  import opened FtgmacTx

  class TxRing {
    const des: array<TxDesc>
    var clean: nat
    var next: nat
    var pending: nat
    var stopped: bool
    var freed: seq<Packet>
    var dropped: seq<Packet>

    ghost function Value(): Tx
      reads this, des
    {
      Tx(des[..], clean, next, pending, stopped, freed, dropped)
    }

    /** The transmit part of `ftgmac100_alloc_buffers`, and `ftgmac100_open`. */
    constructor ()
      ensures Value() == Opened() && Inv(Value(), []) && fresh(des)
    {
      des := new TxDesc[TX_QUEUE_ENTRIES](i => TxDesc(0, 0, Nothing, 0));
      clean, next, pending, stopped, freed, dropped := 0, 0, 0, false, [], [];
      new;
      var last := des[TX_QUEUE_ENTRIES - 1];
      des[TX_QUEUE_ENTRIES - 1] := last.(d0 := With(last.d0, EDOTR));
      OpenedInv();
      assert des[..] == Opened().des;
    }

    /** `ftgmac100_hard_start_xmit`, called while the queue is awake. */
    method HardStartXmit(p: Packet, mapped: bool, ghost q: seq<Packet>)
      requires Inv(Value(), q) && !stopped
      modifies this, des
      ensures Value() == StartXmit(old(Value()), p, mapped)
      ensures Inv(Value(), if Sendable(p, mapped) then q + [p] else q)
      ensures if p.len as nat > 1518 || !mapped then Value() == old(Value()).(dropped := old(dropped) + [p])
              else Put(old(Value()), Value(), p)
    {
      OfferExact(Value(), q, p, mapped);
      if p.len > MAX_PKT_SIZE {
        dropped := dropped + [p];
        return;
      }
      if !mapped {
        dropped := dropped + [p];
        return;
      }
      XmitKeepsInv(Value(), q, p);
      hide Inv, Put, FtgmacTx.Xmit;
      Xmit(p);
    }

    /** `ftgmac100_xmit`: the ownership bit is set last. */
    method Xmit(p: Packet)
      requires FtgmacTx.Shape(Value())
      modifies `next, `pending, `stopped, des
      ensures Value() == FtgmacTx.Xmit(old(Value()), p)
    {
      hide With, WithOffload;
      var i := next;
      next := (next + 1) % TX_QUEUE_ENTRIES;
      SetFrame(i, p);
      SetOffload(i, p);
      pending := pending + 1;
      if pending == TX_QUEUE_ENTRIES {
        stopped := true;
      }
      des[i] := des[i].(d0 := With(des[i].d0, OWN));
      assert des[..] == old(des[..])[i := Filled(old(des[i]), p)];
    }

    /** Buffer, address and length of a packet that is one segment. */
    method SetFrame(i: nat, p: Packet)
      requires i < des.Length
      modifies des
      ensures des[..] == old(des[..])[i := old(des[i]).(skb := Skb(p), d3 := p.dma,
                d0 := With(With(With(old(des[i]).d0, SizeField(LengthOf(p))), FTS), LTS))]
    {
      hide With, SizeField;
      var len := if p.len < ETH_ZLEN then ETH_ZLEN else p.len;
      des[i] := des[i].(skb := Skb(p));
      des[i] := des[i].(d3 := p.dma);
      des[i] := des[i].(d0 := With(des[i].d0, SizeField(len)));
      des[i] := des[i].(d0 := With(des[i].d0, FTS));
      des[i] := des[i].(d0 := With(des[i].d0, LTS));
    }

    /** Interrupt on completion, and the checksums the controller is to fill in. */
    method SetOffload(i: nat, p: Packet)
      requires i < des.Length
      modifies des
      ensures des[..] == old(des[..])[i := old(des[i]).(d1 := WithOffload(With(old(des[i]).d1, TXIC), p))]
    {
      hide With;
      des[i] := des[i].(d1 := With(des[i].d1, TXIC));
      if p.partial {
        if p.ip {
          des[i] := des[i].(d1 := With(des[i].d1, IP_CHKSUM));
          if p.proto == IPPROTO_TCP {
            des[i] := des[i].(d1 := With(des[i].d1, TCP_CHKSUM));
          } else if p.proto == IPPROTO_UDP {
            des[i] := des[i].(d1 := With(des[i].d1, UDP_CHKSUM));
          }
        }
      }
    }

    /** `ftgmac100_tx_complete_packet`. */
    method TxCompletePacket(ghost q: seq<Packet>) returns (more: bool)
      requires Inv(Value(), q)
      modifies this, des
      ensures (Value(), more) == CompletePacket(old(Value()))
      ensures if more then q != [] && Inv(Value(), q[1..]) else Inv(Value(), q)
    {
      CompletePacketKeepsInv(Value(), q);
      if pending == 0 {
        return false;
      }
      var d := des[clean];
      if d.d0 & OWN != 0 {
        return false;
      }
      freed := freed + [d.skb.p];
      ghost var before, c := des[..], clean;
      des[clean] := TxDesc(d.d0 & EDOTR, 0, Nothing, 0);
      assert des[..] == before[c := Reset(d)];
      clean := (clean + 1) % TX_QUEUE_ENTRIES;
      pending := pending - 1;
      stopped := false;
      more := true;
    }

    /** `ftgmac100_tx_complete`. */
    method TxComplete(ghost q: seq<Packet>) returns (ghost q': seq<Packet>)
      requires Inv(Value(), q)
      modifies this, des
      ensures Value() == Complete(old(Value())) && Inv(Value(), q')
      ensures freed + q' == old(freed) + q
    {
      assert FtgmacTx.Shape(Value());
      hide *;
      q' := q;
      var more := true;
      while more
        invariant Inv(Value(), q') && freed + q' == old(freed) + q
        invariant FtgmacTx.Shape(Value()) && FtgmacTx.Shape(old(Value()))
        invariant if more then Complete(Value()) == Complete(old(Value())) else Value() == Complete(old(Value()))
        decreases more, |q'|
      {
        CompletePacketKeepsInv(Value(), q');
        CompleteOnce(Value());
        ghost var f, rest := freed, q';
        more := TxCompletePacket(q');
        if more {
          q' := rest[1..];
          HeadTail(f, rest);
        }
      }
    }

    /** The transmit part of `ftgmac100_free_buffers`. */
    method FreeBuffers(ghost q: seq<Packet>)
      requires Inv(Value(), q)
      modifies `freed, `stopped
      ensures stopped && freed == old(freed) + SlotOrder(clean, q)
    {
      StopFrees(Value(), q);
      FreedInOrder(freed, des[..], SlotOrder(clean, q));
      hide *;
      stopped := true;
      FreeSlots();
    }

    /** The loop over the slots. */
    method FreeSlots()
      requires des.Length == TX_QUEUE_ENTRIES
      modifies `freed
      ensures freed == old(freed) + Buffers(des[..])
    {
      hide *;
      ghost var ring := des[..];
      assert ring[0..] == ring;
      var i := 0;
      while i < TX_QUEUE_ENTRIES
        invariant 0 <= i <= TX_QUEUE_ENTRIES
        invariant freed + Buffers(ring[i..]) == old(freed) + Buffers(ring)
      {
        BuffersFrom(ring, i);
        match des[i].skb {
          case Nothing =>
            assert [] + Buffers(ring[i + 1..]) == Buffers(ring[i + 1..]);
          case Skb(p) =>
            Moved(freed, p, Buffers(ring[i + 1..]));
            freed := freed + [p];
        }
        i := i + 1;
      }
      NothingLeft(freed, ring);
    }
  }

  lemma FreedInOrder(f: seq<Packet>, ring: seq<TxDesc>, order: seq<Packet>)
    requires f + Buffers(ring) == f + order
    ensures Buffers(ring) == order
  {
    assert (f + Buffers(ring))[|f|..] == Buffers(ring) && (f + order)[|f|..] == order;
  }

  lemma Moved(f: seq<Packet>, p: Packet, rest: seq<Packet>)
    ensures f + ([p] + rest) == f + [p] + rest && f + ([] + rest) == f + rest
  {
  }

  lemma NothingLeft(f: seq<Packet>, ring: seq<TxDesc>)
    ensures f + Buffers(ring[|ring|..]) == f
  {
  }

  lemma HeadTail<T>(f: seq<T>, q: seq<T>)
    requires q != []
    ensures f + [q[0]] + q[1..] == f + q
  {
  }
}
