/** The three forms of CRC-32 as they run, the proof that they are one function, and which
  changes of a message it always notices. */
module CrcForms {
  import opened Crc

  function Byte(b: bv8): bv32 { b as bv32 }
  function Low(x: bv32): bv32 { x & 0xFF }
  function High(x: bv32): bv32 { x & 0xFFFF_FF00 }
  function Shr8(x: bv32): bv32 { x >> 8 }
  function Shl8(x: bv32): bv32 { x << 8 }

  /** The reference: each byte enters the register and goes through eight single-bit steps. */
  function Register(crc: bv32, data: seq<bv8>): bv32
    decreases |data|
  {
    if data == [] then crc else Register(Eight(Xor(crc, Byte(data[0]))), data[1..])
  }

  /** Bytes may come in any number of pieces. */
  lemma {:induction false} RegisterAppend(crc: bv32, a: seq<bv8>, b: seq<bv8>)
    ensures Register(crc, a + b) == Register(Register(crc, a), b)
    decreases |a|
  {
    hide Eight, Xor, Byte;
    if a == [] {
      assert a + b == b;
    } else {
      assert (a + b)[1..] == a[1..] + b;
      RegisterAppend(Eight(Xor(crc, Byte(a[0]))), a[1..], b);
    }
  }

  function Concat(pieces: seq<seq<bv8>>): seq<bv8> {
    if pieces == [] then [] else pieces[0] + Concat(pieces[1..])
  }

  function RegisterPieces(crc: bv32, pieces: seq<seq<bv8>>): bv32
    decreases |pieces|
  {
    if pieces == [] then crc else RegisterPieces(Register(crc, pieces[0]), pieces[1..])
  }

  lemma {:induction false} AnySplit(crc: bv32, pieces: seq<seq<bv8>>)
    ensures RegisterPieces(crc, pieces) == Register(crc, Concat(pieces))
    decreases |pieces|
  {
    hide Eight, Xor, Byte;
    if pieces != [] {
      AnySplit(Register(crc, pieces[0]), pieces[1..]);
      RegisterAppend(crc, pieces[0], Concat(pieces[1..]));
    }
  }

  // ---------------------------------------------------------------- bits

  /** Where the low byte is empty the steps only shift. */
  lemma EightShifts(w: bv32)
    requires Low(w) == 0
    ensures Eight(w) == Shr8(w)
  {
  }

  // ---------------------------------------------------------------- the table form

  lemma SplitLow(x: bv32)
    ensures Xor(High(x), Low(x)) == x && Low(High(x)) == 0 && Low(x) <= 0xFF && Shr8(High(x)) == Shr8(x)
  {
  }

  lemma LowOfXor(crc: bv32, b: bv8)
    ensures Low(Xor(crc, Byte(b))) == Xor(Byte(b), Low(crc)) && Shr8(Xor(crc, Byte(b))) == Shr8(crc)
  {
  }

  /** The table step of `CalculateCRC32` and `DoCRC32`. */
  function TableStep(crc: bv32, b: bv8): bv32 { Xor(Shr8(crc), Table(Xor(Byte(b), Low(crc)))) }

  /** One table look-up is eight single-bit steps. */
  lemma TableStepIsEight(crc: bv32, b: bv8)
    ensures TableStep(crc, b) == Eight(Xor(crc, Byte(b)))
  {
    hide Table, Eight, Xor, Low, High, Shr8, Byte;
    var x := Xor(crc, Byte(b));
    SplitLow(x);
    LowOfXor(crc, b);
    EightShifts(High(x));
    EightXor(High(x), Low(x));
    TableIsEightSteps(Low(x));
  }

  lemma RegisterOnce(crc: bv32, data: seq<bv8>, i: nat)
    requires i < |data|
    ensures Register(crc, data[i..]) == Register(Eight(Xor(crc, Byte(data[i]))), data[i + 1..])
  {
  }

  /** `CalculateCRC32` */
  method CalculateCRC32(buffer: seq<bv8>) returns (crc: bv32)
    ensures crc == !Register(ALL_ONES, buffer)
  {
    hide TableStep, Eight, Register, Xor, Byte;
    var crc32: bv32 := ALL_ONES;
    var i := 0;
    assert buffer[0..] == buffer;
    while i < |buffer|
      invariant 0 <= i <= |buffer| && Register(crc32, buffer[i..]) == Register(ALL_ONES, buffer)
    {
      RegisterOnce(crc32, buffer, i);
      TableStepIsEight(crc32, buffer[i]);
      crc32 := TableStep(crc32, buffer[i]);
      i := i + 1;
    }
    RegisterEmpty(crc32);
    assert buffer[i..] == [];
    return !crc32;
  }

  lemma RegisterEmpty(crc: bv32)
    ensures Register(crc, []) == crc
  {
  }

  lemma RegisterMore(crc: bv32, data: seq<bv8>, i: nat)
    requires i < |data|
    ensures Register(crc, data[..i + 1]) == Eight(Xor(Register(crc, data[..i]), Byte(data[i])))
  {
    hide Eight, Xor, Byte;
    assert data[..i + 1] == data[..i] + [data[i]];
    RegisterAppend(crc, data[..i], [data[i]]);
  }

  /** The word that `BeginCRC32`, `DoCRC32` and `EndCRC32` work on. */
  class Stream {
    var crc32: bv32

    method BeginCRC32()
      modifies this
      ensures crc32 == ALL_ONES
    {
      crc32 := ALL_ONES;
    }

    method DoCRC32(data: bv8)
      modifies this
      ensures crc32 == Eight(Xor(old(crc32), Byte(data)))
    {
      hide TableStep, Eight, Xor, Byte;
      TableStepIsEight(crc32, data);
      crc32 := TableStep(crc32, data);
    }

    method EndCRC32()
      modifies this
      ensures crc32 == !old(crc32)
    {
      crc32 := !crc32;
    }

    /** `BeginCRC32`, any number of `DoCRC32`, `EndCRC32`. */
    method Digest(data: seq<bv8>)
      modifies this
      ensures crc32 == !Register(ALL_ONES, data)
    {
      hide Eight, Xor, Byte, Register;
      BeginCRC32();
      RegisterEmpty(ALL_ONES);
      var i := 0;
      while i < |data|
        invariant 0 <= i <= |data| && crc32 == Register(ALL_ONES, data[..i])
      {
        RegisterMore(ALL_ONES, data, i);
        DoCRC32(data[i]);
        i := i + 1;
      }
      assert data[..i] == data;
      EndCRC32();
    }
  }

  // ---------------------------------------------------------------- the bit-serial form

  /** A step of the bit-serial loop on the register and what is left of the byte. */
  function SerialBit(crc: bv32, c: bv8): bv32 { Xor(Half(crc), if Odd(Xor(crc, Byte(c))) then POLY else 0) }

  function HalfByte(c: bv8): bv8 { c >> 1 }

  lemma SerialBitIsStep(crc: bv32, c: bv8)
    ensures Xor(SerialBit(crc, c), Byte(HalfByte(c))) == BitStep(Xor(crc, Byte(c)))
  {
  }

  function Steps(x: bv32, n: nat): bv32 { if n == 0 then x else BitStep(Steps(x, n - 1)) }

  lemma StepsEight(x: bv32)
    ensures Steps(x, 8) == Eight(x)
  {
    hide BitStep;
    assert Steps(x, 1) == BitStep(Steps(x, 0));
    assert Steps(x, 2) == BitStep(Steps(x, 1));
    assert Steps(x, 3) == BitStep(Steps(x, 2));
    assert Steps(x, 4) == BitStep(Steps(x, 3));
    assert Steps(x, 5) == BitStep(Steps(x, 4));
    assert Steps(x, 6) == BitStep(Steps(x, 5));
    assert Steps(x, 7) == BitStep(Steps(x, 6));
  }

  lemma ShiftedOut(c: bv8)
    ensures HalfByte(HalfByte(HalfByte(HalfByte(HalfByte(HalfByte(HalfByte(HalfByte(c)))))))) == 0
  {
  }

  function Halved(c: bv8, n: nat): bv8 { if n == 0 then c else HalfByte(Halved(c, n - 1)) }

  lemma HalvedOut(c: bv8)
    ensures Halved(c, 8) == 0
  {
    ShiftedOut(c);
    hide HalfByte;
    assert Halved(c, 2) == HalfByte(HalfByte(Halved(c, 0)));
    assert Halved(c, 4) == HalfByte(HalfByte(Halved(c, 2)));
    assert Halved(c, 6) == HalfByte(HalfByte(Halved(c, 4)));
  }

  lemma ByteZero()
    ensures Byte(0) == 0
  {
  }

  /** The bit-serial `crc32`; it does not complement its result. */
  method SerialCrc32(s: seq<bv8>) returns (crcValue: bv32)
    ensures crcValue == Register(ALL_ONES, s)
  {
    hide Eight, Xor, Byte, Register;
    crcValue := ALL_ONES;
    var perByte := 0;
    assert s[0..] == s;
    while perByte < |s|
      invariant 0 <= perByte <= |s| && Register(crcValue, s[perByte..]) == Register(ALL_ONES, s)
    {
      RegisterOnce(crcValue, s, perByte);
      crcValue := SerialByte(crcValue, s[perByte]);
      perByte := perByte + 1;
    }
    RegisterEmpty(crcValue);
    assert s[perByte..] == [];
  }

  /** The inner loop, for one byte. */
  method SerialByte(crc: bv32, byte: bv8) returns (crcValue: bv32)
    ensures crcValue == Eight(Xor(crc, Byte(byte)))
  {
    hide Eight, BitStep, SerialBit, Xor, Byte, HalfByte;
    crcValue := crc;
    var c := byte;
    var perBit := 0;
    while perBit < 8
      invariant 0 <= perBit <= 8 && c == Halved(byte, perBit)
      invariant Xor(crcValue, Byte(c)) == Steps(Xor(crc, Byte(byte)), perBit)
    {
      SerialBitIsStep(crcValue, c);
      crcValue := SerialBit(crcValue, c);
      c := HalfByte(c);
      perBit := perBit + 1;
    }
    HalvedOut(byte);
    ByteZero();
    XorZero(crcValue);
    StepsEight(Xor(crc, Byte(byte)));
  }

  // ---------------------------------------------------------------- what is always noticed

  /** The polynomial has its top bit set, so a step can be undone. */
  lemma BitStepInjective(x: bv32, y: bv32)
    requires BitStep(x) == BitStep(y)
    ensures x == y
  {
  }

  lemma EightInjective(x: bv32, y: bv32)
    requires Eight(x) == Eight(y)
    ensures x == y
  {
    hide BitStep;
    var x1, y1 := BitStep(x), BitStep(y);
    var x2, y2 := BitStep(x1), BitStep(y1);
    var x3, y3 := BitStep(x2), BitStep(y2);
    var x4, y4 := BitStep(x3), BitStep(y3);
    var x5, y5 := BitStep(x4), BitStep(y4);
    var x6, y6 := BitStep(x5), BitStep(y5);
    var x7, y7 := BitStep(x6), BitStep(y6);
    BitStepInjective(x7, y7);
    BitStepInjective(x6, y6);
    BitStepInjective(x5, y5);
    BitStepInjective(x4, y4);
    BitStepInjective(x3, y3);
    BitStepInjective(x2, y2);
    BitStepInjective(x1, y1);
    BitStepInjective(x, y);
  }

  /** Whatever follows, two different registers stay different. */
  lemma {:induction false} RegisterInjective(x: bv32, y: bv32, data: seq<bv8>)
    requires Register(x, data) == Register(y, data)
    ensures x == y
    decreases |data|
  {
    hide Eight, Xor, Byte;
    if data != [] {
      var c := Byte(data[0]);
      RegisterInjective(Eight(Xor(x, c)), Eight(Xor(y, c)), data[1..]);
      EightInjective(Xor(x, c), Xor(y, c));
      XorCancel(c, x, y);
    }
  }

  /** Four bytes as the word they make, the first lowest. */
  function Word(a: bv8, b: bv8, c: bv8, d: bv8): bv32 {
    Xor(Byte(a), Shl8(Xor(Byte(b), Shl8(Xor(Byte(c), Shl8(Byte(d)))))))
  }

  lemma WordInjective(a: bv8, b: bv8, c: bv8, d: bv8, a': bv8, b': bv8, c': bv8, d': bv8)
    requires Word(a, b, c, d) == Word(a', b', c', d')
    ensures a == a' && b == b' && c == c' && d == d'
  {
  }

  lemma WordRanges(b: bv8, c: bv8, d: bv8)
    ensures Byte(d) <= 0xFF_FFFF && Xor(Byte(c), Shl8(Byte(d))) <= 0xFF_FFFF
    ensures Xor(Byte(b), Shl8(Xor(Byte(c), Shl8(Byte(d))))) <= 0xFF_FFFF
  {
  }

  lemma ShiftBack(w: bv32)
    requires w <= 0xFF_FFFF
    ensures Low(Shl8(w)) == 0 && Shr8(Shl8(w)) == w
  {
  }

  /** A byte that enters eight steps later enters eight bits higher. */
  lemma EnterLater(x: bv32, w: bv32)
    requires w <= 0xFF_FFFF
    ensures Xor(Eight(x), w) == Eight(Xor(x, Shl8(w)))
  {
    ShiftBack(w);
    hide Eight, Xor, Low, Shl8, Shr8;
    EightXor(x, Shl8(w));
    EightShifts(Shl8(w));
  }

  /** Four bytes through the register are their word through 32 single-bit steps. */
  lemma FourBytes(crc: bv32, a: bv8, b: bv8, c: bv8, d: bv8)
    ensures Register(crc, [a, b, c, d]) == Eight(Eight(Eight(Eight(Xor(crc, Word(a, b, c, d))))))
  {
    WordRanges(b, c, d);
    hide Eight, Xor, Shl8, Byte, Register;
    var w2 := Xor(Byte(c), Shl8(Byte(d)));
    var w1 := Xor(Byte(b), Shl8(w2));
    var r1 := Eight(Xor(crc, Byte(a)));
    var r2 := Eight(Xor(r1, Byte(b)));
    RegisterFour(crc, a, b, c, d);
    EnterLater(Xor(r2, Byte(c)), Byte(d));
    XorAssoc(r2, Byte(c), Shl8(Byte(d)));
    EnterLater(Xor(r1, Byte(b)), w2);
    XorAssoc(r1, Byte(b), Shl8(w2));
    EnterLater(Xor(crc, Byte(a)), w1);
    XorAssoc(crc, Byte(a), Shl8(w1));
  }

  lemma RegisterFour(crc: bv32, a: bv8, b: bv8, c: bv8, d: bv8)
    ensures Register(crc, [a, b, c, d]) ==
            Eight(Xor(Eight(Xor(Eight(Xor(Eight(Xor(crc, Byte(a))), Byte(b))), Byte(c))), Byte(d)))
  {
    hide Eight, Xor, Byte, Register;
    var data := [a, b, c, d];
    var r1 := Eight(Xor(crc, Byte(a)));
    var r2 := Eight(Xor(r1, Byte(b)));
    var r3 := Eight(Xor(r2, Byte(c)));
    assert data[0..] == data && data[4..] == [];
    RegisterOnce(crc, data, 0);
    RegisterOnce(r1, data, 1);
    RegisterOnce(r2, data, 2);
    RegisterOnce(r3, data, 3);
    RegisterEmpty(Eight(Xor(r3, Byte(d))));
  }

  lemma FourDifferent(crc: bv32, d: seq<bv8>, e: seq<bv8>)
    requires |d| == |e| == 4 && Register(crc, d) == Register(crc, e)
    ensures d == e
  {
    hide Eight, Word, Register, Xor;
    assert d == [d[0], d[1], d[2], d[3]] && e == [e[0], e[1], e[2], e[3]];
    FourBytes(crc, d[0], d[1], d[2], d[3]);
    FourBytes(crc, e[0], e[1], e[2], e[3]);
    var v, w := Word(d[0], d[1], d[2], d[3]), Word(e[0], e[1], e[2], e[3]);
    var x, y := Xor(crc, v), Xor(crc, w);
    EightInjective(Eight(Eight(Eight(x))), Eight(Eight(Eight(y))));
    EightInjective(Eight(Eight(x)), Eight(Eight(y)));
    EightInjective(Eight(x), Eight(y));
    EightInjective(x, y);
    XorCancel(crc, v, w);
    WordInjective(d[0], d[1], d[2], d[3], e[0], e[1], e[2], e[3]);
  }

  /** Two messages that differ, and only within four consecutive bytes, have different CRCs. */
  lemma BurstNoticed(a: seq<bv8>, b: seq<bv8>, i: nat)
    requires |a| == |b| && a != b && i < |a|
    requires forall j :: 0 <= j < |a| && a[j] != b[j] ==> i <= j < i + 4
    ensures Register(ALL_ONES, a) != Register(ALL_ONES, b)
  {
    hide Register;
    var pad: seq<bv8> := [0, 0, 0];
    var a', b' := a + pad, b + pad;
    RegisterAppend(ALL_ONES, a, pad);
    RegisterAppend(ALL_ONES, b, pad);
    if Register(ALL_ONES, a) == Register(ALL_ONES, b) {
      BurstSame(a', b', i);
      PaddedSame(a, b, pad);
    }
  }

  lemma PaddedSame(a: seq<bv8>, b: seq<bv8>, pad: seq<bv8>)
    requires |a| == |b| && a + pad == b + pad
    ensures a == b
  {
    assert (a + pad)[..|a|] == a && (b + pad)[..|b|] == b;
  }

  lemma BurstSame(a: seq<bv8>, b: seq<bv8>, i: nat)
    requires |a| == |b| && i + 4 <= |a|
    requires forall j :: 0 <= j < |a| && a[j] != b[j] ==> i <= j < i + 4
    requires Register(ALL_ONES, a) == Register(ALL_ONES, b)
    ensures a == b
  {
    var p, d, e, t := a[..i], a[i..i + 4], b[i..i + 4], a[i + 4..];
    ThreeParts(a, b, i);
    hide Register;
    RegisterAppend(ALL_ONES, p, d + t);
    RegisterAppend(ALL_ONES, p, e + t);
    var r := Register(ALL_ONES, p);
    RegisterAppend(r, d, t);
    RegisterAppend(r, e, t);
    RegisterInjective(Register(r, d), Register(r, e), t);
    FourDifferent(r, d, e);
  }

  lemma ThreeParts(a: seq<bv8>, b: seq<bv8>, i: nat)
    requires |a| == |b| && i + 4 <= |a|
    requires forall j :: 0 <= j < |a| && a[j] != b[j] ==> i <= j < i + 4
    ensures a == a[..i] + (a[i..i + 4] + a[i + 4..]) && b == a[..i] + (b[i..i + 4] + a[i + 4..])
  {
  }

  // ---------------------------------------------------------------- a message and its own CRC

  /** The four bytes of a word, the lowest first. */
  predicate Bytes(t: seq<bv8>, w: bv32) { |t| == 4 && Word(t[0], t[1], t[2], t[3]) == w }

  /** Byte by byte. */
  lemma BytesOf(t: seq<bv8>, w: bv32)
    requires Bytes(t, w)
    ensures t[0] as bv32 == w & 0xFF && t[1] as bv32 == (w >> 8) & 0xFF
    ensures t[2] as bv32 == (w >> 16) & 0xFF && t[3] as bv32 == (w >> 24) & 0xFF
  {
  }

  /** What is left in the register when the complement of the register enters it. */
  lemma EightOfOnes()
    ensures Eight(0xFFFF_FFFF) == 0x2DFD_1072 && Eight(0x2DFD_1072) == 0xBE26_ED00
    ensures Eight(0xBE26_ED00) == 0x00BE_26ED && Eight(0x00BE_26ED) == 0xDEBB_20E3
  {
  }

  lemma XorComplement(r: bv32, w: bv32)
    ensures Xor(r, w) == 0xFFFF_FFFF <==> w == !r
  {
    XorOnes(r);
    hide Xor;
    if Xor(r, w) == 0xFFFF_FFFF {
      XorCancel(r, w, !r);
    }
  }

  lemma XorOnes(r: bv32)
    ensures Xor(r, !r) == 0xFFFF_FFFF
  {
  }

  lemma FourEights(x: bv32)
    ensures Eight(Eight(Eight(Eight(x)))) == 0xDEBB_20E3 <==> x == 0xFFFF_FFFF
  {
    EightOfOnes();
    hide Eight;
    if Eight(Eight(Eight(Eight(x)))) == 0xDEBB_20E3 {
      EightInjective(Eight(Eight(Eight(x))), 0x00BE_26ED);
      EightInjective(Eight(Eight(x)), 0xBE26_ED00);
      EightInjective(Eight(x), 0x2DFD_1072);
      EightInjective(x, 0xFFFF_FFFF);
    }
  }

  lemma FourMore(r: bv32, t: seq<bv8>)
    requires |t| == 4
    ensures Register(r, t) == 0xDEBB_20E3 <==> Xor(r, Word(t[0], t[1], t[2], t[3])) == 0xFFFF_FFFF
  {
    hide *;
    assert t == [t[0], t[1], t[2], t[3]];
    FourBytes(r, t[0], t[1], t[2], t[3]);
    FourEights(Xor(r, Word(t[0], t[1], t[2], t[3])));
  }

  lemma FourComplement(r: bv32, t: seq<bv8>)
    requires |t| == 4
    ensures Xor(r, Word(t[0], t[1], t[2], t[3])) == 0xFFFF_FFFF <==> Bytes(t, !r)
  {
    XorComplement(r, Word(t[0], t[1], t[2], t[3]));
    hide Xor, Word;
  }

  /** The bytes are the CRC of the message, the lowest first. */
  predicate CrcOf(t: seq<bv8>, m: seq<bv8>) { Bytes(t, !Register(ALL_ONES, m)) }

  lemma FourResidue(r: bv32, t: seq<bv8>)
    requires |t| == 4
    ensures Register(r, t) == 0xDEBB_20E3 <==> Bytes(t, !r)
  {
    hide *;
    FourMore(r, t);
    FourComplement(r, t);
  }

  /** The register after a message and four more bytes is one and the same number exactly if these
      are the CRC of the message; so a receiver need not know where the message ends. */
  lemma ResidueIff(m: seq<bv8>, t: seq<bv8>)
    requires |t| == 4
    ensures Register(ALL_ONES, m + t) == 0xDEBB_20E3 <==> CrcOf(t, m)
  {
    hide Register, Bytes, Word;
    RegisterAppend(ALL_ONES, m, t);
    FourResidue(Register(ALL_ONES, m), t);
  }

  // ---------------------------------------------------------------- known values

  lemma CheckSteps()
    ensures Eight(Xor(0xFFFF_FFFF, Byte(0x31))) == 0x7C23_1048
    ensures Eight(Xor(0x7C23_1048, Byte(0x32))) == 0xB0AC_BB32
    ensures Eight(Xor(0xB0AC_BB32, Byte(0x33))) == 0x77B7_9C2D
    ensures Eight(Xor(0x77B7_9C2D, Byte(0x34))) == 0x641C_1F5C
    ensures Eight(Xor(0x641C_1F5C, Byte(0x35))) == 0x340A_C5E3
    ensures Eight(Xor(0x340A_C5E3, Byte(0x36))) == 0xF68D_2C9E
    ensures Eight(Xor(0xF68D_2C9E, Byte(0x37))) == 0xAFFC_9660
    ensures Eight(Xor(0xAFFC_9660, Byte(0x38))) == 0x651F_2550
    ensures Eight(Xor(0x651F_2550, Byte(0x39))) == 0x340B_C6D9
  {
  }

  lemma RegisterCons(crc: bv32, b: bv8, data: seq<bv8>, d: bv32)
    requires Eight(Xor(crc, Byte(b))) == d
    ensures Register(crc, [b] + data) == Register(d, data)
  {
    hide Eight, Xor, Byte;
    assert ([b] + data)[1..] == data;
  }

  /** The CRC of nothing is 0, and that of "123456789" is the check value of this CRC. */
  lemma CheckValue()
    ensures !Register(ALL_ONES, []) == 0
    ensures !Register(ALL_ONES, [0x31, 0x32, 0x33, 0x34, 0x35, 0x36, 0x37, 0x38, 0x39]) == 0xCBF4_3926
  {
    CheckSteps();
    hide Eight, Xor, Byte;
    RegisterEmpty(0x340B_C6D9);
    RegisterEmpty(0xFFFF_FFFF);
    hide Register;
    var d1: seq<bv8> := [0x32, 0x33, 0x34, 0x35, 0x36, 0x37, 0x38, 0x39];
    var d2: seq<bv8> := [0x33, 0x34, 0x35, 0x36, 0x37, 0x38, 0x39];
    var d3: seq<bv8> := [0x34, 0x35, 0x36, 0x37, 0x38, 0x39];
    var d4: seq<bv8> := [0x35, 0x36, 0x37, 0x38, 0x39];
    var d5: seq<bv8> := [0x36, 0x37, 0x38, 0x39];
    var d6: seq<bv8> := [0x37, 0x38, 0x39];
    var d7: seq<bv8> := [0x38, 0x39];
    var d8: seq<bv8> := [0x39];
    var d9: seq<bv8> := [];
    var d0: seq<bv8> := [0x31, 0x32, 0x33, 0x34, 0x35, 0x36, 0x37, 0x38, 0x39];
    assert [0x31] + d1 == d0;
    assert [0x32] + d2 == d1;
    assert [0x33] + d3 == d2;
    assert [0x34] + d4 == d3;
    assert [0x35] + d5 == d4;
    assert [0x36] + d6 == d5;
    assert [0x37] + d7 == d6;
    assert [0x38] + d8 == d7;
    assert [0x39] + d9 == d8;
    RegisterCons(0xFFFF_FFFF, 0x31, d1, 0x7C23_1048);
    RegisterCons(0x7C23_1048, 0x32, d2, 0xB0AC_BB32);
    RegisterCons(0xB0AC_BB32, 0x33, d3, 0x77B7_9C2D);
    RegisterCons(0x77B7_9C2D, 0x34, d4, 0x641C_1F5C);
    RegisterCons(0x641C_1F5C, 0x35, d5, 0x340A_C5E3);
    RegisterCons(0x340A_C5E3, 0x36, d6, 0xF68D_2C9E);
    RegisterCons(0xF68D_2C9E, 0x37, d7, 0xAFFC_9660);
    RegisterCons(0xAFFC_9660, 0x38, d8, 0x651F_2550);
    RegisterCons(0x651F_2550, 0x39, d9, 0x340B_C6D9);
  }
}
