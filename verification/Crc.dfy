/** CRC-32 in the three forms the repository has it: with a table of 256 words, as a stream, and
  bit by bit.  The polynomial is that of the sample code in section 8 of RFC 1952. */
module Crc {

  const POLY: bv32 := 0xEDB8_8320
  const ALL_ONES: bv32 := 0xFFFF_FFFF

  // ---------------------------------------------------------------- the table, by rows of 16

  function Row0(j: bv32): bv32 {
    match j
    case 0x0 => 0x00000000 case 0x1 => 0x77073096 case 0x2 => 0xEE0E612C case 0x3 => 0x990951BA
    case 0x4 => 0x076DC419 case 0x5 => 0x706AF48F case 0x6 => 0xE963A535 case 0x7 => 0x9E6495A3
    case 0x8 => 0x0EDB8832 case 0x9 => 0x79DCB8A4 case 0xA => 0xE0D5E91E case 0xB => 0x97D2D988
    case 0xC => 0x09B64C2B case 0xD => 0x7EB17CBD case 0xE => 0xE7B82D07 case _ => 0x90BF1D91
  }

  function Row1(j: bv32): bv32 {
    match j
    case 0x0 => 0x1DB71064 case 0x1 => 0x6AB020F2 case 0x2 => 0xF3B97148 case 0x3 => 0x84BE41DE
    case 0x4 => 0x1ADAD47D case 0x5 => 0x6DDDE4EB case 0x6 => 0xF4D4B551 case 0x7 => 0x83D385C7
    case 0x8 => 0x136C9856 case 0x9 => 0x646BA8C0 case 0xA => 0xFD62F97A case 0xB => 0x8A65C9EC
    case 0xC => 0x14015C4F case 0xD => 0x63066CD9 case 0xE => 0xFA0F3D63 case _ => 0x8D080DF5
  }

  function Row2(j: bv32): bv32 {
    match j
    case 0x0 => 0x3B6E20C8 case 0x1 => 0x4C69105E case 0x2 => 0xD56041E4 case 0x3 => 0xA2677172
    case 0x4 => 0x3C03E4D1 case 0x5 => 0x4B04D447 case 0x6 => 0xD20D85FD case 0x7 => 0xA50AB56B
    case 0x8 => 0x35B5A8FA case 0x9 => 0x42B2986C case 0xA => 0xDBBBC9D6 case 0xB => 0xACBCF940
    case 0xC => 0x32D86CE3 case 0xD => 0x45DF5C75 case 0xE => 0xDCD60DCF case _ => 0xABD13D59
  }

  function Row3(j: bv32): bv32 {
    match j
    case 0x0 => 0x26D930AC case 0x1 => 0x51DE003A case 0x2 => 0xC8D75180 case 0x3 => 0xBFD06116
    case 0x4 => 0x21B4F4B5 case 0x5 => 0x56B3C423 case 0x6 => 0xCFBA9599 case 0x7 => 0xB8BDA50F
    case 0x8 => 0x2802B89E case 0x9 => 0x5F058808 case 0xA => 0xC60CD9B2 case 0xB => 0xB10BE924
    case 0xC => 0x2F6F7C87 case 0xD => 0x58684C11 case 0xE => 0xC1611DAB case _ => 0xB6662D3D
  }

  function Row4(j: bv32): bv32 {
    match j
    case 0x0 => 0x76DC4190 case 0x1 => 0x01DB7106 case 0x2 => 0x98D220BC case 0x3 => 0xEFD5102A
    case 0x4 => 0x71B18589 case 0x5 => 0x06B6B51F case 0x6 => 0x9FBFE4A5 case 0x7 => 0xE8B8D433
    case 0x8 => 0x7807C9A2 case 0x9 => 0x0F00F934 case 0xA => 0x9609A88E case 0xB => 0xE10E9818
    case 0xC => 0x7F6A0DBB case 0xD => 0x086D3D2D case 0xE => 0x91646C97 case _ => 0xE6635C01
  }

  function Row5(j: bv32): bv32 {
    match j
    case 0x0 => 0x6B6B51F4 case 0x1 => 0x1C6C6162 case 0x2 => 0x856530D8 case 0x3 => 0xF262004E
    case 0x4 => 0x6C0695ED case 0x5 => 0x1B01A57B case 0x6 => 0x8208F4C1 case 0x7 => 0xF50FC457
    case 0x8 => 0x65B0D9C6 case 0x9 => 0x12B7E950 case 0xA => 0x8BBEB8EA case 0xB => 0xFCB9887C
    case 0xC => 0x62DD1DDF case 0xD => 0x15DA2D49 case 0xE => 0x8CD37CF3 case _ => 0xFBD44C65
  }

  function Row6(j: bv32): bv32 {
    match j
    case 0x0 => 0x4DB26158 case 0x1 => 0x3AB551CE case 0x2 => 0xA3BC0074 case 0x3 => 0xD4BB30E2
    case 0x4 => 0x4ADFA541 case 0x5 => 0x3DD895D7 case 0x6 => 0xA4D1C46D case 0x7 => 0xD3D6F4FB
    case 0x8 => 0x4369E96A case 0x9 => 0x346ED9FC case 0xA => 0xAD678846 case 0xB => 0xDA60B8D0
    case 0xC => 0x44042D73 case 0xD => 0x33031DE5 case 0xE => 0xAA0A4C5F case _ => 0xDD0D7CC9
  }

  function Row7(j: bv32): bv32 {
    match j
    case 0x0 => 0x5005713C case 0x1 => 0x270241AA case 0x2 => 0xBE0B1010 case 0x3 => 0xC90C2086
    case 0x4 => 0x5768B525 case 0x5 => 0x206F85B3 case 0x6 => 0xB966D409 case 0x7 => 0xCE61E49F
    case 0x8 => 0x5EDEF90E case 0x9 => 0x29D9C998 case 0xA => 0xB0D09822 case 0xB => 0xC7D7A8B4
    case 0xC => 0x59B33D17 case 0xD => 0x2EB40D81 case 0xE => 0xB7BD5C3B case _ => 0xC0BA6CAD
  }

  function Row8(j: bv32): bv32 {
    match j
    case 0x0 => 0xEDB88320 case 0x1 => 0x9ABFB3B6 case 0x2 => 0x03B6E20C case 0x3 => 0x74B1D29A
    case 0x4 => 0xEAD54739 case 0x5 => 0x9DD277AF case 0x6 => 0x04DB2615 case 0x7 => 0x73DC1683
    case 0x8 => 0xE3630B12 case 0x9 => 0x94643B84 case 0xA => 0x0D6D6A3E case 0xB => 0x7A6A5AA8
    case 0xC => 0xE40ECF0B case 0xD => 0x9309FF9D case 0xE => 0x0A00AE27 case _ => 0x7D079EB1
  }

  function Row9(j: bv32): bv32 {
    match j
    case 0x0 => 0xF00F9344 case 0x1 => 0x8708A3D2 case 0x2 => 0x1E01F268 case 0x3 => 0x6906C2FE
    case 0x4 => 0xF762575D case 0x5 => 0x806567CB case 0x6 => 0x196C3671 case 0x7 => 0x6E6B06E7
    case 0x8 => 0xFED41B76 case 0x9 => 0x89D32BE0 case 0xA => 0x10DA7A5A case 0xB => 0x67DD4ACC
    case 0xC => 0xF9B9DF6F case 0xD => 0x8EBEEFF9 case 0xE => 0x17B7BE43 case _ => 0x60B08ED5
  }

  function RowA(j: bv32): bv32 {
    match j
    case 0x0 => 0xD6D6A3E8 case 0x1 => 0xA1D1937E case 0x2 => 0x38D8C2C4 case 0x3 => 0x4FDFF252
    case 0x4 => 0xD1BB67F1 case 0x5 => 0xA6BC5767 case 0x6 => 0x3FB506DD case 0x7 => 0x48B2364B
    case 0x8 => 0xD80D2BDA case 0x9 => 0xAF0A1B4C case 0xA => 0x36034AF6 case 0xB => 0x41047A60
    case 0xC => 0xDF60EFC3 case 0xD => 0xA867DF55 case 0xE => 0x316E8EEF case _ => 0x4669BE79
  }

  function RowB(j: bv32): bv32 {
    match j
    case 0x0 => 0xCB61B38C case 0x1 => 0xBC66831A case 0x2 => 0x256FD2A0 case 0x3 => 0x5268E236
    case 0x4 => 0xCC0C7795 case 0x5 => 0xBB0B4703 case 0x6 => 0x220216B9 case 0x7 => 0x5505262F
    case 0x8 => 0xC5BA3BBE case 0x9 => 0xB2BD0B28 case 0xA => 0x2BB45A92 case 0xB => 0x5CB36A04
    case 0xC => 0xC2D7FFA7 case 0xD => 0xB5D0CF31 case 0xE => 0x2CD99E8B case _ => 0x5BDEAE1D
  }

  function RowC(j: bv32): bv32 {
    match j
    case 0x0 => 0x9B64C2B0 case 0x1 => 0xEC63F226 case 0x2 => 0x756AA39C case 0x3 => 0x026D930A
    case 0x4 => 0x9C0906A9 case 0x5 => 0xEB0E363F case 0x6 => 0x72076785 case 0x7 => 0x05005713
    case 0x8 => 0x95BF4A82 case 0x9 => 0xE2B87A14 case 0xA => 0x7BB12BAE case 0xB => 0x0CB61B38
    case 0xC => 0x92D28E9B case 0xD => 0xE5D5BE0D case 0xE => 0x7CDCEFB7 case _ => 0x0BDBDF21
  }

  function RowD(j: bv32): bv32 {
    match j
    case 0x0 => 0x86D3D2D4 case 0x1 => 0xF1D4E242 case 0x2 => 0x68DDB3F8 case 0x3 => 0x1FDA836E
    case 0x4 => 0x81BE16CD case 0x5 => 0xF6B9265B case 0x6 => 0x6FB077E1 case 0x7 => 0x18B74777
    case 0x8 => 0x88085AE6 case 0x9 => 0xFF0F6A70 case 0xA => 0x66063BCA case 0xB => 0x11010B5C
    case 0xC => 0x8F659EFF case 0xD => 0xF862AE69 case 0xE => 0x616BFFD3 case _ => 0x166CCF45
  }

  function RowE(j: bv32): bv32 {
    match j
    case 0x0 => 0xA00AE278 case 0x1 => 0xD70DD2EE case 0x2 => 0x4E048354 case 0x3 => 0x3903B3C2
    case 0x4 => 0xA7672661 case 0x5 => 0xD06016F7 case 0x6 => 0x4969474D case 0x7 => 0x3E6E77DB
    case 0x8 => 0xAED16A4A case 0x9 => 0xD9D65ADC case 0xA => 0x40DF0B66 case 0xB => 0x37D83BF0
    case 0xC => 0xA9BCAE53 case 0xD => 0xDEBB9EC5 case 0xE => 0x47B2CF7F case _ => 0x30B5FFE9
  }

  function RowF(j: bv32): bv32 {
    match j
    case 0x0 => 0xBDBDF21C case 0x1 => 0xCABAC28A case 0x2 => 0x53B39330 case 0x3 => 0x24B4A3A6
    case 0x4 => 0xBAD03605 case 0x5 => 0xCDD70693 case 0x6 => 0x54DE5729 case 0x7 => 0x23D967BF
    case 0x8 => 0xB3667A2E case 0x9 => 0xC4614AB8 case 0xA => 0x5D681B02 case 0xB => 0x2A6F2B94
    case 0xC => 0xB40BBE37 case 0xD => 0xC30C8EA1 case 0xE => 0x5A05DF1B case _ => 0x2D02EF8D
  }

  /** `CrcLookUpTable[i]` */
  function Table(i: bv32): bv32 {
    var j := i & 0xF;
    match i >> 4
    case 0x0 => Row0(j) case 0x1 => Row1(j) case 0x2 => Row2(j) case 0x3 => Row3(j)
    case 0x4 => Row4(j) case 0x5 => Row5(j) case 0x6 => Row6(j) case 0x7 => Row7(j)
    case 0x8 => Row8(j) case 0x9 => Row9(j) case 0xA => RowA(j) case 0xB => RowB(j)
    case 0xC => RowC(j) case 0xD => RowD(j) case 0xE => RowE(j) case _ => RowF(j)
  }

  // ---------------------------------------------------------------- single bits

  function Xor(x: bv32, y: bv32): bv32 { x ^ y }
  predicate Odd(x: bv32) { x & 1 == 1 }
  function Half(x: bv32): bv32 { x >> 1 }

  /** One bit of the register through the polynomial. */
  function BitStep(x: bv32): bv32 { Xor(Half(x), if Odd(x) then POLY else 0) }

  function Eight(x: bv32): bv32 {
    BitStep(BitStep(BitStep(BitStep(BitStep(BitStep(BitStep(BitStep(x))))))))
  }

  /** Eight steps of a byte, as the sum of what its bits contribute. */
  function Linear(x: bv32): bv32 {
    Xor(Xor(Xor(Xor(Xor(Xor(Xor(
      Part(x, 0x01, 0x77073096), Part(x, 0x02, 0xEE0E612C)), Part(x, 0x04, 0x076DC419)),
      Part(x, 0x08, 0x0EDB8832)), Part(x, 0x10, 0x1DB71064)), Part(x, 0x20, 0x3B6E20C8)),
      Part(x, 0x40, 0x76DC4190)), Part(x, 0x80, 0xEDB88320))
  }

  lemma HalfXor(x: bv32, y: bv32)
    ensures Half(Xor(x, y)) == Xor(Half(x), Half(y)) && (Odd(Xor(x, y)) <==> (Odd(x) != Odd(y)))
  {
  }

  lemma XorComm(x: bv32, y: bv32)
    ensures Xor(x, y) == Xor(y, x)
  {
  }

  lemma XorAssoc(x: bv32, y: bv32, z: bv32)
    ensures Xor(Xor(x, y), z) == Xor(x, Xor(y, z))
  {
  }

  lemma XorZero(x: bv32)
    ensures Xor(x, x) == 0 && Xor(x, 0) == x && Xor(0, x) == x
  {
  }

  lemma XorSwap(a: bv32, b: bv32, p: bv32)
    ensures Xor(Xor(a, p), b) == Xor(Xor(a, b), p)
  {
    hide Xor;
    XorAssoc(a, p, b);
    XorComm(p, b);
    XorAssoc(a, b, p);
  }

  /** Two sums with the polynomial in none, one or both of the terms. */
  lemma XorPoly(a: bv32, b: bv32, p: bv32)
    ensures Xor(Xor(a, p), Xor(b, p)) == Xor(a, b)
    ensures Xor(Xor(a, p), b) == Xor(Xor(a, b), p) && Xor(a, Xor(b, p)) == Xor(Xor(a, b), p)
  {
    hide Xor;
    XorSwap(a, Xor(b, p), p);
    XorAssoc(a, b, p);
    XorAssoc(Xor(a, b), p, p);
    XorZero(p);
    XorZero(Xor(a, b));
    XorSwap(a, b, p);
  }

  lemma XorCancel(c: bv32, x: bv32, y: bv32)
    requires Xor(c, x) == Xor(c, y) || Xor(x, c) == Xor(y, c)
    ensures x == y
  {
  }

  /** The steps are linear. */
  lemma BitStepXor(x: bv32, y: bv32)
    ensures BitStep(Xor(x, y)) == Xor(BitStep(x), BitStep(y))
  {
    hide Half, Xor, Odd;
    HalfXor(x, y);
    XorPoly(Half(x), Half(y), POLY);
    XorZero(Half(x));
    XorZero(Half(y));
    XorZero(Half(Xor(x, y)));
  }

  lemma EightXor(x: bv32, y: bv32)
    ensures Eight(Xor(x, y)) == Xor(Eight(x), Eight(y))
  {
    hide BitStep, Xor;
    var x1, y1 := BitStep(x), BitStep(y);
    var x2, y2 := BitStep(x1), BitStep(y1);
    var x3, y3 := BitStep(x2), BitStep(y2);
    var x4, y4 := BitStep(x3), BitStep(y3);
    var x5, y5 := BitStep(x4), BitStep(y4);
    var x6, y6 := BitStep(x5), BitStep(y5);
    var x7, y7 := BitStep(x6), BitStep(y6);
    BitStepXor(x, y);
    BitStepXor(x1, y1);
    BitStepXor(x2, y2);
    BitStepXor(x3, y3);
    BitStepXor(x4, y4);
    BitStepXor(x5, y5);
    BitStepXor(x6, y6);
    BitStepXor(x7, y7);
  }

  /** A power of two is shifted down to 1 and then goes through the polynomial. */
  lemma PowerSteps()
    ensures BitStep(0) == 0 && BitStep(0x80) == 0x40 && BitStep(0x40) == 0x20 && BitStep(0x20) == 0x10
    ensures BitStep(0x10) == 8 && BitStep(8) == 4 && BitStep(4) == 2 && BitStep(2) == 1
    ensures BitStep(1) == 0xEDB88320 && BitStep(0xEDB88320) == 0x76DC4190
    ensures BitStep(0x76DC4190) == 0x3B6E20C8 && BitStep(0x3B6E20C8) == 0x1DB71064
    ensures BitStep(0x1DB71064) == 0x0EDB8832 && BitStep(0x0EDB8832) == 0x076DC419
    ensures BitStep(0x076DC419) == 0xEE0E612C && BitStep(0xEE0E612C) == 0x77073096
  {
  }

  lemma EightOfPowers()
    ensures Eight(0) == 0
    ensures Eight(1) == 0x77073096 && Eight(2) == 0xEE0E612C && Eight(4) == 0x076DC419 && Eight(8) == 0x0EDB8832
    ensures Eight(0x10) == 0x1DB71064 && Eight(0x20) == 0x3B6E20C8
    ensures Eight(0x40) == 0x76DC4190 && Eight(0x80) == 0xEDB88320
  {
    PowerSteps();
    hide BitStep;
  }

  function Bit(x: bv32, bit: bv32): bv32 { x & bit }

  /** What one bit of the byte contributes. */
  function Part(x: bv32, bit: bv32, word: bv32): bv32 { if Bit(x, bit) != 0 then word else 0 }

  lemma OneBit(x: bv32)
    ensures Bit(x, 0x01) in {0, 0x01} && Bit(x, 0x02) in {0, 0x02}
    ensures Bit(x, 0x04) in {0, 0x04} && Bit(x, 0x08) in {0, 0x08}
    ensures Bit(x, 0x10) in {0, 0x10} && Bit(x, 0x20) in {0, 0x20}
    ensures Bit(x, 0x40) in {0, 0x40} && Bit(x, 0x80) in {0, 0x80}
  {
  }

  lemma EightOfBit(x: bv32, bit: bv32, word: bv32)
    requires Bit(x, bit) in {0, bit} && Eight(0) == 0 && Eight(bit) == word && bit != 0
    ensures Eight(Bit(x, bit)) == Part(x, bit, word)
  {
    hide Bit, Eight;
  }

  lemma SumOfBits(x: bv32)
    requires x <= 0xFF
    ensures x == Xor(Xor(Xor(Xor(Xor(Xor(Xor(Bit(x, 0x01), Bit(x, 0x02)), Bit(x, 0x04)), Bit(x, 0x08)),
      Bit(x, 0x10)), Bit(x, 0x20)), Bit(x, 0x40)), Bit(x, 0x80))
  {
  }

  lemma PartsOfByte(x: bv32)
    ensures Eight(Bit(x, 0x01)) == Part(x, 0x01, 0x77073096) && Eight(Bit(x, 0x02)) == Part(x, 0x02, 0xEE0E612C)
    ensures Eight(Bit(x, 0x04)) == Part(x, 0x04, 0x076DC419) && Eight(Bit(x, 0x08)) == Part(x, 0x08, 0x0EDB8832)
    ensures Eight(Bit(x, 0x10)) == Part(x, 0x10, 0x1DB71064) && Eight(Bit(x, 0x20)) == Part(x, 0x20, 0x3B6E20C8)
    ensures Eight(Bit(x, 0x40)) == Part(x, 0x40, 0x76DC4190) && Eight(Bit(x, 0x80)) == Part(x, 0x80, 0xEDB88320)
  {
    hide Eight, Bit, Part;
    OneBit(x);
    EightOfPowers();
    EightOfBit(x, 0x01, 0x77073096);
    EightOfBit(x, 0x02, 0xEE0E612C);
    EightOfBit(x, 0x04, 0x076DC419);
    EightOfBit(x, 0x08, 0x0EDB8832);
    EightOfBit(x, 0x10, 0x1DB71064);
    EightOfBit(x, 0x20, 0x3B6E20C8);
    EightOfBit(x, 0x40, 0x76DC4190);
    EightOfBit(x, 0x80, 0xEDB88320);
  }

  lemma EightOfSum(a: bv32, b: bv32, c: bv32, d: bv32, e: bv32, f: bv32, g: bv32, h: bv32)
    ensures Eight(Xor(Xor(Xor(Xor(Xor(Xor(Xor(a, b), c), d), e), f), g), h))
      == Xor(Xor(Xor(Xor(Xor(Xor(Xor(Eight(a), Eight(b)), Eight(c)), Eight(d)), Eight(e)), Eight(f)), Eight(g)),
             Eight(h))
  {
    hide Eight, Xor;
    var x2 := Xor(a, b);
    var x3 := Xor(x2, c);
    var x4 := Xor(x3, d);
    var x5 := Xor(x4, e);
    var x6 := Xor(x5, f);
    var x7 := Xor(x6, g);
    EightXor(a, b);
    EightXor(x2, c);
    EightXor(x3, d);
    EightXor(x4, e);
    EightXor(x5, f);
    EightXor(x6, g);
    EightXor(x7, h);
  }

  lemma EightIsLinear(x: bv32)
    requires x <= 0xFF
    ensures Eight(x) == Linear(x)
  {
    hide Eight, Xor, Bit, Part;
    SumOfBits(x);
    PartsOfByte(x);
    EightOfSum(Bit(x, 0x01), Bit(x, 0x02), Bit(x, 0x04), Bit(x, 0x08), Bit(x, 0x10), Bit(x, 0x20), Bit(x, 0x40),
               Bit(x, 0x80));
  }

  lemma Row0IsLinear(j: bv32)
    requires j <= 0xF
    ensures Row0(j) == Linear(0x00 | j)
  {
  }

  lemma Row1IsLinear(j: bv32)
    requires j <= 0xF
    ensures Row1(j) == Linear(0x10 | j)
  {
  }

  lemma Row2IsLinear(j: bv32)
    requires j <= 0xF
    ensures Row2(j) == Linear(0x20 | j)
  {
  }

  lemma Row3IsLinear(j: bv32)
    requires j <= 0xF
    ensures Row3(j) == Linear(0x30 | j)
  {
  }

  lemma Row4IsLinear(j: bv32)
    requires j <= 0xF
    ensures Row4(j) == Linear(0x40 | j)
  {
  }

  lemma Row5IsLinear(j: bv32)
    requires j <= 0xF
    ensures Row5(j) == Linear(0x50 | j)
  {
  }

  lemma Row6IsLinear(j: bv32)
    requires j <= 0xF
    ensures Row6(j) == Linear(0x60 | j)
  {
  }

  lemma Row7IsLinear(j: bv32)
    requires j <= 0xF
    ensures Row7(j) == Linear(0x70 | j)
  {
  }

  lemma Row8IsLinear(j: bv32)
    requires j <= 0xF
    ensures Row8(j) == Linear(0x80 | j)
  {
  }

  lemma Row9IsLinear(j: bv32)
    requires j <= 0xF
    ensures Row9(j) == Linear(0x90 | j)
  {
  }

  lemma RowAIsLinear(j: bv32)
    requires j <= 0xF
    ensures RowA(j) == Linear(0xA0 | j)
  {
  }

  lemma RowBIsLinear(j: bv32)
    requires j <= 0xF
    ensures RowB(j) == Linear(0xB0 | j)
  {
  }

  lemma RowCIsLinear(j: bv32)
    requires j <= 0xF
    ensures RowC(j) == Linear(0xC0 | j)
  {
  }

  lemma RowDIsLinear(j: bv32)
    requires j <= 0xF
    ensures RowD(j) == Linear(0xD0 | j)
  {
  }

  lemma RowEIsLinear(j: bv32)
    requires j <= 0xF
    ensures RowE(j) == Linear(0xE0 | j)
  {
  }

  lemma RowFIsLinear(j: bv32)
    requires j <= 0xF
    ensures RowF(j) == Linear(0xF0 | j)
  {
  }

  lemma Nibbles(i: bv32)
    requires i <= 0xFF
    ensures i >> 4 <= 0xF && i & 0xF <= 0xF && i == ((i >> 4) << 4) | (i & 0xF)
  {
  }

  /** Every table entry is eight bit-serial steps of its index. */
  lemma TableIsEightSteps(i: bv32)
    requires i <= 0xFF
    ensures Table(i) == Eight(i)
  {
    hide Eight, Linear, Row0, Row1, Row2, Row3, Row4, Row5, Row6, Row7, Row8, Row9, RowA, RowB, RowC, RowD, RowE, RowF;
    var j := i & 0xF;
    Nibbles(i);
    EightIsLinear(i);
    match i >> 4 {
      case 0x0 => Row0IsLinear(j);
      case 0x1 => Row1IsLinear(j);
      case 0x2 => Row2IsLinear(j);
      case 0x3 => Row3IsLinear(j);
      case 0x4 => Row4IsLinear(j);
      case 0x5 => Row5IsLinear(j);
      case 0x6 => Row6IsLinear(j);
      case 0x7 => Row7IsLinear(j);
      case 0x8 => Row8IsLinear(j);
      case 0x9 => Row9IsLinear(j);
      case 0xA => RowAIsLinear(j);
      case 0xB => RowBIsLinear(j);
      case 0xC => RowCIsLinear(j);
      case 0xD => RowDIsLinear(j);
      case 0xE => RowEIsLinear(j);
      case _ => RowFIsLinear(j);
    }
  }
}
