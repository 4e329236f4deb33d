/** Flash module headers: what makes 64 bytes a header, the builders, and what they promise each
  other. */
module Fmh {

  type Byte = x: nat | x < 256
  const WORD: nat := 0x1_0000_0000

  /** "$MODULE$" */
  const SIGNATURE: seq<Byte> := [0x24, 0x4D, 0x4F, 0x44, 0x55, 0x4C, 0x45, 0x24]
  const FMH_SIZE: nat := 64
  const ALT_SIZE: nat := 16
  const INFO_SIZE: nat := 38
  const FMH_MAJOR: Byte := 1
  const FMH_MINOR: Byte := 8
  const INVALID_FMH_OFFSET: nat := 0xFFFF_FFFF

  function Sum(s: seq<Byte>): nat {
    if s == [] then 0 else s[0] + Sum(s[1..])
  }

  /** `ValidateModule100`: the sum of the bytes in one byte. */
  function Checksum(s: seq<Byte>): Byte { Sum(s) % 256 }

  /** `CalculateModule100`: the byte that makes the sum vanish. */
  function Balance(s: seq<Byte>): Byte { (256 - Sum(s) % 256) % 256 }

  function Le16(b: seq<Byte>, i: nat): nat
    requires i + 2 <= |b|
  {
    (b[i] as nat) + 256 * (b[i + 1] as nat)
  }

  function Le32(b: seq<Byte>, i: nat): nat
    requires i + 4 <= |b|
  {
    (b[i] as nat) + 256 * (b[i + 1] as nat) + 0x1_0000 * (b[i + 2] as nat) + 0x100_0000 * (b[i + 3] as nat)
  }

  function Bytes32(x: nat): (b: seq<Byte>)
    ensures |b| == 4
  {
    [x % 256, x / 256 % 256, x / 0x1_0000 % 256, x / 0x100_0000 % 256]
  }

  function Bytes16(x: nat): (b: seq<Byte>)
    ensures |b| == 2
  {
    [x % 256, x / 256 % 256]
  }

  /** The two bytes at `i` are `x`, the lower one first. */
  predicate Stands16(b: seq<Byte>, i: nat, x: nat)
    requires i + 2 <= |b|
  {
    x == (b[i] as nat) + 256 * (b[i + 1] as nat)
  }

  /** The four bytes at `i` are `x`, the lowest one first. */
  predicate Stands32(b: seq<Byte>, i: nat, x: nat)
    requires i + 4 <= |b|
  {
    x == (b[i] as nat) + 256 * (b[i + 1] as nat) + 0x1_0000 * (b[i + 2] as nat) + 0x100_0000 * (b[i + 3] as nat)
  }

  lemma Bytes32RoundTrip(x: nat)
    requires x < WORD
    ensures Le32(Bytes32(x), 0) == x
  {
    assert x / 0x1_0000 == x / 256 / 256 && x / 0x100_0000 == x / 256 / 256 / 256;
  }

  // ---------------------------------------------------------------- sums

  lemma {:induction false} SumConcat(a: seq<Byte>, b: seq<Byte>)
    ensures Sum(a + b) == Sum(a) + Sum(b)
    decreases |a|
  {
    if a == [] {
      assert a + b == b;
    } else {
      assert (a + b)[1..] == a[1..] + b;
      SumConcat(a[1..], b);
    }
  }

  lemma SumUpdate(s: seq<Byte>, i: nat, b: Byte)
    requires i < |s|
    ensures Sum(s[i := b]) == Sum(s) - s[i] + b
  {
    hide Sum;
    var p, t := s[..i], s[i + 1..];
    assert s == p + ([s[i]] + t) && s[i := b] == p + ([b] + t);
    SumConcat(p, [s[i]] + t);
    SumConcat([s[i]], t);
    SumConcat(p, [b] + t);
    SumConcat([b], t);
    SumOne(s[i]);
    SumOne(b);
  }

  lemma SumOne(b: Byte)
    ensures Sum([b]) == b
  {
  }

  // ---------------------------------------------------------------- recognising

  /** `CheckForNormalFMH` */
  predicate IsHeader(h: seq<Byte>)
    requires |h| == FMH_SIZE
  {
    h[..8] == SIGNATURE && Le16(h, 62) == 0x55AA && Checksum(h) == 0
  }

  /** `CheckForAlternateFMH` */
  function AlternateLink(a: seq<Byte>): (link: nat)
    requires |a| == ALT_SIZE
    ensures link < WORD
  {
    if a[8..] == SIGNATURE && Le16(a, 0) == 0x55AA && Checksum(a) == 0 then Le32(a, 4) else INVALID_FMH_OFFSET
  }

  /** Any other byte anywhere in a header makes it no header. */
  lemma ChangeNoticed(h: seq<Byte>, i: nat, b: Byte)
    requires |h| == FMH_SIZE && IsHeader(h) && i < FMH_SIZE && b != h[i]
    ensures !IsHeader(h[i := b])
  {
    SumUpdate(h, i, b);
    assert Sum(h) % 256 == 0;
    assert (Sum(h) - h[i] + b) % 256 != 0;
  }

  // ---------------------------------------------------------------- fields

  function VersionMajor(h: seq<Byte>): Byte requires |h| == FMH_SIZE { h[8] }
  function VersionMinor(h: seq<Byte>): Byte requires |h| == FMH_SIZE { h[9] }
  function HeaderSize(h: seq<Byte>): nat requires |h| == FMH_SIZE { Le16(h, 10) }
  function AllocatedSize(h: seq<Byte>): nat requires |h| == FMH_SIZE { Le32(h, 12) }
  function ModuleInfo(h: seq<Byte>): seq<Byte> requires |h| == FMH_SIZE { h[24..62] }
  function ModuleName(h: seq<Byte>): seq<Byte> requires |h| == FMH_SIZE { h[24..32] }
  function ModuleType(h: seq<Byte>): nat requires |h| == FMH_SIZE { Le16(h, 34) }
  function ModuleLocation(h: seq<Byte>): nat requires |h| == FMH_SIZE { Le32(h, 36) }
  function ModuleSize(h: seq<Byte>): nat requires |h| == FMH_SIZE { Le32(h, 40) }

  // ---------------------------------------------------------------- building

  /** The fields `CreateFMH` fills, the checksum still empty. */
  function Blank(alloc: nat, info: seq<Byte>): (h: seq<Byte>)
    requires |info| == INFO_SIZE
    ensures |h| == FMH_SIZE
  {
    SIGNATURE + [FMH_MAJOR, FMH_MINOR, FMH_SIZE, 0] + Bytes32(alloc) + [0, 0, 0, 0] + [0, 0, 0, 0] + info + [0xAA, 0x55]
  }

  /** `CreateFMH` */
  function Header(alloc: nat, info: seq<Byte>): (h: seq<Byte>)
    requires |info| == INFO_SIZE
    ensures |h| == FMH_SIZE
  {
    var h := Blank(alloc, info);
    h[23 := Balance(h)]
  }

  lemma BlankFields(alloc: nat, info: seq<Byte>)
    requires |info| == INFO_SIZE
    ensures var h := Blank(alloc, info);
            && h[..8] == SIGNATURE && h[8] == FMH_MAJOR && h[9] == FMH_MINOR && h[10] == FMH_SIZE && h[11] == 0
            && h[12..16] == Bytes32(alloc) && h[23] == 0 && h[24..62] == info && h[62] == 0xAA && h[63] == 0x55
  {
    hide Bytes32;
    var h := Blank(alloc, info);
    assert h[..8] == SIGNATURE && h[12..16] == Bytes32(alloc) && h[24..62] == info;
  }

  lemma Balanced(s: seq<Byte>, i: nat)
    requires i < |s| && s[i] == 0
    ensures Checksum(s[i := Balance(s)]) == 0
  {
    SumUpdate(s, i, Balance(s));
  }

  /** A built header is recognised and says what it was built from. */
  lemma HeaderRoundTrip(alloc: nat, info: seq<Byte>)
    requires |info| == INFO_SIZE && alloc < WORD
    ensures var h := Header(alloc, info);
            && IsHeader(h) && AllocatedSize(h) == alloc && ModuleInfo(h) == info
            && VersionMajor(h) == 1 && VersionMinor(h) == 8 && HeaderSize(h) == FMH_SIZE
  {
    hide Sum, Blank, Balance;
    var s := Blank(alloc, info);
    BlankFields(alloc, info);
    Balanced(s, 23);
    Bytes32RoundTrip(alloc);
    var h := Header(alloc, info);
    assert h[..8] == s[..8] && h[12..16] == s[12..16] && h[24..62] == s[24..62];
    SameLe32(h, 12, Bytes32(alloc));
  }

  lemma SameLe32(h: seq<Byte>, i: nat, b: seq<Byte>)
    requires i + 4 <= |h| && |b| == 4 && h[i..i + 4] == b
    ensures Le32(h, i) == Le32(b, 0)
  {
  }

  /** A built header byte by byte: the signature, version 1.8, the size of the header, the allocated
      size, the module information, the two bytes of the end mark, and zeros elsewhere but in byte 23,
      which makes the sum of all bytes a multiple of 256. */
  lemma HeaderLayout(alloc: nat, info: seq<Byte>)
    requires |info| == INFO_SIZE && alloc < WORD
    ensures var h := Header(alloc, info);
            && |h| == 64 && Signed(h, 0) && h[8..12] == [1, 8, 64, 0] && Stands32(h, 12, alloc)
            && h[16..23] == [0, 0, 0, 0, 0, 0, 0] && Sum(h) % 256 == 0
            && h[24..62] == info && h[62..] == [0xAA, 0x55]
  {
    hide Sum, Balance;
    HeaderRoundTrip(alloc, info);
    hide IsHeader;
    var h, s := Header(alloc, info), Blank(alloc, info);
    assert IsHeader(h) && h[..8] == s[..8] && h[62..] == s[62..];
    assert h[8..12] == s[8..12] && h[16..23] == s[16..23];
  }

  /** "$MODULE$" stands at `i`. */
  predicate Signed(b: seq<Byte>, i: nat)
    requires i + 8 <= |b|
  {
    forall k :: 0 <= k < 8 ==> b[i + k] as int == "$MODULE$"[k] as int
  }

  lemma SignedIff(b: seq<Byte>, i: nat)
    requires i + 8 <= |b|
    ensures Signed(b, i) <==> b[i..i + 8] == SIGNATURE
  {
    var m := "$MODULE$";
    assert forall k :: 0 <= k < 8 ==> m[k] as int == SIGNATURE[k] as int;
    assert b[i..i + 8] == SIGNATURE <==> forall k :: 0 <= k < 8 ==> b[i + k] == SIGNATURE[k];
  }

  /** What makes 64 bytes a header. */
  lemma HeaderIff(h: seq<Byte>)
    requires |h| == 64
    ensures IsHeader(h) <==> Signed(h, 0) && h[62..] == [0xAA, 0x55] && Sum(h) % 256 == 0
  {
    SignedIff(h, 0);
    assert h[0..0 + 8] == h[..8];
  }

  /** What makes 16 bytes a link, and where to. */
  lemma AlternateIff(a: seq<Byte>, link: nat)
    requires |a| == 16
    ensures AlternateLink(a) == link <==>
            if Signed(a, 8) && a[..2] == [0xAA, 0x55] && Sum(a) % 256 == 0 then Stands32(a, 4, link)
            else link == 0xFFFF_FFFF
  {
    SignedIff(a, 8);
    assert a[8..8 + 8] == a[8..];
  }

  // ---------------------------------------------------------------- module information

  /** The packed structure, field by field: version and what is behind the size are carried along. */
  datatype Module = Module(name: seq<Byte>, version: seq<Byte>, kind: nat, location: nat, size: nat, rest: seq<Byte>)

  predicate IsModule(m: Module) {
    |m.name| == 8 && |m.version| == 2 && m.kind < 0x1_0000 && m.location < WORD && m.size < WORD && |m.rest| == 18
  }

  function ModuleBytes(m: Module): (info: seq<Byte>)
    requires IsModule(m)
    ensures |info| == INFO_SIZE
  {
    m.name + m.version + Bytes16(m.kind) + Bytes32(m.location) + Bytes32(m.size) + m.rest
  }

  /** What the module information in a header says. */
  predicate Says(h: seq<Byte>, name: seq<Byte>, kind: nat, location: nat, size: nat)
    requires |h| == 64
  {
    h[24..32] == name && Stands16(h, 34, kind) && Stands32(h, 36, location) && Stands32(h, 40, size)
  }

  lemma BytesStand(x: nat)
    ensures x < 0x1_0000 ==> Stands16(Bytes16(x), 0, x)
    ensures x < WORD ==> Stands32(Bytes32(x), 0, x)
  {
    assert x / 0x1_0000 == x / 256 / 256 && x / 0x100_0000 == x / 256 / 256 / 256;
  }

  lemma StandsInside(h: seq<Byte>, i: nat, b: seq<Byte>, x: nat)
    requires i + |b| <= |h| && h[i..i + |b|] == b
    ensures |b| == 2 && Stands16(b, 0, x) ==> Stands16(h, i, x)
    ensures |b| == 4 && Stands32(b, 0, x) ==> Stands32(h, i, x)
  {
    assert forall k :: 0 <= k < |b| ==> h[i + k] == b[k];
  }

  /** A header built for a module says what the module is. */
  lemma BuiltSays(alloc: nat, m: Module)
    requires IsModule(m) && alloc < WORD
    ensures Says(Header(alloc, ModuleBytes(m)), m.name, m.kind, m.location, m.size)
  {
    var h, info := Header(alloc, ModuleBytes(m)), ModuleBytes(m);
    HeaderLayout(alloc, info);
    hide Header, Sum;
    FieldsOf(m);
    InsideOf(h, 24, info, 0, 8);
    InsideOf(h, 24, info, 10, 12);
    InsideOf(h, 24, info, 12, 16);
    InsideOf(h, 24, info, 16, 20);
    hide ModuleBytes, Bytes16, Bytes32, Stands16, Stands32;
    BytesStand(m.kind);
    BytesStand(m.location);
    BytesStand(m.size);
    StandsInside(h, 34, Bytes16(m.kind), m.kind);
    StandsInside(h, 36, Bytes32(m.location), m.location);
    StandsInside(h, 40, Bytes32(m.size), m.size);
  }

  lemma FieldsOf(m: Module)
    requires IsModule(m)
    ensures var b := ModuleBytes(m);
            && b[0..8] == m.name && b[10..12] == Bytes16(m.kind)
            && b[12..16] == Bytes32(m.location) && b[16..20] == Bytes32(m.size)
  {
  }

  lemma InsideOf(h: seq<Byte>, i: nat, b: seq<Byte>, j: nat, k: nat)
    requires i + |b| <= |h| && h[i..i + |b|] == b && j <= k <= |b|
    ensures h[i + j..i + k] == b[j..k]
  {
    assert forall n :: 0 <= n < |b| ==> h[i + n] == b[n];
  }

  // ---------------------------------------------------------------- the alternate header

  function BlankAlternate(offset: nat): (a: seq<Byte>)
    ensures |a| == ALT_SIZE
  {
    [0xAA, 0x55, 0, 0] + Bytes32(offset) + SIGNATURE
  }

  /** `CreateAlternateFMH` */
  function Alternate(offset: nat): (a: seq<Byte>)
    ensures |a| == ALT_SIZE
  {
    var a := BlankAlternate(offset);
    a[2 := Balance(a)]
  }

  /** A built alternate header links to its offset; for the one offset that stands for "invalid"
      that is the same as not being recognised. */
  lemma AlternateRoundTrip(offset: nat)
    requires offset < WORD
    ensures AlternateLink(Alternate(offset)) == offset
  {
    hide Sum, Balance;
    var s := BlankAlternate(offset);
    assert s[8..] == SIGNATURE && s[4..8] == Bytes32(offset) && s[2] == 0;
    Balanced(s, 2);
    Bytes32RoundTrip(offset);
    var a := Alternate(offset);
    assert a[8..] == s[8..] && a[4..8] == s[4..8];
    SameLe32(a, 4, Bytes32(offset));
  }

  /** A built alternate header byte by byte. */
  lemma AlternateLayout(offset: nat)
    requires offset < WORD
    ensures var a := Alternate(offset);
            && |a| == 16 && a[..2] == [0xAA, 0x55] && a[3] == 0 && Stands32(a, 4, offset) && Signed(a, 8)
            && Sum(a) % 256 == 0
  {
    hide Sum, Balance;
    var s, a := BlankAlternate(offset), Alternate(offset);
    Balanced(s, 2);
    BytesStand(offset);
    hide Stands32, Bytes32, Signed;
    StandsInside(a, 4, Bytes32(offset), offset);
    SignedIff(a, 8);
  }

  // ---------------------------------------------------------------- as they run

  /** `ValidateModule100` */
  method ValidateModule100(buffer: array<Byte>, size: nat) returns (sum: Byte)
    requires size <= buffer.Length
    ensures sum == Checksum(buffer[..size])
  {
    sum := 0;
    var i := 0;
    while i < size
      invariant 0 <= i <= size && sum == Checksum(buffer[..i])
    {
      SumMore(buffer[..size], i);
      assert buffer[..size][..i] == buffer[..i] && buffer[..size][..i + 1] == buffer[..i + 1];
      sum := (sum + buffer[i]) % 256;
      i := i + 1;
    }
  }

  lemma SumMore(s: seq<Byte>, i: nat)
    requires i < |s|
    ensures Checksum(s[..i + 1]) == (Checksum(s[..i]) + s[i]) % 256
  {
    SumConcat(s[..i], [s[i]]);
    SumOne(s[i]);
    assert s[..i] + [s[i]] == s[..i + 1];
  }

  /** `CalculateModule100` */
  method CalculateModule100(buffer: array<Byte>, size: nat) returns (sum: Byte)
    requires size <= buffer.Length
    ensures sum == Balance(buffer[..size])
  {
    sum := ValidateModule100(buffer, size);
    sum := (255 - sum + 1) % 256;
  }

  /** Copy bytes into a structure at an offset. */
  method Fill(s: array<Byte>, at: nat, bytes: seq<Byte>)
    requires at + |bytes| <= s.Length
    modifies s
    ensures forall i :: 0 <= i < s.Length ==>
              s[i] == if at <= i < at + |bytes| then bytes[i - at] else old(s[i])
  {
    var k := 0;
    while k < |bytes|
      invariant 0 <= k <= |bytes|
      invariant forall i :: 0 <= i < s.Length ==> s[i] == if at <= i < at + k then bytes[i - at] else old(s[i])
    {
      s[at + k] := bytes[k];
      k := k + 1;
    }
  }

  /** `CreateFMH` */
  method CreateFMH(fmh: array<Byte>, alloc: nat, info: seq<Byte>)
    requires fmh.Length == FMH_SIZE && |info| == INFO_SIZE && alloc < WORD
    modifies fmh
    ensures fmh[..] == Header(alloc, info)
  {
    hide Sum, Balance;
    Fill(fmh, 0, seq(FMH_SIZE, i => 0));
    Fill(fmh, 24, info);
    Fill(fmh, 0, SIGNATURE);
    fmh[8], fmh[9] := FMH_MAJOR, FMH_MINOR;
    Fill(fmh, 10, [FMH_SIZE, 0]);
    Fill(fmh, 62, [0xAA, 0x55]);
    Fill(fmh, 12, Bytes32(alloc));
    assert fmh[..] == Blank(alloc, info);
    var sum := CalculateModule100(fmh, FMH_SIZE);
    assert fmh[..FMH_SIZE] == fmh[..];
    fmh[23] := sum;
    assert fmh[..] == Blank(alloc, info)[23 := sum];
  }

  /** `CreateAlternateFMH` */
  method CreateAlternateFMH(alt: array<Byte>, offset: nat)
    requires alt.Length == ALT_SIZE && offset < WORD
    modifies alt
    ensures alt[..] == Alternate(offset)
  {
    hide Sum, Balance;
    Fill(alt, 0, seq(ALT_SIZE, i => 0));
    Fill(alt, 8, SIGNATURE);
    Fill(alt, 0, [0xAA, 0x55]);
    Fill(alt, 4, Bytes32(offset));
    assert alt[..] == BlankAlternate(offset);
    var sum := CalculateModule100(alt, ALT_SIZE);
    assert alt[..ALT_SIZE] == alt[..];
    alt[2] := sum;
    assert alt[..] == BlankAlternate(offset)[2 := sum];
  }
}
