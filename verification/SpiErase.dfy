/** The erase map of a flash device and the loop over it, as functions on values. */
module SpiErase {
  import opened Arith
  import opened SpiFlat

  const WORD: nat := 0x1_0000_0000

  /** A region of the erase map. */
  datatype Region = Region(offset: nat, eraseSize: nat, blocks: nat)

  datatype Mtd = Mtd(size: nat, regions: seq<Region>)

  predicate MapOk(mtd: Mtd) {
    && |mtd.regions| > 0 && mtd.regions[0].offset == 0
    && forall i :: 0 <= i < |mtd.regions| ==> mtd.regions[i].eraseSize > 0
  }

  /** Every region has the erase size of the chip's erase command. */
  predicate Uniform(mtd: Mtd, sector: nat) {
    forall i :: 0 <= i < |mtd.regions| ==> mtd.regions[i].eraseSize == sector
  }

  /** The first region from `i` on that starts after `x`. */
  function WalkFrom(regions: seq<Region>, i: nat, x: nat): (k: nat)
    requires i <= |regions|
    ensures i <= k <= |regions|
    ensures i < |regions| && x >= regions[i].offset ==> i < k
    decreases |regions| - i
  {
    if i < |regions| && x >= regions[i].offset then WalkFrom(regions, i + 1, x) else i
  }

  /** Erase size in effect at `x`. */
  function EraseSizeAt(mtd: Mtd, x: nat): (size: nat)
    requires MapOk(mtd)
    ensures size > 0
  {
    mtd.regions[WalkFrom(mtd.regions, 0, x) - 1].eraseSize
  }

  /** Turns of the erase loop for a length of whole blocks. */
  function Turns(mtd: Mtd, addr: nat, length: nat): nat
    requires MapOk(mtd)
  {
    length / EraseSizeAt(mtd, addr)
  }

  predicate WholeBlocks(mtd: Mtd, addr: nat, length: nat)
    requires MapOk(mtd)
  {
    length % EraseSizeAt(mtd, addr) == 0
  }

  /** The request passes the checks: it is inside the device and aligned at both ends. */
  predicate Accepted(mtd: Mtd, addr: nat, length: nat)
    requires MapOk(mtd)
  {
    && addr + length <= mtd.size
    && addr % EraseSizeAt(mtd, addr) == 0 && (addr + length) % EraseSizeAt(mtd, addr + length) == 0
  }

  /** The walk for a higher address passes where the walk for a lower one did. */
  lemma {:induction false} WalkShared(regions: seq<Region>, i: nat, last: nat, x: nat, y: nat)
    requires i <= last < |regions| && x <= y && WalkFrom(regions, i, x) == last + 1
    ensures WalkFrom(regions, i, y) == WalkFrom(regions, last, y)
    decreases last - i
  {
    if i < last {
      WalkShared(regions, i + 1, last, x, y);
    }
  }

  lemma {:induction false} WalkTo(regions: seq<Region>, i: nat, x: nat, k: nat)
    requires i <= k <= |regions| && (k == |regions| || x < regions[k].offset)
    requires forall j :: i <= j < k ==> regions[j].offset <= x
    ensures WalkFrom(regions, i, x) == k
    decreases k - i
  {
    if i < k {
      WalkTo(regions, i + 1, x, k);
    }
  }

  /** Region `k` holds `x`: it and all before it start at or below, and the next one above. */
  predicate RegionOf(mtd: Mtd, x: nat, k: nat) {
    && k < |mtd.regions| && (forall j :: 0 <= j <= k ==> mtd.regions[j].offset <= x)
    && (k + 1 < |mtd.regions| ==> x < mtd.regions[k + 1].offset)
  }

  /** A request is accepted exactly if it ends inside the device, its start is a multiple of the erase
      size of the region that holds it, and so is its end. */
  lemma AcceptedIff(mtd: Mtd, addr: nat, length: nat, k: nat, l: nat)
    requires MapOk(mtd) && RegionOf(mtd, addr, k) && RegionOf(mtd, addr + length, l)
    ensures Accepted(mtd, addr, length) <==>
            && addr + length <= mtd.size
            && addr % mtd.regions[k].eraseSize == 0 && (addr + length) % mtd.regions[l].eraseSize == 0
  {
    WalkTo(mtd.regions, 0, addr, k + 1);
    WalkTo(mtd.regions, 0, addr + length, l + 1);
  }

  /** Both ends are multiples of the one erase size, and the range is inside the device. */
  predicate Aligned(size: nat, sector: nat, addr: nat, length: nat)
    requires sector > 0
  {
    addr % sector == 0 && (addr + length) % sector == 0 && addr + length <= size
  }

  /** With one erase size everywhere, this is what is accepted. */
  lemma AcceptedUniform(mtd: Mtd, addr: nat, length: nat, sector: nat)
    requires MapOk(mtd) && Uniform(mtd, sector)
    ensures sector > 0 && (Accepted(mtd, addr, length) <==> Aligned(mtd.size, sector, addr, length))
  {
    assert mtd.regions[0].eraseSize == sector;
  }

  /** With one erase size everywhere, every accepted request is a whole number of blocks and
      erases exactly its range. */
  lemma UniformErase(mtd: Mtd, addr: nat, length: nat, f: seq<bv8>, sector: nat)
    requires MapOk(mtd) && Accepted(mtd, addr, length)
    requires Uniform(mtd, sector)
    ensures EraseSizeAt(mtd, addr) == sector && length % sector == 0
    ensures EraseWalk(f, sector, addr, sector, length / sector) == Erased(f, addr, length)
  {
    ModCombine(addr, addr + length, sector);
    EraseWalkExact(f, sector, addr, length / sector);
    assert length / sector * sector == length;
  }

  /** What is left of `len` after `n` turns of the loop, in 32-bit arithmetic. */
  function Left(len: int, step: int, n: nat): int { (len - n * step) % WORD }

  /** As long as whole blocks are left, nothing wraps. */
  lemma LeftAt(len: nat, step: nat, n: nat)
    requires len < WORD && step > 0 && len % step == 0 && n <= len / step + 1
    ensures n <= len / step ==> Left(len, step, n) == len - n * step >= 0 && (len - n * step == 0 <==> n == len / step)
    ensures (n + 1) * step == n * step + step
  {
    assert len == len / step * step;
    if n <= len / step {
      MulMonotone(n, len / step, step);
      if n < len / step {
        MulMonotone(n + 1, len / step, step);
      }
    }
  }

  /** The loop ends if and only if the length is a multiple of the size of the first region. */
  lemma LoopEndsIff(len: nat, step: nat)
    requires len < WORD && step > 0 && WORD % step == 0
    ensures (exists n: nat :: Left(len, step, n) == 0) <==> len % step == 0
  {
    if len % step == 0 {
      assert len == len / step * step;
      assert Left(len, step, len / step) == 0;
    }
    forall n: nat | Left(len, step, n) == 0
      ensures len % step == 0
    {
      var k := (len - n * step) / WORD;
      assert len - n * step == k * WORD;
      assert WORD == WORD / step * step;
      assert k * WORD == k * (WORD / step) * step;
      assert len == (n + k * (WORD / step)) * step;
      DivModUnique(len, n + k * (WORD / step), 0, step);
    }
  }

  // ---------------------------------------------------------------- the chip tables

  function OneSize(size: nat, eraseSize: nat, blocks: nat): Mtd { Mtd(size, [Region(0, eraseSize, blocks)]) }

  const ATMEL: seq<Mtd> := [
    OneSize(0x10_0000, 0x1_0000, 8), // at26f004
    OneSize(0x10_0000, 0x1_0000, 8), // at25df041a
    OneSize(0x10_0000, 0x1_0000, 16), // at26df081a
    OneSize(0x20_0000, 0x1_0000, 32), // at26df161a
    OneSize(0x20_0000, 0x1_0000, 32), // at26df161
    OneSize(0x40_0000, 0x1_0000, 64), // at26df321
    OneSize(0x40_0000, 0x1_0000, 64) // at25df321
  ]

  const INTEL: seq<Mtd> := [
    OneSize(0x20_0000, 0x1_0000, 32), // S33 16Mb
    OneSize(0x40_0000, 0x1_0000, 64), // S33 32Mb
    OneSize(0x80_0000, 0x1_0000, 128) // S33 64Mb
  ]

  const ST_MICRO: seq<Mtd> := [
    OneSize(0x1_0000, 0x8000, 2), // m25p05A
    OneSize(0x2_0000, 0x8000, 4), // m25p10A
    OneSize(0x4_0000, 0x1_0000, 4), // m25p20
    OneSize(0x8_0000, 0x1_0000, 8), // m25p40
    OneSize(0x10_0000, 0x1_0000, 16), // m25p80
    OneSize(0x20_0000, 0x1_0000, 32), // m25p16
    OneSize(0x40_0000, 0x1_0000, 64), // m25p32
    OneSize(0x80_0000, 0x1_0000, 128), // m25p64
    OneSize(0x80_0000, 0x1_0000, 128), // m25px64
    OneSize(0x100_0000, 0x4_0000, 64), // m25p128
    OneSize(0x4_0000, 0x1_0000, 4), // m45p20
    OneSize(0x8_0000, 0x1_0000, 8), // m45p40
    OneSize(0x10_0000, 0x1_0000, 16), // m45p80
    OneSize(0x20_0000, 0x1_0000, 32), // m45p16
    OneSize(0x40_0000, 0x1_0000, 64), // m45p32
    OneSize(0x80_0000, 0x1_0000, 128) // m45p64
  ]

  const MACRONIX: seq<Mtd> := [
    OneSize(0x20_0000, 0x1_0000, 32), // MX25L1605D
    OneSize(0x40_0000, 0x1_0000, 64), // MX25L3205D
    OneSize(0x80_0000, 0x1_0000, 128), // MX25L6405D
    OneSize(0x100_0000, 0x1_0000, 256), // MX25L12805D
    OneSize(0x200_0000, 0x1_0000, 512), // MX25L25635E
    OneSize(0x200_0000, 0x1_0000, 512), // MX25L25735E
    OneSize(0x400_0000, 0x1_0000, 1024), // MX66L51235F
    OneSize(0x800_0000, 0x1_0000, 2048), // MX66L1G45G
    OneSize(0x200_0000, 0x1_0000, 512) // EN25QH256
  ]

  const SPANSION: seq<Mtd> := [
    OneSize(0x80_0000, 0x1_0000, 128), // S25FL064A
    OneSize(0x100_0000, 0x1_0000, 256), // S25FL128P
    OneSize(0x200_0000, 0x1_0000, 512) // S25FL256S
  ]

  const WINBOND: seq<Mtd> := [
    OneSize(0x80_0000, 0x1_0000, 128), // W25X64
    OneSize(0x40_0000, 0x1_0000, 128), // W25Q32
    OneSize(0x80_0000, 0x1_0000, 128), // W25Q64
    OneSize(0x100_0000, 0x1_0000, 256), // W25Q128
    OneSize(0x200_0000, 0x1_0000, 512), // W25Q256
    OneSize(0x200_0000, 0x1_0000, 512), // W25Q257
    Mtd(0x400_0000, [Region(0, 0x1_0000, 512), Region(0x200_0000, 0x1_0000, 512)]) // W25M512
  ]

  const MICRON: seq<Mtd> := [
    OneSize(0x800_0000, 0x1_0000, 2048), // N25Q00A
    OneSize(0x400_0000, 0x1_0000, 1024), // N25Q512A
    OneSize(0x200_0000, 0x1_0000, 512), // N25Q256A
    OneSize(0x100_0000, 0x1_0000, 256) // n25q128
  ]

  /** The map of a chip that is not known, with the sizes of the build configuration. */
  predicate Configured(mtd: Mtd) {
    && |mtd.regions| == 1 && mtd.regions[0].offset == 0 && mtd.regions[0].eraseSize > 0
    && mtd.regions[0].blocks == mtd.size / mtd.regions[0].eraseSize
  }

  /** The erase maps a probe can find. */
  predicate Listed(mtd: Mtd) {
    || mtd in ATMEL || mtd in INTEL || mtd in ST_MICRO || mtd in MACRONIX || mtd in SPANSION || mtd in WINBOND
    || mtd in MICRON || Configured(mtd)
  }

  predicate OneEraseSize(mtd: Mtd) { MapOk(mtd) && Uniform(mtd, mtd.regions[0].eraseSize) }

  lemma OneSizeUniform()
    ensures forall size: nat, e: nat, n: nat :: e > 0 ==> OneEraseSize(OneSize(size, e, n))
  {
  }

  lemma SmallTablesUniform(mtd: Mtd)
    requires mtd in ATMEL || mtd in INTEL || mtd in SPANSION || mtd in MICRON
    ensures OneEraseSize(mtd)
  {
    OneSizeUniform();
    hide OneEraseSize, OneSize;
  }

  lemma LargeTablesUniform(mtd: Mtd)
    requires mtd in ST_MICRO || mtd in MACRONIX
    ensures OneEraseSize(mtd)
  {
    OneSizeUniform();
    hide OneEraseSize, OneSize;
  }

  lemma WinbondUniform(mtd: Mtd)
    requires mtd in WINBOND || Configured(mtd)
    ensures OneEraseSize(mtd)
  {
    OneSizeUniform();
    hide OneSize;
  }

  lemma ListedUniform(mtd: Mtd)
    requires Listed(mtd)
    ensures OneEraseSize(mtd)
  {
    hide OneEraseSize, Configured;
    if mtd in WINBOND || Configured(mtd) {
      WinbondUniform(mtd);
    } else if mtd in ST_MICRO || mtd in MACRONIX {
      LargeTablesUniform(mtd);
    } else {
      SmallTablesUniform(mtd);
    }
  }

  /** The loop over the request ends, and erases exactly its range. */
  ghost predicate ErasedExactly(mtd: Mtd, addr: nat, length: nat)
    requires MapOk(mtd)
  {
    var step := EraseSizeAt(mtd, addr);
    && length % step == 0 && (exists n: nat :: Left(length, step, n) == 0)
    && forall f :: EraseWalk(f, mtd.regions[0].eraseSize, addr, step, length / step) == Erased(f, addr, length)
  }

  lemma UniformEraseExact(mtd: Mtd, addr: nat, length: nat)
    requires OneEraseSize(mtd) && Accepted(mtd, addr, length)
    ensures ErasedExactly(mtd, addr, length)
  {
    var step := EraseSizeAt(mtd, addr);
    forall f
      ensures EraseWalk(f, mtd.regions[0].eraseSize, addr, step, length / step) == Erased(f, addr, length)
    {
      UniformErase(mtd, addr, length, f, mtd.regions[0].eraseSize);
    }
    UniformErase(mtd, addr, length, [], mtd.regions[0].eraseSize);
    assert length == length / step * step;
    assert Left(length, step, length / step) == 0;
  }

  /** With the maps the repository has, a request passes the checks exactly if both ends are multiples
      of the erase size of the first region, inside the device; and then the loop ends, after erasing
      exactly its range. */
  lemma ListedEraseExact(mtd: Mtd)
    requires Listed(mtd)
    ensures MapOk(mtd) && forall addr, length ::
              && (Accepted(mtd, addr, length) <==> Aligned(mtd.size, mtd.regions[0].eraseSize, addr, length))
              && (Accepted(mtd, addr, length) ==> ErasedExactly(mtd, addr, length))
  {
    ListedUniform(mtd);
    hide Listed, Uniform, Accepted, Aligned, ErasedExactly;
    forall addr, length
      ensures Accepted(mtd, addr, length) <==> Aligned(mtd.size, mtd.regions[0].eraseSize, addr, length)
      ensures Accepted(mtd, addr, length) ==> ErasedExactly(mtd, addr, length)
    {
      AcceptedUniform(mtd, addr, length, mtd.regions[0].eraseSize);
      if Accepted(mtd, addr, length) {
        UniformEraseExact(mtd, addr, length);
      }
    }
  }

  /** No table has it: a map with two erase sizes and a request that passes all checks, whose loop never ends. */
  lemma MixedMapDiverges()
    ensures var mtd := Mtd(0x2_0000, [Region(0, 0x1_0000, 1), Region(0x1_0000, 0x1000, 16)]);
            MapOk(mtd) && Accepted(mtd, 0, 0x1_1000) && !exists n: nat :: Left(0x1_1000, EraseSizeAt(mtd, 0), n) == 0
  {
  }
}
