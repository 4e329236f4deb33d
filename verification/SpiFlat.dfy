/** The flash as one flat array of bytes: what programming and erasing mean there, and how
  page programs, chunks and dies add up to it. */
module SpiFlat {
  import opened Arith
  import opened SpiChip

  /** Programming can only clear bits: the stored byte is the old one AND the new one. */
  function Cleared(f: seq<bv8>, to: nat, data: seq<bv8>): (g: seq<bv8>)
    ensures |g| == |f|
  {
    seq(|f|, j requires 0 <= j < |f| => if to <= j < to + |data| then f[j] & data[j - to] else f[j])
  }

  function Erased(f: seq<bv8>, from: nat, n: nat): (g: seq<bv8>)
    ensures |g| == |f|
  {
    seq(|f|, j requires 0 <= j < |f| => if from <= j < from + n then 0xFF else f[j])
  }

  /** Writing to an erased range stores exactly the data. */
  lemma ErasedThenCleared(f: seq<bv8>, from: nat, n: nat, to: nat, data: seq<bv8>)
    requires from <= to && to + |data| <= from + n <= |f|
    ensures Cleared(Erased(f, from, n), to, data)[to..to + |data|] == data
  {
  }

  /** Read back right after a write: exactly the data if and only if no bit had to be set. */
  lemma StoresExactly(f: seq<bv8>, to: nat, data: seq<bv8>)
    requires to + |data| <= |f|
    ensures Cleared(f, to, data)[to..to + |data|] == data <==>
            forall i :: 0 <= i < |data| ==> f[to + i] & data[i] == data[i]
  {
  }

  lemma ClearedTwice(f: seq<bv8>, to: nat, d1: seq<bv8>, d2: seq<bv8>)
    ensures Cleared(Cleared(f, to, d1), to + |d1|, d2) == Cleared(f, to, d1 + d2)
  {
  }

  // ---------------------------------------------------------------- chunks of a page

  /** What one call of the chip driver programs: chunks of at most a page from `addr` on, each
      wrapping inside its page. */
  function Chunked(f: seq<bv8>, addr: nat, data: seq<bv8>): (g: seq<bv8>)
    ensures |g| == |f|
    decreases |data|
  {
    if data == [] then f
    else
      var n := if |data| < PAGE then |data| else PAGE;
      Chunked(Programmed(f, addr, data[..n]), addr + n, data[n..])
  }

  lemma ChunkedTurn(f: seq<bv8>, addr: nat, data: seq<bv8>, n: nat)
    requires data != [] && n == if |data| < PAGE then |data| else PAGE
    ensures Chunked(f, addr, data) == Chunked(Programmed(f, addr, data[..n]), addr + n, data[n..])
  {
  }

  lemma ChunkedNothing(f: seq<bv8>, addr: nat)
    ensures Chunked(f, addr, []) == f
  {
  }

  /** The request does not make a chunk run over the end of its page. */
  predicate PageSafe(addr: nat, n: nat) {
    addr % PAGE == 0 || addr % PAGE + n <= PAGE
  }

  lemma LatchedInPage(addr: nat, data: seq<bv8>, j: nat)
    requires addr % PAGE + |data| <= PAGE && j / PAGE == addr / PAGE
    ensures Latched(addr, data, j) == if addr <= j < addr + |data| then j - addr else -1
  {
  }

  lemma ProgrammedInPage(f: seq<bv8>, addr: nat, data: seq<bv8>)
    requires addr % PAGE + |data| <= PAGE
    ensures Programmed(f, addr, data) == Cleared(f, addr, data)
  {
    var g := Programmed(f, addr, data);
    forall j | 0 <= j < |f|
      ensures g[j] == Cleared(f, addr, data)[j]
    {
      if j / PAGE == addr / PAGE {
        LatchedInPage(addr, data, j);
      }
    }
  }

  lemma NextPageSafe(addr: nat, len: nat, n: nat)
    requires PageSafe(addr, len) && n == if len < PAGE then len else PAGE
    ensures PageSafe(addr + n, len - n)
  {
  }

  /** On page-safe requests the chunks add up. */
  lemma {:induction false} ChunkedExact(f: seq<bv8>, addr: nat, data: seq<bv8>)
    requires PageSafe(addr, |data|)
    ensures Chunked(f, addr, data) == Cleared(f, addr, data)
    decreases |data|
  {
    hide Chunked;
    if data == [] {
      ChunkedNothing(f, addr);
      assert Cleared(f, addr, data) == f;
    } else {
      var n := if |data| < PAGE then |data| else PAGE;
      ChunkedTurn(f, addr, data, n);
      var d1, d2 := data[..n], data[n..];
      assert d1 + d2 == data;
      ProgrammedInPage(f, addr, d1);
      assert PageSafe(addr + n, |d2|) by { NextPageSafe(addr, |data|, n); }
      ChunkedExact(Cleared(f, addr, d1), addr + n, d2);
      ClearedTwice(f, addr, d1, d2);
    }
  }

  lemma ProgrammedKeepsZero(f: seq<bv8>, addr: nat, data: seq<bv8>, j: nat)
    requires j < |f| && f[j] == 0
    ensures Programmed(f, addr, data)[j] == 0
  {
  }

  lemma {:induction false} ChunkedKeepsZero(f: seq<bv8>, addr: nat, data: seq<bv8>, j: nat)
    requires j < |f| && f[j] == 0
    ensures Chunked(f, addr, data)[j] == 0
    decreases |data|
  {
    hide Chunked;
    if data == [] {
      ChunkedNothing(f, addr);
    } else {
      var n := if |data| < PAGE then |data| else PAGE;
      ChunkedTurn(f, addr, data, n);
      ProgrammedKeepsZero(f, addr, data[..n], j);
      ChunkedKeepsZero(Programmed(f, addr, data[..n]), addr + n, data[n..], j);
    }
  }

  lemma FirstChunkWraps(f: seq<bv8>, addr: nat, data: seq<bv8>)
    requires addr % PAGE + |data| > PAGE && addr % PAGE != 0 && addr < |f|
    requires forall i :: 0 <= i < |data| ==> data[i] == 0
    ensures Programmed(f, addr, data)[addr - addr % PAGE] == 0
  {
  }

  /** A chunk that runs over its page clears the start of the page instead. */
  lemma ChunkWraps(f: seq<bv8>, addr: nat, data: seq<bv8>)
    requires !PageSafe(addr, |data|) && addr + |data| <= |f|
    requires forall i :: 0 <= i < |data| ==> data[i] == 0
    ensures Chunked(f, addr, data)[addr - addr % PAGE] == 0
  {
    hide Chunked, Programmed;
    var n := if |data| < PAGE then |data| else PAGE;
    var j := addr - addr % PAGE;
    assert addr % PAGE + n > PAGE && addr % PAGE != 0;
    ChunkedTurn(f, addr, data, n);
    FirstChunkWraps(f, addr, data[..n]);
    ChunkedKeepsZero(Programmed(f, addr, data[..n]), addr + n, data[n..], j);
  }

  /** Exactly the page-safe requests store what they say on every memory. */
  lemma ChunkedExactIff(size: nat, addr: nat, n: nat)
    requires addr + n <= size
    ensures PageSafe(addr, n) <==>
            forall f, data :: |f| == size && |data| == n ==> Chunked(f, addr, data) == Cleared(f, addr, data)
  {
    if PageSafe(addr, n) {
      forall f, data | |f| == size && |data| == n
        ensures Chunked(f, addr, data) == Cleared(f, addr, data)
      {
        ChunkedExact(f, addr, data);
      }
    } else {
      var f: seq<bv8>, data: seq<bv8> := seq(size, j => 0xFF), seq(n, i => 0);
      ChunkWraps(f, addr, data);
      assert Cleared(f, addr, data)[addr - addr % PAGE] == 0xFF;
      assert Chunked(f, addr, data) != Cleared(f, addr, data);
    }
  }

  /** A write that is split at `cut`, as one that spans two dies is. */
  lemma SplitChunkedExact(f: seq<bv8>, addr: nat, data: seq<bv8>, cut: nat)
    requires PageSafe(addr, |data|) && addr < cut <= addr + |data| && cut % PAGE == 0
    ensures Chunked(Chunked(f, addr, data[..cut - addr]), cut, data[cut - addr..]) == Cleared(f, addr, data)
  {
    var d1, d2 := data[..cut - addr], data[cut - addr..];
    ChunkedExact(f, addr, d1);
    ChunkedExact(Cleared(f, addr, d1), cut, d2);
    ClearedTwice(f, addr, d1, d2);
    assert d1 + d2 == data;
  }

  /** What a write request does to the flat array; `cut` is where the second die starts, if the
      request goes over it. */
  function Written(f: seq<bv8>, addr: nat, data: seq<bv8>, cut: nat): (g: seq<bv8>)
    ensures |g| == |f|
  {
    if addr < cut < addr + |data| then Chunked(Chunked(f, addr, data[..cut - addr]), cut, data[cut - addr..])
    else Chunked(f, addr, data)
  }

  /** A page-safe write is the programming of its whole range, over both dies too. */
  lemma WrittenExact(f: seq<bv8>, addr: nat, data: seq<bv8>, cut: nat)
    requires PageSafe(addr, |data|) && cut % PAGE == 0
    ensures Written(f, addr, data, cut) == Cleared(f, addr, data)
  {
    if addr < cut < addr + |data| {
      SplitChunkedExact(f, addr, data, cut);
    } else {
      ChunkedExact(f, addr, data);
    }
  }

  // ---------------------------------------------------------------- erase blocks

  /** Block by block from `addr` in steps of `step`, on a chip with the given sectors. */
  function EraseWalk(f: seq<bv8>, sector: nat, addr: nat, step: nat, n: nat): (g: seq<bv8>)
    requires sector > 0
    ensures |g| == |f|
    decreases n
  {
    if n == 0 then f else EraseWalk(SectorErased(f, sector, addr), sector, addr + step, step, n - 1)
  }

  lemma SectorIsRange(f: seq<bv8>, sector: nat, addr: nat)
    requires sector > 0 && addr % sector == 0
    ensures SectorErased(f, sector, addr) == Erased(f, addr, sector)
  {
    forall j | 0 <= j < |f|
      ensures j / sector == addr / sector <==> addr <= j < addr + sector
    {
      SameSector(j, addr, sector);
    }
  }

  lemma SameSector(j: nat, addr: nat, sector: nat)
    requires sector > 0 && addr % sector == 0
    ensures j / sector == addr / sector <==> addr <= j < addr + sector
  {
    var q := addr / sector;
    assert addr == q * sector;
    assert j == (j / sector) * sector + j % sector;
    if addr <= j < addr + sector {
      DivModUnique(j, q, j - addr, sector);
    }
  }

  lemma ErasedTwice(f: seq<bv8>, from: nat, n: nat, m: nat)
    ensures Erased(Erased(f, from, n), from + n, m) == Erased(f, from, n + m)
  {
  }

  /** With steps of one sector from a sector boundary the walk erases exactly its range. */
  lemma {:induction false} EraseWalkExact(f: seq<bv8>, sector: nat, addr: nat, n: nat)
    requires sector > 0 && addr % sector == 0
    ensures EraseWalk(f, sector, addr, sector, n) == Erased(f, addr, n * sector)
    decreases n
  {
    if n == 0 {
      assert Erased(f, addr, 0) == f;
    } else {
      SectorIsRange(f, sector, addr);
      ModCombine(addr, sector, sector);
      EraseWalkExact(SectorErased(f, sector, addr), sector, addr + sector, n - 1);
      ErasedTwice(f, addr, sector, (n - 1) * sector);
      assert sector + (n - 1) * sector == n * sector;
    }
  }

  // ---------------------------------------------------------------- dies

  /** The memory of all dies, one after the other. */
  function Flat(mem: seq<seq<bv8>>): seq<bv8> {
    if mem == [] then [] else mem[0] + Flat(mem[1..])
  }

  lemma FlatOne(mem: seq<seq<bv8>>)
    requires |mem| == 1
    ensures Flat(mem) == mem[0]
  {
  }

  lemma FlatTwo(mem: seq<seq<bv8>>)
    requires |mem| == 2
    ensures Flat(mem) == mem[0] + mem[1]
  {
    assert mem[1..][0] == mem[1];
    FlatOne(mem[1..]);
  }

  /** One die, or two of 32 megabytes. */
  ghost predicate Dies(mem: seq<seq<bv8>>) {
    |mem| == 1 || (|mem| == 2 && |mem[0]| == |mem[1]| == MB32)
  }

  /** Where a byte of a die is in the flat array. */
  function At(die: nat, addr: nat): nat { die * MB32 + addr }

  lemma FlatUpdate(mem: seq<seq<bv8>>, die: nat, m: seq<bv8>, g: seq<bv8>)
    requires Dies(mem) && die < |mem| && |m| == |mem[die]| && |g| == |Flat(mem)|
    requires |Flat(mem)| >= At(die, |m|)
    requires forall a :: 0 <= a < |m| ==> g[At(die, a)] == m[a]
    requires forall j :: 0 <= j < |g| && !(At(die, 0) <= j < At(die, |m|)) ==> g[j] == Flat(mem)[j]
    ensures Flat(mem[die := m]) == g
  {
  }

  lemma FlatSize(mem: seq<seq<bv8>>, die: nat)
    requires Dies(mem) && die < |mem|
    ensures At(die, |mem[die]|) <= |Flat(mem)|
    ensures forall a :: 0 <= a < |mem[die]| ==> Flat(mem)[At(die, a)] == mem[die][a]
  {
  }

  lemma PageOfDie(die: nat, a: nat, b: nat)
    ensures At(die, a) / PAGE == At(die, b) / PAGE <==> a / PAGE == b / PAGE
    ensures At(die, a) % PAGE == a % PAGE
  {
  }

  lemma LatchedShift(addr: nat, j: nat, addr': nat, j': nat, data: seq<bv8>)
    requires addr % PAGE == addr' % PAGE && j % PAGE == j' % PAGE
    ensures Latched(addr, data, j) == Latched(addr', data, j')
  {
  }

  lemma ProgrammedShift(f: seq<bv8>, m: seq<bv8>, die: nat, addr: nat, data: seq<bv8>, a: nat)
    requires a < |m| && At(die, a) < |f| && f[At(die, a)] == m[a]
    ensures Programmed(f, At(die, addr), data)[At(die, a)] == Programmed(m, addr, data)[a]
  {
    PageOfDie(die, a, addr);
    PageOfDie(die, addr, addr);
    LatchedShift(At(die, addr), At(die, a), addr, a, data);
  }

  /** A page program on a die is the same page program on the flat array. */
  lemma FlatProgrammed(mem: seq<seq<bv8>>, die: nat, addr: nat, data: seq<bv8>)
    requires Dies(mem) && die < |mem| && addr < |mem[die]| && |mem[die]| % PAGE == 0
    ensures Flat(mem[die := Programmed(mem[die], addr, data)]) == Programmed(Flat(mem), At(die, addr), data)
  {
    var f, m := Flat(mem), mem[die];
    var m', g := Programmed(m, addr, data), Programmed(f, At(die, addr), data);
    FlatSize(mem, die);
    forall a | 0 <= a < |m|
      ensures g[At(die, a)] == m'[a]
    {
      ProgrammedShift(f, m, die, addr, data, a);
    }
    forall j | 0 <= j < |g| && !(At(die, 0) <= j < At(die, |m|))
      ensures g[j] == f[j]
    {
      OtherPage(mem, die, addr, j);
    }
    FlatUpdate(mem, die, m', g);
  }

  lemma OtherPage(mem: seq<seq<bv8>>, die: nat, addr: nat, j: nat)
    requires Dies(mem) && die < |mem| && addr < |mem[die]| && |mem[die]| % PAGE == 0
    requires !(At(die, 0) <= j < At(die, |mem[die]|))
    ensures j / PAGE != At(die, addr) / PAGE
  {
  }

  lemma SetTwice<T>(s: seq<T>, i: nat, x: T, y: T)
    requires i < |s|
    ensures s[i := x][i := y] == s[i := y]
  {
  }

  lemma {:induction false} FlatChunked(mem: seq<seq<bv8>>, die: nat, addr: nat, data: seq<bv8>)
    requires Dies(mem) && die < |mem| && addr + |data| <= |mem[die]| && |mem[die]| % PAGE == 0
    ensures Flat(mem[die := Chunked(mem[die], addr, data)]) == Chunked(Flat(mem), At(die, addr), data)
    decreases |data|
  {
    hide Chunked, Programmed, Flat;
    if data == [] {
      ChunkedNothing(mem[die], addr);
      ChunkedNothing(Flat(mem), At(die, addr));
      assert mem[die := mem[die]] == mem;
    } else {
      var n := if |data| < PAGE then |data| else PAGE;
      ChunkedTurn(mem[die], addr, data, n);
      ChunkedTurn(Flat(mem), At(die, addr), data, n);
      FlatFirstChunk(mem, die, addr, data[..n], data[n..]);
    }
  }

  lemma {:induction false} FlatFirstChunk(mem: seq<seq<bv8>>, die: nat, addr: nat, d1: seq<bv8>, d2: seq<bv8>)
    requires Dies(mem) && die < |mem| && addr + |d1| + |d2| <= |mem[die]| && |mem[die]| % PAGE == 0 && d1 != []
    ensures Flat(mem[die := Chunked(Programmed(mem[die], addr, d1), addr + |d1|, d2)]) ==
            Chunked(Programmed(Flat(mem), At(die, addr), d1), At(die, addr) + |d1|, d2)
    decreases |d1| + |d2|, 0
  {
    hide Flat, Programmed, Chunked;
    var m := Programmed(mem[die], addr, d1);
    FlatProgrammed(mem, die, addr, d1);
    FlatChunked(mem[die := m], die, addr + |d1|, d2);
    SetTwice(mem, die, m, Chunked(m, addr + |d1|, d2));
  }

  lemma SectorOfDie(die: nat, a: nat, b: nat, sector: nat)
    requires sector > 0 && MB32 % sector == 0
    ensures At(die, a) / sector == At(die, b) / sector <==> a / sector == b / sector
  {
    var q := die * (MB32 / sector);
    assert die * MB32 == q * sector by {
      assert MB32 == (MB32 / sector) * sector;
      assert die * MB32 == die * ((MB32 / sector) * sector) == q * sector;
    }
    SectorShift(q, a, sector);
    SectorShift(q, b, sector);
  }

  lemma SectorShift(q: nat, a: nat, sector: nat)
    requires sector > 0
    ensures (q * sector + a) / sector == q + a / sector
  {
    assert a == (a / sector) * sector + a % sector;
    assert q * sector + a == (q + a / sector) * sector + a % sector;
    DivModUnique(q * sector + a, q + a / sector, a % sector, sector);
  }

  lemma SectorErasedShift(mem: seq<seq<bv8>>, die: nat, sector: nat, addr: nat, a: nat)
    requires Dies(mem) && die < |mem| && a < |mem[die]| && sector > 0 && (|mem| == 2 ==> MB32 % sector == 0)
    requires At(die, a) < |Flat(mem)| && Flat(mem)[At(die, a)] == mem[die][a]
    ensures SectorErased(Flat(mem), sector, At(die, addr))[At(die, a)] == SectorErased(mem[die], sector, addr)[a]
  {
    if |mem| == 2 { SectorOfDie(die, a, addr, sector); }
  }

  lemma FlatSectorErased(mem: seq<seq<bv8>>, die: nat, sector: nat, addr: nat)
    requires Dies(mem) && die < |mem| && addr < |mem[die]|
    requires sector > 0 && |mem[die]| % sector == 0 && (|mem| == 2 ==> MB32 % sector == 0)
    ensures Flat(mem[die := SectorErased(mem[die], sector, addr)]) == SectorErased(Flat(mem), sector, At(die, addr))
  {
    var f, m := Flat(mem), mem[die];
    var m', g := SectorErased(m, sector, addr), SectorErased(f, sector, At(die, addr));
    FlatSize(mem, die);
    forall a | 0 <= a < |m|
      ensures g[At(die, a)] == m'[a]
    {
      SectorErasedShift(mem, die, sector, addr, a);
    }
    forall j | 0 <= j < |g| && !(At(die, 0) <= j < At(die, |m|))
      ensures g[j] == f[j]
    {
      OtherSector(mem, die, sector, addr, j);
    }
    FlatUpdate(mem, die, m', g);
  }

  lemma OtherSector(mem: seq<seq<bv8>>, die: nat, sector: nat, addr: nat, j: nat)
    requires Dies(mem) && die < |mem| && addr < |mem[die]| && j < |Flat(mem)|
    requires sector > 0 && |mem[die]| % sector == 0 && (|mem| == 2 ==> MB32 % sector == 0)
    requires !(At(die, 0) <= j < At(die, |mem[die]|))
    ensures j / sector != At(die, addr) / sector
  {
    if |mem| == 1 {
      FlatOne(mem);
    } else {
      FlatTwo(mem);
      if die == 0 { UpperSector(addr, j - MB32, sector); } else { UpperSector(j, addr, sector); }
    }
  }

  lemma UpperSector(low: nat, high: nat, sector: nat)
    requires low < MB32 && sector > 0 && MB32 % sector == 0
    ensures low / sector != (MB32 + high) / sector
  {
    var q := MB32 / sector;
    assert q * sector == MB32;
    SectorShift(q, high, sector);
    BelowMultiple(low, q, sector);
  }

  lemma BelowMultiple(a: nat, q: nat, sector: nat)
    requires sector > 0 && a < q * sector
    ensures a / sector < q
  {
  }
}
