/** Finding headers on the flash and turning them into a partition table. */
module FmhScan {
  import opened Arith
  import opened Fmh

  const MAX_PARTITIONS: nat := 16

  /** "fullpart" */
  const FULL_FLASH_PARTITION_NAME: seq<Byte> := [0x66, 0x75, 0x6C, 0x6C, 0x70, 0x61, 0x72, 0x74]

  datatype Option<T> = None | Some(value: T)

  // ---------------------------------------------------------------- one sector

  /** The header `ScanforFMH` finds for the sector at `addr`: at its start, or where the alternate
      header at its end points to. */
  function Lookup(flash: seq<Byte>, addr: nat, size: nat): (h: Option<seq<Byte>>)
    requires size >= FMH_SIZE && addr + size <= |flash| < WORD
    ensures h.Some? ==> |h.value| == FMH_SIZE && IsHeader(h.value)
  {
    var h := flash[addr..addr + FMH_SIZE];
    if IsHeader(h) then Some(h)
    else
      var link := AlternateLink(flash[addr + size - ALT_SIZE..addr + size]);
      var at := (addr + link) % WORD;
      if link == INVALID_FMH_OFFSET || at + FMH_SIZE > |flash| || !IsHeader(flash[at..at + FMH_SIZE]) then None
      else Some(flash[at..at + FMH_SIZE])
  }

  /** A built alternate header at the end of a sector leads to the header built for it. */
  lemma AlternateFound(flash: seq<Byte>, addr: nat, size: nat, offset: nat, alloc: nat, info: seq<Byte>)
    requires size >= FMH_SIZE && addr + size <= |flash| < WORD && |info| == INFO_SIZE && alloc < WORD
    requires !IsHeader(flash[addr..addr + FMH_SIZE])
    requires offset < INVALID_FMH_OFFSET && addr + offset + FMH_SIZE <= |flash|
    requires flash[addr + size - ALT_SIZE..addr + size] == Alternate(offset)
    requires flash[addr + offset..addr + offset + FMH_SIZE] == Header(alloc, info)
    ensures Lookup(flash, addr, size) == Some(Header(alloc, info))
  {
    hide IsHeader, Alternate, Header, AlternateLink;
    AlternateRoundTrip(offset);
    HeaderRoundTrip(alloc, info);
  }

  /** An alternate header is no header, whatever is behind it. */
  lemma AlternateIsNoHeader(a: seq<Byte>, b: seq<Byte>)
    requires |a| == ALT_SIZE && |b| == FMH_SIZE && b[..ALT_SIZE] == a
    requires AlternateLink(a) != INVALID_FMH_OFFSET
    ensures !IsHeader(b)
  {
  }

  // ---------------------------------------------------------------- the walk over the sectors

  /** The sectors of a flash. */
  function Sectors(flash: seq<Byte>, ss: nat): nat
    requires ss > 0
  {
    |flash| / ss
  }

  ghost predicate Geometry(flash: seq<Byte>, ss: nat) { ss >= FMH_SIZE && |flash| < WORD }

  lemma SectorInside(flash: seq<Byte>, ss: nat, i: nat)
    requires Geometry(flash, ss) && i < Sectors(flash, ss)
    ensures i * ss + ss <= |flash|
  {
    MulMonotone(i + 1, |flash| / ss, ss);
    assert (i + 1) * ss == i * ss + ss;
  }

  function At(flash: seq<Byte>, ss: nat, i: nat): Option<seq<Byte>>
    requires Geometry(flash, ss) && i < Sectors(flash, ss)
  {
    SectorInside(flash, ss, i);
    Lookup(flash, i * ss, ss)
  }

  /** How far the scan moves on from sector `i`. */
  function Move(flash: seq<Byte>, ss: nat, i: nat): nat
    requires Geometry(flash, ss) && i < Sectors(flash, ss)
  {
    match At(flash, ss, i)
    case None => 1
    case Some(h) => Past(h, i * ss, ss)
  }

  /** Past the header found for the sector at `pos`: one sector, or its allocation. */
  function Past(h: seq<Byte>, pos: nat, ss: nat): nat
    requires ss > 0 && |h| == FMH_SIZE
  {
    if pos > ModuleLocation(h) then 1 else AllocatedSize(h) / ss
  }

  /** The sectors the scan looks at from `i` on, up to one it cannot leave. */
  function Visited(flash: seq<Byte>, ss: nat, i: nat): seq<nat>
    requires Geometry(flash, ss)
    decreases Sectors(flash, ss) - i
  {
    if i >= Sectors(flash, ss) then []
    else if Move(flash, ss, i) == 0 then [i]
    else [i] + Visited(flash, ss, i + Move(flash, ss, i))
  }

  /** The scan leaves every sector it visits. */
  predicate Finishes(flash: seq<Byte>, ss: nat, i: nat)
    requires Geometry(flash, ss)
    decreases Sectors(flash, ss) - i
  {
    i >= Sectors(flash, ss) || (Move(flash, ss, i) > 0 && Finishes(flash, ss, i + Move(flash, ss, i)))
  }

  /** Where the loop is after `n` turns. */
  function After(flash: seq<Byte>, ss: nat, i: nat, n: nat): nat
    requires Geometry(flash, ss)
    decreases n
  {
    if n == 0 || i >= Sectors(flash, ss) then i else After(flash, ss, i + Move(flash, ss, i), n - 1)
  }

  lemma {:induction false} EndsAfter(flash: seq<Byte>, ss: nat, i: nat) returns (n: nat)
    requires Geometry(flash, ss) && Finishes(flash, ss, i)
    ensures After(flash, ss, i, n) >= Sectors(flash, ss)
    decreases Sectors(flash, ss) - i
  {
    hide At, Move, Sectors;
    n := 0;
    if i < Sectors(flash, ss) {
      var m := EndsAfter(flash, ss, i + Move(flash, ss, i));
      n := m + 1;
    }
  }

  lemma {:induction false} EndsOnlyIf(flash: seq<Byte>, ss: nat, i: nat, n: nat)
    requires Geometry(flash, ss) && After(flash, ss, i, n) >= Sectors(flash, ss)
    ensures Finishes(flash, ss, i)
    decreases n
  {
    hide At, Move, Sectors;
    if i < Sectors(flash, ss) {
      EndsOnlyIf(flash, ss, i + Move(flash, ss, i), n - 1);
    }
  }

  /** The loop ends exactly if no visited sector has a header that keeps it there: one whose
      allocated size is less than a sector and whose module is not before the sector. */
  lemma EndsIff(flash: seq<Byte>, ss: nat, i: nat)
    requires Geometry(flash, ss)
    ensures (exists n :: After(flash, ss, i, n) >= Sectors(flash, ss)) <==>
            forall k :: k in Visited(flash, ss, i) ==> !Held(flash, ss, k)
  {
    VisitedInside(flash, ss, i);
    VisitedIff(flash, ss, i);
    if Finishes(flash, ss, i) {
      var n := EndsAfter(flash, ss, i);
    }
    forall n | After(flash, ss, i, n) >= Sectors(flash, ss)
      ensures Finishes(flash, ss, i)
    {
      EndsOnlyIf(flash, ss, i, n);
    }
  }

  /** The header found for the sector does not let the scan move on. */
  predicate Held(flash: seq<Byte>, ss: nat, k: nat)
    requires Geometry(flash, ss)
  {
    && k < Sectors(flash, ss) && At(flash, ss, k).Some?
    && k * ss <= ModuleLocation(At(flash, ss, k).value) && AllocatedSize(At(flash, ss, k).value) < ss
  }

  lemma PastIff(h: seq<Byte>, pos: nat, ss: nat)
    requires ss > 0 && |h| == FMH_SIZE
    ensures Past(h, pos, ss) == 0 <==> pos <= ModuleLocation(h) && AllocatedSize(h) < ss
  {
    hide ModuleLocation, AllocatedSize;
    var a := AllocatedSize(h);
    if a < ss {
      DivModUnique(a, 0, a, ss);
    } else {
      assert a == (a / ss) * ss + a % ss;
    }
  }

  lemma HeldIff(flash: seq<Byte>, ss: nat, k: nat)
    requires Geometry(flash, ss) && k < Sectors(flash, ss)
    ensures Held(flash, ss, k) <==> Move(flash, ss, k) == 0
  {
    hide Past, ModuleLocation, AllocatedSize, Sectors;
    if At(flash, ss, k).Some? {
      PastIff(At(flash, ss, k).value, k * ss, ss);
    }
  }

  lemma {:induction false} VisitedInside(flash: seq<Byte>, ss: nat, i: nat)
    requires Geometry(flash, ss)
    ensures forall k :: k in Visited(flash, ss, i) ==> i <= k < Sectors(flash, ss)
    decreases Sectors(flash, ss) - i
  {
    if i < Sectors(flash, ss) && Move(flash, ss, i) > 0 {
      VisitedInside(flash, ss, i + Move(flash, ss, i));
    }
  }

  lemma {:induction false} VisitedIff(flash: seq<Byte>, ss: nat, i: nat)
    requires Geometry(flash, ss)
    ensures Finishes(flash, ss, i) <==> forall k :: k in Visited(flash, ss, i) ==> !Held(flash, ss, k)
    decreases Sectors(flash, ss) - i
  {
    hide Move, Held;
    if i < Sectors(flash, ss) {
      HeldIff(flash, ss, i);
      assert i in Visited(flash, ss, i);
      if Move(flash, ss, i) > 0 {
        var rest := Visited(flash, ss, i + Move(flash, ss, i));
        VisitedIff(flash, ss, i + Move(flash, ss, i));
        assert forall k :: k in Visited(flash, ss, i) <==> k == i || k in rest;
      }
    }
  }

  ghost predicate Increasing(v: seq<nat>) {
    forall j, k :: 0 <= j < k < |v| ==> v[j] < v[k]
  }

  lemma IncreasingCons(i: nat, v: seq<nat>)
    requires Increasing(v) && forall k :: k in v ==> i < k
    ensures Increasing([i] + v)
  {
    var w := [i] + v;
    assert forall j :: 0 < j < |w| ==> w[j] == v[j - 1] && w[j] in v;
  }

  /** The sectors are visited in strictly increasing order. */
  lemma {:induction false} VisitedIncreasing(flash: seq<Byte>, ss: nat, i: nat)
    requires Geometry(flash, ss)
    ensures Increasing(Visited(flash, ss, i))
    decreases Sectors(flash, ss) - i
  {
    if i < Sectors(flash, ss) && Move(flash, ss, i) > 0 {
      hide Increasing, Move;
      VisitedIncreasing(flash, ss, i + Move(flash, ss, i));
      VisitedInside(flash, ss, i + Move(flash, ss, i));
      IncreasingCons(i, Visited(flash, ss, i + Move(flash, ss, i)));
    }
  }

  /** If every header has room for a sector, the scan ends wherever it starts. */
  lemma RoomyFinishes(flash: seq<Byte>, ss: nat, i: nat)
    requires Geometry(flash, ss)
    requires forall k :: 0 <= k < Sectors(flash, ss) && At(flash, ss, k).Some? ==>
             AllocatedSize(At(flash, ss, k).value) >= ss
    ensures Finishes(flash, ss, i)
  {
    VisitedInside(flash, ss, i);
    VisitedIff(flash, ss, i);
  }

  /** A header without any allocated space in the first sector: the scan never ends. */
  lemma EmptyHeaderHolds(info: seq<Byte>, rest: seq<Byte>, ss: nat)
    requires |info| == INFO_SIZE && ss >= FMH_SIZE && ss <= FMH_SIZE + |rest| < WORD
    ensures Geometry(Header(0, info) + rest, ss) && !Finishes(Header(0, info) + rest, ss, 0)
  {
    hide IsHeader, Header;
    var flash := Header(0, info) + rest;
    HeaderRoundTrip(0, info);
    assert flash[0..FMH_SIZE] == Header(0, info);
    MulMonotone(1, 1, ss);
    SomeSector(|flash|, ss);
    assert At(flash, ss, 0) == Some(Header(0, info));
    HeldIff(flash, ss, 0);
  }

  lemma SomeSector(n: nat, ss: nat)
    requires 0 < ss <= n
    ensures n / ss > 0
  {
  }

  // ---------------------------------------------------------------- the table

  predicate IsFileSystem(moduleType: nat) {
    || moduleType == 0x10 || moduleType == 0x11 || moduleType == 0x07 || moduleType == 0x12
    || moduleType == 0x60 || moduleType == 0x61 || moduleType == 0x70
  }

  /** `strncpy` of 8 bytes, and the terminator behind them. */
  function Name(src: seq<Byte>): (name: seq<Byte>)
    ensures |name| == |src| + 1
  {
    if src == [] then [0] else if src[0] == 0 then seq(|src| + 1, i => 0) else [src[0]] + Name(src[1..])
  }

  datatype Entry = Entry(name: seq<Byte>, offset: nat, size: nat)

  function EntryOf(h: seq<Byte>, ss: nat, i: nat): Entry
    requires |h| == FMH_SIZE
  {
    Entry(Name(ModuleName(h)),
          if VersionMajor(h) == 1 && VersionMinor(h) >= 8 then ModuleLocation(h)
          else (i * ss + ModuleLocation(h)) % WORD,
          ModuleSize(h))
  }

  /** What sector `i` contributes. */
  function EntryAt(flash: seq<Byte>, ss: nat, i: nat): seq<Entry>
    requires Geometry(flash, ss) && i < Sectors(flash, ss)
  {
    match At(flash, ss, i)
    case None => []
    case Some(h) => if IsFileSystem(ModuleType(h)) then [EntryOf(h, ss, i)] else []
  }

  /** The file systems among the visited sectors, in order. */
  function Entries(flash: seq<Byte>, ss: nat, visited: seq<nat>): seq<Entry>
    requires Geometry(flash, ss) && forall k :: k in visited ==> k < Sectors(flash, ss)
    decreases |visited|
  {
    if visited == [] then []
    else
      assert visited[0] in visited && forall k :: k in visited[1..] ==> k in visited;
      EntryAt(flash, ss, visited[0]) + Entries(flash, ss, visited[1..])
  }

  function Table(flash: seq<Byte>, ss: nat, i: nat): seq<Entry>
    requires Geometry(flash, ss)
  {
    VisitedInside(flash, ss, i);
    Entries(flash, ss, Visited(flash, ss, i))
  }

  lemma TableOnce(flash: seq<Byte>, ss: nat, i: nat)
    requires Geometry(flash, ss) && i < Sectors(flash, ss) && Move(flash, ss, i) > 0
    ensures Table(flash, ss, i) == EntryAt(flash, ss, i) + Table(flash, ss, i + Move(flash, ss, i))
  {
    assert Visited(flash, ss, i)[1..] == Visited(flash, ss, i + Move(flash, ss, i));
  }

  datatype Partition = Partition(name: nat, offset: nat, size: nat, maskFlags: nat)

  // ---------------------------------------------------------------- as it runs

  class Scanner {
    const flash: seq<Byte>
    const buffer: array<Byte>
    const partitions: array<Partition>
    const names: array<seq<Byte>>
    var nameCount: nat

    predicate Sized() {
      buffer.Length == 128 && partitions.Length == names.Length == MAX_PARTITIONS
    }

    constructor (flash: seq<Byte>)
      ensures Sized() && this.flash == flash && nameCount == 0
      ensures fresh(buffer) && fresh(partitions) && fresh(names)
    {
      this.flash := flash;
      buffer := new Byte[128](i => 0);
      partitions := new Partition[MAX_PARTITIONS](i => Partition(0, 0, 0, 0));
      names := new seq<Byte>[MAX_PARTITIONS](i => []);
      nameCount := 0;
    }

    /** Reading from the device; past its end nothing is read and the buffer stays. */
    method Read(from: nat, len: nat)
      requires Sized() && len <= 128
      modifies buffer
      ensures if from + len <= |flash| then
                buffer[..len] == flash[from..from + len] && buffer[len..] == old(buffer[len..])
              else buffer[..] == old(buffer[..])
    {
      if from + len > |flash| {
        return;
      }
      var k := 0;
      while k < len
        invariant 0 <= k <= len
        invariant buffer[..k] == flash[from..from + k] && buffer[k..] == old(buffer[k..])
      {
        buffer[k] := flash[from + k];
        k := k + 1;
      }
    }

    /** `CheckForNormalFMH` on the buffer. */
    method CheckForNormalFMH() returns (found: bool)
      requires Sized()
      ensures found == IsHeader(buffer[..FMH_SIZE])
    {
      if buffer[..8] != SIGNATURE {
        assert buffer[..FMH_SIZE][..8] == buffer[..8];
        return false;
      }
      assert buffer[..FMH_SIZE][..8] == buffer[..8];
      if Le16(buffer[..], 62) != 0x55AA {
        return false;
      }
      var sum := ValidateModule100(buffer, FMH_SIZE);
      found := sum == 0;
    }

    /** `CheckForAlternateFMH` on the buffer. */
    method CheckForAlternateFMH() returns (link: nat)
      requires Sized()
      ensures link == AlternateLink(buffer[..ALT_SIZE])
    {
      assert buffer[..ALT_SIZE][8..] == buffer[8..16];
      if buffer[8..16] != SIGNATURE {
        return INVALID_FMH_OFFSET;
      }
      if Le16(buffer[..], 0) != 0x55AA {
        return INVALID_FMH_OFFSET;
      }
      var sum := ValidateModule100(buffer, ALT_SIZE);
      if sum != 0 {
        return INVALID_FMH_OFFSET;
      }
      link := Le32(buffer[..], 4);
    }

    /** `ScanforFMH`: what it finds does not depend on what was in the buffer before. */
    method ScanforFMH(addr: nat, size: nat) returns (found: bool)
      requires Sized() && size >= FMH_SIZE && addr + size <= |flash| < WORD
      modifies buffer
      ensures Lookup(flash, addr, size) == if found then Some(buffer[..FMH_SIZE]) else None
    {
      hide IsHeader, AlternateLink;
      Read(addr, FMH_SIZE);
      found := CheckForNormalFMH();
      if found {
        return;
      }
      Read(addr + size - ALT_SIZE, ALT_SIZE);
      ghost var alt := buffer[..ALT_SIZE];
      var link := CheckForAlternateFMH();
      if link == INVALID_FMH_OFFSET {
        return false;
      }
      AlternateIsNoHeader(alt, buffer[..FMH_SIZE]);
      Read((addr + link) % WORD, FMH_SIZE);
      found := CheckForNormalFMH();
    }

    /** `strncpy` of eight bytes into a name slot, with the terminator. */
    method SetName(slot: nat, src: seq<Byte>)
      requires Sized() && slot < MAX_PARTITIONS && |src| == 8
      modifies names
      ensures names[..] == old(names[..])[slot := Name(src)]
    {
      var name: seq<Byte> := [];
      var k := 0;
      assert src[0..] == src;
      while k < 8 && src[k] != 0
        invariant 0 <= k <= 8 && Name(src) == name + Name(src[k..])
      {
        assert src[k..][1..] == src[k + 1..];
        assert name + ([src[k]] + Name(src[k + 1..])) == name + [src[k]] + Name(src[k + 1..]);
        name := name + [src[k]];
        k := k + 1;
      }
      names[slot] := name + seq(8 - k + 1, i => 0);
      assert names[slot] == Name(src);
    }

    /** The partition for the entry, with its name in the slot. */
    ghost predicate Shows(p: Partition, slot: nat, name: seq<Byte>, e: Entry) {
      p == Partition(slot, e.offset, e.size, 0) && name == e.name
    }

    /** Partitions and names from the given positions on show the entries, in order. */
    ghost predicate ShowsAll(at: nat, slot: nat, es: seq<Entry>)
      requires Sized() && at + |es| <= MAX_PARTITIONS && slot + |es| <= MAX_PARTITIONS
      reads partitions, names
    {
      forall k :: 0 <= k < |es| ==> Shows(partitions[at + k], slot + k, names[slot + k], es[k])
    }

    /** Put one more entry at the end of the table. */
    method Append(at: nat, name: seq<Byte>, offset: nat, size: nat, ghost at0: nat, ghost slot0: nat,
                  ghost es: seq<Entry>)
      requires Sized() && |name| == 8 && at == at0 + |es| < MAX_PARTITIONS && nameCount == slot0 + |es| < MAX_PARTITIONS
      requires ShowsAll(at0, slot0, es)
      modifies partitions, names
      ensures ShowsAll(at0, slot0, es + [Entry(Name(name), offset, size)])
      ensures partitions[..at0] == old(partitions[..at0]) && names[..slot0] == old(names[..slot0])
    {
      SetName(nameCount, name);
      partitions[at] := Partition(nameCount, offset, size, 0);
      ghost var es' := es + [Entry(Name(name), offset, size)];
      forall k | 0 <= k < |es'|
        ensures Shows(partitions[at0 + k], slot0 + k, names[slot0 + k], es'[k])
      {
        assert k < |es| ==> old(Shows(partitions[at0 + k], slot0 + k, names[slot0 + k], es[k]));
        assert names[..][slot0 + k] == names[slot0 + k];
      }
    }

    /** The entry for the header found for sector `i`. */
    method AppendModule(at: nat, fmh: seq<Byte>, i: nat, ss: nat, ghost at0: nat, ghost slot0: nat,
                        ghost es: seq<Entry>)
      requires Sized() && |fmh| == FMH_SIZE && at == at0 + |es| < MAX_PARTITIONS
      requires nameCount == slot0 + |es| < MAX_PARTITIONS && ShowsAll(at0, slot0, es)
      modifies partitions, names
      ensures ShowsAll(at0, slot0, es + [EntryOf(fmh, ss, i)])
      ensures partitions[..at0] == old(partitions[..at0]) && names[..slot0] == old(names[..slot0])
    {
      hide ShowsAll, Name;
      var offset := if VersionMajor(fmh) == 1 && VersionMinor(fmh) >= 8 then ModuleLocation(fmh)
                    else (i * ss + ModuleLocation(fmh)) % WORD;
      Append(at, ModuleName(fmh), offset, ModuleSize(fmh), at0, slot0, es);
    }

    /** `GetFMHPartitions` for a single image, on a flash whose scan ends and with room for the
        result. */
    method GetFMHPartitions(ss: nat, partCount: nat) returns (count: nat)
      requires Sized() && Geometry(flash, ss) && Finishes(flash, ss, 0)
      requires partCount + 1 + |Table(flash, ss, 0)| <= MAX_PARTITIONS
      requires nameCount + 1 + |Table(flash, ss, 0)| <= MAX_PARTITIONS
      modifies this, buffer, partitions, names
      ensures count == partCount + 1 + |Table(flash, ss, 0)|
      ensures nameCount == old(nameCount) + 1 + |Table(flash, ss, 0)|
      ensures ShowsAll(partCount, old(nameCount),
                       [Entry(Name(FULL_FLASH_PARTITION_NAME), 0, |flash|)] + Table(flash, ss, 0))
      ensures partitions[partCount] == Partition(old(nameCount), 0, |flash|, 0)
      ensures names[old(nameCount)] == [0x66, 0x75, 0x6C, 0x6C, 0x70, 0x61, 0x72, 0x74, 0]
      ensures partitions[..partCount] == old(partitions[..partCount])
      ensures names[..old(nameCount)] == old(names[..nameCount])
    {
      hide Table, Move, Finishes, Visited, ShowsAll, Name, Lookup, IsHeader, EntryAt, IsFileSystem;
      hide EntryOf, ModuleLocation, ModuleType, AllocatedSize;
      ghost var slot := nameCount;
      ghost var es: seq<Entry> := [];
      ShowsNothing(partCount, slot);
      Append(partCount, FULL_FLASH_PARTITION_NAME, 0, |flash|, partCount, slot, es);
      es := es + [Entry(Name(FULL_FLASH_PARTITION_NAME), 0, |flash|)];
      assert es == [Entry(Name(FULL_FLASH_PARTITION_NAME), 0, |flash|)];
      count := partCount + 1;
      nameCount := nameCount + 1;
      var i: nat := 0;
      ghost var all := es + Table(flash, ss, 0);
      while i < |flash| / ss
        invariant Finishes(flash, ss, i) && all == es + Table(flash, ss, i)
        invariant count == partCount + |es| && nameCount == slot + |es|
        invariant ShowsAll(partCount, slot, es)
        invariant partitions[..partCount] == old(partitions[..partCount]) && names[..slot] == old(names[..nameCount])
        decreases |flash| / ss - i
      {
        SectorInside(flash, ss, i);
        NextSector(flash, ss, i, es);
        assert At(flash, ss, i) == Lookup(flash, i * ss, ss);
        var found := ScanforFMH(i * ss, ss);
        ghost var more := EntryAt(flash, ss, i);
        if !found {
          assert es + more == es;
          i := i + 1;
          continue;
        }
        var fmh := buffer[..FMH_SIZE];
        if IsFileSystem(ModuleType(fmh)) {
          AppendModule(count, fmh, i, ss, partCount, slot, es);
          count := count + 1;
          nameCount := nameCount + 1;
        } else {
          assert es + more == es;
        }
        es := es + more;
        if i * ss > ModuleLocation(fmh) {
          i := i + 1;
        } else {
          i := i + AllocatedSize(fmh) / ss;
        }
      }
      TableEnd(flash, ss, i);
      assert all == es;
      FirstShown(partCount, slot, es);
    }

    lemma FirstShown(at: nat, slot: nat, es: seq<Entry>)
      requires Sized() && at + |es| <= MAX_PARTITIONS && slot + |es| <= MAX_PARTITIONS && ShowsAll(at, slot, es)
      requires es != [] && es[0] == Entry(Name(FULL_FLASH_PARTITION_NAME), 0, |flash|)
      ensures partitions[at] == Partition(slot, 0, |flash|, 0)
      ensures names[slot] == [0x66, 0x75, 0x6C, 0x6C, 0x70, 0x61, 0x72, 0x74, 0]
    {
      FullName();
      hide Name;
      assert Shows(partitions[at + 0], slot + 0, names[slot + 0], es[0]);
    }

    lemma ShowsNothing(at: nat, slot: nat)
      requires Sized() && at <= MAX_PARTITIONS && slot <= MAX_PARTITIONS
      ensures ShowsAll(at, slot, [])
    {
    }
  }

  lemma {:induction false} NameOfText(src: seq<Byte>)
    requires forall k :: 0 <= k < |src| ==> src[k] != 0
    ensures Name(src) == src + [0]
    decreases |src|
  {
    if src != [] {
      NameOfText(src[1..]);
      assert [src[0]] + (src[1..] + [0]) == src + [0];
    }
  }

  lemma FullName()
    ensures Name(FULL_FLASH_PARTITION_NAME) == [0x66, 0x75, 0x6C, 0x6C, 0x70, 0x61, 0x72, 0x74, 0]
  {
    NameOfText(FULL_FLASH_PARTITION_NAME);
    hide Name;
    assert FULL_FLASH_PARTITION_NAME + [0] == [0x66, 0x75, 0x6C, 0x6C, 0x70, 0x61, 0x72, 0x74, 0];
  }

  lemma TableEnd(flash: seq<Byte>, ss: nat, i: nat)
    requires Geometry(flash, ss) && i >= Sectors(flash, ss)
    ensures Table(flash, ss, i) == []
  {
  }

  /** One turn: what the sector contributes, and where the scan goes. */
  lemma NextSector(flash: seq<Byte>, ss: nat, i: nat, es: seq<Entry>)
    requires Geometry(flash, ss) && i < Sectors(flash, ss) && Finishes(flash, ss, i)
    ensures Move(flash, ss, i) > 0 && Finishes(flash, ss, i + Move(flash, ss, i))
    ensures es + Table(flash, ss, i) == es + EntryAt(flash, ss, i) + Table(flash, ss, i + Move(flash, ss, i))
    ensures i * ss + ss <= |flash|
    ensures match At(flash, ss, i)
            case None => Move(flash, ss, i) == 1 && EntryAt(flash, ss, i) == []
            case Some(h) =>
              && Move(flash, ss, i) == (if i * ss > ModuleLocation(h) then 1 else AllocatedSize(h) / ss)
              && EntryAt(flash, ss, i) == (if IsFileSystem(ModuleType(h)) then [EntryOf(h, ss, i)] else [])
  {
    SectorInside(flash, ss, i);
    TableOnce(flash, ss, i);
    var more, rest := EntryAt(flash, ss, i), Table(flash, ss, i + Move(flash, ss, i));
    assert es + (more + rest) == es + more + rest;
  }
}
