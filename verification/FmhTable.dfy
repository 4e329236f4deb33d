/** What the partition table holds, in terms of the bytes on the flash: the fields of the headers that
  are found, and the modules of a flash that was laid out with the builders. */
module FmhTable {
  import opened Arith
  import opened Fmh
  import opened FmhScan

  // ---------------------------------------------------------------- what is found

  /** A header at the start of a sector is the one found for it. */
  lemma NormalFound(flash: seq<Byte>, addr: nat, size: nat)
    requires size >= 64 && addr + size <= |flash| < WORD && IsHeader(flash[addr..addr + 64])
    ensures Lookup(flash, addr, size) == Some(flash[addr..addr + 64])
  {
    hide IsHeader;
  }

  /** A sector without the signature at its start or at its end has no header, whatever else is in it. */
  lemma NothingFound(flash: seq<Byte>, addr: nat, size: nat)
    requires size >= 64 && addr + size <= |flash| < WORD
    requires !Signed(flash, addr) && !Signed(flash, addr + size - 8)
    ensures Lookup(flash, addr, size) == None
  {
    var h, a := flash[addr..addr + 64], flash[addr + size - 16..addr + size];
    SameSigned(flash, addr, 64, 0);
    SameSigned(flash, addr + size - 16, 16, 8);
    HeaderIff(h);
    AlternateIff(a, 0xFFFF_FFFF);
    hide IsHeader, AlternateLink, Signed;
  }

  lemma SameSigned(flash: seq<Byte>, at: nat, n: nat, i: nat)
    requires at + n <= |flash| && i + 8 <= n
    ensures Signed(flash[at..at + n], i) <==> Signed(flash, at + i)
  {
    SignedIff(flash[at..at + n], i);
    SignedIff(flash, at + i);
    var b := flash[at..at + n];
    assert forall k :: 0 <= k < n ==> b[k] == flash[at + k];
    assert b[i..i + 8] == flash[at + i..at + i + 8];
  }

  // ---------------------------------------------------------------- names

  /** `name` is the bytes of `src` up to its first zero, then zeros, nine bytes in all. */
  ghost predicate CutName(name: seq<Byte>, src: seq<Byte>) {
    && |name| == 9 && |src| == 8
    && exists n: nat :: n <= 8 && CutAt(name, src, n)
  }

  ghost predicate CutAt(name: seq<Byte>, src: seq<Byte>, n: nat)
    requires n <= |src| < |name|
  {
    && (n == |src| || src[n] == 0)
    && (forall k :: 0 <= k < n ==> src[k] != 0 && name[k] == src[k])
    && forall k :: n <= k < |name| ==> name[k] == 0
  }

  lemma {:induction false} NameCut(src: seq<Byte>) returns (n: nat)
    ensures n <= |src| && |Name(src)| == |src| + 1 && CutAt(Name(src), src, n)
    decreases |src|
  {
    n := 0;
    if src != [] && src[0] != 0 {
      var m := NameCut(src[1..]);
      n := m + 1;
      CutCons(Name(src[1..]), src, m);
    }
  }

  lemma CutCons(name: seq<Byte>, src: seq<Byte>, m: nat)
    requires src != [] && src[0] != 0 && |name| == |src| && m < |src| && CutAt(name, src[1..], m)
    ensures CutAt([src[0]] + name, src, m + 1)
  {
    assert forall k :: 0 <= k < |src| - 1 ==> src[1..][k] == src[k + 1];
    assert forall k :: 0 < k < |src| + 1 ==> ([src[0]] + name)[k] == name[k - 1];
  }

  // ---------------------------------------------------------------- one sector

  /** The entry for a module: its name, where it is and its size. */
  ghost predicate IsEntry(e: Entry, name: seq<Byte>, offset: nat, size: nat) {
    CutName(e.name, name) && e.offset == offset && e.size == size
  }

  /** What a sector contributes, from the bytes of the header found for it: an entry exactly if the
      type is one of the seven, with the size of the module, at its location or, before version 1.8,
      that far behind the sector. */
  lemma FoundEntry(flash: seq<Byte>, ss: nat, i: nat, h: seq<Byte>, name: seq<Byte>, kind: nat, location: nat,
                   size: nat)
    requires Geometry(flash, ss) && i < Sectors(flash, ss) && At(flash, ss, i) == Some(h)
    requires |h| == 64 && Says(h, name, kind, location, size)
    ensures var es := EntryAt(flash, ss, i);
            if kind in {0x07, 0x10, 0x11, 0x12, 0x60, 0x61, 0x70} then
              |es| == 1 && IsEntry(es[0], name, if h[8] == 1 && h[9] >= 8 then location
                                                else (i * ss + location) % 0x1_0000_0000, size)
            else es == []
  {
    hide At, Sectors;
    var n := NameCut(h[24..32]);
    hide Name, CutAt;
    FieldsRead(h, name, kind, location, size);
    hide Says, ModuleLocation, ModuleSize, ModuleType;
    assert CutAt(Name(name), name, n);
  }

  lemma FieldsRead(h: seq<Byte>, name: seq<Byte>, kind: nat, location: nat, size: nat)
    requires |h| == 64 && Says(h, name, kind, location, size)
    ensures ModuleType(h) == kind && ModuleLocation(h) == location && ModuleSize(h) == size && ModuleName(h) == name
  {
  }

  /** How far the scan goes from a sector, from the same bytes: one sector if the module is before it,
      and else past all that is allocated. */
  lemma StepExact(flash: seq<Byte>, ss: nat, i: nat, h: seq<Byte>, location: nat, alloc: nat)
    requires Geometry(flash, ss) && i < Sectors(flash, ss)
    requires |h| == 64 && Stands32(h, 36, location) && Stands32(h, 12, alloc)
    ensures At(flash, ss, i) == None ==> Move(flash, ss, i) == 1
    ensures At(flash, ss, i) == Some(h) ==> Move(flash, ss, i) == if location < i * ss then 1 else alloc / ss
  {
    hide At, Sectors;
  }

  // ---------------------------------------------------------------- a flash as it is laid out

  /** What a sector is given: no header; a header at its start; or one `offset` bytes on, which the
      end of the sector links to. */
  datatype Slot = Gap | Normal(alloc: nat, m: Module) | Linked(offset: nat, alloc: nat, m: Module)

  ghost predicate Holds(flash: seq<Byte>, at: nat, ss: nat, slot: Slot)
    requires ss >= 64 && at + ss <= |flash|
  {
    match slot
    case Gap => !Signed(flash, at) && !Signed(flash, at + ss - 8)
    case Normal(alloc, m) => Built(flash, at, alloc, m)
    case Linked(offset, alloc, m) =>
      && !Signed(flash, at) && offset < 0xFFFF_FFFF && flash[at + ss - 16..at + ss] == Alternate(offset)
      && Built(flash, at + offset, alloc, m)
  }

  ghost predicate Built(flash: seq<Byte>, at: nat, alloc: nat, m: Module) {
    && at + 64 <= |flash| && alloc < 0x1_0000_0000 && IsModule(m)
    && flash[at..at + 64] == Header(alloc, ModuleBytes(m))
  }

  /** The sectors a slot at sector `i` takes. */
  function Width(slot: Slot, i: nat, ss: nat): nat
    requires ss > 0
  {
    if slot.Gap? || slot.m.location < i * ss then 1 else slot.alloc / ss
  }

  /** The flash from sector `i` to its end is laid out slot after slot. */
  ghost predicate Laid(flash: seq<Byte>, ss: nat, i: nat, slots: seq<Slot>)
    requires Geometry(flash, ss)
    decreases |slots|
  {
    if slots == [] then i >= |flash| / ss
    else
      && (i + 1) * ss <= |flash| && i * ss + ss <= |flash| && Holds(flash, i * ss, ss, slots[0])
      && Width(slots[0], i, ss) > 0 && Laid(flash, ss, i + Width(slots[0], i, ss), slots[1..])
  }

  /** The modules among the slots that are file systems, in order. */
  function FileSystems(slots: seq<Slot>): seq<Module>
    decreases |slots|
  {
    if slots == [] then []
    else (if slots[0] != Gap && slots[0].m.kind in {0x07, 0x10, 0x11, 0x12, 0x60, 0x61, 0x70} then [slots[0].m]
          else []) + FileSystems(slots[1..])
  }

  /** The entries are the modules, one by one: name, location and size. */
  ghost predicate Lists(es: seq<Entry>, ms: seq<Module>) {
    |es| == |ms| && forall k :: 0 <= k < |ms| ==> IsEntry(es[k], ms[k].name, ms[k].location, ms[k].size)
  }

  /** The header found for a slot. */
  lemma SlotFound(flash: seq<Byte>, ss: nat, i: nat, slot: Slot)
    requires Geometry(flash, ss) && i < Sectors(flash, ss) && i * ss + ss <= |flash| && Holds(flash, i * ss, ss, slot)
    ensures slot.Gap? ==> At(flash, ss, i) == None
    ensures !slot.Gap? ==> IsModule(slot.m) && slot.alloc < WORD &&
                           At(flash, ss, i) == Some(Header(slot.alloc, ModuleBytes(slot.m)))
  {
    var at := i * ss;
    hide IsHeader, Header, ModuleBytes, Alternate, AlternateLink, Signed, Sectors, Lookup;
    match slot {
      case Gap => NothingFound(flash, at, ss);
      case Normal(alloc, m) =>
        HeaderRoundTrip(alloc, ModuleBytes(m));
        NormalFound(flash, at, ss);
      case Linked(offset, alloc, m) =>
        SameSigned(flash, at, 64, 0);
        HeaderIff(flash[at..at + 64]);
        AlternateFound(flash, at, ss, offset, alloc, ModuleBytes(m));
    }
  }

  /** What a slot contributes, and where the scan goes from there. */
  lemma SlotStep(flash: seq<Byte>, ss: nat, i: nat, slot: Slot)
    requires Geometry(flash, ss) && i < Sectors(flash, ss) && i * ss + ss <= |flash| && Holds(flash, i * ss, ss, slot)
    ensures Move(flash, ss, i) == Width(slot, i, ss)
    ensures Lists(EntryAt(flash, ss, i), FileSystems([slot]))
  {
    SlotFound(flash, ss, i, slot);
    hide Holds, Header, ModuleBytes, At, Sectors, Says, Stands32, Signed, IsEntry;
    if slot.Gap? {
      StepOfGap(flash, ss, i);
    } else {
      var h := Header(slot.alloc, ModuleBytes(slot.m));
      BuiltSays(slot.alloc, slot.m);
      HeaderLayout(slot.alloc, ModuleBytes(slot.m));
      VersionOf(h);
      FoundEntry(flash, ss, i, h, slot.m.name, slot.m.kind, slot.m.location, slot.m.size);
      LocationSaid(h, slot.m.name, slot.m.kind, slot.m.location, slot.m.size);
      StepExact(flash, ss, i, h, slot.m.location, slot.alloc);
      hide EntryAt, Move;
      assert [slot][1..] == [];
    }
  }

  lemma StepOfGap(flash: seq<Byte>, ss: nat, i: nat)
    requires Geometry(flash, ss) && i < Sectors(flash, ss) && At(flash, ss, i) == None
    ensures Move(flash, ss, i) == 1 && EntryAt(flash, ss, i) == []
  {
    hide At, Sectors;
  }

  lemma VersionOf(h: seq<Byte>)
    requires |h| == 64 && h[8..12] == [1, 8, 64, 0]
    ensures h[8] == 1 && h[9] == 8
  {
    assert h[8] == h[8..12][0] && h[9] == h[8..12][1];
  }

  lemma LocationSaid(h: seq<Byte>, name: seq<Byte>, kind: nat, location: nat, size: nat)
    requires |h| == 64 && Says(h, name, kind, location, size)
    ensures Stands32(h, 36, location)
  {
  }

  /** A flash laid out with the builders is scanned to the end, and the table holds the file systems
      on it, in order, with their names, locations and sizes. */
  lemma {:induction false} LaidTable(flash: seq<Byte>, ss: nat, i: nat, slots: seq<Slot>)
    requires Geometry(flash, ss) && Laid(flash, ss, i, slots)
    ensures Finishes(flash, ss, i) && Lists(Table(flash, ss, i), FileSystems(slots))
    decreases |slots|
  {
    LaidOnce(flash, ss, i, slots);
    hide *;
    if |slots| == 0 {
      EndLaid(flash, ss, i, slots);
    } else {
      var j := i + Width(slots[0], i, ss);
      LaidTable(flash, ss, j, slots[1..]);
      LaidCons(flash, ss, i, slots, j);
    }
  }

  lemma LaidCons(flash: seq<Byte>, ss: nat, i: nat, slots: seq<Slot>, j: nat)
    requires Geometry(flash, ss) && i < Sectors(flash, ss) && i * ss + ss <= |flash|
    requires |slots| > 0 && Holds(flash, i * ss, ss, slots[0]) && j == i + Width(slots[0], i, ss) > i
    requires Finishes(flash, ss, j) && Lists(Table(flash, ss, j), FileSystems(slots[1..]))
    ensures Finishes(flash, ss, i) && Lists(Table(flash, ss, i), FileSystems(slots))
  {
    SlotStep(flash, ss, i, slots[0]);
    hide *;
    TableFrom(flash, ss, i, j);
    ListsCons(Table(flash, ss, i), EntryAt(flash, ss, i), Table(flash, ss, j), slots);
  }

  lemma LaidOnce(flash: seq<Byte>, ss: nat, i: nat, slots: seq<Slot>)
    requires Geometry(flash, ss) && Laid(flash, ss, i, slots)
    ensures |slots| == 0 ==> i >= Sectors(flash, ss)
    ensures |slots| > 0 ==>
              && i < Sectors(flash, ss) && i * ss + ss <= |flash| && Holds(flash, i * ss, ss, slots[0])
              && Width(slots[0], i, ss) > 0 && Laid(flash, ss, i + Width(slots[0], i, ss), slots[1..])
  {
    hide Holds, Width;
    if |slots| > 0 {
      DivAtLeast(|flash|, i + 1, ss);
    }
  }

  lemma DivAtLeast(n: nat, q: nat, ss: nat)
    requires ss > 0 && q * ss <= n
    ensures q <= n / ss
  {
    assert n == (n / ss) * ss + n % ss;
    if n / ss + 1 <= q {
      MulMonotone(n / ss + 1, q, ss);
    }
  }

  lemma TableFrom(flash: seq<Byte>, ss: nat, i: nat, j: nat)
    requires Geometry(flash, ss) && i < Sectors(flash, ss) && Finishes(flash, ss, j) && j == i + Move(flash, ss, i) > i
    ensures Finishes(flash, ss, i) && Table(flash, ss, i) == EntryAt(flash, ss, i) + Table(flash, ss, j)
  {
    hide Move, Table, EntryAt;
    TableOnce(flash, ss, i);
  }

  lemma ListsCons(es: seq<Entry>, a: seq<Entry>, b: seq<Entry>, slots: seq<Slot>)
    requires |slots| > 0 && es == a + b && Lists(a, FileSystems([slots[0]])) && Lists(b, FileSystems(slots[1..]))
    ensures Lists(es, FileSystems(slots))
  {
    FirstSlot(slots);
    hide FileSystems, IsEntry;
    ListsJoin(a, FileSystems([slots[0]]), b, FileSystems(slots[1..]));
  }

  lemma FirstSlot(slots: seq<Slot>)
    requires |slots| > 0
    ensures FileSystems(slots) == FileSystems([slots[0]]) + FileSystems(slots[1..])
  {
    assert [slots[0]][1..] == [];
  }

  lemma EndLaid(flash: seq<Byte>, ss: nat, i: nat, slots: seq<Slot>)
    requires Geometry(flash, ss) && i >= Sectors(flash, ss) && |slots| == 0
    ensures Finishes(flash, ss, i) && Lists(Table(flash, ss, i), FileSystems(slots))
  {
    TableEnd(flash, ss, i);
    hide Table, Sectors;
  }

  lemma ListsJoin(a: seq<Entry>, x: seq<Module>, b: seq<Entry>, y: seq<Module>)
    requires Lists(a, x) && Lists(b, y)
    ensures Lists(a + b, x + y)
  {
    hide IsEntry;
  }
}
