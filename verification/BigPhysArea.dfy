/** `mm/bigphysarea.c` as it runs: two lists, kept as sequences of blocks, that each call cuts
  and joins step by step, and addresses in 32-bit arithmetic.  Every method is proved to do what
  its counterpart in `BigPhysAlloc` does. */
module BigPhysArea {
  import opened BigPhysAlloc
  import BigPhysTheory

  const WORD: nat := 0x1_0000_0000

  /** `unsigned long` arithmetic of the target. */
  function U32(x: int): (r: nat)
    ensures 0 <= x < WORD ==> r == x
  {
    x % WORD
  }

  class Area {
    var initLevel: nat
    var areaPages: nat
    var areaBase: nat
    var freeList: seq<Block>
    var usedList: seq<Block>

    ghost function View(): State
      reads this
    {
      State(initLevel, areaBase, areaPages * PAGE_SIZE, freeList, usedList)
    }

    ghost predicate Valid()
      reads this
    {
      Inv(View())
    }

    /** None of the address computations of a request leaves the 32-bit address space. */
    ghost predicate NoWrap(count: nat, align: nat)
      reads this
    {
      areaBase + areaPages * PAGE_SIZE + Alignment(align) + count * PAGE_SIZE < WORD
    }

    /** `bigphysarea_init`: without pages or without an address there is nothing to manage. */
    constructor (base: nat, pages: nat)
      requires base % PAGE_SIZE == 0
      ensures Valid()
      ensures View() == if pages == 0 || base == 0
                        then State(0, base, pages * PAGE_SIZE, [], [])
                        else BigPhysTheory.Booted(base, pages)
    {
      areaBase, areaPages := base, pages;
      freeList, usedList := [], [];
      initLevel := if pages == 0 || base == 0 then 0 else 1;
    }

    method Init2(node: bool) returns (failed: bool)
      requires Valid()
      modifies this
      ensures Valid() && areaBase == old(areaBase) && areaPages == old(areaPages)
      ensures View() == BigPhysAlloc.Init2(old(View()), node)
      ensures failed <==> !(old(initLevel) == 1 && node)
    {
      BigPhysTheory.Init2KeepsInv(View(), node);
      if initLevel == 1 {
        if node {
          freeList := [Block(areaBase, areaPages * PAGE_SIZE)];
          initLevel := 2;
          return false;
        }
      }
      return true;
    }

    /** `bigphysarea_alloc_pages`; 0 stands for a null address. */
    method AllocPages(count: nat, align: nat, mem: Memory) returns (addr: nat)
      requires Valid() && NoWrap(count, align)
      modifies this
      ensures (View(), addr) == BigPhysAlloc.AllocPages(old(View()), count, align, mem)
      ensures count > 0 ==> Valid()
    {
      BigPhysTheory.AllocKeepsInv(View(), count, align, mem);
      if initLevel < 2 {
        var failed := Init2(mem.initNode);
        if failed {
          return 0;
        }
      }
      addr := AllocFromList(count, align, mem);
    }

    /** The body of the allocation once the free list exists. */
    method AllocFromList(count: nat, align: nat, mem: Memory) returns (addr: nat)
      requires initLevel == 2 && NoWrap(count, align)
      requires Inside(areaBase, areaPages * PAGE_SIZE, freeList)
      modifies `freeList, `usedList
      ensures (View(), addr) == BigPhysAlloc.AllocPages(old(View()), count, align, mem)
    {
      var alignBytes := if align == 0 then PAGE_SIZE else U32(align * PAGE_SIZE);
      var need := U32(count * PAGE_SIZE);
      var p, aligned := SearchFit(need, alignBytes);
      if p == |freeList| {
        return 0;
      }
      var range := freeList[p];
      var split := aligned - range.base + need < range.size;
      if (split && !mem.newNode) || (aligned != range.base && !mem.alignNode) {
        return 0;
      }
      var newRange := TakeOut(p, aligned, need, split);
      usedList := [newRange] + usedList;
      return newRange.base;
    }

    /** Cut `need` bytes at `aligned` out of the free range at position `at`. */
    method TakeOut(at: nat, aligned: nat, need: nat, split: bool) returns (newRange: Block)
      requires at < |freeList| && freeList[at].base <= aligned && aligned + need <= freeList[at].End()
      requires split <==> aligned - freeList[at].base + need < freeList[at].size
      modifies `freeList
      ensures freeList == Carve(old(freeList), at, aligned, need)
      ensures newRange == Block(aligned, need)
    {
      var p, range := at, freeList[at];
      if aligned != range.base {
        // the pages in front of the aligned address stay free, in a node of their own
        var alignRange := Block(range.base, aligned - range.base);
        range := Block(aligned, range.size - alignRange.size);
        freeList := freeList[..p] + [alignRange, range] + freeList[p + 1..];
        p := p + 1;
      }
      if split {
        newRange := Block(range.base, need);
        range := Block(newRange.base + newRange.size, range.size - newRange.size);
        freeList := freeList[..p] + [range] + freeList[p + 1..];
      } else {
        newRange := range;
        freeList := freeList[..p] + freeList[p + 1..];
      }
    }

    /** Round an address up, in 32-bit arithmetic. */
    method Align(base: nat, alignBytes: nat) returns (aligned: nat)
      requires alignBytes > 0 && base + alignBytes < WORD
      ensures aligned == AlignUp(base, alignBytes) && base <= aligned < base + alignBytes
    {
      AlignUpLeast(base, alignBytes);
      var q := U32(base + alignBytes - 1) / alignBytes;
      aligned := U32(q * alignBytes);
    }

    /** First fit: walk the free list to the first range that is large enough once aligned. */
    method SearchFit(need: nat, alignBytes: nat) returns (p: nat, aligned: nat)
      requires alignBytes > 0 && Inside(areaBase, areaPages * PAGE_SIZE, freeList)
      requires areaBase + areaPages * PAGE_SIZE + alignBytes + need < WORD
      ensures p == FirstFit(freeList, need, alignBytes)
      ensures p < |freeList| ==> aligned == AlignUp(freeList[p].base, alignBytes)
      ensures p < |freeList| ==> freeList[p].base <= aligned && aligned + need <= freeList[p].End()
    {
      hide AlignUp, U32;
      p, aligned := 0, 0;
      while p < |freeList|
        invariant p <= |freeList|
        invariant FirstFit(freeList, need, alignBytes) == FirstFit(freeList, need, alignBytes, p)
      {
        var range := freeList[p];
        assert range in freeList;
        aligned := Align(range.base, alignBytes);
        if U32(aligned + need) <= U32(range.base + range.size) {
          break;
        }
        p := p + 1;
      }
    }

    /** `bigphysarea_free_pages`. */
    method FreePages(base: nat)
      requires Valid()
      modifies this
      ensures Valid() && View() == BigPhysAlloc.FreePages(old(View()), base)
      ensures (forall u :: u in old(usedList) ==> u.base != base) ==> View() == old(View())
      ensures forall i :: 0 <= i < |old(usedList)| && old(usedList)[i].base == base ==>
                && usedList == old(usedList)[..i] + old(usedList)[i + 1..]
                && forall y: nat :: Has(freeList, y) <==> Has(old(freeList), y) || old(usedList)[i].Holds(y)
    {
      ghost var s := View();
      BigPhysTheory.FreeKeepsInv(s, base);
      if forall u :: u in usedList ==> u.base != base {
        BigPhysTheory.FreeUnknown(s, base);
      }
      forall i | 0 <= i < |usedList| && usedList[i].base == base
        ensures var t := BigPhysAlloc.FreePages(s, base);
                && t.used == s.used[..i] + s.used[i + 1..]
                && forall y: nat :: Has(t.free, y) <==> Has(s.free, y) || s.used[i].Holds(y)
      {
        BigPhysTheory.FreeReleases(s, i);
      }
      hide Inv, BigPhysAlloc.FreePages, Has;
      FreeInLists(base);
    }

    method FreeInLists(base: nat)
      modifies `freeList, `usedList
      ensures View() == BigPhysAlloc.FreePages(old(View()), base)
    {
      var u := 0;
      while u < |usedList| && usedList[u].base != base
        invariant u <= |usedList|
        invariant FindBase(usedList, base) == FindBase(usedList, base, u)
      {
        u := u + 1;
      }
      if u == |usedList| {
        return;
      }
      var range := usedList[u];
      usedList := usedList[..u] + usedList[u + 1..];
      PutBack(range);
    }

    /** Insert `range` into the sorted free list and join it with the neighbours it touches. */
    method PutBack(range: Block)
      modifies `freeList
      ensures freeList == Release(old(freeList), range)
    {
      var p := 0;
      while p < |freeList| && freeList[p].base < range.base
        invariant p <= |freeList| && freeList == old(freeList)
        invariant InsertAt(freeList, range.base) == InsertAt(freeList, range.base, p)
      {
        p := p + 1;
      }
      freeList := freeList[..p] + [range] + freeList[p..];
      JoinUpper(p);
      JoinLower(p);
    }

    method JoinUpper(p: nat)
      requires p < |freeList|
      modifies `freeList
      ensures freeList == MergeUp(old(freeList), p)
    {
      var range := freeList[p];
      if p + 1 < |freeList| && range.base + range.size == freeList[p + 1].base {
        range := Block(range.base, range.size + freeList[p + 1].size);
        freeList := freeList[..p] + [range] + freeList[p + 2..];
      }
    }

    method JoinLower(p: nat)
      requires p < |freeList|
      modifies `freeList
      ensures freeList == MergeDown(old(freeList), p)
    {
      var range := freeList[p];
      if p > 0 && freeList[p - 1].base + freeList[p - 1].size == range.base {
        var prev := Block(freeList[p - 1].base, freeList[p - 1].size + range.size);
        freeList := freeList[..p - 1] + [prev] + freeList[p + 1..];
      }
    }

    /** `bigphysarea_alloc`. */
    method AllocBytes(size: nat, mem: Memory) returns (addr: nat)
      requires Valid() && NoWrap((size + PAGE_SIZE - 1) / PAGE_SIZE, 1)
      modifies this
      ensures (View(), addr) == BigPhysTheory.AllocBytes(old(View()), size, mem)
      ensures size > 0 ==> Valid()
      ensures old(initLevel) == 2 && size > 0 && addr != 0 ==>
                && usedList != [] && usedList[0].base == addr && usedList[1..] == old(usedList)
                && usedList[0].size % 4096 == 0 && size <= usedList[0].size < size + 4096
    {
      if initLevel == 2 && size > 0 {
        BigPhysTheory.BytesGranted(View(), size, mem);
      }
      var pages := (size + PAGE_SIZE - 1) / PAGE_SIZE;
      addr := AllocPages(pages, 1, mem);
    }

    /** `bigphysarea_get_max_size`. */
    method GetMaxSize(mem: Memory) returns (freeMax: nat)
      requires Valid()
      modifies this
      ensures Valid() && (View(), freeMax) == BigPhysTheory.GetMaxSize(old(View()), mem)
      ensures forall b :: b in freeList ==> b.size <= freeMax
      ensures freeMax > 0 ==> exists b :: b in freeList && b.size == freeMax
    {
      if initLevel == 1 {
        var _ := Init2(mem.initNode);
      }
      freeMax := Largest();
    }

    method Largest() returns (freeMax: nat)
      ensures freeMax == MaxSize(freeList)
    {
      freeMax := 0;
      var p := 0;
      while p < |freeList|
        invariant p <= |freeList|
        invariant freeMax == MaxSize(freeList[..p])
      {
        assert freeList[..p + 1][..p] == freeList[..p];
        if freeList[p].size > freeMax {
          freeMax := freeList[p].size;
        }
        p := p + 1;
      }
      assert freeList[..p] == freeList;
    }
  }
}
