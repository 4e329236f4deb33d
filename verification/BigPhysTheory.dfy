/** What `mm/bigphysarea.c` promises its callers: the area stays exactly tiled over every
  run, an allocation fails only when no aligned free run exists and otherwise returns the
  lowest one, and allocating and freeing undo each other. */
module BigPhysTheory {
  import Arith
  import opened BigPhysAlloc
  import opened BigPhysSets

  // ---------------------------------------------------------------- one step keeps the invariant

  lemma Init2KeepsInv(s: State, node: bool)
    requires Inv(s)
    ensures Inv(Init2(s, node))
  {
  }

  /** Taking `n > 0` bytes at a page address inside free block `k` keeps the tiling. */
  lemma CarveKeepsInv(s: State, k: nat, x: nat, n: nat)
    requires Inv(s) && s.level == 2 && n > 0
    requires k < |s.free| && s.free[k].base <= x && x + n <= s.free[k].End()
    requires x % PAGE_SIZE == 0 && n % PAGE_SIZE == 0
    ensures Inv(s.(free := Carve(s.free, k, x, n), used := [Block(x, n)] + s.used))
  {
    var b := Block(x, n);
    var free', used' := Carve(s.free, k, x, n), [b] + s.used;
    assert s.free[k] in s.free;
    CarveCanonical(s.free, k, x, n);
    CarvePaged(s.free, k, x, n, s.base, s.size);
    CarveApart(s.free, k, x, n, s.used);
    assert Paged(used') && Inside(s.base, s.size, used');
    assert PairwiseApart(used') by {
      assert forall i :: 0 <= i < |s.used| ==> s.used[i] in s.used;
    }
    CarveCovers(s.free, s.used, k, x, n, s.base, s.size);
  }

  lemma CarvePaged(free: seq<Block>, k: nat, x: nat, n: nat, lo: nat, size: nat)
    requires Canonical(free) && Paged(free) && Inside(lo, size, free)
    requires k < |free| && free[k].base <= x && x + n <= free[k].End()
    requires x % PAGE_SIZE == 0 && n % PAGE_SIZE == 0
    ensures Paged(Carve(free, k, x, n)) && Inside(lo, size, Carve(free, k, x, n))
  {
    CarveMembers(free, k, x, n);
    assert free[k] in free;
    LeftoverPaged(free[k], x, n);
  }

  lemma LeftoverPaged(b: Block, x: nat, n: nat)
    requires Paged([b]) && b.base <= x && x + n <= b.End()
    requires x % PAGE_SIZE == 0 && n % PAGE_SIZE == 0
    ensures Paged(Leftover(b, x, n))
  {
    assert b in [b];
    Arith.ModCombine(b.base, x, PAGE_SIZE);
    Arith.ModCombine(n, x, PAGE_SIZE);
    Arith.ModCombine(b.base, b.size, PAGE_SIZE);
    Arith.ModCombine(x + n, b.End(), PAGE_SIZE);
  }

  lemma CarveApart(free: seq<Block>, k: nat, x: nat, n: nat, used: seq<Block>)
    requires Canonical(free) && ListsApart(free, used) && n > 0
    requires k < |free| && free[k].base <= x && x + n <= free[k].End()
    ensures ListsApart(Carve(free, k, x, n), [Block(x, n)] + used)
  {
    CarveMembers(free, k, x, n);
    var r := free[k];
    assert r in free;
    forall f, u | f in Carve(free, k, x, n) && u in [Block(x, n)] + used
      ensures Apart(f, u)
    {
      if f in free && f != r {
        var i :| 0 <= i < |free| && free[i] == f;
        assert Apart(f, r);
      }
    }
  }

  lemma CarveCovers(free: seq<Block>, used: seq<Block>, k: nat, x: nat, n: nat, lo: nat, size: nat)
    requires Canonical(free) && Covers(lo, size, free, used)
    requires k < |free| && free[k].base <= x && x + n <= free[k].End()
    ensures Covers(lo, size, Carve(free, k, x, n), [Block(x, n)] + used)
  {
    CarveSet(free, k, x, n);
    forall y: int | lo <= y < lo + size
      ensures Has(Carve(free, k, x, n), y) || Has([Block(x, n)] + used, y)
    {
      HasConcat([Block(x, n)], used, y);
      HasOne(Block(x, n), y);
    }
  }

  lemma CarveMembers(free: seq<Block>, k: nat, x: nat, n: nat)
    requires Canonical(free)
    requires k < |free| && free[k].base <= x && x + n <= free[k].End()
    ensures forall f :: f in Carve(free, k, x, n) ==> f in Leftover(free[k], x, n) || (f in free && f != free[k])
  {
  }

  /** The request for no pages that is granted: there is a free list, some block holds an aligned
      address, and the nodes it takes to cut the block there can be had. */
  predicate GrantsNothing(s: State, align: nat, mem: Memory) {
    var s1 := if s.level < 2 then Init2(s, mem.initNode) else s;
    var a := Alignment(align);
    var k := FirstFit(s1.free, 0, a);
    && s1.level >= 2 && k < |s1.free|
    && (AlignUpLeast(s1.free[k].base, a);
        NodesSuffice(s1.free[k], AlignUp(s1.free[k].base, a), 0, mem))
  }

  /** An allocation keeps the invariant exactly if it asks for at least one page or the request for
      none is refused: a granted one puts an empty block on the used list. */
  lemma AllocKeepsInv(s: State, count: nat, align: nat, mem: Memory)
    requires Inv(s)
    ensures Inv(AllocPages(s, count, align, mem).0) <==> count > 0 || !GrantsNothing(s, align, mem)
  {
    var s1 := if s.level < 2 then Init2(s, mem.initNode) else s;
    Init2KeepsInv(s, mem.initNode);
    if s1.level >= 2 {
      PagesAligned(count, align);
      GrantKeepsInv(s1, count * PAGE_SIZE, Alignment(align), mem);
    }
    hide Inv, AlignUp, FirstFit, Grant, NodesSuffice;
  }

  lemma PagesAligned(count: nat, align: nat)
    ensures count * PAGE_SIZE % PAGE_SIZE == 0 && Alignment(align) % PAGE_SIZE == 0
  {
    Arith.DivModUnique(count * PAGE_SIZE, count, 0, PAGE_SIZE);
    Arith.DivModUnique(align * PAGE_SIZE, align, 0, PAGE_SIZE);
  }

  /** What granting does to the invariant. */
  lemma GrantKeepsInv(s: State, n: nat, a: nat, mem: Memory)
    requires Inv(s) && s.level >= 2 && n % PAGE_SIZE == 0 && a > 0 && a % PAGE_SIZE == 0
    ensures Inv(Grant(s, n, a, mem).0) <==>
            n > 0 || FirstFit(s.free, n, a) == |s.free| ||
            (AlignUpLeast(s.free[FirstFit(s.free, n, a)].base, a);
             var b := s.free[FirstFit(s.free, n, a)];
             !NodesSuffice(b, AlignUp(b.base, a), n, mem))
  {
    var k := FirstFit(s.free, n, a);
    if k < |s.free| {
      var x := AlignUp(s.free[k].base, a);
      AlignUpLeast(s.free[k].base, a);
      MultipleOfMultiple(x, a, PAGE_SIZE);
      hide AlignUp, FirstFit;
      if n > 0 {
        CarveKeepsInv(s, k, x, n);
      } else {
        assert Block(x, n) in [Block(x, n)] + s.used;
      }
    }
  }

  lemma MultipleOfMultiple(x: nat, a: nat, p: nat)
    requires a > 0 && p > 0 && x % a == 0 && a % p == 0
    ensures x % p == 0
  {
    assert x == x / a * a && a == a / p * p;
    assert x == x / a * (a / p) * p;
    Arith.DivModUnique(x, x / a * (a / p), 0, p);
  }

  /** An area of one page at `base`, with nothing in use. */
  function OnePage(base: nat): State {
    State(2, base, PAGE_SIZE, [Block(base, PAGE_SIZE)], [])
  }

  lemma OnePageFits(base: nat, k: nat)
    requires base % PAGE_SIZE == 0 && k == FirstFit([Block(base, PAGE_SIZE)], 0, PAGE_SIZE)
    ensures k == 0 && AlignUp(base, PAGE_SIZE) == base
  {
    PageAligned(base);
    hide AlignUp;
  }

  /** A request for no pages is granted there and leaves an empty block on the used list. */
  lemma NothingGranted(base: nat)
    requires base > 0 && base % PAGE_SIZE == 0
    ensures Inv(OnePage(base)) && GrantsNothing(OnePage(base), 0, PLENTY)
    ensures !Inv(AllocPages(OnePage(base), 0, 0, PLENTY).0)
  {
    var s := OnePage(base);
    assert Init2(Booted(base, 1), true) == s;
    Init2KeepsInv(Booted(base, 1), true);
    hide Inv, AlignUp, FirstFit, AllocPages;
    OnePageFits(base, FirstFit(s.free, 0, PAGE_SIZE));
    AllocKeepsInv(s, 0, 0, PLENTY);
  }

  lemma FreeKeepsInv(s: State, base: nat)
    requires Inv(s)
    ensures Inv(FreePages(s, base))
  {
    var k := FindBase(s.used, base);
    if k < |s.used| {
      var b := s.used[k];
      var used' := s.used[..k] + s.used[k + 1..];
      assert b in s.used;
      assert forall u :: u in used' ==> u in s.used;
      assert ListsApart(s.free, used') && Paged(used') && Inside(s.base, s.size, used');
      ReleaseSet(s.free, b);
      ReleasePaged(s.free, b, s.base, s.size);
      DropApart(s.used, k);
      ReleaseApart(s.free, b, used');
      ReleaseCovers(s.free, s.used, k, s.base, s.size);
      assert FreePages(s, base) == s.(free := Release(s.free, b), used := used');
    }
  }

  lemma ReleaseCovers(free: seq<Block>, used: seq<Block>, k: nat, lo: nat, size: nat)
    requires Canonical(free) && Covers(lo, size, free, used) && k < |used| && used[k].size > 0
    requires forall f :: f in free ==> Apart(f, used[k])
    ensures Covers(lo, size, Release(free, used[k]), used[..k] + used[k + 1..])
  {
    ReleaseSet(free, used[k]);
    forall y: int | lo <= y < lo + size
      ensures Has(Release(free, used[k]), y) || Has(used[..k] + used[k + 1..], y)
    {
      HasSplit(used, k, y);
      HasConcat(used[..k], used[k + 1..], y);
    }
  }

  lemma DropApart(used: seq<Block>, k: nat)
    requires PairwiseApart(used) && k < |used|
    ensures PairwiseApart(used[..k] + used[k + 1..])
    ensures ListsApart(used[..k] + used[k + 1..], [used[k]])
  {
  }

  lemma ReleaseApart(free: seq<Block>, b: Block, used: seq<Block>)
    requires Canonical(free) && b.size > 0
    requires forall f :: f in free ==> Apart(f, b)
    requires ListsApart(free, used) && ListsApart(used, [b])
    requires forall u :: u in used ==> u.size > 0
    ensures ListsApart(Release(free, b), used)
  {
    ReleaseSet(free, b);
    assert b in [b];
    forall f, u | f in Release(free, b) && u in used
      ensures Apart(f, u)
    {
      SetApart(Release(free, b), free, b, f, u);
    }
  }

  lemma SetApart(free': seq<Block>, free: seq<Block>, b: Block, f: Block, u: Block)
    requires forall y: nat :: Has(free', y) ==> Has(free, y) || b.Holds(y)
    requires f in free' && f.size > 0 && u.size > 0 && Apart(u, b)
    requires forall g :: g in free ==> Apart(g, u)
    ensures Apart(f, u)
  {
    var y := if f.base < u.base then u.base else f.base;
    assert f.Holds(y) ==> Has(free', y);
    assert u.Holds(y) ==> !Has(free, y) && !b.Holds(y);
  }

  lemma ReleasePaged(free: seq<Block>, b: Block, lo: nat, size: nat)
    requires Canonical(free) && Paged(free) && Inside(lo, size, free)
    requires Paged([b]) && Inside(lo, size, [b])
    ensures Paged(Release(free, b)) && Inside(lo, size, Release(free, b))
  {
    assert b in [b];
    var k := InsertAt(free, b.base);
    var f1 := free[..k] + [b] + free[k..];
    assert forall f :: f in f1 ==> f in free || f == b;
    MergeUpPaged(f1, k, lo, size);
    MergeDownPaged(MergeUp(f1, k), k, lo, size);
  }

  lemma MergeUpPaged(f: seq<Block>, k: nat, lo: nat, size: nat)
    requires Paged(f) && Inside(lo, size, f) && k < |f|
    ensures Paged(MergeUp(f, k)) && Inside(lo, size, MergeUp(f, k))
  {
  }

  lemma MergeDownPaged(f: seq<Block>, k: nat, lo: nat, size: nat)
    requires Paged(f) && Inside(lo, size, f) && k < |f|
    ensures Paged(MergeDown(f, k)) && Inside(lo, size, MergeDown(f, k))
  {
  }

  // ---------------------------------------------------------------- completeness of allocation

  /** All of `[x, x + n)` is free. */
  ghost predicate FreeRun(free: seq<Block>, x: nat, n: nat) {
    forall y :: x <= y < x + n ==> Has(free, y)
  }

  lemma EndNotHeld(free: seq<Block>, k: nat)
    requires Canonical(free) && k < |free|
    ensures !Has(free, free[k].End())
  {
  }

  /** In a coalesced list a run of free addresses never spans two blocks. */
  lemma RunInOneBlock(free: seq<Block>, x: nat, n: nat) returns (k: nat)
    requires Canonical(free) && n > 0 && FreeRun(free, x, n)
    ensures k < |free| && free[k].base <= x && x + n <= free[k].End()
  {
    assert Has(free, x);
    var b :| b in free && b.Holds(x);
    k :| k < |free| && free[k] == b;
    assert b.End() < x + n ==> Has(free, b.End());
    EndNotHeld(free, k);
  }

  /** With node memory and an area, `bigphysarea_alloc_pages` fails exactly when no aligned
      run of `count` free pages exists anywhere; otherwise it returns the lowest one. */
  lemma AllocComplete(s: State, count: nat, align: nat)
    requires Inv(s) && s.level >= 1 && count > 0
    ensures var free := if s.level == 2 then s.free else [Block(s.base, s.size)];
            var x := AllocPages(s, count, align, PLENTY).1;
            var a, n := if align == 0 then 4096 else align * 4096, count * 4096;
            && (x == 0 <==> !exists y: nat :: y % a == 0 && FreeRun(free, y, n))
            && (x != 0 ==> x % a == 0 && FreeRun(free, x, n))
            && (x != 0 ==> forall y: nat :: y % a == 0 && FreeRun(free, y, n) ==> x <= y)
  {
    var s1 := if s.level < 2 then Init2(s, true) else s;
    Init2KeepsInv(s, true);
    var a, n := Alignment(align), count * PAGE_SIZE;
    var k := FirstFit(s1.free, n, a);
    var x := AllocPages(s, count, align, PLENTY).1;
    if k < |s1.free| {
      AlignUpLeast(s1.free[k].base, a);
      assert s1.free[k] in s1.free;
      assert x == AlignUp(s1.free[k].base, a);
      assert FreeRun(s1.free, x, n) by {
        forall y | x <= y < x + n ensures Has(s1.free, y) {
          assert s1.free[k].Holds(y);
        }
      }
    }
    forall y: nat | y % a == 0 && FreeRun(s1.free, y, n)
      ensures k < |s1.free| && x <= y
    {
      var j := RunInOneBlock(s1.free, y, n);
      AlignUpLeast(s1.free[j].base, a);
      assert Fits(s1.free[j], n, a);
    }
  }

  /** A run the allocator hands out was free before, is used after, and nothing else moved. */
  lemma AllocEffect(s: State, count: nat, align: nat, mem: Memory)
    requires Inv(s) && s.level == 2 && count > 0
    ensures var (t, x) := AllocPages(s, count, align, mem);
            if x == 0 then t == s else
            && t.used == [Block(x, count * PAGE_SIZE)] + s.used
            && (forall y: nat :: Has(t.free, y) <==> Has(s.free, y) && !(x <= y < x + count * PAGE_SIZE))
            && FreeRun(s.free, x, count * PAGE_SIZE)
  {
    var a, n := Alignment(align), count * PAGE_SIZE;
    var k := FirstFit(s.free, n, a);
    if k < |s.free| {
      var x := AlignUp(s.free[k].base, a);
      AlignUpLeast(s.free[k].base, a);
      assert s.free[k] in s.free;
      CarveSet(s.free, k, x, n);
      forall y | x <= y < x + n
        ensures Has(s.free, y)
      {
        assert s.free[k].Holds(y);
      }
    }
  }

  /** Whatever memory there is: a failed request changes nothing once the area is set up. */
  lemma FailureChangesNothing(s: State, count: nat, align: nat, mem: Memory)
    requires Inv(s) && AllocPages(s, count, align, mem).1 == 0
    ensures AllocPages(s, count, align, mem).0 == s || AllocPages(s, count, align, mem).0 == Init2(s, mem.initNode)
    ensures s.level == 2 ==> AllocPages(s, count, align, mem).0 == s
  {
    var s1 := if s.level < 2 then Init2(s, mem.initNode) else s;
    Init2KeepsInv(s, mem.initNode);
    if s1.level == 2 {
      var k := FirstFit(s1.free, count * PAGE_SIZE, Alignment(align));
      if k < |s1.free| {
        AlignUpLeast(s1.free[k].base, Alignment(align));
        assert s1.free[k] in s1.free;
      }
    }
  }

  /** Without enough node memory the same request fails instead, exactly if a node is needed for the
      free bytes behind the run or for those in front of it. */
  lemma AllocMemory(s: State, count: nat, align: nat, mem: Memory)
    requires Inv(s) && s.level == 2 && count > 0
    ensures var x, n := AllocPages(s, count, align, PLENTY).1, count * 4096;
            AllocPages(s, count, align, mem).1 ==
            if x != 0 && (Has(s.free, x + n) ==> mem.newNode) && (Has(s.free, x - 1) ==> mem.alignNode) then x else 0
  {
    var a, n := Alignment(align), count * PAGE_SIZE;
    var k := FirstFit(s.free, n, a);
    if k < |s.free| {
      AlignUpLeast(s.free[k].base, a);
      assert s.free[k] in s.free;
      EdgesFree(s.free, k, AlignUp(s.free[k].base, a), n);
    }
  }

  /** Bytes are left in front of a run in its block exactly if the byte before it is free, and behind
      it exactly if the byte after it is. */
  lemma EdgesFree(free: seq<Block>, k: nat, x: nat, n: nat)
    requires Canonical(free) && k < |free| && free[k].base <= x && x + n <= free[k].End() && n > 0
    ensures Has(free, x - 1) <==> x != free[k].base
    ensures Has(free, x + n) <==> x - free[k].base + n < free[k].size
  {
    EndNotHeld(free, k);
    assert free[k] in free;
    if x != free[k].base {
      assert free[k].Holds(x - 1);
    }
    if x + n < free[k].End() {
      assert free[k].Holds(x + n);
    }
  }

  /** The first request sets the area up, if there is one and a node can be had; else it fails. */
  lemma FirstRequest(s: State, count: nat, align: nat, mem: Memory)
    requires Inv(s) && s.level < 2
    ensures AllocPages(s, count, align, mem) ==
            if s.level == 1 && mem.initNode
            then AllocPages(State(2, s.base, s.size, [Block(s.base, s.size)], []), count, align, mem)
            else (s, 0)
    ensures GetMaxSize(s, mem) ==
            if s.level == 1 && mem.initNode then (State(2, s.base, s.size, [Block(s.base, s.size)], []), s.size)
            else (s, 0)
  {
    hide Grant;
    assert [Block(s.base, s.size)][..0] == [];
  }

  // ---------------------------------------------------------------- what a free releases

  /** Freeing an address at which no used block starts changes nothing. */
  lemma FreeUnknown(s: State, base: nat)
    requires forall u :: u in s.used ==> u.base != base
    ensures FreePages(s, base) == s
  {
    var k := FindBase(s.used, base);
    assert forall i :: 0 <= i < |s.used| ==> s.used[i] in s.used;
  }

  /** Freeing a used block takes that block off the used list, the others staying in order, and its
      addresses are free afterwards as well as those that were. */
  lemma FreeReleases(s: State, i: nat)
    requires Inv(s) && s.level == 2 && i < |s.used|
    ensures var b, t := s.used[i], FreePages(s, s.used[i].base);
            && t.used == s.used[..i] + s.used[i + 1..]
            && (forall y: nat :: Has(t.free, y) <==> Has(s.free, y) || b.base <= y < b.base + b.size)
            && t.level == s.level && t.base == s.base && t.size == s.size
  {
    var b := s.used[i];
    assert b in s.used;
    BaseOnce(s, i);
    ReleaseSet(s.free, b);
    hide Release, FindBase;
  }

  /** Used blocks start at different addresses. */
  lemma BaseOnce(s: State, i: nat)
    requires Inv(s) && s.level == 2 && i < |s.used|
    ensures FindBase(s.used, s.used[i].base) == i
  {
    var k := FindBase(s.used, s.used[i].base);
    assert s.used[i] in s.used && s.used[k] in s.used;
  }

  /** A block that has been handed out stays in use, none of it is free and no other block in use
      overlaps it, over every run that does not free it. */
  lemma {:induction false} EveryRunKeepsBlock(s: State, ops: seq<Op>, b: Block)
    requires Inv(s) && s.level == 2 && b in s.used
    requires forall op :: op in ops ==> (op.Alloc? ==> op.count > 0) && (op.Free? ==> op.base != b.base)
    ensures var t := Run(s, ops);
            && b in t.used && (forall y :: b.base <= y < b.base + b.size ==> !Has(t.free, y))
            && (forall u :: u in t.used && u != b ==> u.End() <= b.base || b.End() <= u.base)
    decreases |ops|
  {
    if ops == [] {
      UsedApart(s, b);
    } else {
      var t := Apply(s, ops[0]);
      assert ops[0] in ops && forall op :: op in ops[1..] ==> op in ops;
      match ops[0] {
        case Alloc(count, align, mem) =>
          AllocKeepsInv(s, count, align, mem);
          AllocEffect(s, count, align, mem);
        case Free(base) =>
          FreeKeepsInv(s, base);
          FreeKeepsOther(s, base, b);
        case QueryMax(mem) =>
      }
      hide Inv, AllocPages, FreePages;
      EveryRunKeepsBlock(t, ops[1..], b);
    }
  }

  lemma FreeKeepsOther(s: State, base: nat, b: Block)
    requires b in s.used && b.base != base
    ensures b in FreePages(s, base).used && FreePages(s, base).level == s.level
  {
    var j :| 0 <= j < |s.used| && s.used[j] == b;
    var k := FindBase(s.used, base);
    if k < |s.used| {
      assert j != k;
      assert s.used == s.used[..k] + [s.used[k]] + s.used[k + 1..];
    }
  }

  lemma UsedApart(s: State, b: Block)
    requires Inv(s) && s.level == 2 && b in s.used
    ensures forall y :: b.base <= y < b.base + b.size ==> !Has(s.free, y)
    ensures forall u :: u in s.used && u != b ==> u.End() <= b.base || b.End() <= u.base
  {
  }

  // ---------------------------------------------------------------- inverses

  /** Freeing a block straight after allocating it restores both lists exactly. */
  lemma FreeUndoesAlloc(s: State, count: nat, align: nat, mem: Memory)
    requires Inv(s) && s.level == 2 && count > 0
    requires AllocPages(s, count, align, mem).1 != 0
    ensures var (t, x) := AllocPages(s, count, align, mem);
            FreePages(t, x) == s
  {
    var (t, x) := AllocPages(s, count, align, mem);
    AllocEffect(s, count, align, mem);
    AllocKeepsInv(s, count, align, mem);
    var b := Block(x, count * PAGE_SIZE);
    assert t.used[0] == b && b in t.used;
    assert FindBase(t.used, x) == 0;
    assert t.used[..0] + t.used[1..] == s.used;
    ReleaseRestores(s.free, t.free, b);
  }

  lemma ReleaseRestores(before: seq<Block>, after: seq<Block>, b: Block)
    requires Canonical(before) && Canonical(after) && b.size > 0
    requires forall f :: f in after ==> Apart(f, b)
    requires FreeRun(before, b.base, b.size)
    requires forall y: nat :: Has(after, y) <==> Has(before, y) && !b.Holds(y)
    ensures Release(after, b) == before
  {
    ReleaseSet(after, b);
    forall y: nat
      ensures Has(Release(after, b), y) <==> Has(before, y)
    {
      if b.Holds(y) {
        assert Has(before, y);
      }
    }
    CanonicalUnique(Release(after, b), before);
  }

  /** Nothing used: the free list is the one block covering the area. */
  lemma NothingUsedOneBlock(s: State)
    requires Inv(s) && s.level == 2 && s.used == []
    ensures s.free == [Block(s.base, s.size)]
  {
    var whole := [Block(s.base, s.size)];
    forall x: nat
      ensures Has(s.free, x) <==> Has(whole, x)
    {
      HasOne(whole[0], x);
      if Has(s.free, x) {
        var f :| f in s.free && f.Holds(x);
      }
    }
    CanonicalUnique(s.free, whole);
  }

  function FreeEach(s: State, bases: seq<nat>): State
    decreases |bases|
  {
    if bases == [] then s else FreeEach(FreePages(s, bases[0]), bases[1..])
  }

  /** Used blocks start at distinct addresses, so one free removes every trace of its base. */
  lemma FreeForgetsBase(s: State, base: nat)
    requires Inv(s) && s.level == 2
    ensures forall u :: u in FreePages(s, base).used ==> u in s.used && u.base != base
  {
  }

  lemma FirstMember<T>(xs: seq<T>)
    requires xs != []
    ensures xs[0] in xs
  {
  }

  /** Freeing all used blocks, in any order and with any unknown addresses in between,
      leaves one free block covering the area. */
  lemma {:induction false} FreeAllAnyOrder(s: State, bases: seq<nat>)
    requires Inv(s) && s.level == 2
    requires forall u :: u in s.used ==> u.base in bases
    ensures FreeEach(s, bases).used == []
    ensures FreeEach(s, bases).free == [Block(s.base, s.size)]
    decreases |bases|
  {
    if bases == [] {
      if s.used != [] {
        FirstMember(s.used);
        assert false;
      }
      NothingUsedOneBlock(s);
    } else {
      FreeKeepsInv(s, bases[0]);
      FreeForgetsBase(s, bases[0]);
      FreeAllAnyOrder(FreePages(s, bases[0]), bases[1..]);
    }
  }

  // ---------------------------------------------------------------- requests in bytes

  /** `bigphysarea_alloc`. */
  function AllocBytes(s: State, size: nat, mem: Memory): (State, nat) {
    AllocPages(s, (size + PAGE_SIZE - 1) / PAGE_SIZE, 1, mem)
  }

  /** `bigphysarea_get_max_size`. */
  function GetMaxSize(s: State, mem: Memory): (State, nat) {
    var s1 := if s.level == 1 then Init2(s, mem.initNode) else s;
    (s1, MaxSize(s1.free))
  }

  /** A request in bytes that succeeds is given the fewest whole pages that hold it, on a page
      boundary, all of it memory that was free. */
  lemma BytesGranted(s: State, size: nat, mem: Memory)
    requires Inv(s) && s.level == 2 && size > 0
    ensures var (t, x) := AllocBytes(s, size, mem);
            x != 0 ==>
              && |t.used| == |s.used| + 1 && t.used[1..] == s.used && t.used[0].base == x && x % 4096 == 0
              && t.used[0].size % 4096 == 0 && size <= t.used[0].size < size + 4096
              && FreeRun(s.free, x, t.used[0].size)
  {
    var pages := (size + PAGE_SIZE - 1) / PAGE_SIZE;
    RoundedUp(size);
    AllocEffect(s, pages, 1, mem);
    AllocKeepsInv(s, pages, 1, mem);
    var (t, x) := AllocPages(s, pages, 1, mem);
    hide AllocPages, Tiles, Coalesced, FreeRun;
    if x != 0 {
      assert t.used[0] in t.used && t.used[1..] == s.used;
    }
  }

  lemma RoundedUp(size: nat)
    ensures var n := (size + PAGE_SIZE - 1) / PAGE_SIZE * PAGE_SIZE;
            n % 4096 == 0 && size <= n < size + 4096
    ensures size > 0 ==> (size + PAGE_SIZE - 1) / PAGE_SIZE > 0
  {
  }

  /** A request in bytes succeeds exactly when its size rounded up to whole pages is at most
      what `bigphysarea_get_max_size` reports. */
  lemma AllocIffMaxSize(s: State, size: nat)
    requires Inv(s) && size > 0
    ensures var pages := (size + PAGE_SIZE - 1) / PAGE_SIZE;
            AllocBytes(s, size, PLENTY).1 != 0 <==> pages * PAGE_SIZE <= GetMaxSize(s, PLENTY).1
  {
    var pages := (size + PAGE_SIZE - 1) / PAGE_SIZE;
    PagesAllocated(s, pages);
  }

  lemma PagesAllocated(s: State, pages: nat)
    requires Inv(s) && pages > 0
    ensures AllocPages(s, pages, 1, PLENTY).1 != 0 <==> pages * PAGE_SIZE <= GetMaxSize(s, PLENTY).1
  {
    var s1 := if s.level < 2 then Init2(s, true) else s;
    Init2KeepsInv(s, true);
    if s1.level == 2 {
      GrantedIff(s1, pages * PAGE_SIZE);
    }
    assert s1.level < 2 ==> MaxSize(s1.free) == 0;
    hide Inv, Grant, MaxSize;
  }

  lemma GrantedIff(s: State, n: nat)
    requires Inv(s) && s.level == 2 && n > 0
    ensures Grant(s, n, PAGE_SIZE, PLENTY).1 != 0 <==> n <= MaxSize(s.free)
  {
    FitIffMaxSize(s.free, n);
    var k := FirstFit(s.free, n, PAGE_SIZE);
    if k < |s.free| {
      PagedBase(s, k);
    }
    hide AlignUp, Inv, FirstFit, MaxSize;
  }

  lemma PagedBase(s: State, k: nat)
    requires Inv(s) && s.level == 2 && k < |s.free|
    ensures s.free[k].base > 0 && AlignUp(s.free[k].base, PAGE_SIZE) == s.free[k].base
  {
    assert s.free[k] in s.free;
    PageAligned(s.free[k].base);
  }

  lemma PageAligned(x: nat)
    requires x % PAGE_SIZE == 0
    ensures AlignUp(x, PAGE_SIZE) == x
  {
  }

  lemma FitIffMaxSize(free: seq<Block>, n: nat)
    requires Paged(free) && n > 0
    ensures FirstFit(free, n, PAGE_SIZE) < |free| <==> n <= MaxSize(free)
  {
    var k := FirstFit(free, n, PAGE_SIZE);
    forall b | b in free
      ensures Fits(b, n, PAGE_SIZE) <==> n <= b.size
    {
      PageAligned(b.base);
    }
    if k < |free| {
      assert free[k] in free;
    } else {
      assert forall b :: b in free ==> b.size < n;
    }
  }

  // ---------------------------------------------------------------- whole runs

  datatype Op =
    | Alloc(count: nat, align: nat, mem: Memory)
    | Free(base: nat)
    | QueryMax(node: Memory)

  function Apply(s: State, op: Op): State {
    match op
    case Alloc(count, align, mem) => AllocPages(s, count, align, mem).0
    case Free(base) => FreePages(s, base)
    case QueryMax(mem) => GetMaxSize(s, mem).0
  }

  function Run(s: State, ops: seq<Op>): State
    decreases |ops|
  {
    if ops == [] then s else Run(Apply(s, ops[0]), ops[1..])
  }

  /** The state `bigphysarea_init` leaves: an area of whole pages, no lists yet. */
  function Booted(base: nat, pages: nat): State {
    State(1, base, pages * PAGE_SIZE, [], [])
  }

  /** In every run of requests for at least one page, free and used blocks tile the area
      exactly, free blocks are ascending and never touch, and the bytes of the two lists
      add up to the area. */
  lemma {:induction false} EveryRunTiles(s: State, ops: seq<Op>)
    requires Inv(s)
    requires forall op :: op in ops && op.Alloc? ==> op.count > 0
    ensures Inv(Run(s, ops))
    ensures Run(s, ops).base == s.base && Run(s, ops).size == s.size
    decreases |ops|
  {
    if ops != [] {
      match ops[0] {
        case Alloc(count, align, mem) => AllocKeepsInv(s, count, align, mem);
        case Free(base) => FreeKeepsInv(s, base);
        case QueryMax(mem) => Init2KeepsInv(s, mem.initNode);
      }
      EveryRunTiles(Apply(s, ops[0]), ops[1..]);
    }
  }

  // ---------------------------------------------------------------- conservation

  lemma {:induction false} TotalConcat(a: seq<Block>, b: seq<Block>)
    ensures Total(a + b) == Total(a) + Total(b)
  {
    if a == [] {
      assert a + b == b;
    } else {
      TotalConcat(a[1..], b);
      assert (a + b)[1..] == a[1..] + b;
    }
  }

  lemma {:induction false} TotalSplit(a: seq<Block>, k: nat)
    requires k < |a|
    ensures Total(a) == Total(a[..k]) + a[k].size + Total(a[k + 1..])
  {
    if k > 0 {
      TotalSplit(a[1..], k - 1);
      assert a[1..][..k - 1] == a[..k][1..];
      assert a[1..][k..] == a[k + 1..];
    }
  }

  lemma TotalCarve(free: seq<Block>, k: nat, x: nat, n: nat)
    requires k < |free| && free[k].base <= x && x + n <= free[k].End()
    ensures Total(Carve(free, k, x, n)) + n == Total(free)
  {
    var mid := Leftover(free[k], x, n);
    TotalConcat(free[..k] + mid, free[k + 1..]);
    TotalConcat(free[..k], mid);
    TotalSplit(free, k);
    TotalLeftover(free[k], x, n);
  }

  lemma TotalLeftover(b: Block, x: nat, n: nat)
    requires b.base <= x && x + n <= b.End()
    ensures Total(Leftover(b, x, n)) + n == b.size
  {
    TotalConcat(if x != b.base then [Block(b.base, x - b.base)] else [],
                if x - b.base + n < b.size then [Block(x + n, b.End() - (x + n))] else []);
  }

  lemma TotalMerge(f: seq<Block>, k: nat)
    requires k + 1 < |f|
    ensures Total(f[..k] + [Block(f[k].base, f[k].size + f[k + 1].size)] + f[k + 2..]) == Total(f)
  {
    var m := Block(f[k].base, f[k].size + f[k + 1].size);
    TotalConcat(f[..k] + [m], f[k + 2..]);
    TotalConcat(f[..k], [m]);
    TotalSplit(f, k);
    assert f[k + 1..][1..] == f[k + 2..];
  }

  lemma TotalOne(b: Block)
    ensures Total([b]) == b.size
  {
    assert [b][1..] == [];
  }

  lemma TotalInsert(free: seq<Block>, b: Block, k: nat)
    requires k <= |free|
    ensures Total(free[..k] + [b] + free[k..]) == Total(free) + b.size
  {
    hide Total;
    TotalConcat(free[..k] + [b], free[k..]);
    TotalConcat(free[..k], [b]);
    TotalConcat(free[..k], free[k..]);
    TotalOne(b);
    assert free == free[..k] + free[k..];
  }

  lemma TotalRelease(free: seq<Block>, b: Block)
    ensures Total(Release(free, b)) == Total(free) + b.size
  {
    var k := InsertAt(free, b.base);
    var f1 := free[..k] + [b] + free[k..];
    TotalInsert(free, b, k);
    assert Total(MergeUp(f1, k)) == Total(f1) by {
      if k + 1 < |f1| { TotalMerge(f1, k); }
    }
    var f2 := MergeUp(f1, k);
    assert Total(MergeDown(f2, k)) == Total(f2) by {
      if k > 0 { TotalMerge(f2, k - 1); }
    }
  }

  /** Bytes the lists account for: all of the area once they exist. */
  ghost predicate Accounted(s: State) {
    s.level == 2 ==> Total(s.free) + Total(s.used) == s.size
  }

  lemma {:induction false} EveryRunConservesBytes(s: State, ops: seq<Op>)
    requires Accounted(s) && s.level <= 2 && (s.level < 2 ==> s.free == [] && s.used == [])
    ensures Accounted(Run(s, ops))
    decreases |ops|
  {
    if ops != [] {
      var t := Apply(s, ops[0]);
      StepConservesBytes(s, ops[0]);
      EveryRunConservesBytes(t, ops[1..]);
    }
  }

  lemma StepConservesBytes(s: State, op: Op)
    requires Accounted(s) && s.level <= 2 && (s.level < 2 ==> s.free == [] && s.used == [])
    ensures Accounted(Apply(s, op))
    ensures Apply(s, op).level <= 2
    ensures Apply(s, op).level < 2 ==> Apply(s, op).free == [] && Apply(s, op).used == []
  {
    match op
    case Alloc(count, align, mem) =>
      var s1 := if s.level < 2 then Init2(s, mem.initNode) else s;
      if s1.level == 2 {
        AllocConservesBytes(s1, count, align, mem);
      }
    case Free(base) =>
      FreeConservesBytes(s, base);
    case QueryMax(mem) =>
  }

  lemma AllocConservesBytes(s: State, count: nat, align: nat, mem: Memory)
    requires Accounted(s) && s.level == 2
    ensures Accounted(AllocPages(s, count, align, mem).0)
    ensures AllocPages(s, count, align, mem).0.level == 2
  {
    var a, n := Alignment(align), count * PAGE_SIZE;
    var k := FirstFit(s.free, n, a);
    if k < |s.free| {
      AlignUpLeast(s.free[k].base, a);
      TotalCarve(s.free, k, AlignUp(s.free[k].base, a), n);
    }
  }

  lemma FreeConservesBytes(s: State, base: nat)
    requires Accounted(s)
    ensures Accounted(FreePages(s, base))
  {
    var k := FindBase(s.used, base);
    if k < |s.used| {
      TotalRelease(s.free, s.used[k]);
      TotalSplit(s.used, k);
      TotalConcat(s.used[..k], s.used[k + 1..]);
    }
  }
}
