/** The page allocator of `mm/bigphysarea.c` as a function on values.

  The free list is a sequence of address ranges.  Everything the allocator promises
  rests on that list being CANONICAL: every range is non-empty, the list ascends, and no
  two ranges touch.  A canonical list is determined by the set of addresses it holds, so
  the effect of every operation can be stated as a change of that set. */
module BigPhysAlloc {
  import Arith

  const PAGE_SIZE: nat := 4096

  /** A `range_t`: `size` bytes from address `base`. */
  datatype Block = Block(base: nat, size: nat) {
    function End(): nat { base + size }
    predicate Holds(x: int) { base <= x < base + size }
  }

  /** `level` is `init_level`; `base` and `size` describe the reserved area in bytes. */
  datatype State = State(level: nat, base: nat, size: nat, free: seq<Block>, used: seq<Block>)

  /** Which of the `kmalloc` calls of one operation succeed: the one in `init2`, the one
      for `new_range` and the one for `align_range`. */
  datatype Memory = Memory(initNode: bool, newNode: bool, alignNode: bool)

  /** Enough node memory for every `kmalloc` of an operation. */
  const PLENTY := Memory(true, true, true)

  // ---------------------------------------------------------------- address sets

  ghost predicate Has(blocks: seq<Block>, x: int) {
    exists b :: b in blocks && b.Holds(x)
  }

  predicate Apart(a: Block, b: Block) {
    a.End() <= b.base || b.End() <= a.base
  }

  /** Page-granular and not empty. */
  ghost predicate Paged(blocks: seq<Block>) {
    forall b :: b in blocks ==> b.base % PAGE_SIZE == 0 && b.size % PAGE_SIZE == 0 && b.size > 0
  }

  /** Ascending, and a gap between any two ranges. */
  ghost predicate Coalesced(blocks: seq<Block>) {
    forall i, j :: 0 <= i < j < |blocks| ==> blocks[i].End() < blocks[j].base
  }

  ghost predicate Canonical(blocks: seq<Block>) {
    && (forall b :: b in blocks ==> b.size > 0)
    && Coalesced(blocks)
  }

  ghost predicate PairwiseApart(blocks: seq<Block>) {
    forall i, j :: 0 <= i < j < |blocks| ==> Apart(blocks[i], blocks[j])
  }

  ghost predicate Inside(base: nat, size: nat, blocks: seq<Block>) {
    forall b :: b in blocks ==> base <= b.base && b.End() <= base + size
  }

  /** Every block of one list is apart from every block of the other. */
  ghost predicate ListsApart(a: seq<Block>, b: seq<Block>) {
    forall f, u :: f in a && u in b ==> Apart(f, u)
  }

  ghost predicate Covers(base: nat, size: nat, free: seq<Block>, used: seq<Block>) {
    forall x :: base <= x < base + size ==> Has(free, x) || Has(used, x)
  }

  /** Free and used blocks tile the area `[base, base + size)` exactly. */
  ghost predicate Tiles(base: nat, size: nat, free: seq<Block>, used: seq<Block>) {
    && Inside(base, size, free) && Inside(base, size, used)
    && PairwiseApart(used)
    && ListsApart(free, used)
    && Covers(base, size, free, used)
  }

  /** What every reachable state satisfies. */
  ghost predicate Inv(s: State) {
    && s.level <= 2
    && (s.level >= 1 ==> s.base > 0 && s.size > 0 && s.base % PAGE_SIZE == 0 && s.size % PAGE_SIZE == 0)
    && (s.level < 2 ==> s.free == [] && s.used == [])
    && (s.level == 2 ==>
          && Paged(s.free) && Paged(s.used) && Coalesced(s.free)
          && Tiles(s.base, s.size, s.free, s.used))
  }

  // ---------------------------------------------------------------- operations

  /** The least multiple of `a` that is not below `x`, as the C expression computes it. */
  function AlignUp(x: nat, a: nat): nat
    requires a > 0
  {
    (x + a - 1) / a * a
  }

  /** `align` counts pages; 0 stands for one page. */
  function Alignment(align: nat): (a: nat)
    ensures a > 0
  {
    if align == 0 then PAGE_SIZE else align * PAGE_SIZE
  }

  predicate Fits(b: Block, n: nat, a: nat)
    requires a > 0
  {
    AlignUp(b.base, a) + n <= b.End()
  }

  /** Index of the first block from `k` on that is large enough even after alignment. */
  function FirstFit(free: seq<Block>, n: nat, a: nat, k: nat := 0): (r: nat)
    requires a > 0 && k <= |free|
    ensures k <= r <= |free|
    ensures forall i :: k <= i < r ==> !Fits(free[i], n, a)
    ensures r < |free| ==> Fits(free[r], n, a)
    decreases |free| - k
  {
    if k == |free| || Fits(free[k], n, a) then k else FirstFit(free, n, a, k + 1)
  }

  /** What is left of block `b` once `n` bytes from `x` are taken out of it. */
  function Leftover(b: Block, x: nat, n: nat): seq<Block>
    requires b.base <= x && x + n <= b.End()
  {
    (if x != b.base then [Block(b.base, x - b.base)] else []) +
    (if x - b.base + n < b.size then [Block(x + n, b.End() - (x + n))] else [])
  }

  function Carve(free: seq<Block>, k: nat, x: nat, n: nat): seq<Block>
    requires k < |free| && free[k].base <= x && x + n <= free[k].End()
  {
    free[..k] + Leftover(free[k], x, n) + free[k + 1..]
  }

  /** `init2`: the whole area becomes one free block, if there is an area and a node. */
  function Init2(s: State, node: bool): State {
    if s.level == 1 && node
    then s.(level := 2, free := [Block(s.base, s.size)])
    else s
  }

  /** The nodes that carving `n` bytes at `x` out of `b` needs. */
  predicate NodesSuffice(b: Block, x: nat, n: nat, mem: Memory)
    requires b.base <= x
  {
    && (x - b.base + n < b.size ==> mem.newNode)
    && (x != b.base ==> mem.alignNode)
  }

  /** Take `n` bytes aligned to `a` out of the first block that has them. */
  function Grant(s: State, n: nat, a: nat, mem: Memory): (r: (State, nat))
    requires a > 0
  {
    var k := FirstFit(s.free, n, a);
    if k == |s.free| then (s, 0) else
    AlignUpLeast(s.free[k].base, a);
    var x := AlignUp(s.free[k].base, a);
    if !NodesSuffice(s.free[k], x, n, mem) then (s, 0) else
    (s.(free := Carve(s.free, k, x, n), used := [Block(x, n)] + s.used), x)
  }

  /** `bigphysarea_alloc_pages`: the new state and the address returned, 0 for failure. */
  function AllocPages(s: State, count: nat, align: nat, mem: Memory): (r: (State, nat)) {
    var s1 := if s.level < 2 then Init2(s, mem.initNode) else s;
    if s1.level < 2 then (s1, 0) else Grant(s1, count * PAGE_SIZE, Alignment(align), mem)
  }

  /** Index of the first used block at `base`. */
  function FindBase(blocks: seq<Block>, base: nat, k: nat := 0): (r: nat)
    requires k <= |blocks|
    ensures k <= r <= |blocks|
    ensures forall i :: k <= i < r ==> blocks[i].base != base
    ensures r < |blocks| ==> blocks[r].base == base
    decreases |blocks| - k
  {
    if k == |blocks| || blocks[k].base == base then k else FindBase(blocks, base, k + 1)
  }

  /** Insertion point in the address-sorted free list. */
  function InsertAt(free: seq<Block>, base: nat, k: nat := 0): (r: nat)
    requires k <= |free|
    ensures k <= r <= |free|
    ensures forall i :: k <= i < r ==> free[i].base < base
    ensures r < |free| ==> free[r].base >= base
    decreases |free| - k
  {
    if k == |free| || free[k].base >= base then k else InsertAt(free, base, k + 1)
  }

  /** Merge with the upper neighbour when they touch. */
  function MergeUp(free: seq<Block>, k: nat): seq<Block>
    requires k < |free|
  {
    if k + 1 < |free| && free[k].End() == free[k + 1].base
    then free[..k] + [Block(free[k].base, free[k].size + free[k + 1].size)] + free[k + 2..]
    else free
  }

  /** Merge with the lower neighbour when they touch. */
  function MergeDown(free: seq<Block>, k: nat): seq<Block>
    requires k < |free|
  {
    if k > 0 && free[k - 1].End() == free[k].base
    then free[..k - 1] + [Block(free[k - 1].base, free[k - 1].size + free[k].size)] + free[k + 1..]
    else free
  }

  function Release(free: seq<Block>, b: Block): seq<Block> {
    var k := InsertAt(free, b.base);
    MergeDown(MergeUp(free[..k] + [b] + free[k..], k), k)
  }

  /** `bigphysarea_free_pages`: an address no used block starts at changes nothing. */
  function FreePages(s: State, base: nat): State {
    var k := FindBase(s.used, base);
    if k == |s.used| then s
    else s.(free := Release(s.free, s.used[k]), used := s.used[..k] + s.used[k + 1..])
  }

  /** Size of the largest block from `k` on. */
  function MaxSize(blocks: seq<Block>): (m: nat)
    ensures forall b :: b in blocks ==> b.size <= m
    ensures m > 0 ==> exists b :: b in blocks && b.size == m
  {
    if blocks == [] then 0
    else
      var m := MaxSize(blocks[..|blocks| - 1]);
      var l := blocks[|blocks| - 1];
      assert blocks == blocks[..|blocks| - 1] + [l];
      if l.size > m then assert l in blocks; l.size else m
  }

  /** Bytes in a list of blocks. */
  function Total(blocks: seq<Block>): nat {
    if blocks == [] then 0 else blocks[0].size + Total(blocks[1..])
  }

  // ---------------------------------------------------------------- alignment

  lemma AlignUpLeast(x: nat, a: nat)
    requires a > 0
    ensures AlignUp(x, a) % a == 0
    ensures x <= AlignUp(x, a) < x + a
    ensures forall y: nat :: y % a == 0 && y >= x ==> AlignUp(x, a) <= y
  {
    var q := (x + a - 1) / a;
    Arith.DivModUnique(q * a, q, 0, a);
    forall y: nat | y % a == 0 && y >= x
      ensures AlignUp(x, a) <= y
    {
      if y / a < q {
        Arith.MulMonotone(y / a + 1, q, a);
      } else {
        Arith.MulMonotone(q, y / a, a);
      }
    }
  }
}
