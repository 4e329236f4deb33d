/** The two list transformations of the allocator seen as operations on address sets, and
  the uniqueness of the canonical list of a set. */
module BigPhysSets {
  import opened BigPhysAlloc

  lemma HasConcat(a: seq<Block>, b: seq<Block>, x: int)
    ensures Has(a + b, x) <==> Has(a, x) || Has(b, x)
  {
  }

  lemma HasOne(b: Block, x: int)
    ensures Has([b], x) <==> b.Holds(x)
  {
  }

  lemma HasSplit(blocks: seq<Block>, k: nat, x: int)
    requires k < |blocks|
    ensures Has(blocks, x) <==> Has(blocks[..k], x) || blocks[k].Holds(x) || Has(blocks[k + 1..], x)
  {
  }

  // ---------------------------------------------------------------- canonical lists

  lemma HeadIsLeast(a: seq<Block>, x: int)
    requires Canonical(a) && a != [] && Has(a, x)
    ensures a[0].base <= x
    ensures x < a[0].End() || x > a[0].End()
  {
  }

  lemma TailSet(a: seq<Block>, x: int)
    requires Canonical(a) && a != []
    ensures Has(a[1..], x) <==> Has(a, x) && x >= a[0].End()
  {
  }

  ghost predicate SameSet(a: seq<Block>, b: seq<Block>) {
    forall x: nat :: Has(a, x) <==> Has(b, x)
  }

  /** A set of addresses has at most one canonical list. */
  lemma {:induction false} CanonicalUnique(a: seq<Block>, b: seq<Block>)
    requires Canonical(a) && Canonical(b) && SameSet(a, b)
    ensures a == b
  {
    if a == [] {
      EmptySet(b, a);
    } else if b == [] {
      EmptySet(a, b);
    } else {
      HeadNotBelow(a, b);
      HeadNotBelow(b, a);
      TailsSame(a, b);
      CanonicalUnique(a[1..], b[1..]);
      assert a == [a[0]] + a[1..] && b == [b[0]] + b[1..];
    }
  }

  lemma EmptySet(a: seq<Block>, none: seq<Block>)
    requires Canonical(a) && SameSet(a, none) && none == []
    ensures a == []
  {
    assert a != [] ==> Has(a, a[0].base) by {
      if a != [] {
        HasSplit(a, 0, a[0].base);
      }
    }
    assert forall x: nat :: !Has(none, x);
  }

  lemma TailsSame(a: seq<Block>, b: seq<Block>)
    requires Canonical(a) && Canonical(b) && SameSet(a, b) && a != [] && b != []
    requires a[0] == b[0]
    ensures Canonical(a[1..]) && Canonical(b[1..]) && SameSet(a[1..], b[1..])
  {
    forall x: nat
      ensures Has(a[1..], x) <==> Has(b[1..], x)
    {
      TailSet(a, x);
      TailSet(b, x);
    }
    assert forall c :: c in a[1..] ==> c in a;
    assert forall c :: c in b[1..] ==> c in b;
  }

  lemma HeadNotBelow(a: seq<Block>, b: seq<Block>)
    requires Canonical(a) && Canonical(b) && a != [] && b != [] && SameSet(a, b)
    ensures b[0].base <= a[0].base
    ensures a[0].base == b[0].base ==> b[0].End() <= a[0].End()
  {
    HasSplit(a, 0, a[0].base);
    HeadIsLeast(b, a[0].base);
    if a[0].base == b[0].base && a[0].End() < b[0].End() {
      HasSplit(b, 0, a[0].End());
      assert Has(a, a[0].End());
      HeadIsLeast(a, a[0].End());
    }
  }

  // ---------------------------------------------------------------- allocation

  /** Carving `n` bytes at `x` out of block `k` removes exactly these addresses. */
  lemma CarveSet(free: seq<Block>, k: nat, x: nat, n: nat)
    requires Canonical(free)
    requires k < |free| && free[k].base <= x && x + n <= free[k].End()
    ensures forall y: nat :: Has(Carve(free, k, x, n), y) <==> Has(free, y) && !(x <= y < x + n)
  {
    var r := free[k];
    var mid := Leftover(r, x, n);
    forall y: nat
      ensures Has(Carve(free, k, x, n), y) <==> Has(free, y) && !(x <= y < x + n)
    {
      HasSplit(free, k, y);
      HasConcat(free[..k] + mid, free[k + 1..], y);
      HasConcat(free[..k], mid, y);
      LeftoverSet(r, x, n, y);
      NeighboursApart(free, k, y);
    }
  }

  lemma LeftoverSet(b: Block, x: nat, n: nat, y: int)
    requires b.base <= x && x + n <= b.End()
    ensures Has(Leftover(b, x, n), y) <==> b.Holds(y) && !(x <= y < x + n)
  {
    var lo := if x != b.base then [Block(b.base, x - b.base)] else [];
    var hi := if x - b.base + n < b.size then [Block(x + n, b.End() - (x + n))] else [];
    HasConcat(lo, hi, y);
    if x != b.base {
      HasOne(lo[0], y);
    }
    if x - b.base + n < b.size {
      HasOne(hi[0], y);
    }
  }

  lemma NeighboursApart(free: seq<Block>, k: nat, y: int)
    requires Canonical(free) && k < |free|
    ensures free[k].Holds(y) ==> !Has(free[..k], y) && !Has(free[k + 1..], y)
  {
  }

  lemma CarveCanonical(free: seq<Block>, k: nat, x: nat, n: nat)
    requires Canonical(free) && n > 0
    requires k < |free| && free[k].base <= x && x + n <= free[k].End()
    ensures Canonical(Carve(free, k, x, n))
  {
    var c, mid := Carve(free, k, x, n), Leftover(free[k], x, n);
    var d := |mid| - 1;
    assert forall i :: 0 <= i < k ==> c[i] == free[i];
    assert forall i :: k <= i < k + |mid| ==> c[i] == mid[i - k];
    assert forall i :: k + |mid| <= i < |c| ==> c[i] == free[i - d];
    assert forall b :: b in mid ==> free[k].base <= b.base && b.End() <= free[k].End() && b.size > 0;
    forall i, j | 0 <= i < j < |c|
      ensures c[i].End() < c[j].base
    {
      assert k <= i < k + |mid| ==> c[i] in mid;
      assert k <= j < k + |mid| ==> c[j] in mid;
    }
  }

  // ---------------------------------------------------------------- release

  /** Ascending; a gap everywhere except possibly between positions `k - 1` and `k`
      (when `down`) and between `k` and `k + 1` (when `up`). */
  ghost predicate NearlyCanonical(f: seq<Block>, k: nat, down: bool, up: bool) {
    && (forall b :: b in f ==> b.size > 0)
    && (forall i, j :: 0 <= i < j < |f| ==> f[i].End() <= f[j].base)
    && (forall i, j :: 0 <= i < j < |f| && f[i].End() == f[j].base ==>
          (down && i == k - 1 && j == k) || (up && i == k && j == k + 1))
  }

  lemma InsertSides(free: seq<Block>, b: Block, i: nat)
    requires Canonical(free) && b.size > 0 && i < |free|
    requires Apart(free[i], b)
    ensures i < InsertAt(free, b.base) ==> free[i].End() <= b.base
    ensures i >= InsertAt(free, b.base) ==> b.End() <= free[i].base
  {
  }

  lemma InsertNearly(free: seq<Block>, b: Block, k: nat, c: seq<Block>)
    requires Canonical(free) && b.size > 0 && k == InsertAt(free, b.base)
    requires forall i :: 0 <= i < |free| ==> Apart(free[i], b)
    requires |c| == |free| + 1 && c[k] == b
    requires forall i :: 0 <= i < k ==> c[i] == free[i]
    requires forall i :: k < i < |c| ==> c[i] == free[i - 1]
    ensures NearlyCanonical(c, k, true, true)
  {
    forall i | 0 <= i < |free|
      ensures i < k ==> free[i].End() <= b.base
      ensures i >= k ==> b.End() <= free[i].base
    {
      InsertSides(free, b, i);
    }
    forall i | 0 <= i < |c|
      ensures c[i].size > 0
    {
      assert i != k ==> c[i] in free;
    }
    forall i, j | 0 <= i < j < |c|
      ensures c[i].End() <= c[j].base
      ensures c[i].End() == c[j].base ==> (i == k - 1 && j == k) || (i == k && j == k + 1)
    {
      if j == k && i < k - 1 {
        assert free[i].End() < free[k - 1].base;
      } else if i == k && j > k + 1 {
        assert free[k].End() < free[j - 1].base;
      }
    }
  }

  /** Replacing the touching pair at `k`, `k + 1` by one block. */
  lemma MergeNearly(f: seq<Block>, k: nat, g: seq<Block>, down: bool)
    requires k + 1 < |f| && f[k].End() == f[k + 1].base
    requires NearlyCanonical(f, k, down, true)
    requires g == f[..k] + [Block(f[k].base, f[k].size + f[k + 1].size)] + f[k + 2..]
    ensures NearlyCanonical(g, k, down, false)
    ensures forall y: nat :: Has(g, y) <==> Has(f, y)
  {
    var m := Block(f[k].base, f[k].size + f[k + 1].size);
    assert forall d :: d in g ==> d == m || d in f;
    MergedPairs(f, k, g, down);
    forall y: nat
      ensures Has(g, y) <==> Has(f, y)
    {
      MergedSet(f, k, y);
    }
  }

  lemma MergedPairs(f: seq<Block>, k: nat, g: seq<Block>, down: bool)
    requires k + 1 < |f| && f[k].End() == f[k + 1].base
    requires NearlyCanonical(f, k, down, true)
    requires |g| == |f| - 1 && g[k] == Block(f[k].base, f[k].size + f[k + 1].size)
    requires forall i :: 0 <= i < k ==> g[i] == f[i]
    requires forall i :: k < i < |g| ==> g[i] == f[i + 1]
    ensures forall i, j :: 0 <= i < j < |g| ==> g[i].End() <= g[j].base
    ensures forall i, j :: 0 <= i < j < |g| && g[i].End() == g[j].base ==> down && i == k - 1 && j == k
  {
  }

  lemma MergeUpNearly(f: seq<Block>, k: nat)
    requires k < |f| && NearlyCanonical(f, k, true, true)
    ensures k < |MergeUp(f, k)| && NearlyCanonical(MergeUp(f, k), k, true, false)
    ensures forall y: nat :: Has(MergeUp(f, k), y) <==> Has(f, y)
  {
    if k + 1 < |f| && f[k].End() == f[k + 1].base {
      MergeNearly(f, k, MergeUp(f, k), true);
    }
  }

  lemma MergeDownCanonical(f: seq<Block>, k: nat)
    requires k < |f| && NearlyCanonical(f, k, true, false)
    ensures Canonical(MergeDown(f, k))
    ensures forall y: nat :: Has(MergeDown(f, k), y) <==> Has(f, y)
  {
    if k > 0 && f[k - 1].End() == f[k].base {
      MergeNearly(f, k - 1, MergeDown(f, k), false);
    }
  }

  lemma MergedSet(f: seq<Block>, k: nat, y: int)
    requires k + 1 < |f| && f[k].End() == f[k + 1].base
    ensures var m := Block(f[k].base, f[k].size + f[k + 1].size);
            Has(f[..k] + [m] + f[k + 2..], y) <==> Has(f, y)
  {
    var m := Block(f[k].base, f[k].size + f[k + 1].size);
    HasConcat(f[..k] + [m], f[k + 2..], y);
    HasConcat(f[..k], [m], y);
    HasOne(m, y);
    HasSplit(f, k, y);
    HasSplit(f[k + 1..], 0, y);
    assert f[k + 1..][1..] == f[k + 2..];
  }

  /** Releasing a block keeps the list canonical and adds exactly its addresses. */
  lemma ReleaseSet(free: seq<Block>, b: Block)
    requires Canonical(free) && b.size > 0
    requires forall f :: f in free ==> Apart(f, b)
    ensures Canonical(Release(free, b))
    ensures forall y: nat :: Has(Release(free, b), y) <==> Has(free, y) || b.Holds(y)
  {
    var k := InsertAt(free, b.base);
    var f1 := free[..k] + [b] + free[k..];
    InsertedNearly(free, b, k);
    hide Canonical, NearlyCanonical, Has, MergeUp, MergeDown, Apart;
    MergeUpNearly(f1, k);
    MergeDownCanonical(MergeUp(f1, k), k);
    InsertedSet(free, b, k);
  }

  lemma InsertedNearly(free: seq<Block>, b: Block, k: nat)
    requires Canonical(free) && b.size > 0 && k == InsertAt(free, b.base)
    requires forall f :: f in free ==> Apart(f, b)
    ensures NearlyCanonical(free[..k] + [b] + free[k..], k, true, true)
  {
    assert forall i :: 0 <= i < |free| ==> free[i] in free;
    hide NearlyCanonical, Canonical, Apart;
    InsertNearly(free, b, k, free[..k] + [b] + free[k..]);
  }

  lemma InsertedSet(free: seq<Block>, b: Block, k: nat)
    requires k <= |free|
    ensures forall y: nat :: Has(free[..k] + [b] + free[k..], y) <==> Has(free, y) || b.Holds(y)
  {
  }
}
