/** The link between shared list nodes and the model of ashmem.  A shape is what a pointer
  structure amounts to: the node list of every area, the LRU node list and the value of
  every node.  Nodes are an arbitrary type. */
module AshmemShape {
  import opened AshmemModel
  import opened AshmemLists
  import opened AshmemOps
  import opened AshmemShrink

  datatype Shape<!N> = Shape(lists: map<nat, seq<N>>, lru: seq<N>, val: map<N, Range>)

  /** The nodes have the values `rs`, in order. */
  ghost predicate Shows<N>(ns: seq<N>, rs: seq<Range>, val: map<N, Range>) {
    |ns| == |rs| && forall i :: 0 <= i < |ns| ==> ns[i] in val && val[ns[i]] == rs[i]
  }

  /** Nodes of one area's list are of that area, different, and on the LRU list unless purged. */
  ghost predicate ListOk<N>(h: Shape<N>, a: nat)
    requires a in h.lists
  {
    && Distinct(h.lists[a])
    && forall n :: n in h.lists[a] ==> n in h.val && h.val[n].area == a && (!h.val[n].purged ==> n in h.lru)
  }

  ghost predicate LruNodes<N>(h: Shape<N>) {
    && Distinct(h.lru)
    && forall n :: n in h.lru ==>
         n in h.val && h.val[n].area in h.lists && n in h.lists[h.val[n].area] && !h.val[n].purged
  }

  ghost predicate Tied<N>(h: Shape<N>, m: State) {
    && h.lists.Keys == m.areas.Keys
    && (forall a :: a in h.lists ==> ListOk(h, a) && Shows(h.lists[a], m.areas[a].ranges, h.val))
    && LruNodes(h) && Shows(h.lru, m.lru, h.val)
    && Distinct(m.lru)
  }

  /** What a tied list says about its nodes. */
  lemma ListShows<N>(h: Shape<N>, m: State, a: nat)
    requires Tied(h, m) && a in h.lists
    ensures a in m.areas && |h.lists[a]| == |m.areas[a].ranges|
    ensures forall i :: 0 <= i < |h.lists[a]| ==>
              && h.lists[a][i] in h.val && h.val[h.lists[a][i]] == m.areas[a].ranges[i]
              && (!h.val[h.lists[a][i]].purged ==> h.lists[a][i] in h.lru)
  {
  }

  // ---------------------------------------------------------------- insertion

  function WithNew<N>(h: Shape<N>, a: nat, i: nat, n: N, r: Range): Shape<N>
    requires a in h.lists && i <= |h.lists[a]|
  {
    Shape(h.lists[a := Insert(h.lists[a], i, n)], if r.purged then h.lru else h.lru + [n], h.val[n := r])
  }

  lemma ShowsOther<N>(ns: seq<N>, rs: seq<Range>, val: map<N, Range>, n: N, r: Range)
    requires Shows(ns, rs, val) && n !in ns
    ensures Shows(ns, rs, val[n := r])
  {
  }

  lemma ShowsInsert<N>(ns: seq<N>, rs: seq<Range>, val: map<N, Range>, i: nat, n: N, r: Range)
    requires Shows(ns, rs, val) && i <= |ns| && n in val && val[n] == r
    ensures Shows(Insert(ns, i, n), Insert(rs, i, r), val)
  {
  }

  lemma InsertDistinct<N>(ns: seq<N>, i: nat, n: N)
    requires Distinct(ns) && i <= |ns| && n !in ns
    ensures Distinct(Insert(ns, i, n))
  {
  }

  lemma NewList<N>(h: Shape<N>, m: State, a: nat, i: nat, n: N, r: Range)
    requires Tied(h, m) && a in h.lists && i <= |h.lists[a]| && n !in h.val && r.area == a
    ensures ListOk(WithNew(h, a, i, n, r), a)
    ensures i <= |m.areas[a].ranges|
    ensures Shows(Insert(h.lists[a], i, n), Insert(m.areas[a].ranges, i, r), h.val[n := r])
  {
    assert ListOk(h, a);
    InsertMembers(h.lists[a], i, n);
    InsertDistinct(h.lists[a], i, n);
    ShowsOther(h.lists[a], m.areas[a].ranges, h.val, n, r);
    ShowsInsert(h.lists[a], m.areas[a].ranges, h.val[n := r], i, n, r);
  }

  lemma NewLru<N>(h: Shape<N>, m: State, a: nat, i: nat, n: N, r: Range)
    requires Tied(h, m) && a in h.lists && i <= |h.lists[a]| && n !in h.val && r.area == a && r !in m.lru
    ensures LruNodes(WithNew(h, a, i, n, r))
    ensures var lru := if r.purged then m.lru else m.lru + [r];
            Shows(WithNew(h, a, i, n, r).lru, lru, h.val[n := r]) && Distinct(lru)
  {
    InsertMembers(h.lists[a], i, n);
    ShowsOther(h.lru, m.lru, h.val, n, r);
  }

  lemma NewIsTied<N>(h: Shape<N>, m: State, a: nat, i: nat, n: N, r: Range, h': Shape<N>, m': State)
    requires Tied(h, m) && a in h.lists && i <= |h.lists[a]| && n !in h.val
    requires r.area == a && r !in m.lru
    requires a in m.areas && i <= |m.areas[a].ranges|
    requires h' == WithNew(h, a, i, n, r) && m' == RangeAlloc(m, a, i, r.purged, r.first, r.last)
    ensures Tied(h', m')
  {
    NewList(h, m, a, i, n, r);
    NewLru(h, m, a, i, n, r);
    forall b | b in h'.lists && b != a
      ensures ListOk(h', b) && Shows(h'.lists[b], m'.areas[b].ranges, h'.val)
    {
      assert ListOk(h, b);
      ShowsOther(h.lists[b], m.areas[b].ranges, h.val, n, r);
    }
  }

  // ---------------------------------------------------------------- deletion

  /** `k` is the position of the node on the LRU list when it has one. */
  function Without<N>(h: Shape<N>, a: nat, i: nat, k: nat): Shape<N>
    requires a in h.lists && i < |h.lists[a]| && h.lists[a][i] in h.val
    requires !h.val[h.lists[a][i]].purged ==> k < |h.lru|
  {
    h.(lists := h.lists[a := Drop(h.lists[a], i)],
       lru := if h.val[h.lists[a][i]].purged then h.lru else Drop(h.lru, k))
  }

  lemma ShowsDrop<N>(ns: seq<N>, rs: seq<Range>, val: map<N, Range>, i: nat)
    requires Shows(ns, rs, val) && i < |ns|
    ensures Shows(Drop(ns, i), Drop(rs, i), val)
  {
  }

  lemma FindDistinct(xs: seq<Range>, k: nat)
    requires Distinct(xs) && k < |xs|
    ensures Find(xs, xs[k]) == k
  {
  }

  lemma DeletedIsTied<N>(h: Shape<N>, m: State, a: nat, i: nat, k: nat, h': Shape<N>, m': State)
    requires Tied(h, m) && a in h.lists && i < |h.lists[a]|
    requires h.lists[a][i] in h.val
    requires !h.val[h.lists[a][i]].purged ==> k < |h.lru| && h.lru[k] == h.lists[a][i]
    requires a in m.areas && i < |m.areas[a].ranges|
    requires h' == Without(h, a, i, k) && m' == RangeDel(m, a, i)
    ensures Tied(h', m')
  {
    var n, r := h.lists[a][i], m.areas[a].ranges[i];
    assert ListOk(h, a) && Shows(h.lists[a], m.areas[a].ranges, h.val);
    DropMembers(h.lists[a], i);
    ShowsDrop(h.lists[a], m.areas[a].ranges, h.val, i);
    if !r.purged {
      assert m.lru[k] == r;
      FindDistinct(m.lru, k);
      DropMembers(m.lru, k);
      DropMembers(h.lru, k);
      ShowsDrop(h.lru, m.lru, h.val, k);
    }
    assert m'.lru == if r.purged then m.lru else Drop(m.lru, k);
    forall b | b in h'.lists
      ensures ListOk(h', b) && Shows(h'.lists[b], m'.areas[b].ranges, h'.val)
    {
      assert ListOk(h, b);
    }
  }

  // ---------------------------------------------------------------- new bounds

  function WithValue<N>(h: Shape<N>, n: N, r: Range): Shape<N> {
    h.(val := h.val[n := r])
  }

  lemma ShowsUpdate<N>(ns: seq<N>, rs: seq<Range>, val: map<N, Range>, i: nat, r: Range)
    requires Shows(ns, rs, val) && Distinct(ns) && i < |ns|
    ensures Shows(ns, rs[i := r], val[ns[i] := r])
  {
  }

  /** Lists of other areas do not notice the change of a node. */
  lemma OthersKeep<N>(h: Shape<N>, m: State, a: nat, n: N, r: Range)
    requires Tied(h, m) && a in h.lists && n in h.lists[a] && r.area == a
    ensures forall b :: b in h.lists && b != a ==>
              n !in h.lists[b] && Shows(h.lists[b], m.areas[b].ranges, h.val[n := r])
  {
  }

  /** The LRU list shows the change of a node that is on it, at the place of the node. */
  lemma LruShowsChange<N>(h: Shape<N>, m: State, n: N, r: Range)
    requires Tied(h, m) && n in h.val && r !in m.lru
    ensures n !in h.lru ==> Shows(h.lru, m.lru, h.val[n := r])
    ensures n in h.lru ==>
              var k := Find(m.lru, h.val[n]);
              k < |m.lru| && Shows(h.lru, m.lru[k := r], h.val[n := r]) && Distinct(m.lru[k := r])
  {
  }

  /** A node changes its bounds in place: both its lists show it. */
  lemma ChangedIsTied<N>(h: Shape<N>, m: State, a: nat, i: nat, first: int, last: int, h': Shape<N>, m': State)
    requires Tied(h, m) && a in h.lists && i < |h.lists[a]| && h.lists[a][i] in h.val
    requires h.val[h.lists[a][i]].(first := first, last := last) !in m.lru
    requires a in m.areas && i < |m.areas[a].ranges|
    requires h' == WithValue(h, h.lists[a][i], h.val[h.lists[a][i]].(first := first, last := last))
    requires m' == RangeShrink(m, a, i, first, last)
    ensures Tied(h', m')
  {
    var n := h.lists[a][i];
    assert ListOk(h, a) && Shows(h.lists[a], m.areas[a].ranges, h.val);
    var r := h.val[n].(first := first, last := last);
    assert r.purged <==> n !in h.lru;
    ShowsUpdate(h.lists[a], m.areas[a].ranges, h.val, i, r);
    LruShowsChange(h, m, n, r);
    OthersKeep(h, m, a, n, r);
    ChangedTied(h, m, a, i, r, m');
  }

  lemma ChangedTied<N>(h: Shape<N>, m: State, a: nat, i: nat, r: Range, m': State)
    requires Tied(h, m) && a in h.lists && i < |h.lists[a]| && h.lists[a][i] in h.val
    requires h.val[h.lists[a][i]].area == r.area == a && h.val[h.lists[a][i]].purged == r.purged
    requires m'.areas.Keys == m.areas.Keys
    requires Shows(h.lists[a], m'.areas[a].ranges, h.val[h.lists[a][i] := r])
    requires forall b :: b in h.lists && b != a ==> Shows(h.lists[b], m'.areas[b].ranges, h.val[h.lists[a][i] := r])
    requires Shows(h.lru, m'.lru, h.val[h.lists[a][i] := r]) && Distinct(m'.lru)
    ensures Tied(WithValue(h, h.lists[a][i], r), m')
  {
  }

  /** The head of the LRU list is marked as purged and leaves the list. */
  function WithHeadPurged<N>(h: Shape<N>): Shape<N>
    requires h.lru != [] && h.lru[0] in h.val
  {
    Shape(h.lists, h.lru[1..], h.val[h.lru[0] := h.val[h.lru[0]].(purged := true)])
  }

  lemma TailDistinct<N>(xs: seq<N>)
    requires Distinct(xs) && xs != []
    ensures Distinct(xs[1..]) && xs[0] !in xs[1..]
    ensures forall x :: x in xs[1..] ==> x in xs
  {
  }

  lemma PurgedIsTied<N>(h: Shape<N>, m: State, h': Shape<N>, m': State)
    requires Tied(h, m) && Inv(m) && h.lru != [] && h.lru[0] in h.val && m.lru != []
    requires h' == WithHeadPurged(h) && m' == PurgeHead(m)
    ensures Tied(h', m')
  {
    var n, r := h.lru[0], m.lru[0];
    var a := r.area;
    assert n in h.lru && h.val[n] == r;
    assert ListOk(h, a) && Shows(h.lists[a], m.areas[a].ranges, h.val);
    var i :| 0 <= i < |h.lists[a]| && h.lists[a][i] == n;
    assert Descending(m.areas[a].ranges, a);
    DescendingDistinct(m.areas[a].ranges, a);
    FindDistinct(m.areas[a].ranges, i);
    var r' := r.(purged := true);
    assert m.areas[a].ranges[i] == r;
    ShowsUpdate(h.lists[a], m.areas[a].ranges, h.val, i, r');
    TailDistinct(h.lru);
    TailDistinct(m.lru);
    HeadPurged(h, m, a, i);
  }

  lemma TailMembers<N>(xs: seq<N>)
    requires xs != []
    ensures forall x :: x in xs && x != xs[0] ==> x in xs[1..]
  {
    forall x | x in xs && x != xs[0]
      ensures x in xs[1..]
    {
      var j :| 0 <= j < |xs| && xs[j] == x;
      assert xs[1..][j - 1] == x;
    }
  }

  lemma HeadPurged<N>(h: Shape<N>, m: State, a: nat, i: nat)
    requires Tied(h, m) && h.lru != [] && h.lru[0] in h.val && m.lru != []
    requires a in h.lists && i < |h.lists[a]| && h.lists[a][i] == h.lru[0] && m.lru[0].area == a
    requires Find(m.areas[a].ranges, m.lru[0]) == i && i < |m.areas[a].ranges|
    requires Distinct(h.lru[1..]) && h.lru[0] !in h.lru[1..] && Distinct(m.lru[1..])
    requires forall x :: x in h.lru[1..] ==> x in h.lru
    requires Shows(h.lists[a], m.areas[a].ranges[i := m.lru[0].(purged := true)],
                   h.val[h.lru[0] := m.lru[0].(purged := true)])
    ensures Tied(WithHeadPurged(h), PurgeHead(m))
  {
    var n, r' := h.lru[0], m.lru[0].(purged := true);
    var h', m' := WithHeadPurged(h), PurgeHead(m);
    assert m.areas[a].ranges[i] == m.lru[0];
    assert m.lru[0] in m.areas[a].ranges;
    assert m'.areas[a].ranges == m.areas[a].ranges[i := r'];
    assert Shows(h'.lru, m'.lru, h'.val);
    TailMembers(h.lru);
    forall b | b in h'.lists
      ensures ListOk(h', b) && Shows(h'.lists[b], m'.areas[b].ranges, h'.val)
    {
      assert ListOk(h, b);
      if b != a {
        assert h.val[n].area == a && n !in h.lists[b];
        ShowsOther(h.lists[b], m.areas[b].ranges, h.val, n, r');
      }
    }
  }

  // ---------------------------------------------------------------- with the plain fields

  /** Nodes, area fields and counter together show the model. */
  ghost predicate Links<N>(h: Shape<N>, size: map<nat, nat>, mapped: map<nat, bool>, count: int, m: State) {
    Tied(h, m) && count == m.lruCount && Labels(size, mapped, m)
  }

  ghost predicate Labels(size: map<nat, nat>, mapped: map<nat, bool>, m: State) {
    && size.Keys == m.areas.Keys && mapped.Keys == m.areas.Keys
    && forall a :: a in m.areas ==> size[a] == m.areas[a].size && mapped[a] == m.areas[a].mapped
  }

  lemma LabelsFollow(size: map<nat, nat>, mapped: map<nat, bool>, m: State, m': State, a: nat)
    requires Labels(size, mapped, m) && a in m.areas && OnlyArea(m, m', a)
    ensures Labels(size, mapped, m')
  {
  }

  lemma LinksNew<N>(h: Shape<N>, size: map<nat, nat>, mapped: map<nat, bool>, count: int, m: State,
                    a: nat, i: nat, n: N, r: Range, h': Shape<N>, count': int, m': State)
    requires Links(h, size, mapped, count, m) && a in h.lists && i <= |h.lists[a]| && n !in h.val
    requires r.area == a && r !in m.lru && i <= |m.areas[a].ranges|
    requires h' == WithNew(h, a, i, n, r) && m' == RangeAlloc(m, a, i, r.purged, r.first, r.last)
    requires count' == if r.purged then count else count + r.Size()
    ensures Links(h', size, mapped, count', m')
  {
    NewIsTied(h, m, a, i, n, r, h', m');
    AllocFrame(m, a, i, r.purged, r.first, r.last);
    LabelsFollow(size, mapped, m, m', a);
  }

  lemma LinksDel<N>(h: Shape<N>, size: map<nat, nat>, mapped: map<nat, bool>, count: int, m: State,
                    a: nat, i: nat, k: nat, h': Shape<N>, count': int, m': State)
    requires Links(h, size, mapped, count, m) && a in h.lists && i < |h.lists[a]| && h.lists[a][i] in h.val
    requires !h.val[h.lists[a][i]].purged ==> k < |h.lru| && h.lru[k] == h.lists[a][i]
    requires i < |m.areas[a].ranges| && m.areas[a].ranges[i] == h.val[h.lists[a][i]]
    requires h' == Without(h, a, i, k) && m' == RangeDel(m, a, i)
    requires var r := h.val[h.lists[a][i]]; count' == if r.purged then count else count - r.Size()
    ensures Links(h', size, mapped, count', m')
  {
    DeletedIsTied(h, m, a, i, k, h', m');
    DelFrame(m, a, i);
    LabelsFollow(size, mapped, m, m', a);
  }

  lemma LinksChange<N>(h: Shape<N>, size: map<nat, nat>, mapped: map<nat, bool>, count: int, m: State,
                       a: nat, i: nat, first: int, last: int, h': Shape<N>, count': int, m': State)
    requires Links(h, size, mapped, count, m) && a in h.lists && i < |h.lists[a]| && h.lists[a][i] in h.val
    requires h.val[h.lists[a][i]].(first := first, last := last) !in m.lru
    requires i < |m.areas[a].ranges| && m.areas[a].ranges[i] == h.val[h.lists[a][i]]
    requires h' == WithValue(h, h.lists[a][i], h.val[h.lists[a][i]].(first := first, last := last))
    requires m' == RangeShrink(m, a, i, first, last)
    requires var r := h.val[h.lists[a][i]];
             count' == if r.purged then count else count - (r.Size() - (last - first + 1))
    ensures Links(h', size, mapped, count', m')
  {
    ChangedIsTied(h, m, a, i, first, last, h', m');
    ShrinkFrame(m, a, i, first, last);
    LabelsFollow(size, mapped, m, m', a);
  }
}
