/** `mm/ashmem.c` as it runs: range nodes shared between the list of their area and the LRU
  list, changed in place.  `mem` is the part of memory the driver works on: nodes in a store,
  lists of node handles, so a change of a node is seen through both its lists.  `model` is the
  value of all of it; every method changes it exactly as its counterpart in the model says. */
module Ashmem {
  import opened AshmemModel
  import opened AshmemOps
  import opened AshmemShrink
  import opened AshmemShape
  import AshmemUnpin
  import AshmemTheory

  class Driver {
    var mem: Shape<nat>
    var size: map<nat, nat>
    var mapped: map<nat, bool>
    var lruCount: int
    ghost var model: State

    /** The memory shows the model, whether or not the model is consistent. */
    ghost predicate Linked()
      reads this
    {
      Links(mem, size, mapped, lruCount, model)
    }

    ghost predicate Valid()
      reads this
    {
      Linked() && Inv(model)
    }

    /** What holds between any two calls from outside. */
    ghost predicate Sound()
      reads this
    {
      Linked() && AshmemTheory.Sound(model)
    }

    constructor ()
      ensures Sound() && model == AshmemTheory.EMPTY
    {
      mem, size, mapped, lruCount := Shape(map[], [], map[]), map[], map[], 0;
      model := AshmemTheory.EMPTY;
    }

    // ---------------------------------------------------------------- primitives

    /** `range_alloc`. */
    method RangeAlloc(a: nat, i: nat, purged: bool, start: int, end: int)
      requires Linked() && a in mem.lists && i <= |mem.lists[a]|
      requires Range(a, start, end, purged) !in model.lru
      modifies `mem, `lruCount, `model
      ensures Linked() && a in mem.lists && a in old(model).areas && i <= |old(model).areas[a].ranges|
      ensures model == AshmemModel.RangeAlloc(old(model), a, i, purged, start, end)
    {
      ghost var h, count, m := mem, lruCount, model;
      ListShows(mem, model, a);
      var n := FreshHandle(mem.val.Keys);
      var range := Range(a, start, end, purged);
      var list := mem.lists[a][..i] + [n] + mem.lists[a][i..];
      mem := mem.(lists := mem.lists[a := list], val := mem.val[n := range]);
      if !range.purged {
        mem := mem.(lru := mem.lru + [n]);
        lruCount := lruCount + (range.last - range.first + 1);
      }
      model := AshmemModel.RangeAlloc(model, a, i, purged, start, end);
      LinksNew(h, size, mapped, count, m, a, i, n, range, mem, lruCount, model);
    }

    /** `range_del`. */
    method RangeDel(a: nat, i: nat)
      requires Linked() && a in mem.lists && i < |mem.lists[a]|
      modifies `mem, `lruCount, `model
      ensures Linked() && a in mem.lists && a in old(model).areas && i < |old(model).areas[a].ranges|
      ensures model == AshmemModel.RangeDel(old(model), a, i)
    {
      ghost var h, count, m := mem, lruCount, model;
      ListShows(mem, model, a);
      var n := mem.lists[a][i];
      var range := mem.val[n];
      var k := 0;
      mem := mem.(lists := mem.lists[a := mem.lists[a][..i] + mem.lists[a][i + 1..]]);
      if !range.purged {
        k :| 0 <= k < |mem.lru| && mem.lru[k] == n;
        mem := mem.(lru := mem.lru[..k] + mem.lru[k + 1..]);
        lruCount := lruCount - (range.last - range.first + 1);
      }
      model := AshmemModel.RangeDel(model, a, i);
      LinksDel(h, size, mapped, count, m, a, i, k, mem, lruCount, model);
    }

    /** `range_shrink`. */
    method RangeShrink(a: nat, i: nat, start: int, end: int)
      requires Linked() && a in mem.lists && i < |mem.lists[a]|
      requires mem.lists[a][i] in mem.val && mem.val[mem.lists[a][i]].(first := start, last := end) !in model.lru
      modifies `mem, `lruCount, `model
      ensures Linked() && a in mem.lists && a in old(model).areas && i < |old(model).areas[a].ranges|
      ensures model == AshmemModel.RangeShrink(old(model), a, i, start, end)
    {
      ghost var h, count, m := mem, lruCount, model;
      ListShows(mem, model, a);
      var n := mem.lists[a][i];
      var pre := mem.val[n].last - mem.val[n].first + 1;
      mem := mem.(val := mem.val[n := mem.val[n].(first := start, last := end)]);
      if !mem.val[n].purged {
        lruCount := lruCount - (pre - (mem.val[n].last - mem.val[n].first + 1));
      }
      model := AshmemModel.RangeShrink(model, a, i, start, end);
      LinksChange(h, size, mapped, count, m, a, i, start, end, mem, lruCount, model);
    }

    // ---------------------------------------------------------------- pin, unpin, status

    /** The four cases of the pin loop for the range at position `i`. */
    method PinOne(a: nat, i: nat, pgstart: int, pgend: int)
      requires Valid() && a in mem.lists && a in model.areas
      requires i < |mem.lists[a]| && i < |Ranges(model, a)|
      requires pgstart <= pgend && Ranges(model, a)[i].Meets(pgstart, pgend)
      modifies `mem, `lruCount, `model
      ensures Linked() && a in mem.lists && a in old(model).areas && i < |Ranges(old(model), a)|
      ensures model == PinRange(old(model), a, i, pgstart, pgend)
    {
      hide Inv, Tied;
      ListShows(mem, model, a);
      var range := mem.val[mem.lists[a][i]];
      if range.Within(pgstart, pgend) {
        RangeDel(a, i);
      } else if range.first >= pgstart {
        CutIsFresh(model, a, i, pgend + 1, range.last);
        RangeShrink(a, i, pgend + 1, range.last);
      } else if range.last <= pgend {
        CutIsFresh(model, a, i, range.first, pgstart - 1);
        RangeShrink(a, i, range.first, pgstart - 1);
      } else {
        PinHole(a, i, pgstart, pgend);
      }
    }

    /** The request punches a hole: a new range for the upper part, the old one cut down. */
    method PinHole(a: nat, i: nat, pgstart: int, pgend: int)
      requires Valid() && a in mem.lists && a in model.areas
      requires i < |mem.lists[a]| && i < |Ranges(model, a)|
      requires Ranges(model, a)[i].first < pgstart <= pgend < Ranges(model, a)[i].last
      modifies `mem, `lruCount, `model
      ensures Linked() && a in mem.lists && a in old(model).areas && i < |Ranges(old(model), a)|
      ensures var r := Ranges(old(model), a)[i];
              model == AshmemModel.RangeShrink(
                         AshmemModel.RangeAlloc(old(model), a, i, r.purged, pgend + 1, r.last),
                         a, i + 1, r.first, pgstart - 1)
    {
      hide Inv, Tied;
      ListShows(mem, model, a);
      var range := mem.val[mem.lists[a][i]];
      CutIsFresh(model, a, i, pgend + 1, range.last);
      CutIsFresh(model, a, i, range.first, pgstart - 1);
      RangeAlloc(a, i, range.purged, pgend + 1, range.last);
      ListShows(mem, model, a);
      RangeShrink(a, i + 1, range.first, pgstart - 1);
    }

    /** One turn of the pin loop, for a range that is not below the request. */
    method PinStep(a: nat, i: nat, pgstart: int, pgend: int, was: bool) returns (next: nat, ret: bool, stop: bool)
      requires Valid() && a in mem.lists && a in model.areas && pgstart <= pgend
      requires i < |mem.lists[a]| && i < |Ranges(model, a)| && ApartFrom(Ranges(model, a), i, pgstart, pgend)
      requires Ranges(model, a)[i].last >= pgstart
      modifies `mem, `lruCount, `model
      ensures Linked() && Inv(model) && a in mem.lists && a in old(model).areas && a in model.areas
      ensures i < |Ranges(old(model), a)|
      ensures stop ==> PinFrom(old(model), a, i, pgstart, pgend, was) == (model, ret)
      ensures !stop ==>
                && next <= |Ranges(model, a)| && |Ranges(model, a)| - next < |Ranges(old(model), a)| - i
                && ApartFrom(Ranges(model, a), next, pgstart, pgend)
                && PinFrom(old(model), a, i, pgstart, pgend, was) == PinFrom(model, a, next, pgstart, pgend, ret)
    {
      hide Inv, Tied, PinRange, Remains;
      ListShows(mem, model, a);
      var range := mem.val[mem.lists[a][i]];
      if !range.Meets(pgstart, pgend) {
        return i + 1, was, false;
      }
      ghost var u, j := PinNext(model, a, i, pgstart, pgend, was);
      PinOne(a, i, pgstart, pgend);
      ret := was || range.purged;
      next := if range.Within(pgstart, pgend) then i else i + 1;
      stop := range.first < pgstart && range.last > pgend;
    }

    /** `ashmem_pin`; true stands for `ASHMEM_WAS_PURGED`. */
    method Pin(a: nat, pgstart: int, pgend: int) returns (ret: bool)
      requires Valid() && a in mem.lists
      requires pgstart <= pgend || forall r :: r in Ranges(model, a) ==> r.last < pgstart
      modifies `mem, `lruCount, `model
      ensures Valid() && a in mem.lists && a in old(model).areas
      ensures (model, ret) == AshmemModel.Pin(old(model), a, pgstart, pgend)
    {
      hide Inv, Tied;
      ret := false;
      var i: nat := 0;
      ListShows(mem, model, a);
      while i < |mem.lists[a]|
        invariant Linked() && Inv(model) && a in mem.lists && a in model.areas
        invariant i <= |mem.lists[a]| == |Ranges(model, a)|
        invariant ApartFrom(Ranges(model, a), i, pgstart, pgend)
        invariant pgstart <= pgend || forall r :: r in Ranges(model, a) ==> r.last < pgstart
        invariant AshmemModel.Pin(old(model), a, pgstart, pgend) == PinFrom(model, a, i, pgstart, pgend, ret)
        decreases |mem.lists[a]| - i
      {
        ListShows(mem, model, a);
        if mem.val[mem.lists[a][i]].last < pgstart {
          break;
        }
        assert Ranges(model, a)[i] in Ranges(model, a);
        var stop;
        i, ret, stop := PinStep(a, i, pgstart, pgend, ret);
        if stop {
          return;
        }
        ListShows(mem, model, a);
      }
    }

    /** One merge of the unpin loop: the range is deleted and its pages and mark are taken over. */
    method UnpinMerge(a: nat, i: nat, pgstart: int, pgend: int, was: bool)
      returns (start: int, end: int, purged: bool)
      requires Valid() && a in mem.lists && a in model.areas
      requires i < |mem.lists[a]| && i < |Ranges(model, a)|
      requires pgstart <= Ranges(model, a)[i].last
      requires !Ranges(model, a)[i].Subsumes(pgstart, pgend) && Ranges(model, a)[i].Meets(pgstart, pgend)
      modifies `mem, `lruCount, `model
      ensures Linked() && Inv(model) && a in mem.lists && a in old(model).areas && a in model.areas
      ensures i < |Ranges(old(model), a)| && |Ranges(model, a)| < |Ranges(old(model), a)| && start <= end
      ensures UnpinFrom(old(model), a, i, pgstart, pgend, was) == UnpinFrom(model, a, 0, start, end, purged)
    {
      hide Inv, Tied;
      ListShows(mem, model, a);
      AshmemUnpin.DelDetaches(model, a, i);
      var range := mem.val[mem.lists[a][i]];
      start, end, purged := Min(range.first, pgstart), Max(range.last, pgend), was || range.purged;
      RangeDel(a, i);
    }

    /** `ashmem_unpin`; a merge starts the walk again at the head of the list. */
    method Unpin(a: nat, start: int, end: int)
      requires Valid() && a in mem.lists && 0 <= start
      requires start <= end || forall r :: r in Ranges(model, a) ==> r.last < start
      modifies `mem, `lruCount, `model
      ensures Linked() && a in mem.lists && a in old(model).areas
      ensures model == AshmemModel.Unpin(old(model), a, start, end)
      ensures start <= end ==> Inv(model)
    {
      hide Inv, Tied;
      var pgstart, pgend, purged, i: nat := start, end, false, 0;
      ListShows(mem, model, a);
      UnpinKeepsInv(model, a, start, end);
      while i < |mem.lists[a]|
        invariant Linked() && Inv(model) && a in mem.lists && a in model.areas
        invariant i <= |mem.lists[a]| == |Ranges(model, a)|
        invariant pgstart <= pgend || forall r :: r in Ranges(model, a) ==> r.last < pgstart
        invariant forall j :: 0 <= j < i ==> Ranges(model, a)[j].first > pgend
        invariant AshmemModel.Unpin(old(model), a, start, end) == UnpinFrom(model, a, i, pgstart, pgend, purged)
        decreases |mem.lists[a]|, |mem.lists[a]| - i
      {
        ListShows(mem, model, a);
        var range := mem.val[mem.lists[a][i]];
        if range.last < pgstart {
          break;
        }
        assert range in Ranges(model, a);
        if range.Subsumes(pgstart, pgend) {
          return;
        }
        if range.Meets(pgstart, pgend) {
          pgstart, pgend, purged := UnpinMerge(a, i, pgstart, pgend, purged);
          ListShows(mem, model, a);
          i := 0;
        } else {
          i := i + 1;
        }
      }
      ApartIsFresh(model, a, i, pgstart, pgend, purged);
      RangeAlloc(a, i, purged, pgstart, pgend);
    }

    /** `ashmem_get_pin_status`; true stands for `ASHMEM_IS_UNPINNED`. */
    method Status(a: nat, pgstart: int, pgend: int) returns (ret: bool)
      requires Valid() && a in mem.lists
      ensures a in model.areas && ret == AnyUnpinned(model, a, pgstart, pgend)
    {
      ListShows(mem, model, a);
      ret := false;
      var i := 0;
      while i < |mem.lists[a]|
        invariant i <= |mem.lists[a]|
        invariant !ret && AnyUnpinned(model, a, pgstart, pgend) == StatusFrom(Ranges(model, a), i, pgstart, pgend)
      {
        var range := mem.val[mem.lists[a][i]];
        if range.last < pgstart {
          break;
        }
        if range.Meets(pgstart, pgend) {
          return true;
        }
        i := i + 1;
      }
    }

    // ---------------------------------------------------------------- shrink

    /** `ashmem_shrink`; `truncated` lists the ranges whose pages were given back, in order. */
    method Shrink(scan: int, mayEnterFs: bool) returns (left: int, truncated: seq<Range>)
      requires Valid()
      modifies `mem, `lruCount, `model
      ensures Valid() && (model, left, truncated) == AshmemShrink.Shrink(old(model), scan, mayEnterFs)
      ensures scan == 0 ==> model == old(model) && left == Pages(old(model).lru) && truncated == []
      ensures scan != 0 && !mayEnterFs ==> model == old(model) && left == -1 && truncated == []
      ensures old(Sound()) ==> Sound()
    {
      InvCounts(model);
      ShrinkRefuses(model, scan);
      hide Inv, Tied, ListsOk, ShrinkLoop;
      if AshmemTheory.Sound(model) {
        AshmemTheory.ShrinkSound(model, scan, mayEnterFs);
      }
      truncated := [];
      if scan != 0 && !mayEnterFs {
        return -1, truncated;
      }
      if scan == 0 {
        return lruCount, truncated;
      }
      truncated := ShrinkList(scan);
      left := lruCount;
    }

    /** The loop over the LRU list. */
    method ShrinkList(scan: int) returns (truncated: seq<Range>)
      requires Valid()
      modifies `mem, `lruCount, `model
      ensures Valid() && (model, truncated) == ShrinkLoop(old(model), scan)
    {
      hide Inv, Tied, ListsOk;
      truncated := [];
      var nrToScan := scan;
      LruShows(mem, model);
      assert truncated + ShrinkLoop(model, scan).1 == ShrinkLoop(model, scan).1;
      while mem.lru != []
        invariant Linked() && Inv(model) && |mem.lru| == |model.lru|
        invariant ShrinkLoop(old(model), scan) ==
                  (ShrinkLoop(model, nrToScan).0, truncated + ShrinkLoop(model, nrToScan).1)
        decreases |mem.lru|
      {
        LruShows(mem, model);
        var range := mem.val[mem.lru[0]];
        assert truncated + [range] + ShrinkLoop(PurgeHead(model), nrToScan - range.Size()).1 ==
               truncated + ([range] + ShrinkLoop(PurgeHead(model), nrToScan - range.Size()).1);
        truncated := truncated + [range];
        PurgeOldest();
        LruShows(mem, model);
        nrToScan := nrToScan - range.Size();
        if nrToScan <= 0 {
          return;
        }
      }
      assert truncated + [] == truncated;
    }

    /** One turn of the loop: the head of the LRU list is marked and leaves the list. */
    method PurgeOldest()
      requires Valid() && mem.lru != []
      modifies `mem, `lruCount, `model
      ensures Valid() && old(model).lru != [] && model == PurgeHead(old(model))
    {
      hide Inv, Tied;
      LruShows(mem, model);
      ghost var h, count, m := mem, lruCount, model;
      var n := mem.lru[0];
      mem := mem.(val := mem.val[n := mem.val[n].(purged := true)]);
      mem := mem.(lru := mem.lru[1..]);
      lruCount := lruCount - mem.val[n].Size();
      model := PurgeHead(model);
      LinksPurge(h, size, mapped, count, m, mem, lruCount, model);
      PurgeHeadKeepsInv(m);
    }

    /** `ASHMEM_PURGE_ALL_CACHES` for a privileged caller. */
    method PurgeAllCaches() returns (ret: int, truncated: seq<Range>)
      requires Valid()
      modifies `mem, `lruCount, `model
      ensures Valid() && (model, truncated) == PurgeAll(old(model)) && ret == old(model).lruCount
      ensures old(Sound()) ==> Sound()
    {
      ret, truncated := Shrink(0, true);
      var left;
      left, truncated := Shrink(ret, true);
    }

    // ---------------------------------------------------------------- open, release, ioctl

    /** `ashmem_open`. */
    method Open(a: nat)
      requires Valid() && a !in mem.lists
      modifies `mem, `size, `mapped, `model
      ensures Valid() && a !in old(model).areas && model == AshmemModel.Open(old(model), a)
      ensures old(Sound()) ==> Sound()
    {
      hide Inv, Tied;
      LinksOpen(mem, size, mapped, lruCount, model, a);
      AshmemTheory.OpenKeepsInv(model, a);
      mem := mem.(lists := mem.lists[a := []]);
      size, mapped := size[a := 0], mapped[a := false];
      if AshmemTheory.Sound(model) {
        AshmemTheory.OpenSound(model, a);
      }
      model := AshmemModel.Open(model, a);
    }

    /** `ashmem_release`. */
    method Release(a: nat)
      requires Valid() && a in mem.lists
      modifies `mem, `size, `mapped, `lruCount, `model
      ensures Valid() && a in old(model).areas && model == AshmemModel.Release(old(model), a)
      ensures old(Sound()) ==> Sound()
    {
      hide Inv, Tied, AshmemTheory.Sound;
      ListShows(mem, model, a);
      AshmemTheory.ReleaseEffect(model, a);
      if AshmemTheory.Sound(model) {
        AshmemTheory.ReleaseSound(model, a);
      }
      while mem.lists[a] != []
        invariant Linked() && a in mem.lists && a in model.areas && |mem.lists[a]| == |Ranges(model, a)|
        invariant DelAll(old(model), a) == DelAll(model, a)
        decreases |mem.lists[a]|
      {
        RangeDel(a, 0);
        ListShows(mem, model, a);
      }
      LinksClose(mem, size, mapped, lruCount, model, a);
      mem := mem.(lists := mem.lists - {a});
      size, mapped := size - {a}, mapped - {a};
      model := model.(areas := model.areas - {a});
    }

    /** `ASHMEM_SET_SIZE`. */
    method SetSize(a: nat, arg: nat) returns (ok: bool)
      requires Valid() && a in mem.lists
      modifies `size, `model
      ensures Valid() && a in old(model).areas
      ensures ok <==> !old(model).areas[a].mapped && arg % PAGE_SIZE == 0
      ensures model == if ok then old(model).(areas := old(model).areas[a := old(model).areas[a].(size := arg)])
                       else old(model)
      ensures old(Sound()) && arg < AshmemTheory.WORD ==> Sound()
    {
      hide Inv, Tied, AshmemTheory.Sound;
      ListShows(mem, model, a);
      ok := !mapped[a] && arg % PAGE_SIZE == 0;
      if ok {
        ghost var m := model;
        AshmemTheory.RelabelKeepsInv(model, a, model.areas[a].(size := arg));
        if AshmemTheory.Sound(model) && arg < AshmemTheory.WORD {
          AshmemTheory.SetSizeSound(model, a, arg);
        }
        model := model.(areas := model.areas[a := model.areas[a].(size := arg)]);
        LinksRelabel(mem, size, mapped, lruCount, m, a, arg, mapped[a], model);
        size := size[a := arg];
        assert mapped[a := mapped[a]] == mapped;
      }
    }

    /** The part of `ashmem_mmap` that matters here: a sized area gets its backing file. */
    method Map(a: nat) returns (ok: bool)
      requires Valid() && a in mem.lists
      modifies `mapped, `model
      ensures Valid() && a in old(model).areas && (ok <==> old(model).areas[a].size != 0)
      ensures model == if ok then old(model).(areas := old(model).areas[a := old(model).areas[a].(mapped := true)])
                       else old(model)
      ensures old(Sound()) ==> Sound()
    {
      hide Inv, Tied, AshmemTheory.Sound;
      ListShows(mem, model, a);
      ok := size[a] != 0;
      if ok {
        ghost var m := model;
        AshmemTheory.RelabelKeepsInv(model, a, model.areas[a].(mapped := true));
        if AshmemTheory.Sound(model) {
          AshmemTheory.MapSound(model, a);
        }
        model := model.(areas := model.areas[a := model.areas[a].(mapped := true)]);
        LinksRelabel(mem, size, mapped, lruCount, m, a, size[a], true, model);
        mapped := mapped[a := true];
        assert size[a := size[a]] == size;
      }
    }

    /** `ashmem_pin_unpin`: check and translate the request, then carry it out.  The request
        that unpins from the very end of the area is carried out as well, and leaves a range
        without pages behind. */
    method PinUnpin(a: nat, cmd: AshmemTheory.Command, offset: nat, len0: nat) returns (r: AshmemTheory.Answer)
      requires Sound() && a in mem.lists
      requires offset < AshmemTheory.WORD && len0 < AshmemTheory.WORD
      modifies `mem, `lruCount, `model
      ensures Linked() && a in old(model).areas && a in model.areas
      ensures var op := AshmemTheory.Request(a, cmd, offset, len0);
              && r == AshmemTheory.Answered(old(model), op)
              && model == match AshmemTheory.Granted(old(model), op)
                          case Invalid => old(model)
                          case Interval(first, last) => AshmemTheory.Execute(old(model), a, cmd, first, last)
      ensures !AshmemTheory.EmptyUnpin(old(model), AshmemTheory.Request(a, cmd, offset, len0)) ==> Sound()
      ensures r == AshmemTheory.Refused <==>
              !(old(model).areas[a].mapped && offset % 4096 == 0 && len0 % 4096 == 0
                && offset + len0 <= old(model).areas[a].size)
      ensures r != AshmemTheory.Refused ==>
                var end := if len0 == 0 then old(model).areas[a].size else offset + len0;
                var first, last := offset / 4096, end / 4096 - 1;
                AshmemTheory.Carried(Ranges(old(model), a), Ranges(model, a), cmd, first, last, r)
    {
      hide Inv, Tied, AshmemTheory.Bounded, AshmemTheory.SizesOk, AshmemTheory.Execute, AshmemTheory.EmptyUnpin,
           AshmemTheory.Carried, AshmemTheory.Reply;
      ghost var m := model;
      ListShows(mem, model, a);
      AshmemTheory.AnsweredExact(m, AshmemTheory.Request(a, cmd, offset, len0));
      if !mapped[a] {
        return AshmemTheory.Refused;
      }
      var len := if len0 == 0 then (size[a] - offset) % AshmemTheory.WORD else len0;
      if offset % PAGE_SIZE != 0 || len % PAGE_SIZE != 0 {
        return AshmemTheory.Refused;
      }
      if AshmemTheory.WORD - 1 - offset < len {
        return AshmemTheory.Refused;
      }
      if size[a] < (offset + len) % AshmemTheory.WORD {
        return AshmemTheory.Refused;
      }
      var pgstart := offset / PAGE_SIZE;
      var pgend := pgstart + len / PAGE_SIZE - 1;
      r := Carry(a, cmd, pgstart, pgend, offset, len0);
      AshmemTheory.RequestSound(m, AshmemTheory.Request(a, cmd, offset, len0), model);
    }

    method Carry(a: nat, cmd: AshmemTheory.Command, pgstart: int, pgend: int, ghost offset: nat, ghost len0: nat)
      returns (r: AshmemTheory.Answer)
      requires Sound() && a in mem.lists
      requires a in model.areas && offset < AshmemTheory.WORD && len0 < AshmemTheory.WORD
      requires AshmemTheory.Decode(model.areas[a].size, offset, len0) == AshmemTheory.Interval(pgstart, pgend)
      modifies `mem, `lruCount, `model
      ensures Linked() && a in old(model).areas
      ensures model == AshmemTheory.Execute(old(model), a, cmd, pgstart, pgend)
      ensures r == AshmemTheory.Reply(old(model), a, cmd, pgstart, pgend)
    {
      SoundUnfolds(model);
      hide Inv, Tied, AshmemTheory.Sound;
      AshmemTheory.DecodeExact(model.areas[a].size, offset, len0);
      if pgstart > pgend {
        AshmemTheory.AllBelowEnd(model, a);
      }
      match cmd {
        case CmdPin =>
          var was := Pin(a, pgstart, pgend);
          r := AshmemTheory.WasPurged(was);
        case CmdUnpin =>
          Unpin(a, pgstart, pgend);
          r := AshmemTheory.Done;
        case CmdStatus =>
          var any := Status(a, pgstart, pgend);
          r := AshmemTheory.Unpinned(any);
      }
    }
  }

  lemma SoundUnfolds(s: State)
    requires AshmemTheory.Sound(s)
    ensures Inv(s) && AshmemTheory.Bounded(s) && AshmemTheory.SizesOk(s)
  {
  }

  lemma UnpinKeepsInv(s: State, a: nat, first: int, last: int)
    requires Inv(s) && a in s.areas && 0 <= first
    ensures first <= last ==> Inv(AshmemModel.Unpin(s, a, first, last))
  {
    if first <= last {
      AshmemUnpin.UnpinEffect(s, a, first, last);
    }
  }

  lemma LinksRelabel<N>(h: Shape<N>, size: map<nat, nat>, mapped: map<nat, bool>, count: int, m: State,
                        a: nat, newSize: nat, nowMapped: bool, m': State)
    requires Links(h, size, mapped, count, m) && a in m.areas
    requires m' == m.(areas := m.areas[a := m.areas[a].(size := newSize, mapped := nowMapped)])
    ensures Links(h, size[a := newSize], mapped[a := nowMapped], count, m')
  {
    hide Tied;
    assert m'.areas.Keys == m.areas.Keys;
    SameRangesTied(h, m, m');
  }

  /** Nodes do not depend on the plain fields of the areas. */
  lemma SameRangesTied<N>(h: Shape<N>, m: State, m': State)
    requires Tied(h, m) && m'.areas.Keys == m.areas.Keys && m'.lru == m.lru
    requires forall b :: b in m.areas ==> m'.areas[b].ranges == m.areas[b].ranges
    ensures Tied(h, m')
  {
  }

  /** What a tied LRU list says about its nodes. */
  lemma LruShows<N>(h: Shape<N>, m: State)
    requires Tied(h, m)
    ensures |h.lru| == |m.lru|
    ensures forall k :: 0 <= k < |h.lru| ==> h.lru[k] in h.val && h.val[h.lru[k]] == m.lru[k]
  {
  }

  lemma LinksPurge<N>(h: Shape<N>, size: map<nat, nat>, mapped: map<nat, bool>, count: int, m: State,
                      h': Shape<N>, count': int, m': State)
    requires Links(h, size, mapped, count, m) && Inv(m) && h.lru != [] && h.lru[0] in h.val && m.lru != []
    requires h' == WithHeadPurged(h) && m' == PurgeHead(m) && count' == count - h.val[h.lru[0]].Size()
    ensures Links(h', size, mapped, count', m')
  {
    hide Inv, Tied;
    LruShows(h, m);
    LruMember(m, m.lru[0]);
    PurgedIsTied(h, m, h', m');
    LabelsFollow(size, mapped, m, m', m.lru[0].area);
  }

  lemma LinksOpen<N>(h: Shape<N>, size: map<nat, nat>, mapped: map<nat, bool>, count: int, m: State, a: nat)
    requires Links(h, size, mapped, count, m) && a !in h.lists
    ensures a !in m.areas
    ensures Links(h.(lists := h.lists[a := []]), size[a := 0], mapped[a := false], count, AshmemModel.Open(m, a))
  {
    TiedOpen(h, m, a);
    hide Tied;
  }

  lemma TiedOpen<N>(h: Shape<N>, m: State, a: nat)
    requires Tied(h, m) && a !in h.lists
    ensures a !in m.areas && Tied(h.(lists := h.lists[a := []]), AshmemModel.Open(m, a))
  {
    hide Shows, Distinct;
    var h', m' := h.(lists := h.lists[a := []]), AshmemModel.Open(m, a);
    assert Distinct(h'.lists[a]) && Shows(h'.lists[a], m'.areas[a].ranges, h'.val) by { NoNodes<N>(h.val); }
    forall b | b in h'.lists && b != a
      ensures ListOk(h', b) && Shows(h'.lists[b], m'.areas[b].ranges, h'.val)
    {
      assert ListOk(h, b);
    }
  }

  lemma NoNodes<N>(val: map<N, Range>)
    ensures Distinct<N>([]) && Shows([], [], val)
  {
  }

  lemma LinksClose<N>(h: Shape<N>, size: map<nat, nat>, mapped: map<nat, bool>, count: int, m: State, a: nat)
    requires Links(h, size, mapped, count, m) && a in h.lists && h.lists[a] == []
    ensures Links(h.(lists := h.lists - {a}), size - {a}, mapped - {a}, count, m.(areas := m.areas - {a}))
  {
  }

  /** A range apart from all others is not on the LRU list, even an empty one. */
  lemma ApartIsFresh(s: State, a: nat, i: nat, first: int, last: int, purged: bool)
    requires Inv(s) && a in s.areas && i <= |Ranges(s, a)|
    requires first <= last || forall r :: r in Ranges(s, a) ==> r.last < first
    requires forall j :: 0 <= j < i ==> Ranges(s, a)[j].first > last
    requires i < |Ranges(s, a)| ==> Ranges(s, a)[i].last < first
    ensures Range(a, first, last, purged) !in s.lru
  {
  }

  /** A proper part of a range is not on the LRU list. */
  lemma CutIsFresh(s: State, a: nat, i: nat, first: int, last: int)
    requires Inv(s) && a in s.areas && i < |Ranges(s, a)|
    requires Ranges(s, a)[i].first <= first <= last <= Ranges(s, a)[i].last
    requires Ranges(s, a)[i].first < first || last < Ranges(s, a)[i].last
    ensures Ranges(s, a)[i].area == a
    ensures Ranges(s, a)[i].(first := first, last := last) !in s.lru
  {
  }

  /** A handle no node uses yet: what the slab allocator provides. */
  function FreshHandle(used: set<nat>): (n: nat)
    ensures n !in used
  {
    FreshFrom(used, 0)
  }

  function FreshFrom(used: set<nat>, n: nat): (k: nat)
    ensures k !in used
    decreases |set x | x in used && x >= n|
  {
    if n !in used then n
    else
      assert (set x | x in used && x >= n + 1) + {n} == (set x | x in used && x >= n);
      FreshFrom(used, n + 1)
  }
}
