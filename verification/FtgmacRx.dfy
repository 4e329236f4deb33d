/** The receive side of the FTGMAC100 driver: what the driver makes of the segments the
  controller has filled, as functions on the list of them. */
module FtgmacRx {

  /** What one filled descriptor says: `error` is the outcome of the error checks, `checked` that
      the controller vouches for the transport checksum, `page` the page with the data. */
  datatype Seg = Seg(first: bool, last: bool, size: nat, error: bool, checked: bool, page: nat)

  /** A frame handed to the network stack: page and size of every fragment, and the length. */
  datatype Frame = Frame(pages: seq<nat>, sizes: seq<nat>, len: nat, checked: bool)

  function Sum(sizes: seq<nat>): nat {
    if sizes == [] then 0 else sizes[0] + Sum(sizes[1..])
  }

  function Pages(run: seq<Seg>): (ps: seq<nat>)
    ensures |ps| == |run|
  {
    seq(|run|, i requires 0 <= i < |run| => run[i].page)
  }

  function Sizes(run: seq<Seg>): (ss: seq<nat>)
    ensures |ss| == |run|
  {
    seq(|run|, i requires 0 <= i < |run| => run[i].size)
  }

  function FrameOf(run: seq<Seg>): Frame
    requires run != []
  {
    Frame(Pages(run), Sizes(run), Sum(Sizes(run)), run[0].checked)
  }

  // ---------------------------------------------------------------- the filled segments

  predicate HasLast(segs: seq<Seg>) {
    segs != [] && (segs[0].last || HasLast(segs[1..]))
  }

  /** Every frame that has begun is complete: this is what the controller provides. */
  predicate Tidy(segs: seq<Seg>) {
    segs == [] || ((segs[0].first ==> HasLast(segs)) && Tidy(segs[1..]))
  }

  /** From the first segment that begins a frame on. */
  function Located(segs: seq<Seg>): (rest: seq<Seg>)
    ensures |rest| <= |segs| && (rest == [] || rest[0].first)
    ensures Tidy(segs) ==> Tidy(rest)
  {
    if segs == [] || segs[0].first then segs else Located(segs[1..])
  }

  /** Number of segments up to the end of the frame. */
  function RunLength(segs: seq<Seg>): (n: nat)
    ensures n <= |segs| && (segs != [] ==> n > 0)
    ensures HasLast(segs) ==> n > 0 && segs[n - 1].last && forall i :: 0 <= i < n - 1 ==> !segs[i].last
  {
    if segs == [] then 0 else if segs[0].last then 1 else 1 + RunLength(segs[1..])
  }

  lemma {:induction false} TidyTail(segs: seq<Seg>, n: nat)
    requires Tidy(segs) && n <= |segs|
    ensures Tidy(segs[n..])
    decreases n
  {
    if n == 0 {
      assert segs[0..] == segs;
    } else {
      TidyTail(segs[1..], n - 1);
      assert segs[1..][n - 1..] == segs[n..];
    }
  }

  lemma {:induction false} HasLastAppend(a: seq<Seg>, b: seq<Seg>)
    requires HasLast(a) || HasLast(b)
    ensures HasLast(a + b)
    decreases |a|
  {
    if a == [] {
      assert a + b == b;
    } else {
      assert (a + b)[1..] == a[1..] + b;
      if !a[0].last {
        HasLastAppend(a[1..], b);
      }
    }
  }

  /** The controller adds a whole frame: it begins once, at its first segment, and it ends. */
  predicate WholeFrame(run: seq<Seg>) {
    run != [] && run[0].first && run[|run| - 1].last && forall i :: 0 < i < |run| ==> !run[i].first
  }

  lemma {:induction false} EndsHasLast(run: seq<Seg>)
    requires run != [] && run[|run| - 1].last
    ensures HasLast(run)
    decreases |run|
  {
    if |run| > 1 {
      EndsHasLast(run[1..]);
    }
  }

  lemma {:induction false} TidyEnding(run: seq<Seg>)
    requires run != [] ==> run[|run| - 1].last
    ensures Tidy(run)
    decreases |run|
  {
    if run != [] {
      EndsHasLast(run);
      TidyEnding(run[1..]);
    }
  }

  /** A whole frame more keeps everything tidy. */
  lemma {:induction false} TidyAppend(segs: seq<Seg>, run: seq<Seg>)
    requires Tidy(segs) && WholeFrame(run)
    ensures Tidy(segs + run)
    decreases |segs|
  {
    if segs == [] {
      assert segs + run == run;
      TidyEnding(run);
    } else {
      assert (segs + run)[1..] == segs[1..] + run;
      TidyAppend(segs[1..], run);
      if segs[0].first {
        HasLastAppend(segs, run);
      }
    }
  }

  // ---------------------------------------------------------------- poll

  /** What one call of `ftgmac100_rx_packet` takes off and delivers; `alloc` says whether there is
      memory for a socket buffer. */
  function Received(segs: seq<Seg>, alloc: bool): seq<Frame> {
    var r := Located(segs);
    if r == [] || r[0].error || !alloc then [] else [FrameOf(r[..RunLength(r)])]
  }

  function Remaining(segs: seq<Seg>): (rest: seq<Seg>)
    ensures |rest| <= |segs|
    ensures Located(segs) != [] ==> |rest| < |segs|
  {
    var r := Located(segs);
    r[RunLength(r)..]
  }

  /** Memory for the `i`th socket buffer; past the end of the list there is. */
  function First(allocs: seq<bool>): bool { allocs == [] || allocs[0] }
  function Others(allocs: seq<bool>): seq<bool> { if allocs == [] then [] else allocs[1..] }

  datatype Polled = Polled(frames: seq<Frame>, rest: seq<Seg>, more: bool)

  /** The receive loop of `ftgmac100_poll`. */
  function Poll(segs: seq<Seg>, allocs: seq<bool>, budget: nat): Polled
    decreases |segs|
  {
    if Located(segs) == [] then Polled([], [], false)
    else
      var f := Received(segs, First(allocs));
      if |f| >= budget then Polled(f, Remaining(segs), true)
      else
        var p := Poll(Remaining(segs), Others(allocs), budget - |f|);
        Polled(f + p.frames, p.rest, p.more)
  }

  /** The packet at the head can be taken off: it is dropped, or its last segment is there. */
  predicate PacketEnds(segs: seq<Seg>, alloc: bool) {
    var r := Located(segs);
    r == [] || r[0].error || !alloc || HasLast(r)
  }

  /** So can every packet the poll comes to. */
  predicate PollEnds(segs: seq<Seg>, allocs: seq<bool>, budget: nat)
    decreases |segs|
  {
    var f := Received(segs, First(allocs));
    && PacketEnds(segs, First(allocs))
    && (Located(segs) == [] || |f| >= budget || PollEnds(Remaining(segs), Others(allocs), budget - |f|))
  }

  /** That is so when every frame that has begun is complete, and remains so. */
  lemma {:induction false} TidyPoll(segs: seq<Seg>, allocs: seq<bool>, budget: nat)
    requires Tidy(segs)
    ensures PollEnds(segs, allocs, budget) && Tidy(Poll(segs, allocs, budget).rest)
    decreases |segs|
  {
    var r, f := Located(segs), Received(segs, First(allocs));
    TidyTail(r, RunLength(r));
    if r != [] && |f| < budget {
      TidyPoll(Remaining(segs), Others(allocs), budget - |f|);
    }
  }

  /** No more frames than the budget, except that a budget of nothing still allows one. */
  lemma {:induction false} WithinBudget(segs: seq<Seg>, allocs: seq<bool>, budget: nat)
    ensures |Poll(segs, allocs, budget).frames| <= (if budget == 0 then 1 else budget)
    decreases |segs|
  {
    if Located(segs) != [] {
      var f := Received(segs, First(allocs));
      if |f| < budget {
        WithinBudget(Remaining(segs), Others(allocs), budget - |f|);
      }
    }
  }

  /** The budget is kept exactly if it is positive or the first packet is one to drop. */
  lemma BudgetKeptIff(segs: seq<Seg>, allocs: seq<bool>, budget: nat)
    ensures |Poll(segs, allocs, budget).frames| <= budget <==> budget > 0 || Received(segs, First(allocs)) == []
  {
    WithinBudget(segs, allocs, budget);
  }

  /** With a budget of nothing one good frame is delivered all the same. */
  lemma BudgetOfNothing(size: nat, page: nat)
    ensures |Poll([Seg(true, true, size, false, false, page)], [], 0).frames| == 1
  {
  }

  /** A poll that stops by itself has emptied the ring; one that was cut off by a positive budget
      has used all of it. */
  lemma {:induction false} PollStops(segs: seq<Seg>, allocs: seq<bool>, budget: nat)
    ensures var p := Poll(segs, allocs, budget);
            (!p.more ==> p.rest == []) && (p.more && budget > 0 ==> |p.frames| == budget)
    decreases |segs|
  {
    hide Located, RunLength, Received, Remaining;
    ReceivedOne(segs, First(allocs));
    if Located(segs) != [] {
      var f := Received(segs, First(allocs));
      if |f| < budget {
        PollStops(Remaining(segs), Others(allocs), budget - |f|);
      }
    }
  }

  lemma ReceivedOne(segs: seq<Seg>, alloc: bool)
    ensures (Located(segs) != [] ==> |Remaining(segs)| < |segs|) && |Received(segs, alloc)| <= 1
  {
  }

  // ---------------------------------------------------------------- what arrived is what is delivered

  /** The segments of one frame: the first flag on the first only, the last flag on the last only. */
  predicate OneFrame(run: seq<Seg>) {
    && run != []
    && forall i :: 0 <= i < |run| ==> (run[i].first <==> i == 0) && (run[i].last <==> i == |run| - 1)
  }

  ghost predicate AllFrames(runs: seq<seq<Seg>>) {
    forall i :: 0 <= i < |runs| ==> OneFrame(runs[i])
  }

  function Flatten(runs: seq<seq<Seg>>): seq<Seg> {
    if runs == [] then [] else runs[0] + Flatten(runs[1..])
  }

  /** The frames to deliver for the runs: all but those with an error in their first segment and
      those there was no memory for. */
  function Deliverable(runs: seq<seq<Seg>>, allocs: seq<bool>): seq<Frame> {
    if runs == [] then []
    else
      (if runs[0] == [] || runs[0][0].error || !First(allocs) then [] else [FrameOf(runs[0])])
      + Deliverable(runs[1..], Others(allocs))
  }

  lemma {:induction false} RunLengthOfFrame(run: seq<Seg>, rest: seq<Seg>)
    requires run != [] && run[|run| - 1].last && forall i :: 0 <= i < |run| - 1 ==> !run[i].last
    ensures RunLength(run + rest) == |run|
    decreases |run|
  {
    assert (run + rest)[1..] == run[1..] + rest;
    if |run| > 1 {
      RunLengthOfFrame(run[1..], rest);
    }
  }

  /** A frame at the head is what one packet takes off. */
  lemma FrameTaken(run: seq<Seg>, rest: seq<Seg>, alloc: bool)
    requires OneFrame(run)
    ensures Located(run + rest) == run + rest && Remaining(run + rest) == rest
    ensures Received(run + rest, alloc) == if run[0].error || !alloc then [] else [FrameOf(run)]
  {
    RunLengthOfFrame(run, rest);
    assert (run + rest)[..|run|] == run && (run + rest)[|run|..] == rest;
  }

  /** What is left of a frame whose head has been taken off. */
  predicate NoneFirst(junk: seq<Seg>) { forall i :: 0 <= i < |junk| ==> !junk[i].first }

  /** What is in front of the first frame is skipped. */
  lemma {:induction false} JunkSkipped(junk: seq<Seg>, segs: seq<Seg>, allocs: seq<bool>, budget: nat)
    requires NoneFirst(junk)
    ensures Located(junk + segs) == Located(segs)
    ensures Poll(junk + segs, allocs, budget) == Poll(segs, allocs, budget)
    decreases |junk|
  {
    hide RunLength, FrameOf;
    if junk == [] {
      assert junk + segs == segs;
    } else {
      assert (junk + segs)[1..] == junk[1..] + segs;
      JunkSkipped(junk[1..], segs, allocs, budget);
    }
  }

  lemma {:induction false} PollRuns(runs: seq<seq<Seg>>, allocs: seq<bool>, budget: nat) returns (k: nat)
    requires AllFrames(runs)
    ensures k <= |runs|
    ensures var p := Poll(Flatten(runs), allocs, budget);
            && p.frames == Deliverable(runs[..k], allocs) && p.rest == Flatten(runs[k..])
            && (k < |runs| ==> |p.frames| >= budget && p.more)
    decreases |runs|
  {
    hide Located, RunLength, Received, Remaining, OneFrame, Deliverable, FrameOf;
    k := 0;
    if runs == [] {
      NothingDeliverable(runs, allocs);
    } else {
      assert OneFrame(runs[0]);
      FrameTaken(runs[0], Flatten(runs[1..]), First(allocs));
      var f := Received(Flatten(runs), First(allocs));
      k := 1;
      if |f| < budget {
        var m := PollRuns(runs[1..], Others(allocs), budget - |f|);
        k := m + 1;
        assert runs[1..][m..] == runs[k..];
      }
      DeliverFirst(runs, k, allocs);
    }
  }

  /** A poll of a ring that holds whole frames, and before them what is left of an earlier one,
      delivers exactly the deliverable ones of its first `k` frames, in order, and leaves the others
      as they are; it stops early only when the budget is used up. */
  lemma PollDelivers(junk: seq<Seg>, runs: seq<seq<Seg>>, allocs: seq<bool>, budget: nat) returns (k: nat)
    requires NoneFirst(junk) && AllFrames(runs)
    ensures k <= |runs|
    ensures var p := Poll(junk + Flatten(runs), allocs, budget);
            && p.frames == Deliverable(runs[..k], allocs) && p.rest == Flatten(runs[k..])
            && (k < |runs| ==> |p.frames| >= budget && p.more)
  {
    JunkSkipped(junk, Flatten(runs), allocs, budget);
    k := PollRuns(runs, allocs, budget);
  }

  lemma NothingDeliverable(runs: seq<seq<Seg>>, allocs: seq<bool>)
    requires runs == []
    ensures Deliverable([], allocs) == [] && Deliverable(runs[..0], allocs) == [] && Flatten(runs[0..]) == []
    ensures Located([]) == []
  {
  }

  lemma DeliverFirst(runs: seq<seq<Seg>>, k: nat, allocs: seq<bool>)
    requires 0 < k <= |runs| && OneFrame(runs[0])
    ensures runs[0] != [] && runs[1..][0..] == runs[1..]
    ensures Deliverable(runs[..k], allocs) ==
            (if runs[0][0].error || !First(allocs) then [] else [FrameOf(runs[0])])
            + Deliverable(runs[1..][..k - 1], Others(allocs))
    ensures Deliverable(runs[1..][..0], Others(allocs)) == []
  {
    assert runs[..k][1..] == runs[1..][..k - 1];
  }

  lemma {:induction false} FlattenAppend(runs: seq<seq<Seg>>, run: seq<Seg>)
    ensures Flatten(runs + [run]) == Flatten(runs) + run
    decreases |runs|
  {
    if runs == [] {
      assert [run][1..] == [] && runs + [run] == [run];
    } else {
      assert (runs + [run])[1..] == runs[1..] + [run];
      FlattenAppend(runs[1..], run);
    }
  }

  lemma {:induction false} FlattenTwo(a: seq<seq<Seg>>, b: seq<seq<Seg>>)
    ensures Flatten(a + b) == Flatten(a) + Flatten(b)
    decreases |a|
  {
    if a == [] {
      assert a + b == b;
    } else {
      assert (a + b)[1..] == a[1..] + b;
      FlattenTwo(a[1..], b);
    }
  }

  /** A ring that holds whole frames is tidy, */
  lemma {:induction false} TidyFrames(runs: seq<seq<Seg>>)
    requires AllFrames(runs)
    ensures Tidy(Flatten(runs))
    decreases |runs|
  {
    if runs != [] {
      var n := |runs| - 1;
      TidyFrames(runs[..n]);
      FlattenAppend(runs[..n], runs[n]);
      assert runs[..n] + [runs[n]] == runs;
      assert OneFrame(runs[n]);
      TidyAppend(Flatten(runs[..n]), runs[n]);
    }
  }

  /** and what is left of an earlier frame does not matter. */
  lemma {:induction false} TidyJunk(junk: seq<Seg>, segs: seq<Seg>)
    requires NoneFirst(junk) && Tidy(segs)
    ensures Tidy(junk + segs)
    decreases |junk|
  {
    if junk == [] {
      assert junk + segs == segs;
    } else {
      assert (junk + segs)[1..] == junk[1..] + segs;
      TidyJunk(junk[1..], segs);
    }
  }

  // ---------------------------------------------------------------- polls in sequence

  /** The frames in the list in order, error frames left out. */
  function GoodFrames(segs: seq<Seg>): seq<Frame>
    decreases |segs|
  {
    if Located(segs) == [] then [] else Received(segs, true) + GoodFrames(Remaining(segs))
  }

  /** They are the deliverable frames of the runs the ring holds. */
  lemma {:induction false} GoodFramesOfRuns(runs: seq<seq<Seg>>)
    requires AllFrames(runs)
    ensures GoodFrames(Flatten(runs)) == Deliverable(runs, [])
    decreases |runs|
  {
    if runs != [] {
      assert OneFrame(runs[0]);
      FrameTaken(runs[0], Flatten(runs[1..]), true);
      GoodFramesOfRuns(runs[1..]);
    }
  }

  /** What a poll delivers and what it leaves are together what was there: frames come in ring
      order, and a poll loses none. */
  lemma {:induction false} PollInOrder(segs: seq<Seg>, budget: nat)
    ensures var p := Poll(segs, [], budget); GoodFrames(segs) == p.frames + GoodFrames(p.rest)
    ensures var p := Poll(segs, [], budget); !p.more ==> p.rest == []
    decreases |segs|
  {
    hide Located, RunLength, Received, Remaining;
    ReceivedOne(segs, true);
    if Located(segs) != [] {
      var f := Received(segs, true);
      if |f| < budget {
        PollInOrder(Remaining(segs), budget - |f|);
        var p := Poll(Remaining(segs), [], budget - |f|);
        assert f + (p.frames + GoodFrames(p.rest)) == f + p.frames + GoodFrames(p.rest);
      }
    }
  }

  /** What happens to the ring: a frame arrives, or the driver polls. */
  datatype Event = Arrival(run: seq<Seg>) | Polling(budget: nat)

  /** The frames delivered over the events, and what is left. */
  function Run(segs: seq<Seg>, events: seq<Event>): (r: (seq<Frame>, seq<Seg>))
    decreases |events|
  {
    if events == [] then ([], segs)
    else
      match events[0]
      case Arrival(run) => Run(segs + run, events[1..])
      case Polling(budget) =>
        var p := Poll(segs, [], budget);
        var r := Run(p.rest, events[1..]);
        (p.frames + r.0, r.1)
  }

  function Arrivals(events: seq<Event>): seq<seq<Seg>> {
    if events == [] then []
    else (if events[0].Arrival? then [events[0].run] else []) + Arrivals(events[1..])
  }

  lemma {:induction false} DeliverableAppend(a: seq<seq<Seg>>, b: seq<seq<Seg>>)
    ensures Deliverable(a + b, []) == Deliverable(a, []) + Deliverable(b, [])
    decreases |a|
  {
    hide FrameOf;
    if a == [] {
      assert a + b == b;
    } else {
      assert (a + b)[1..] == a[1..] + b;
      DeliverableAppend(a[1..], b);
    }
  }

  /** The frames are the deliverable ones of the first `k` runs, and the others are left. */
  ghost predicate DeliveredFirst(all: seq<seq<Seg>>, k: nat, r: (seq<Frame>, seq<Seg>)) {
    k <= |all| && r == (Deliverable(all[..k], []), Flatten(all[k..]))
  }

  lemma NothingRun(runs: seq<seq<Seg>>)
    ensures DeliveredFirst(runs + Arrivals([]), 0, Run(Flatten(runs), []))
  {
    assert runs + [] == runs && runs[0..] == runs;
  }

  lemma ArrivalRun(runs: seq<seq<Seg>>, events: seq<Event>, k: nat)
    requires events != [] && events[0].Arrival?
    requires DeliveredFirst(runs + [events[0].run] + Arrivals(events[1..]), k,
                            Run(Flatten(runs + [events[0].run]), events[1..]))
    ensures DeliveredFirst(runs + Arrivals(events), k, Run(Flatten(runs), events))
  {
    hide Flatten, Deliverable;
    var run, later := events[0].run, Arrivals(events[1..]);
    FlattenAppend(runs, run);
    assert runs + [run] + later == runs + ([run] + later);
  }

  lemma PollingRun(runs: seq<seq<Seg>>, events: seq<Event>, m: nat, n: nat)
    requires events != [] && events[0].Polling? && m <= |runs|
    requires var p := Poll(Flatten(runs), [], events[0].budget);
             p.frames == Deliverable(runs[..m], []) && p.rest == Flatten(runs[m..])
    requires DeliveredFirst(runs[m..] + Arrivals(events[1..]), n, Run(Flatten(runs[m..]), events[1..]))
    ensures DeliveredFirst(runs + Arrivals(events), m + n, Run(Flatten(runs), events))
  {
    var later := Arrivals(events[1..]);
    PollingFirst(runs, events);
    hide Flatten, Deliverable, Poll, Run, Arrivals;
    Slices(runs, later, m, n);
    DeliverableAppend(runs[..m], (runs[m..] + later)[..n]);
  }

  lemma PollingFirst(runs: seq<seq<Seg>>, events: seq<Event>)
    requires events != [] && events[0].Polling?
    ensures Arrivals(events) == Arrivals(events[1..])
    ensures var p := Poll(Flatten(runs), [], events[0].budget);
            var r := Run(p.rest, events[1..]);
            Run(Flatten(runs), events) == (p.frames + r.0, r.1)
  {
    hide Flatten, Poll;
    assert [] + Arrivals(events[1..]) == Arrivals(events[1..]);
  }

  lemma Slices<T>(a: seq<T>, b: seq<T>, m: nat, n: nat)
    requires m <= |a| && n <= |a[m..] + b|
    ensures m + n <= |a + b|
    ensures (a + b)[..m + n] == a[..m] + (a[m..] + b)[..n] && (a + b)[m + n..] == (a[m..] + b)[n..]
  {
  }

  lemma ArrivalsFrames(runs: seq<seq<Seg>>, events: seq<Event>)
    requires AllFrames(runs) && AllFrames(Arrivals(events)) && events != []
    ensures AllFrames(Arrivals(events[1..])) && (events[0].Arrival? ==> AllFrames(runs + [events[0].run]))
    ensures forall m :: 0 <= m <= |runs| ==> AllFrames(runs[m..])
  {
    hide OneFrame;
    var later := Arrivals(events[1..]);
    if events[0].Arrival? {
      assert Arrivals(events)[0] == events[0].run;
      assert forall i :: 0 <= i < |later| ==> later[i] == Arrivals(events)[i + 1];
    } else {
      assert [] + later == later;
    }
  }

  /** Over every sequence of arrivals and polls, whatever their budgets: the frames delivered are
      the error-free ones of the first `k` that arrived, in order, and the ring holds the others. */
  lemma {:induction false} EveryRunDelivers(runs: seq<seq<Seg>>, events: seq<Event>) returns (k: nat)
    requires AllFrames(runs) && AllFrames(Arrivals(events))
    ensures DeliveredFirst(runs + Arrivals(events), k, Run(Flatten(runs), events))
    decreases |events|
  {
    hide *;
    if events == [] {
      k := 0;
      NothingRun(runs);
    } else {
      ArrivalsFrames(runs, events);
      if events[0].Arrival? {
        k := EveryRunDelivers(runs + [events[0].run], events[1..]);
        ArrivalRun(runs, events, k);
      } else {
        var m := PollRuns(runs, [], events[0].budget);
        var n := EveryRunDelivers(runs[m..], events[1..]);
        k := m + n;
        PollingRun(runs, events, m, n);
      }
    }
  }

  /** Two polls deliver what one poll with both budgets delivers. */
  lemma {:induction false} PollTwice(segs: seq<Seg>, b: nat, c: nat)
    requires b > 0 && c > 0
    ensures var p, t := Poll(segs, [], b), Poll(segs, [], b + c);
            if p.more then
              var q := Poll(p.rest, [], c);
              t.frames == p.frames + q.frames && t.rest == q.rest
            else t == p
    decreases |segs|
  {
    hide Located, RunLength, Received, Remaining;
    ReceivedOne(segs, true);
    if Located(segs) != [] {
      var f := Received(segs, true);
      if |f| < b {
        PollTwice(Remaining(segs), b - |f|, c);
        var p := Poll(Remaining(segs), [], b - |f|);
        if p.more {
          var q := Poll(p.rest, [], c);
          assert f + (p.frames + q.frames) == f + p.frames + q.frames;
        }
      }
    }
  }

  /** Of a ring that holds whole frames they deliver, in order, the error-free ones of the first `k`,
      and as many as both budgets allow unless the ring is empty then. */
  lemma PollTwiceFrames(runs: seq<seq<Seg>>, b: nat, c: nat) returns (k: nat)
    requires AllFrames(runs) && b > 0 && c > 0
    ensures var p := Poll(Flatten(runs), [], b);
            var q := Poll(p.rest, [], c);
            && k <= |runs| && p.frames + q.frames == Deliverable(runs[..k], []) && q.rest == Flatten(runs[k..])
            && (k < |runs| ==> |p.frames + q.frames| == b + c)
  {
    var segs := Flatten(runs);
    var p := Poll(segs, [], b);
    PollTwice(segs, b, c);
    PollStops(segs, [], b);
    PollStops(segs, [], b + c);
    k := PollRuns(runs, [], b + c);
    NothingPolled(c);
    assert p.frames + [] == p.frames;
    hide Poll, Flatten, Deliverable;
  }

  lemma NothingPolled(budget: nat)
    ensures Poll([], [], budget) == Polled([], [], false)
  {
  }
}
