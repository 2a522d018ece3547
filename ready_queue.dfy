/** The ready-queue loop that `solveSJF` and `solvePriority` in script.js
    share, with the comparator as a parameter: admit every arrived process,
    idle until the next arrival when nothing is ready, otherwise sort the
    ready queue, take its head and run it to completion. */
module ReadyQueue {
  import opened Processes
  import opened Ordering
  import opened Schedule

  /** `s.filter(p => p.arrival <= t)` */
  function ArrivedBy(s: seq<Process>, t: int): (r: seq<Process>)
    ensures forall x :: x in r <==> x in s && x.arrival <= t
  {
    if s == [] then []
    else (if s[0].arrival <= t then [s[0]] else []) + ArrivedBy(s[1..], t)
  }

  /** `s.filter(p => p.arrival > t)` */
  function PendingAfter(s: seq<Process>, t: int): (r: seq<Process>)
    ensures forall x :: x in r <==> x in s && x.arrival > t
  {
    if s == [] then []
    else (if s[0].arrival > t then [s[0]] else []) + PendingAfter(s[1..], t)
  }

  /** The two filters split `remaining` without losing or duplicating anything. */
  lemma {:induction false} SplitByArrival(s: seq<Process>, t: int)
    ensures multiset(ArrivedBy(s, t)) + multiset(PendingAfter(s, t)) == multiset(s)
    ensures |ArrivedBy(s, t)| + |PendingAfter(s, t)| == |s|
  {
    if s != [] {
      SplitByArrival(s[1..], t);
      assert s == [s[0]] + s[1..];
    }
  }

  /** Tied processes arrived at the same time, so the filters send a whole
      group of tied processes the same way and keep its order. */
  lemma {:induction false} PeersByArrival(o: Order, y: Process, s: seq<Process>, t: int)
    ensures Peers(o, y, ArrivedBy(s, t)) == (if y.arrival <= t then Peers(o, y, s) else [])
    ensures Peers(o, y, PendingAfter(s, t)) == (if y.arrival <= t then [] else Peers(o, y, s))
  {
    if s != [] {
      PeersByArrival(o, y, s[1..], t);
      ComparatorIsConsistent(o, s[0], y, y);
      var h := if s[0].arrival <= t then [s[0]] else [];
      var g := if s[0].arrival > t then [s[0]] else [];
      PeersConcat(o, y, h, ArrivedBy(s[1..], t));
      PeersConcat(o, y, g, PendingAfter(s[1..], t));
      assert Peers(o, y, [s[0]]) == if Tied(o, s[0], y) then [s[0]] else [];
    }
  }

  /** `Math.min(...s.map(p => p.arrival))`; only reached with `s` non-empty. */
  function MinArrival(s: seq<Process>): (m: int)
    requires s != []
    ensures exists x :: x in s && x.arrival == m
    ensures forall x :: x in s ==> m <= x.arrival
  {
    if |s| == 1 then s[0].arrival
    else
      var m := MinArrival(s[1..]);
      assert forall x :: x in s ==> x == s[0] || x in s[1..];
      if s[0].arrival <= m then s[0].arrival else m
  }

  /** Every dispatch chose a process that may precede, under the comparator,
      each later-dispatched process that had arrived by then. */
  ghost predicate SelectsMinimal(o: Order, f: seq<Record>) {
    forall k, j :: 0 <= k < j < |f| && f[j].proc.arrival <= Start(f[k]) ==>
      Le(o, f[k].proc, f[j].proc)
  }

  /** The same, against processes not yet dispatched. */
  ghost predicate MinimalAgainst(o: Order, f: seq<Record>, s: seq<Process>) {
    forall k, x :: 0 <= k < |f| && x in s && x.arrival <= Start(f[k]) ==> Le(o, f[k].proc, x)
  }

  /** No process of `s` arrives before the end of an IDLE block so far. */
  ghost predicate IdleBefore(tl: seq<Block>, s: seq<Process>) {
    forall i, x :: 0 <= i < |tl| && tl[i].occupant.Idle? && x in s ==> tl[i].end <= x.arrival
  }

  /** IdleEndsAtArrival for every block but the last. */
  ghost predicate IdleWitnessedBeforeLast(f: seq<Record>, tl: seq<Block>) {
    forall i :: 0 <= i < |tl| - 1 && tl[i].occupant.Idle? ==>
      exists r :: r in f && Start(r) == tl[i].end && r.proc.arrival == tl[i].end
  }

  /** Every admitted process has arrived; every process is admissible. */
  ghost predicate Admitted(t: int, rq: seq<Process>, rem: seq<Process>) {
    t >= 0 &&
    (forall x :: x in rq ==> Admissible(x) && x.arrival <= t) &&
    (forall x :: x in rem ==> Admissible(x))
  }

  /** The timeline and the records so far, ending at `t`. */
  ghost predicate TimelineOk(t: int, f: seq<Record>, tl: seq<Block>) {
    Contiguous(tl) && EndTime(tl) == t && BlocksMatch(f, tl) &&
    RecordsConsistent(f) && NoEarlyStart(f) && StartsWithoutDelay(f) &&
    (forall r :: r in f ==> r.completion <= t) &&
    (!LastIsIdle(tl) ==> t == Makespan(f))
  }

  /** Dispatched, ready and remaining processes are the input, with every
      group of tied processes in input order. */
  ghost predicate Conserved(o: Order, procs: seq<Process>, f: seq<Record>, rq: seq<Process>, rem: seq<Process>) {
    multiset(Dispatched(f)) + multiset(rq) + multiset(rem) == multiset(procs) &&
    forall y :: Peers(o, y, Dispatched(f)) + Peers(o, y, rq) + Peers(o, y, rem) == Peers(o, y, procs)
  }

  /** Every dispatch so far was minimal among what had arrived. */
  ghost predicate Selective(o: Order, f: seq<Record>, rq: seq<Process>, rem: seq<Process>) {
    SelectsMinimal(o, f) && MinimalAgainst(o, f, rq) && MinimalAgainst(o, f, rem)
  }

  /** The IDLE blocks so far were forced and end at an arrival; a timeline
      ending in IDLE is waiting for an arrival at `t`. */
  ghost predicate IdleOk(t: int, f: seq<Record>, tl: seq<Block>, rq: seq<Process>, rem: seq<Process>) {
    IdleOnlyWhenNothingReady(f, tl) && IdleBefore(tl, rq) && IdleBefore(tl, rem) &&
    IdleWitnessedBeforeLast(f, tl) &&
    (LastIsIdle(tl) ==> rq == [] && exists x :: x in rem && x.arrival == t)
  }

  /** The loop invariant of the ready-queue loop at the top of an iteration. */
  ghost predicate LoopInv(o: Order, procs: seq<Process>, t: int, f: seq<Record>, tl: seq<Block>,
                          rq: seq<Process>, rem: seq<Process>) {
    Admitted(t, rq, rem) && TimelineOk(t, f, tl) && Conserved(o, procs, f, rq, rem) &&
    Selective(o, f, rq, rem) && IdleOk(t, f, tl, rq, rem)
  }

  /** When nothing has arrived, `remaining` is unchanged by the filter. */
  lemma {:induction false} NothingArrived(rem: seq<Process>, t: int)
    requires ArrivedBy(rem, t) == []
    ensures PendingAfter(rem, t) == rem
  {
    if rem != [] {
      assert rem[0] in rem;
      NothingArrived(rem[1..], t);
      assert ArrivedBy(rem[1..], t) == [];
      assert rem == [rem[0]] + rem[1..];
    }
  }

  /** An IDLE iteration: nothing is ready, so idle until the earliest arrival. */
  lemma IdleStep(o: Order, procs: seq<Process>, t: int, f: seq<Record>, tl: seq<Block>,
                 rem: seq<Process>, t': int, tl': seq<Block>)
    requires LoopInv(o, procs, t, f, tl, [], rem)
    requires rem != [] && ArrivedBy(rem, t) == []
    requires t' == MinArrival(rem) && tl' == tl + [Block(Idle, t, t')]
    ensures t < t' && ArrivedBy(rem, t') != []
    ensures LoopInv(o, procs, t', f, tl', [], rem)
  {
    var x :| x in rem && x.arrival == t';
    assert x in ArrivedBy(rem, t');
    assert !(x in ArrivedBy(rem, t));
    assert !LastIsIdle(tl);
    AppendIdle(f, tl, t, t');
    assert forall i :: 0 <= i < |tl| ==> tl'[i] == tl[i];
    assert IdleOnlyWhenNothingReady(f, tl');
    assert IdleBefore(tl', rem);
    forall i | 0 <= i < |tl'| - 1 && tl'[i].occupant.Idle?
      ensures exists r :: r in f && Start(r) == tl'[i].end && r.proc.arrival == tl'[i].end
    {
      assert tl'[i] == tl[i] && i < |tl| - 1;
    }
  }

  /** What the head of the freshly sorted ready queue is. */
  lemma ReadyHead(o: Order, rq: seq<Process>, rem: seq<Process>, t: int, q: seq<Process>)
    requires q == StableSort(o, rq + ArrivedBy(rem, t)) && q != []
    ensures |q| == |rq| + |ArrivedBy(rem, t)|
    ensures forall x :: x in q <==> x in rq || (x in rem && x.arrival <= t)
    ensures forall x :: x in q[1..] ==> x in q && Le(o, q[0], x)
    ensures q[0] in q
  {
    var s := rq + ArrivedBy(rem, t);
    forall x ensures x in q <==> x in s {
      assert x in q <==> x in multiset(q);
      assert x in s <==> x in multiset(s);
    }
    StableSortSorted(o, s);
    forall x | x in q[1..] ensures x in q && Le(o, q[0], x) {
      var k :| 0 <= k < |q[1..]| && q[1..][k] == x;
      assert q[k + 1] == x;
    }
  }

  /** The times the loop body computes when it runs `p` from `t`. */
  ghost predicate Runs(p: Process, t: int, end: int, turnaround: int, waiting: int) {
    end == t + p.burst && turnaround == end - p.arrival && waiting == turnaround - p.burst
  }

  /** The process taken from the sorted ready queue has arrived, and right
      after an IDLE block it is the one whose arrival ended that block. */
  lemma DispatchHead(o: Order, t: int, tl: seq<Block>, rq: seq<Process>, rem: seq<Process>, q: seq<Process>)
    requires (forall x :: x in rq ==> Admissible(x) && x.arrival <= t) && forall x :: x in rem ==> Admissible(x)
    requires EndTime(tl) == t && IdleBefore(tl, rem) && (LastIsIdle(tl) ==> rq == [])
    requires q == StableSort(o, rq + ArrivedBy(rem, t)) && q != []
    ensures Admissible(q[0]) && q[0].arrival <= t
    ensures LastIsIdle(tl) ==> q[0].arrival == t
  {
    ReadyHead(o, rq, rem, t, q);
    if LastIsIdle(tl) {
      assert tl[|tl| - 1].end == t;
    }
  }

  /** The timeline after a dispatch. */
  lemma DispatchTimeline(f: seq<Record>, tl: seq<Block>, p: Process, t: int,
                         end: int, turnaround: int, waiting: int, f': seq<Record>, tl': seq<Block>)
    requires Contiguous(tl) && EndTime(tl) == t && BlocksMatch(f, tl) && p.burst > 0
    requires Runs(p, t, end, turnaround, waiting)
    requires f' == f + [Record(p, end, turnaround, waiting)] && tl' == tl + [Block(Running(p.pid), t, end)]
    ensures Contiguous(tl') && EndTime(tl') == end && BlocksMatch(f', tl')
    ensures !LastIsIdle(tl') && end == Makespan(f')
  {
    AppendRun(f, tl, p, t, end);
  }

  /** The records after a dispatch. */
  lemma DispatchRecords(f: seq<Record>, p: Process, t: int, idleBefore: bool,
                        end: int, turnaround: int, waiting: int, f': seq<Record>)
    requires RecordsConsistent(f) && NoEarlyStart(f) && StartsWithoutDelay(f)
    requires forall r :: r in f ==> r.completion <= t
    requires !idleBefore ==> t == Makespan(f)
    requires idleBefore ==> p.arrival == t
    requires Admissible(p) && p.arrival <= t && Runs(p, t, end, turnaround, waiting)
    requires f' == f + [Record(p, end, turnaround, waiting)]
    ensures RecordsConsistent(f') && NoEarlyStart(f') && StartsWithoutDelay(f')
    ensures forall r :: r in f' ==> r.completion <= end
  {
    assert f'[..|f|] == f;
    assert Makespan(f) <= t by {
      if f != [] {
        assert f[|f| - 1] in f;
      }
    }
  }

  /** The queues after a dispatch hold admissible processes, and the ready
      ones have arrived. */
  lemma DispatchAdmits(o: Order, t: int, rq: seq<Process>, rem: seq<Process>, q: seq<Process>, end: int)
    requires t >= 0 && forall x :: x in rq ==> Admissible(x) && x.arrival <= t
    requires forall x :: x in rem ==> Admissible(x)
    requires q == StableSort(o, rq + ArrivedBy(rem, t)) && q != [] && end == t + q[0].burst
    ensures end >= 0 && forall x :: x in q[1..] ==> Admissible(x) && x.arrival <= end
    ensures forall x :: x in PendingAfter(rem, t) ==> Admissible(x)
  {
    ReadyHead(o, rq, rem, t, q);
  }

  /** The queues after a dispatch: nothing lost. */
  lemma DispatchQueues(o: Order, procs: seq<Process>, t: int, f: seq<Record>,
                       rq: seq<Process>, rem: seq<Process>, q: seq<Process>, r: Record, f': seq<Record>)
    requires multiset(Dispatched(f)) + multiset(rq) + multiset(rem) == multiset(procs)
    requires q == StableSort(o, rq + ArrivedBy(rem, t)) && q != []
    requires r.proc == q[0] && f' == f + [r]
    ensures Dispatched(f') == Dispatched(f) + [q[0]]
    ensures multiset(Dispatched(f')) + multiset(q[1..]) + multiset(PendingAfter(rem, t)) == multiset(procs)
    ensures |q[1..]| + |PendingAfter(rem, t)| < |rq| + |rem|
  {
    var p := q[0];
    var a, pend := ArrivedBy(rem, t), PendingAfter(rem, t);
    SplitByArrival(rem, t);
    DispatchedAppend(f, r);
    assert q == [p] + q[1..];
    var d := Dispatched(f);
    assert multiset(q) == multiset(rq) + multiset(a) by {
      assert multiset(q) == multiset(rq + a);
    }
    assert multiset(q) == multiset{p} + multiset(q[1..]);
    assert multiset(Dispatched(f')) == multiset(d) + multiset{p};
    calc {
      multiset(Dispatched(f')) + multiset(q[1..]) + multiset(pend);
      multiset(d) + (multiset{p} + multiset(q[1..])) + multiset(pend);
      multiset(d) + multiset(rq) + (multiset(a) + multiset(pend));
      multiset(d) + multiset(rq) + multiset(rem);
    }
  }

  /** Tied processes keep their input order across a dispatch. */
  lemma DispatchPeers(o: Order, procs: seq<Process>, f: seq<Record>, rq: seq<Process>,
                      rem: seq<Process>, t: int, q: seq<Process>, f': seq<Record>)
    requires forall y :: Peers(o, y, Dispatched(f)) + Peers(o, y, rq) + Peers(o, y, rem) == Peers(o, y, procs)
    requires q == StableSort(o, rq + ArrivedBy(rem, t)) && q != []
    requires Dispatched(f') == Dispatched(f) + [q[0]]
    ensures forall y :: Peers(o, y, Dispatched(f')) + Peers(o, y, q[1..]) + Peers(o, y, PendingAfter(rem, t)) == Peers(o, y, procs)
  {
    var a := ArrivedBy(rem, t);
    assert q == [q[0]] + q[1..];
    forall y ensures Peers(o, y, Dispatched(f')) + Peers(o, y, q[1..]) + Peers(o, y, PendingAfter(rem, t)) == Peers(o, y, procs) {
      StableSortPeers(o, rq + a, y);
      PeersByArrival(o, y, rem, t);
      PeersRearranged(o, y, Dispatched(f), q[0], q[1..], PendingAfter(rem, t), rq, a, rem);
    }
  }

  /** Moving the head of the sorted ready queue to the dispatched list
      keeps every group of tied processes in the same order. */
  lemma PeersRearranged(o: Order, y: Process, d: seq<Process>, p: Process, rest: seq<Process>,
                        pend: seq<Process>, rq: seq<Process>, a: seq<Process>, rem: seq<Process>)
    requires Peers(o, y, [p] + rest) == Peers(o, y, rq + a)
    requires Peers(o, y, a) + Peers(o, y, pend) == Peers(o, y, rem)
    ensures Peers(o, y, d + [p]) + Peers(o, y, rest) + Peers(o, y, pend) ==
            Peers(o, y, d) + Peers(o, y, rq) + Peers(o, y, rem)
  {
    PeersConcat(o, y, d, [p]);
    PeersConcat(o, y, [p], rest);
    PeersConcat(o, y, rq, a);
    Regroup(Peers(o, y, d), Peers(o, y, [p]), Peers(o, y, rest), Peers(o, y, pend),
            Peers(o, y, rq), Peers(o, y, a), Peers(o, y, rem));
  }

  lemma Regroup<T>(d: seq<T>, p: seq<T>, t: seq<T>, e: seq<T>, r: seq<T>, a: seq<T>, m: seq<T>)
    requires p + t == r + a && a + e == m
    ensures (d + p) + t + e == d + r + m
  {
    calc {
      (d + p) + t + e;
      d + (p + t) + e;
      d + (r + a) + e;
      d + r + (a + e);
    }
  }

  /** The selection facts after a dispatch. */
  lemma DispatchSelection(o: Order, t: int, f: seq<Record>,
                          rq: seq<Process>, rem: seq<Process>, q: seq<Process>,
                          end: int, turnaround: int, waiting: int, f': seq<Record>)
    requires SelectsMinimal(o, f) && MinimalAgainst(o, f, rq) && MinimalAgainst(o, f, rem)
    requires q == StableSort(o, rq + ArrivedBy(rem, t)) && q != []
    requires Runs(q[0], t, end, turnaround, waiting) && f' == f + [Record(q[0], end, turnaround, waiting)]
    ensures SelectsMinimal(o, f') && MinimalAgainst(o, f', q[1..])
    ensures MinimalAgainst(o, f', PendingAfter(rem, t))
  {
    var p := q[0];
    ReadyHead(o, rq, rem, t, q);
    assert Start(f'[|f|]) == t;
    forall k, j | 0 <= k < j < |f'| && f'[j].proc.arrival <= Start(f'[k])
      ensures Le(o, f'[k].proc, f'[j].proc)
    {
      if j == |f| {
        assert f'[k] == f[k];
        assert p in rq || p in rem;
      } else {
        assert f'[k] == f[k] && f'[j] == f[j];
      }
    }
    forall k, x | 0 <= k < |f'| && x in q[1..] && x.arrival <= Start(f'[k])
      ensures Le(o, f'[k].proc, x)
    {
      if k < |f| {
        assert f'[k] == f[k];
        assert x in rq || x in rem;
      }
    }
    forall k, x | 0 <= k < |f'| && x in PendingAfter(rem, t) && x.arrival <= Start(f'[k])
      ensures Le(o, f'[k].proc, x)
    {
      assert k < |f|;
      assert f'[k] == f[k];
    }
  }

  /** After a dispatch, the IDLE blocks so far still were forced. */
  lemma DispatchIdleForced(o: Order, t: int, f: seq<Record>, tl: seq<Block>,
                           rq: seq<Process>, rem: seq<Process>, q: seq<Process>,
                           end: int, turnaround: int, waiting: int, f': seq<Record>, tl': seq<Block>)
    requires IdleOnlyWhenNothingReady(f, tl) && IdleBefore(tl, rq) && IdleBefore(tl, rem)
    requires q == StableSort(o, rq + ArrivedBy(rem, t)) && q != []
    requires f' == f + [Record(q[0], end, turnaround, waiting)] && tl' == tl + [Block(Running(q[0].pid), t, end)]
    ensures IdleOnlyWhenNothingReady(f', tl')
  {
    var r := f'[|f|];
    ReadyHead(o, rq, rem, t, q);
    forall i, r' | 0 <= i < |tl'| && tl'[i].occupant.Idle? && r' in f'
      ensures r'.completion <= tl'[i].start || tl'[i].end <= r'.proc.arrival
    {
      assert i < |tl| && tl'[i] == tl[i];
      if r' == r {
        assert q[0] in rq || q[0] in rem;
      }
    }
  }

  /** After a dispatch, no process still waiting arrived during an IDLE block. */
  lemma DispatchIdleBefore(o: Order, t: int, tl: seq<Block>,
                           rq: seq<Process>, rem: seq<Process>, q: seq<Process>, end: int, tl': seq<Block>)
    requires IdleBefore(tl, rq) && IdleBefore(tl, rem)
    requires q == StableSort(o, rq + ArrivedBy(rem, t)) && q != []
    requires tl' == tl + [Block(Running(q[0].pid), t, end)]
    ensures IdleBefore(tl', q[1..]) && IdleBefore(tl', PendingAfter(rem, t))
  {
    ReadyHead(o, rq, rem, t, q);
    forall i, x | 0 <= i < |tl'| && tl'[i].occupant.Idle? && x in q[1..]
      ensures tl'[i].end <= x.arrival
    {
      assert i < |tl| && tl'[i] == tl[i];
      assert x in rq || x in rem;
    }
    forall i, x | 0 <= i < |tl'| && tl'[i].occupant.Idle? && x in PendingAfter(rem, t)
      ensures tl'[i].end <= x.arrival
    {
      assert i < |tl| && tl'[i] == tl[i];
    }
  }

  /** After a dispatch, every IDLE block but the new last one ends at the
      start of a process that arrived right then. */
  lemma DispatchIdleWitnessed(t: int, f: seq<Record>, tl: seq<Block>, p: Process,
                              end: int, turnaround: int, waiting: int, f': seq<Record>, tl': seq<Block>)
    requires EndTime(tl) == t && IdleWitnessedBeforeLast(f, tl)
    requires LastIsIdle(tl) ==> p.arrival == t
    requires end == t + p.burst
    requires f' == f + [Record(p, end, turnaround, waiting)] && tl' == tl + [Block(Running(p.pid), t, end)]
    ensures IdleWitnessedBeforeLast(f', tl')
  {
    var r := f'[|f|];
    assert Start(r) == t;
    forall i | 0 <= i < |tl'| - 1 && tl'[i].occupant.Idle?
      ensures exists r' :: r' in f' && Start(r') == tl'[i].end && r'.proc.arrival == tl'[i].end
    {
      assert tl'[i] == tl[i];
      if i == |tl| - 1 {
        assert r in f' && Start(r) == tl[i].end;
      } else {
        var w :| w in f && Start(w) == tl[i].end && w.proc.arrival == tl[i].end;
        assert w in f';
      }
    }
  }

  /** A dispatch keeps the timeline, record and IDLE parts of the invariant. */
  lemma DispatchKeepsTimeline(o: Order, procs: seq<Process>, t: int, f: seq<Record>, tl: seq<Block>,
                              rq: seq<Process>, rem: seq<Process>, q: seq<Process>,
                              end: int, turnaround: int, waiting: int, f': seq<Record>, tl': seq<Block>)
    requires LoopInv(o, procs, t, f, tl, rq, rem)
    requires q == StableSort(o, rq + ArrivedBy(rem, t)) && q != []
    requires Runs(q[0], t, end, turnaround, waiting)
    requires f' == f + [Record(q[0], end, turnaround, waiting)] && tl' == tl + [Block(Running(q[0].pid), t, end)]
    ensures TimelineOk(end, f', tl') && IdleOk(end, f', tl', q[1..], PendingAfter(rem, t))
  {
    DispatchHead(o, t, tl, rq, rem, q);
    DispatchTimeline(f, tl, q[0], t, end, turnaround, waiting, f', tl');
    DispatchRecords(f, q[0], t, LastIsIdle(tl), end, turnaround, waiting, f');
    DispatchIdleForced(o, t, f, tl, rq, rem, q, end, turnaround, waiting, f', tl');
    DispatchIdleBefore(o, t, tl, rq, rem, q, end, tl');
    DispatchIdleWitnessed(t, f, tl, q[0], end, turnaround, waiting, f', tl');
  }

  /** A dispatch keeps the queue and selection parts of the invariant. */
  lemma DispatchKeepsQueues(o: Order, procs: seq<Process>, t: int, f: seq<Record>, tl: seq<Block>,
                            rq: seq<Process>, rem: seq<Process>, q: seq<Process>,
                            end: int, turnaround: int, waiting: int, f': seq<Record>)
    requires LoopInv(o, procs, t, f, tl, rq, rem)
    requires q == StableSort(o, rq + ArrivedBy(rem, t)) && q != []
    requires Runs(q[0], t, end, turnaround, waiting) && f' == f + [Record(q[0], end, turnaround, waiting)]
    ensures Admitted(end, q[1..], PendingAfter(rem, t)) && Conserved(o, procs, f', q[1..], PendingAfter(rem, t))
    ensures Selective(o, f', q[1..], PendingAfter(rem, t))
    ensures |q[1..]| + |PendingAfter(rem, t)| < |rq| + |rem|
  {
    DispatchAdmits(o, t, rq, rem, q, end);
    DispatchQueues(o, procs, t, f, rq, rem, q, Record(q[0], end, turnaround, waiting), f');
    DispatchPeers(o, procs, f, rq, rem, t, q, f');
    DispatchSelection(o, t, f, rq, rem, q, end, turnaround, waiting, f');
  }

  /** A dispatching iteration: sort the ready queue, take its head and run
      it to completion, from state (`t`, `f`, `tl`, `rq`, `rem`). */
  lemma DispatchStep(o: Order, procs: seq<Process>, t: int, f: seq<Record>, tl: seq<Block>,
                     rq: seq<Process>, rem: seq<Process>, q: seq<Process>,
                     p: Process, start: int, end: int, turnaround: int, waiting: int,
                     f': seq<Record>, tl': seq<Block>)
    requires LoopInv(o, procs, t, f, tl, rq, rem)
    requires q == StableSort(o, rq + ArrivedBy(rem, t)) && q != [] && p == q[0]
    requires start == t && end == start + p.burst
    requires turnaround == end - p.arrival && waiting == turnaround - p.burst
    requires f' == f + [Record(p, end, turnaround, waiting)]
    requires tl' == tl + [Block(Running(p.pid), start, end)]
    ensures LoopInv(o, procs, end, f', tl', q[1..], PendingAfter(rem, t))
    ensures |q[1..]| + |PendingAfter(rem, t)| < |rq| + |rem|
  {
    DispatchKeepsTimeline(o, procs, t, f, tl, rq, rem, q, end, turnaround, waiting, f', tl');
    DispatchKeepsQueues(o, procs, t, f, tl, rq, rem, q, end, turnaround, waiting, f');
  }

  /** One pass of the `while` loop of `solveSJF` / `solvePriority`. */
  method Iterate(o: Order, ghost procs: seq<Process>, currentTime: int, finished: seq<Record>, timeline: seq<Block>,
                 readyQueue: seq<Process>, remaining: seq<Process>)
    returns (currentTime': int, finished': seq<Record>, timeline': seq<Block>,
             readyQueue': seq<Process>, remaining': seq<Process>)
    requires LoopInv(o, procs, currentTime, finished, timeline, readyQueue, remaining)
    requires remaining != [] || readyQueue != []
    ensures LoopInv(o, procs, currentTime', finished', timeline', readyQueue', remaining')
    ensures |remaining'| + |readyQueue'| < |remaining| + |readyQueue| ||
      (|remaining'| + |readyQueue'| == |remaining| + |readyQueue| &&
       readyQueue == [] && ArrivedBy(remaining, currentTime) == [] &&
       (readyQueue' != [] || ArrivedBy(remaining', currentTime') != []))
  {
    ghost var t, f, tl, rq, rem := currentTime, finished, timeline, readyQueue, remaining;
    var arrived := ArrivedBy(remaining, currentTime);
    readyQueue' := readyQueue + arrived;
    remaining' := PendingAfter(remaining, currentTime);
    if readyQueue' == [] {
      NothingArrived(rem, t);
      var nextArrival := MinArrival(remaining');
      timeline' := timeline + [Block(Idle, currentTime, nextArrival)];
      currentTime' := nextArrival;
      finished' := finished;
      IdleStep(o, procs, t, f, tl, rem, currentTime', timeline');
    } else {
      readyQueue' := StableSort(o, readyQueue');
      ghost var q := readyQueue';
      var p := readyQueue'[0];
      readyQueue' := readyQueue'[1..];
      var start := currentTime;
      currentTime' := currentTime + p.burst;
      var end := currentTime';
      var turnaround := end - p.arrival;
      var waiting := turnaround - p.burst;
      finished' := finished + [Record(p, end, turnaround, waiting)];
      timeline' := timeline + [Block(Running(p.pid), start, end)];
      DispatchStep(o, procs, t, f, tl, rq, rem, q, p, start, end, turnaround, waiting, finished', timeline');
    }
  }

  /** The ready-queue loop of `solveSJF` / `solvePriority` with comparator `o`. */
  method RunReadyQueue(o: Order, procs: seq<Process>) returns (finished: seq<Record>, timeline: seq<Block>)
    requires forall p :: p in procs ==> Admissible(p)
    // every process is dispatched exactly once
    ensures multiset(Dispatched(finished)) == multiset(procs)
    // each dispatch picks a minimal ready process under `o`
    ensures SelectsMinimal(o, finished)
    // processes `o` cannot tell apart are dispatched in input order
    ensures forall y :: Peers(o, y, Dispatched(finished)) == Peers(o, y, procs)
    // records
    ensures RecordsConsistent(finished) && NoEarlyStart(finished) && StartsWithoutDelay(finished)
    // timeline
    ensures Contiguous(timeline) && BlocksMatch(finished, timeline)
    ensures EndTime(timeline) == Makespan(finished)
    ensures forall r :: r in finished ==> r.completion <= EndTime(timeline)
    ensures IdleOnlyWhenNothingReady(finished, timeline) && IdleEndsAtArrival(finished, timeline)
  {
    var currentTime := 0;
    timeline := [];
    finished := [];
    var readyQueue: seq<Process> := [];
    var remaining := procs;
    LoopInit(o, procs);
    while remaining != [] || readyQueue != []
      invariant LoopInv(o, procs, currentTime, finished, timeline, readyQueue, remaining)
      decreases |remaining| + |readyQueue|,
        if readyQueue == [] && ArrivedBy(remaining, currentTime) == [] then 1 else 0
    {
      currentTime, finished, timeline, readyQueue, remaining :=
        Iterate(o, procs, currentTime, finished, timeline, readyQueue, remaining);
    }
    LoopExit(o, procs, currentTime, finished, timeline, readyQueue, remaining);
  }

  /** Before the first iteration nothing has been dispatched or admitted. */
  lemma LoopInit(o: Order, procs: seq<Process>)
    requires forall p :: p in procs ==> Admissible(p)
    ensures LoopInv(o, procs, 0, [], [], [], procs)
  {
    assert Dispatched([]) == [];
  }

  /** When both queues are empty the invariant yields the scheduler's contract. */
  lemma LoopExit(o: Order, procs: seq<Process>, t: int, f: seq<Record>, tl: seq<Block>,
                 rq: seq<Process>, rem: seq<Process>)
    requires LoopInv(o, procs, t, f, tl, rq, rem) && rq == [] && rem == []
    ensures multiset(Dispatched(f)) == multiset(procs)
    ensures SelectsMinimal(o, f)
    ensures forall y :: Peers(o, y, Dispatched(f)) == Peers(o, y, procs)
    ensures RecordsConsistent(f) && NoEarlyStart(f) && StartsWithoutDelay(f)
    ensures Contiguous(tl) && BlocksMatch(f, tl)
    ensures EndTime(tl) == Makespan(f)
    ensures forall r :: r in f ==> r.completion <= EndTime(tl)
    ensures IdleOnlyWhenNothingReady(f, tl) && IdleEndsAtArrival(f, tl)
  {
    forall y ensures Peers(o, y, Dispatched(f)) == Peers(o, y, procs) {
      assert Peers(o, y, Dispatched(f)) + Peers(o, y, []) + Peers(o, y, []) == Peers(o, y, procs);
    }
  }

  /** Under the SJF comparator, each dispatch ran a shortest process among
      those that had arrived, and the earliest arrival among equally short ones. */
  lemma ShortestJobFirst(f: seq<Record>)
    requires SelectsMinimal(ByBurst, f)
    ensures forall k, j :: 0 <= k < j < |f| && f[j].proc.arrival <= Start(f[k]) ==>
      f[k].proc.burst < f[j].proc.burst ||
      (f[k].proc.burst == f[j].proc.burst && f[k].proc.arrival <= f[j].proc.arrival)
  {
    forall k, j | 0 <= k < j < |f| && f[j].proc.arrival <= Start(f[k])
      ensures f[k].proc.burst < f[j].proc.burst ||
        (f[k].proc.burst == f[j].proc.burst && f[k].proc.arrival <= f[j].proc.arrival)
    {
      CompareMeaning(ByBurst, f[k].proc, f[j].proc);
    }
  }

  /** Under the Priority comparator, each dispatch ran a process of lowest
      priority number among those that had arrived, and the earliest arrival
      among equal priorities. */
  lemma LowestPriorityNumberFirst(f: seq<Record>)
    requires SelectsMinimal(ByPriority, f)
    ensures forall k, j :: 0 <= k < j < |f| && f[j].proc.arrival <= Start(f[k]) ==>
      f[k].proc.priority < f[j].proc.priority ||
      (f[k].proc.priority == f[j].proc.priority && f[k].proc.arrival <= f[j].proc.arrival)
  {
    forall k, j | 0 <= k < j < |f| && f[j].proc.arrival <= Start(f[k])
      ensures f[k].proc.priority < f[j].proc.priority ||
        (f[k].proc.priority == f[j].proc.priority && f[k].proc.arrival <= f[j].proc.arrival)
    {
      CompareMeaning(ByPriority, f[k].proc, f[j].proc);
    }
  }

  /** `solveSJF`: the loop with the (burst, arrival) comparator. */
  method SolveSJF(procs: seq<Process>) returns (finished: seq<Record>, timeline: seq<Block>)
    requires forall p :: p in procs ==> Admissible(p)
    ensures multiset(Dispatched(finished)) == multiset(procs)
    ensures SelectsMinimal(ByBurst, finished)
    ensures forall k, j :: 0 <= k < j < |finished| && finished[j].proc.arrival <= Start(finished[k]) ==>
      finished[k].proc.burst < finished[j].proc.burst ||
      (finished[k].proc.burst == finished[j].proc.burst && finished[k].proc.arrival <= finished[j].proc.arrival)
    ensures forall y :: Peers(ByBurst, y, Dispatched(finished)) == Peers(ByBurst, y, procs)
    ensures RecordsConsistent(finished) && NoEarlyStart(finished) && StartsWithoutDelay(finished)
    ensures Contiguous(timeline) && BlocksMatch(finished, timeline)
    ensures EndTime(timeline) == Makespan(finished)
    ensures forall r :: r in finished ==> r.completion <= EndTime(timeline)
    ensures IdleOnlyWhenNothingReady(finished, timeline) && IdleEndsAtArrival(finished, timeline)
  {
    finished, timeline := RunReadyQueue(ByBurst, procs);
    ShortestJobFirst(finished);
  }

  /** `solvePriority`: the loop with the (priority, arrival) comparator. */
  method SolvePriority(procs: seq<Process>) returns (finished: seq<Record>, timeline: seq<Block>)
    requires forall p :: p in procs ==> Admissible(p)
    ensures multiset(Dispatched(finished)) == multiset(procs)
    ensures SelectsMinimal(ByPriority, finished)
    ensures forall k, j :: 0 <= k < j < |finished| && finished[j].proc.arrival <= Start(finished[k]) ==>
      finished[k].proc.priority < finished[j].proc.priority ||
      (finished[k].proc.priority == finished[j].proc.priority && finished[k].proc.arrival <= finished[j].proc.arrival)
    ensures forall y :: Peers(ByPriority, y, Dispatched(finished)) == Peers(ByPriority, y, procs)
    ensures RecordsConsistent(finished) && NoEarlyStart(finished) && StartsWithoutDelay(finished)
    ensures Contiguous(timeline) && BlocksMatch(finished, timeline)
    ensures EndTime(timeline) == Makespan(finished)
    ensures forall r :: r in finished ==> r.completion <= EndTime(timeline)
    ensures IdleOnlyWhenNothingReady(finished, timeline) && IdleEndsAtArrival(finished, timeline)
  {
    finished, timeline := RunReadyQueue(ByPriority, procs);
    LowestPriorityNumberFirst(finished);
  }
}
