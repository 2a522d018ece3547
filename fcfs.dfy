/** First-Come-First-Served, `solveFCFS` in script.js: sort by arrival, then
    run the processes one after another, idling until each one arrives. */
module Fcfs {
  import opened Processes
  import opened Ordering
  import opened Schedule

  /** Every IDLE block so far ends no later than the arrival of any process
      still to be dispatched. */
  ghost predicate IdleBeforeRest(tl: seq<Block>, proc: seq<Process>, i: int) {
    forall j, k :: 0 <= j < |tl| && tl[j].occupant.Idle? && 0 <= k && i <= k < |proc| ==>
      tl[j].end <= proc[k].arrival
  }

  /** The state of `solveFCFS` after dispatching `proc[..i]`. */
  ghost predicate FcfsInv(proc: seq<Process>, i: int, currentTime: int, f: seq<Record>, tl: seq<Block>) {
    0 <= i <= |proc| && currentTime >= 0 &&
    Dispatched(f) == proc[..i] &&
    Contiguous(tl) && EndTime(tl) == currentTime && BlocksMatch(f, tl) &&
    currentTime == Makespan(f) &&
    RecordsConsistent(f) && NoEarlyStart(f) && StartsWithoutDelay(f) &&
    (forall r :: r in f ==> r.completion <= currentTime) &&
    IdleOnlyWhenNothingReady(f, tl) && IdleBeforeRest(tl, proc, i) &&
    IdleEndsAtArrival(f, tl)
  }

  /** The idle part of one iteration: if `p` has not arrived, idle until it does. */
  lemma FcfsIdle(proc: seq<Process>, i: int, currentTime: int, f: seq<Record>, tl: seq<Block>)
    requires FcfsInv(proc, i, currentTime, f, tl) && i < |proc| && Sorted(ByArrival, proc)
    requires currentTime < proc[i].arrival
    ensures var tl' := tl + [Block(Idle, currentTime, proc[i].arrival)];
      Contiguous(tl') && EndTime(tl') == proc[i].arrival && BlocksMatch(f, tl') &&
      IdleOnlyWhenNothingReady(f, tl') && IdleBeforeRest(tl', proc, i) &&
      forall j :: 0 <= j < |tl| && tl[j].occupant.Idle? ==> tl'[j] == tl[j]
  {
    var p := proc[i];
    AppendIdle(f, tl, currentTime, p.arrival);
    var tl' := tl + [Block(Idle, currentTime, p.arrival)];
    forall k | i <= k < |proc| ensures p.arrival <= proc[k].arrival {
      if k > i {
        CompareMeaning(ByArrival, p, proc[k]);
      }
    }
    assert forall j :: 0 <= j < |tl| ==> tl'[j] == tl[j];
  }

  /** The records after one iteration. */
  lemma FcfsStepRecords(proc: seq<Process>, i: int, t: int, f: seq<Record>, t': int, f': seq<Record>)
    requires 0 <= i < |proc| && Admissible(proc[i])
    requires Dispatched(f) == proc[..i] && t == Makespan(f)
    requires RecordsConsistent(f) && NoEarlyStart(f) && StartsWithoutDelay(f)
    requires forall r :: r in f ==> r.completion <= t
    requires var p := proc[i];
      t' == Max(t, p.arrival) + p.burst &&
      f' == f + [Record(p, t', t' - p.arrival, t' - p.arrival - p.burst)]
    ensures Dispatched(f') == proc[..i + 1] && t' == Makespan(f')
    ensures RecordsConsistent(f') && NoEarlyStart(f') && StartsWithoutDelay(f')
    ensures forall r :: r in f' ==> r.completion <= t'
  {
    var p := proc[i];
    DispatchedAppend(f, f'[|f|]);
    assert proc[..i + 1] == proc[..i] + [p];
    assert f'[..|f|] == f;
  }

  /** The IDLE facts after one iteration. */
  lemma FcfsStepIdle(proc: seq<Process>, i: int, t: int, f: seq<Record>, tl: seq<Block>,
                     t': int, f': seq<Record>, tl': seq<Block>)
    requires FcfsInv(proc, i, t, f, tl) && i < |proc| && Sorted(ByArrival, proc)
    requires var p := proc[i];
      var start := Max(t, p.arrival);
      var tl1 := if t < p.arrival then tl + [Block(Idle, t, p.arrival)] else tl;
      t' == start + p.burst &&
      f' == f + [Record(p, t', t' - p.arrival, t' - p.arrival - p.burst)] &&
      tl' == tl1 + [Block(Running(p.pid), start, t')]
    ensures IdleOnlyWhenNothingReady(f', tl') && IdleBeforeRest(tl', proc, i + 1)
    ensures IdleEndsAtArrival(f', tl')
  {
    var p := proc[i];
    var start := Max(t, p.arrival);
    var tl1 := if t < p.arrival then tl + [Block(Idle, t, p.arrival)] else tl;
    if t < p.arrival {
      FcfsIdle(proc, i, t, f, tl);
    }
    assert IdleOnlyWhenNothingReady(f, tl1) && IdleBeforeRest(tl1, proc, i);
    var r := f'[|f|];
    forall j, k | 0 <= j < |tl'| && tl'[j].occupant.Idle? && 0 <= k && i + 1 <= k < |proc|
      ensures tl'[j].end <= proc[k].arrival
    {
      assert tl'[j] == tl1[j];
    }
    forall j, r' | 0 <= j < |tl'| && tl'[j].occupant.Idle? && r' in f'
      ensures r'.completion <= tl'[j].start || tl'[j].end <= r'.proc.arrival
    {
      assert tl'[j] == tl1[j];
      if r' == r {
        assert tl1[j].end <= proc[i].arrival;
      }
    }
    forall j | 0 <= j < |tl'| && tl'[j].occupant.Idle?
      ensures exists r' :: r' in f' && Start(r') == tl'[j].end && r'.proc.arrival == tl'[j].end
    {
      assert tl'[j] == tl1[j];
      if j == |tl| {
        assert r in f' && Start(r) == tl'[j].end;
      } else {
        assert j < |tl| && tl1[j] == tl[j];
      }
    }
  }

  /** One iteration of the `forEach` preserves the invariant: from state
      (`t`, `f`, `tl`), after the optional IDLE block (`tl1`), to the state
      with `p` run from `start` to `end`. */
  lemma FcfsStep(proc: seq<Process>, i: int, t: int, f: seq<Record>, tl: seq<Block>,
                 p: Process, tl1: seq<Block>, start: int, end: int, turnaround: int, waiting: int,
                 f': seq<Record>, tl': seq<Block>)
    requires FcfsInv(proc, i, t, f, tl) && i < |proc|
    requires Sorted(ByArrival, proc) && forall p :: p in proc ==> Admissible(p)
    requires p == proc[i]
    requires tl1 == if t < p.arrival then tl + [Block(Idle, t, p.arrival)] else tl
    requires start == Max(t, p.arrival) && end == start + p.burst
    requires turnaround == end - p.arrival && waiting == turnaround - p.burst
    requires f' == f + [Record(p, end, turnaround, waiting)]
    requires tl' == tl1 + [Block(Running(p.pid), start, end)]
    ensures FcfsInv(proc, i + 1, end, f', tl')
  {
    assert Admissible(p);
    if t < p.arrival {
      AppendIdle(f, tl, t, p.arrival);
    }
    AppendRun(f, tl1, p, start, end);
    FcfsStepRecords(proc, i, t, f, end, f');
    FcfsStepIdle(proc, i, t, f, tl, end, f', tl');
  }

  method SolveFCFS(procs: seq<Process>) returns (finished: seq<Record>, timeline: seq<Block>)
    requires forall p :: p in procs ==> Admissible(p)
    // dispatch order: the input stably sorted by arrival
    ensures Dispatched(finished) == StableSort(ByArrival, procs)
    ensures multiset(Dispatched(finished)) == multiset(procs)
    ensures Sorted(ByArrival, Dispatched(finished))
    ensures forall y :: Peers(ByArrival, y, Dispatched(finished)) == Peers(ByArrival, y, procs)
    // records
    ensures RecordsConsistent(finished) && NoEarlyStart(finished) && StartsWithoutDelay(finished)
    // timeline
    ensures Contiguous(timeline) && BlocksMatch(finished, timeline)
    ensures EndTime(timeline) == Makespan(finished)
    ensures forall r :: r in finished ==> r.completion <= EndTime(timeline)
    ensures IdleOnlyWhenNothingReady(finished, timeline) && IdleEndsAtArrival(finished, timeline)
  {
    var proc := StableSort(ByArrival, procs);
    var currentTime := 0;
    timeline := [];
    finished := [];
    FcfsInit(procs, proc);
    for i := 0 to |proc|
      invariant FcfsInv(proc, i, currentTime, finished, timeline)
    {
      ghost var t, f, tl := currentTime, finished, timeline;
      var p := proc[i];
      if currentTime < p.arrival {
        timeline := timeline + [Block(Idle, currentTime, p.arrival)];
        currentTime := p.arrival;
      }
      ghost var tl1 := timeline;
      var start := currentTime;
      currentTime := currentTime + p.burst;
      var end := currentTime;
      var turnaround := end - p.arrival;
      var waiting := turnaround - p.burst;
      finished := finished + [Record(p, end, turnaround, waiting)];
      timeline := timeline + [Block(Running(p.pid), start, end)];
      FcfsStep(proc, i, t, f, tl, p, tl1, start, end, turnaround, waiting, finished, timeline);
    }
    FcfsExit(procs, proc, currentTime, finished, timeline);
  }

  /** Before the first iteration: the sorted list holds the same admissible
      processes and nothing has run. */
  lemma FcfsInit(procs: seq<Process>, proc: seq<Process>)
    requires proc == StableSort(ByArrival, procs) && forall p :: p in procs ==> Admissible(p)
    ensures Sorted(ByArrival, proc) && forall p :: p in proc ==> Admissible(p)
    ensures FcfsInv(proc, 0, 0, [], [])
  {
    StableSortSorted(ByArrival, procs);
    forall p | p in proc ensures Admissible(p) {
      assert p in multiset(proc);
    }
    assert Dispatched([]) == [];
  }

  /** After the last iteration the invariant yields the scheduler's contract. */
  lemma FcfsExit(procs: seq<Process>, proc: seq<Process>, t: int, f: seq<Record>, tl: seq<Block>)
    requires proc == StableSort(ByArrival, procs) && FcfsInv(proc, |proc|, t, f, tl)
    ensures Dispatched(f) == StableSort(ByArrival, procs)
    ensures multiset(Dispatched(f)) == multiset(procs)
    ensures Sorted(ByArrival, Dispatched(f))
    ensures forall y :: Peers(ByArrival, y, Dispatched(f)) == Peers(ByArrival, y, procs)
    ensures RecordsConsistent(f) && NoEarlyStart(f) && StartsWithoutDelay(f)
    ensures Contiguous(tl) && BlocksMatch(f, tl)
    ensures EndTime(tl) == Makespan(f)
    ensures forall r :: r in f ==> r.completion <= EndTime(tl)
    ensures IdleOnlyWhenNothingReady(f, tl) && IdleEndsAtArrival(f, tl)
  {
    StableSortSorted(ByArrival, procs);
    assert proc[..|proc|] == proc;
    forall y ensures Peers(ByArrival, y, Dispatched(f)) == Peers(ByArrival, y, procs) {
      StableSortPeers(ByArrival, procs, y);
    }
  }
}
