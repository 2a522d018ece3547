/** What a schedule produced by script.js looks like: the `finished` records
    and the `timeline` blocks, and the facts every scheduler establishes
    about them. */
module Schedule {
  import opened Processes

  /** The processes of the records, in dispatch order. */
  function Dispatched(f: seq<Record>): seq<Process> {
    seq(|f|, i requires 0 <= i < |f| => f[i].proc)
  }

  /** The timeline block a record was executed in. */
  function RunBlock(r: Record): Block {
    Block(Running(r.proc.pid), Start(r), r.completion)
  }

  function RunBlocksOf(f: seq<Record>): seq<Block> {
    seq(|f|, i requires 0 <= i < |f| => RunBlock(f[i]))
  }

  /** The non-IDLE blocks of a timeline, in order. */
  function RunBlocks(tl: seq<Block>): seq<Block> {
    if tl == [] then []
    else RunBlocks(tl[..|tl| - 1]) + (if tl[|tl| - 1].occupant.Idle? then [] else [tl[|tl| - 1]])
  }

  /** Where the timeline ends: the final `currentTime`, 0 when nothing ran. */
  function EndTime(tl: seq<Block>): int {
    if tl == [] then 0 else tl[|tl| - 1].end
  }

  /** Completion of the last dispatched process. */
  function Makespan(f: seq<Record>): int {
    if f == [] then 0 else f[|f| - 1].completion
  }

  function Duration(b: Block): int {
    b.end - b.start
  }

  function TotalDuration(tl: seq<Block>): int {
    if tl == [] then 0 else TotalDuration(tl[..|tl| - 1]) + Duration(tl[|tl| - 1])
  }

  function TotalBurst(f: seq<Record>): int {
    if f == [] then 0 else TotalBurst(f[..|f| - 1]) + f[|f| - 1].proc.burst
  }

  /** Non-empty blocks, each starting where the previous one ended, the first at 0. */
  predicate Contiguous(tl: seq<Block>) {
    tl == [] ||
    (var init, b := tl[..|tl| - 1], tl[|tl| - 1];
     Contiguous(init) && b.start == EndTime(init) && b.start < b.end)
  }

  /** Every record satisfies turnaround = completion - arrival and
      waiting = turnaround - burst. */
  predicate RecordsConsistent(f: seq<Record>) {
    forall r :: r in f ==> Consistent(r)
  }

  /** No process starts before it arrives. */
  predicate NoEarlyStart(f: seq<Record>) {
    forall r :: r in f ==> r.proc.arrival <= Start(r)
  }

  /** Each process starts as soon as both the CPU is free and it has arrived. */
  predicate StartsWithoutDelay(f: seq<Record>) {
    f == [] ||
    (var init, r := f[..|f| - 1], f[|f| - 1];
     StartsWithoutDelay(init) && Start(r) == Max(Makespan(init), r.proc.arrival))
  }

  /** The non-IDLE blocks are exactly one block per record, in dispatch order,
      spanning that process's execution. */
  predicate BlocksMatch(f: seq<Record>, tl: seq<Block>) {
    RunBlocks(tl) == RunBlocksOf(f)
  }

  /** During an IDLE block no unfinished process has arrived: every process
      either completed by the block's start or arrives at or after its end. */
  predicate IdleOnlyWhenNothingReady(f: seq<Record>, tl: seq<Block>) {
    forall i, r :: 0 <= i < |tl| && tl[i].occupant.Idle? && r in f ==>
      r.completion <= tl[i].start || tl[i].end <= r.proc.arrival
  }

  /** Every IDLE block ends when some process arrives, and that process is
      dispatched right then. */
  predicate IdleEndsAtArrival(f: seq<Record>, tl: seq<Block>) {
    forall i :: 0 <= i < |tl| && tl[i].occupant.Idle? ==>
      exists r :: r in f && Start(r) == tl[i].end && r.proc.arrival == tl[i].end
  }

  predicate LastIsIdle(tl: seq<Block>) {
    tl != [] && tl[|tl| - 1].occupant.Idle?
  }

  lemma DispatchedAppend(f: seq<Record>, r: Record)
    ensures Dispatched(f + [r]) == Dispatched(f) + [r.proc]
  {
    assert forall i :: 0 <= i < |f| + 1 ==> Dispatched(f + [r])[i] == (Dispatched(f) + [r.proc])[i];
  }

  /** Appending a run block of a positive burst keeps the timeline contiguous
      and matched to the records. */
  lemma AppendRun(f: seq<Record>, tl: seq<Block>, p: Process, start: int, end: int)
    requires Contiguous(tl) && EndTime(tl) == start && BlocksMatch(f, tl)
    requires p.burst > 0 && end == start + p.burst
    ensures var r := Record(p, end, end - p.arrival, end - p.arrival - p.burst);
      var tl' := tl + [Block(Running(p.pid), start, end)];
      Contiguous(tl') && EndTime(tl') == end && BlocksMatch(f + [r], tl') &&
      Consistent(r) && Start(r) == start
  {
    var r := Record(p, end, end - p.arrival, end - p.arrival - p.burst);
    var b := Block(Running(p.pid), start, end);
    assert (tl + [b])[..|tl|] == tl;
    assert RunBlock(r) == b;
    assert RunBlocksOf(f + [r]) == RunBlocksOf(f) + [b];
  }

  /** Appending an IDLE block of positive length keeps the timeline contiguous
      and leaves the run blocks as they were. */
  lemma AppendIdle(f: seq<Record>, tl: seq<Block>, start: int, end: int)
    requires Contiguous(tl) && EndTime(tl) == start && BlocksMatch(f, tl)
    requires start < end
    ensures var tl' := tl + [Block(Idle, start, end)];
      Contiguous(tl') && EndTime(tl') == end && BlocksMatch(f, tl')
  {
    assert (tl + [Block(Idle, start, end)])[..|tl|] == tl;
  }

  /** The recursive definition of Contiguous, read block by block. */
  lemma {:induction false} ContiguousBlocks(tl: seq<Block>)
    requires Contiguous(tl)
    ensures forall i :: 0 <= i < |tl| ==> tl[i].start < tl[i].end
    ensures forall i :: 0 < i < |tl| ==> tl[i].start == tl[i - 1].end
    ensures tl != [] ==> tl[0].start == 0
  {
    if tl != [] {
      var init := tl[..|tl| - 1];
      ContiguousBlocks(init);
      forall i | 0 < i < |tl| ensures tl[i].start == tl[i - 1].end {
        if i < |tl| - 1 {
          assert tl[i] == init[i] && tl[..i] == init[..i];
        } else {
          assert tl[..i] == init;
        }
      }
      if |tl| > 1 {
        assert tl[0] == init[0];
      }
    }
  }

  /** A contiguous timeline partitions `[0, EndTime]`: its blocks' durations
      add up to where it ends, which is the Gantt chart's total time. */
  lemma {:induction false} TimelineCoversMakespan(tl: seq<Block>)
    requires Contiguous(tl)
    ensures TotalDuration(tl) == EndTime(tl)
    ensures forall i :: 0 <= i < |tl| ==> 0 <= tl[i].start && tl[i].end <= EndTime(tl)
  {
    if tl != [] {
      var init := tl[..|tl| - 1];
      TimelineCoversMakespan(init);
      forall i | 0 <= i < |tl| ensures 0 <= tl[i].start && tl[i].end <= EndTime(tl) {
        if i < |tl| - 1 {
          assert init[i] == tl[i];
        }
      }
    }
  }

  lemma {:induction false} RunBlocksOfDuration(f: seq<Record>)
    ensures TotalDuration(RunBlocksOf(f)) == TotalBurst(f)
  {
    if f != [] {
      var init := f[..|f| - 1];
      assert RunBlocksOf(f)[..|f| - 1] == RunBlocksOf(init);
      RunBlocksOfDuration(init);
    }
  }

  /** The CPU is busy for exactly the sum of the bursts, so the idle time is
      the makespan minus that sum. */
  lemma BusyTimeIsTotalBurst(f: seq<Record>, tl: seq<Block>)
    requires BlocksMatch(f, tl)
    ensures TotalDuration(RunBlocks(tl)) == TotalBurst(f)
    ensures |RunBlocks(tl)| == |f|
    ensures forall i :: 0 <= i < |f| ==>
      RunBlocks(tl)[i].occupant == Running(f[i].proc.pid) && Duration(RunBlocks(tl)[i]) == f[i].proc.burst
  {
    RunBlocksOfDuration(f);
  }
}
