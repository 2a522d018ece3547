/** The totals `displayResults` in script.js accumulates over the result
    table before it divides them into averages. */
module Metrics {
  import opened Processes
  import opened Schedule

  /** Which per-process time a total adds up. */
  datatype Metric = Waiting | Turnaround

  function Value(r: Record, m: Metric): int {
    match m
    case Waiting => r.waiting
    case Turnaround => r.turnaround
  }

  /** The sum of metric `m` over `rs`, added front to back. */
  function Total(rs: seq<Record>, m: Metric): int {
    if rs == [] then 0 else Total(rs[..|rs| - 1], m) + Value(rs[|rs| - 1], m)
  }

  /** The `forEach` over the sorted results: `totalWaiting += p.waiting;
      totalTurnaround += p.turnaround`. */
  method Totals(results: seq<Record>) returns (totalWaiting: int, totalTurnaround: int)
    ensures totalWaiting == Total(results, Waiting)
    ensures totalTurnaround == Total(results, Turnaround)
  {
    totalWaiting := 0;
    totalTurnaround := 0;
    for i := 0 to |results|
      invariant totalWaiting == Total(results[..i], Waiting)
      invariant totalTurnaround == Total(results[..i], Turnaround)
    {
      assert results[..i + 1][..i] == results[..i];
      totalWaiting := totalWaiting + results[i].waiting;
      totalTurnaround := totalTurnaround + results[i].turnaround;
    }
    assert results[..|results|] == results;
  }

  lemma {:induction false} TotalConcat(a: seq<Record>, b: seq<Record>, m: Metric)
    ensures Total(a + b, m) == Total(a, m) + Total(b, m)
    decreases |b|
  {
    if b == [] {
      assert a + b == a;
    } else {
      var init := b[..|b| - 1];
      assert (a + b)[..|a + b| - 1] == a + init;
      TotalConcat(a, init, m);
    }
  }

  /** Taking one record out of the middle of `rs` takes its value out of the total. */
  lemma TotalRemove(rs: seq<Record>, k: int, m: Metric)
    requires 0 <= k < |rs|
    ensures Total(rs, m) == Total(rs[..k] + rs[k + 1..], m) + Value(rs[k], m)
  {
    assert rs == rs[..k] + [rs[k]] + rs[k + 1..];
    TotalConcat(rs[..k] + [rs[k]], rs[k + 1..], m);
    TotalConcat(rs[..k], [rs[k]], m);
    TotalConcat(rs[..k], rs[k + 1..], m);
    assert Total([rs[k]], m) == Value(rs[k], m) by {
      assert [rs[k]][..0] == [];
    }
  }

  lemma MultisetRemove(s: seq<Record>, k: int)
    requires 0 <= k < |s|
    ensures multiset(s[..k] + s[k + 1..]) + multiset{s[k]} == multiset(s)
  {
    assert s == s[..k] + [s[k]] + s[k + 1..];
  }

  /** The totals do not depend on the order the table is sorted in. */
  lemma {:induction false} TotalPermutation(a: seq<Record>, b: seq<Record>, m: Metric)
    requires multiset(a) == multiset(b)
    ensures Total(a, m) == Total(b, m)
    decreases |a|
  {
    if a == [] {
      assert |b| == |multiset(b)| == 0;
    } else {
      var x := a[|a| - 1];
      var a' := a[..|a| - 1];
      MultisetRemove(a, |a| - 1);
      assert a[..|a| - 1] + a[|a|..] == a';
      assert x in multiset(b);
      var k :| 0 <= k < |b| && b[k] == x;
      var b' := b[..k] + b[k + 1..];
      MultisetRemove(b, k);
      assert multiset(a') == multiset(a) - multiset{x};
      assert multiset(b') == multiset(b) - multiset{x};
      TotalPermutation(a', b', m);
      TotalRemove(b, k, m);
    }
  }

  /** `displayResults` adds up the table sorted by pid, which holds the same
      records as `finished`; the totals are those of `finished`. */
  method DisplayTotals(finished: seq<Record>, sortedResults: seq<Record>)
    returns (totalWaiting: int, totalTurnaround: int)
    requires multiset(sortedResults) == multiset(finished)
    ensures totalWaiting == Total(finished, Waiting)
    ensures totalTurnaround == Total(finished, Turnaround)
  {
    totalWaiting, totalTurnaround := Totals(sortedResults);
    TotalPermutation(sortedResults, finished, Waiting);
    TotalPermutation(sortedResults, finished, Turnaround);
  }

  /** With the record identities, total turnaround is total waiting plus
      the total burst. */
  lemma {:induction false} TurnaroundIsWaitingPlusBurst(rs: seq<Record>)
    requires RecordsConsistent(rs)
    ensures Total(rs, Turnaround) == Total(rs, Waiting) + TotalBurst(rs)
  {
    if rs != [] {
      var init := rs[..|rs| - 1];
      assert rs[|rs| - 1] in rs;
      assert forall r :: r in init ==> r in rs;
      TurnaroundIsWaitingPlusBurst(init);
    }
  }

  /** When no process starts before it arrives, waiting times and their
      total are non-negative, and each turnaround covers the burst. */
  lemma {:induction false} WaitingNonNegative(rs: seq<Record>)
    requires RecordsConsistent(rs) && NoEarlyStart(rs)
    ensures forall r :: r in rs ==> r.waiting >= 0 && r.turnaround >= r.proc.burst
    ensures Total(rs, Waiting) >= 0
  {
    if rs != [] {
      var init := rs[..|rs| - 1];
      assert rs[|rs| - 1] in rs;
      assert forall r :: r in init ==> r in rs;
      WaitingNonNegative(init);
    }
  }
}
