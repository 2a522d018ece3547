/** Process descriptors and the records and timeline blocks the schedulers of
    script.js produce. */
module Processes {

  /** A submitted process `{ pid, arrival, burst, priority }`; the `id`
      time stamp only serves the delete button and is not modelled. */
  datatype Process = Process(pid: string, arrival: int, burst: int, priority: int)

  /** What a well-formed process list guarantees about each entry: the form
      handler only rejects NaN, so the schedulers rely on their callers for
      a non-negative arrival and a positive burst. */
  predicate Admissible(p: Process) {
    p.arrival >= 0 && p.burst > 0
  }

  /** The object pushed onto `finished`: the process spread together with
      its completion, turnaround and waiting times. */
  datatype Record = Record(proc: Process, completion: int, turnaround: int, waiting: int)

  /** When the process of a record was dispatched. */
  function Start(r: Record): int {
    r.completion - r.proc.burst
  }

  /** The metric identities every record is built with. */
  predicate Consistent(r: Record) {
    r.turnaround == r.completion - r.proc.arrival &&
    r.waiting == r.turnaround - r.proc.burst
  }

  /** The `pid` of a timeline block: `'IDLE'` or the running process's pid. */
  datatype Occupant = Idle | Running(pid: string)

  /** A timeline entry `{ pid, start, end }`. */
  datatype Block = Block(occupant: Occupant, start: int, end: int)

  function Max(a: int, b: int): int {
    if a < b then b else a
  }
}
