/** First-come, first-served: the batch runs in its stored order, each
    process waiting for the service time of the processes before it. */
module Fcfs {
  import opened Processes
  import opened Timeline

  /** Total burst of the first k processes: the `serviceTime` cursor after
      k iterations. */
  function ServiceTime(ps: seq<Process>, k: nat): int
    requires k <= |ps|
  {
    Sum(Bursts(ps)[..k])
  }

  /** The wait reported for process i. A process with a positive arrival
      waits for the service time so far minus its arrival, not clamped at
      zero; a process arriving at time zero or earlier inherits the wait of
      the process before it, and the first process starts with zero. */
  function FcfsWait(ps: seq<Process>, i: nat): int
    requires i < |ps|
    decreases i
  {
    if ps[i].arrival > 0 then ServiceTime(ps, i) - ps[i].arrival
    else if i == 0 then 0
    else FcfsWait(ps, i - 1)
  }

  function FcfsWaits(ps: seq<Process>): (ws: seq<int>)
    ensures |ws| == |ps|
  {
    seq(|ps|, i requires 0 <= i < |ps| => FcfsWait(ps, i))
  }

  /** The report of a first-come, first-served run: the same kind of table
      and totals as the other schedulers, but each timeline stop is the
      service time after the process, and the completion the throughput
      divides by is the last process's rather than the largest. */
  function FcfsReport(ps: seq<Process>): (r: Report)
    ensures |r.gantt| == |r.rows| == |ps|
  {
    var ws := FcfsWaits(ps);
    var ts := FindTurnAroundTime(ps, ws);
    Report(
      seq(|ps|, i requires 0 <= i < |ps| =>
        TimeSlice(ps[i].id, ws[i] + ps[i].arrival, ServiceTime(ps, i + 1))),
      seq(|ps|, i requires 0 <= i < |ps| => MetricsRow(ps[i], ws[i], ts[i])),
      Sum(ws), Sum(ts),
      if |ps| == 0 then 0 else Completion(ps[|ps| - 1], ws[|ps| - 1]))
  }

  /** The body of the loop for process i: the carried wait, overwritten
      when the process has a positive arrival, its turnaround, its row and
      its timeline entry, and the service time advanced by its burst. */
  method FcfsIteration(ps: seq<Process>, i: int, serviceTime: int, waitingTime: int)
      returns (wait: int, turnaround: int, row: Row, slice: TimeSlice, serviceTime': int)
    requires 0 <= i < |ps| && serviceTime == ServiceTime(ps, i)
    requires waitingTime == if i == 0 then 0 else FcfsWaits(ps)[i - 1]
    ensures wait == FcfsWaits(ps)[i]
    ensures turnaround == FindTurnAroundTime(ps, FcfsWaits(ps))[i]
    ensures row == FcfsReport(ps).rows[i] && slice == FcfsReport(ps).gantt[i]
    ensures serviceTime' == ServiceTime(ps, i + 1)
  {
    wait := waitingTime;
    if ps[i].arrival > 0 {
      wait := serviceTime - ps[i].arrival;
    }
    var start := wait + ps[i].arrival;
    turnaround := ps[i].burst + wait;
    var completion := ps[i].burst + ps[i].arrival + wait;
    row := Row(ps[i].id, ps[i].priority, ps[i].burst, ps[i].arrival, wait, turnaround, completion);
    serviceTime' := serviceTime + ps[i].burst;
    slice := TimeSlice(ps[i].id, start, serviceTime');
    assert i > 0 ==> FcfsWaits(ps)[i - 1] == FcfsWait(ps, i - 1);
    FcfsEntry(ps, i);
  }

  method FCFSSchedule(ps: seq<Process>) returns (r: Report)
    ensures r == FcfsReport(ps)
  {
    ghost var tg, tr := FcfsReport(ps).gantt, FcfsReport(ps).rows;
    ghost var ws := FcfsWaits(ps);
    ghost var ts := FindTurnAroundTime(ps, ws);
    var serviceTime, totalWait, totalTurnaround, lastCompletion, waitingTime := 0, 0, 0, 0, 0;
    var schedule: seq<Row> := [];
    var gantt: seq<TimeSlice> := [];
    for i := 0 to |ps|
      invariant serviceTime == ServiceTime(ps, i)
      invariant waitingTime == if i == 0 then 0 else ws[i - 1]
      invariant gantt == tg[..i] && schedule == tr[..i]
      invariant totalWait == Sum(ws[..i]) && totalTurnaround == Sum(ts[..i])
      invariant lastCompletion == if i == 0 then 0 else tr[i - 1].completion
    {
      var turnaround, row, slice;
      waitingTime, turnaround, row, slice, serviceTime := FcfsIteration(ps, i, serviceTime, waitingTime);
      totalWait := totalWait + waitingTime;
      totalTurnaround := totalTurnaround + turnaround;
      lastCompletion := row.completion;
      schedule := schedule + [row];
      gantt := gantt + [slice];
      SumSnoc(ws, i);
      SumSnoc(ts, i);
      PrefixSnoc(tg, i);
      PrefixSnoc(tr, i);
    }
    assert ws[..|ps|] == ws && ts[..|ps|] == ts;
    assert gantt == tg && schedule == tr;
    r := Report(gantt, schedule, totalWait, totalTurnaround, lastCompletion);
  }

  /** Entry i of the report, spelled out from the wait of process i. */
  lemma FcfsEntry(ps: seq<Process>, i: nat)
    requires i < |ps|
    ensures ServiceTime(ps, i + 1) == ServiceTime(ps, i) + ps[i].burst
    ensures var w := FcfsWait(ps, i);
      && FcfsWaits(ps)[i] == w
      && FindTurnAroundTime(ps, FcfsWaits(ps))[i] == ps[i].burst + w
      && FcfsReport(ps).gantt[i] == TimeSlice(ps[i].id, w + ps[i].arrival, ServiceTime(ps, i + 1))
      && FcfsReport(ps).rows[i] == Row(ps[i].id, ps[i].priority, ps[i].burst, ps[i].arrival,
                                       w, ps[i].burst + w, ps[i].burst + ps[i].arrival + w)
  {
    SumSnoc(Bursts(ps), i);
  }

  /** The wait of process i comes from the last process j <= i with a
      positive arrival: the service time before j minus j's arrival. */
  lemma {:induction false} FcfsWaitFromLastArrival(ps: seq<Process>, i: nat, j: nat)
    requires j <= i < |ps| && ps[j].arrival > 0
    requires forall k :: j < k <= i ==> ps[k].arrival <= 0
    ensures FcfsWait(ps, i) == ServiceTime(ps, j) - ps[j].arrival
  {
    if i > j {
      FcfsWaitFromLastArrival(ps, i - 1, j);
    }
  }

  /** Without any positive arrival up to i the wait is never overwritten and
      stays zero. */
  lemma {:induction false} FcfsWaitWithoutArrival(ps: seq<Process>, i: nat)
    requires i < |ps|
    requires forall k :: 0 <= k <= i ==> ps[k].arrival <= 0
    ensures FcfsWait(ps, i) == 0
  {
    if i > 0 {
      FcfsWaitWithoutArrival(ps, i - 1);
    }
  }

  /** Per row: turnaround = burst + wait, completion = turnaround + arrival,
      the timeline stop is the total burst of processes 0..i, and for a
      process with a positive arrival that stop is its completion. */
  lemma FcfsMetrics(ps: seq<Process>, i: nat)
    requires i < |ps|
    ensures var r := FcfsReport(ps);
      && r.rows[i].id == ps[i].id
      && r.rows[i].turnaround == ps[i].burst + r.rows[i].wait
      && r.rows[i].completion == r.rows[i].turnaround + ps[i].arrival
      && r.gantt[i].start == r.rows[i].wait + ps[i].arrival
      && r.gantt[i].stop == Sum(Bursts(ps)[..i + 1])
      && (ps[i].arrival > 0 ==> r.rows[i].completion == r.gantt[i].stop)
  {
    SumSnoc(Bursts(ps), i);
  }

  /** When every arrival is zero or earlier no wait is ever computed: every
      process reports zero wait and completes at its own burst, not at the
      running total of bursts. */
  lemma FcfsZeroArrivals(ps: seq<Process>)
    requires forall k :: 0 <= k < |ps| ==> ps[k].arrival <= 0
    ensures forall i :: 0 <= i < |ps| ==>
      FcfsReport(ps).rows[i].wait == 0 &&
      FcfsReport(ps).rows[i].completion == ps[i].burst + ps[i].arrival
  {
    forall i | 0 <= i < |ps| ensures FcfsWait(ps, i) == 0 {
      FcfsWaitWithoutArrival(ps, i);
    }
  }

  /** Two processes that both arrive at time zero: the second inherits the
      first's zero wait and is reported as completing before the first. */
  lemma FcfsZeroArrivalExample()
    ensures var r := FcfsReport([Process(1, 0, 5, 0), Process(2, 0, 3, 0)]);
      && r.rows[1].wait == 0 && r.rows[0].completion == 5 && r.rows[1].completion == 3
      && r.gantt[1].stop == 8
  {
    var ps := [Process(1, 0, 5, 0), Process(2, 0, 3, 0)];
    assert Bursts(ps)[..2] == [5, 3];
    assert Bursts(ps)[..1] == [5];
  }

  /** A process that arrives after the service time so far gets a negative
      wait: nothing clamps it. */
  lemma FcfsNegativeWait()
    ensures FcfsReport([Process(1, 10, 1, 0)]).rows[0].wait == -10
  {
    assert Bursts([Process(1, 10, 1, 0)])[..0] == [];
  }

  /** Processes (id 1, burst 5, arrival 0), (id 2, burst 3, arrival 1),
      (id 3, burst 8, arrival 2): waits 0, 4, 6, turnarounds 5, 7, 14,
      completions 5, 8, 16; total wait 10, total turnaround 26, last
      completion 16. */
  lemma FcfsThreeProcessExample()
    ensures var r := FcfsReport([Process(1, 0, 5, 0), Process(2, 1, 3, 0), Process(3, 2, 8, 0)]);
      && [r.rows[0].wait, r.rows[1].wait, r.rows[2].wait] == [0, 4, 6]
      && [r.rows[0].turnaround, r.rows[1].turnaround, r.rows[2].turnaround] == [5, 7, 14]
      && [r.rows[0].completion, r.rows[1].completion, r.rows[2].completion] == [5, 8, 16]
      && r.totalWait == 10 && r.totalTurnaround == 26 && r.finalCompletion == 16
  {
    var ps := [Process(1, 0, 5, 0), Process(2, 1, 3, 0), Process(3, 2, 8, 0)];
    var bs := Bursts(ps);
    assert bs == [5, 3, 8];
    assert bs[..1] == [5] && bs[..2] == [5, 3];
    assert FcfsWait(ps, 0) == 0;
    assert FcfsWait(ps, 1) == ServiceTime(ps, 1) - 1 == 4;
    assert FcfsWait(ps, 2) == ServiceTime(ps, 2) - 2 == 6;
    var ws := FcfsWaits(ps);
    assert ws == [0, 4, 6];
    var ts := FindTurnAroundTime(ps, ws);
    assert ts == [5, 7, 14];
    assert Sum([0, 4, 6]) == 10 by {
      assert [0, 4, 6][..2] == [0, 4] && [0, 4][..1] == [0] && [0][..0] == [];
    }
    assert Sum([5, 7, 14]) == 26 by {
      assert [5, 7, 14][..2] == [5, 7] && [5, 7][..1] == [5] && [5][..0] == [];
    }
  }
}
