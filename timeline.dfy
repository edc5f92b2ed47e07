/** The timeline and table bookkeeping that the shortest-job-first, priority
    and round-robin schedulers share: each computes per-process waits and
    turnarounds, then makes one pass that emits a timeline entry and a table
    row per process, with the timeline's stop the running maximum of the
    completion times seen so far. */
module Timeline {
  import opened Processes

  /** Turnaround of every process: its burst plus its wait. */
  function FindTurnAroundTime(ps: seq<Process>, waits: seq<int>): (tat: seq<int>)
    requires |waits| == |ps|
    ensures |tat| == |ps|
    ensures forall i :: 0 <= i < |ps| ==> tat[i] - waits[i] == ps[i].burst
  {
    seq(|ps|, i requires 0 <= i < |ps| => ps[i].burst + waits[i])
  }

  /** Completion time of a table entry: burst + arrival + wait. */
  function Completion(e: Process, wait: int): int {
    e.burst + e.arrival + wait
  }

  /** The table row of an entry with the given wait and turnaround. */
  function MetricsRow(e: Process, wait: int, turnaround: int): Row {
    Row(e.id, e.priority, e.burst, e.arrival, wait, turnaround, Completion(e, wait))
  }

  function Completions(es: seq<Process>, waits: seq<int>): (cs: seq<int>)
    requires |waits| == |es|
    ensures |cs| == |es|
  {
    seq(|es|, i requires 0 <= i < |es| => Completion(es[i], waits[i]))
  }

  /** The value of `finalCompletion` after the first k entries: it starts at
      zero and is raised to each completion that exceeds it. */
  function RunningMax(cs: seq<int>, k: nat): (m: int)
    requires k <= |cs|
    ensures m >= 0
  {
    if k == 0 then 0 else Max(RunningMax(cs, k - 1), cs[k - 1])
  }

  /** The whole report of one preemptive or priority run. `gids` are the
      process ids the timeline shows, `es` the rows the table shows (their id,
      priority, burst and arrival), `waits` and `tats` the computed metrics. */
  function Tabulated(gids: seq<int>, es: seq<Process>, waits: seq<int>, tats: seq<int>): (r: Report)
    requires |gids| == |es| == |waits| == |tats|
    ensures |r.gantt| == |r.rows| == |es|
  {
    var cs := Completions(es, waits);
    Report(
      seq(|es|, i requires 0 <= i < |es| =>
        TimeSlice(gids[i], waits[i] + es[i].arrival, RunningMax(cs, i + 1))),
      seq(|es|, i requires 0 <= i < |es| => MetricsRow(es[i], waits[i], tats[i])),
      Sum(waits), Sum(tats), RunningMax(cs, |es|))
  }

  /** The shared final pass: one timeline entry and one table row per
      process, in index order, accumulating the totals. */
  method Tabulate(gids: seq<int>, es: seq<Process>, waits: seq<int>, tats: seq<int>) returns (r: Report)
    requires |gids| == |es| == |waits| == |tats|
    ensures r == Tabulated(gids, es, waits, tats)
  {
    var n := |es|;
    ghost var target := Tabulated(gids, es, waits, tats);
    ghost var cs := Completions(es, waits);
    var gantt: seq<TimeSlice> := [];
    var rows: seq<Row> := [];
    var totalWait, totalTurnaround, finalCompletion := 0, 0, 0;
    for i := 0 to n
      invariant gantt == target.gantt[..i] && rows == target.rows[..i]
      invariant totalWait == Sum(waits[..i]) && totalTurnaround == Sum(tats[..i])
      invariant finalCompletion == RunningMax(cs, i)
    {
      var start := waits[i] + es[i].arrival;
      totalTurnaround := totalTurnaround + tats[i];
      var completion := es[i].burst + es[i].arrival + waits[i];
      totalWait := totalWait + waits[i];
      if finalCompletion < completion {
        finalCompletion := completion;
      }
      gantt := gantt + [TimeSlice(gids[i], start, finalCompletion)];
      rows := rows + [Row(es[i].id, es[i].priority, es[i].burst, es[i].arrival, waits[i], tats[i], completion)];
      assert cs[i] == completion && finalCompletion == RunningMax(cs, i + 1);
      assert target.gantt[i] == TimeSlice(gids[i], start, finalCompletion);
      assert target.rows[i] == rows[i];
      PrefixSnoc(target.gantt, i);
      PrefixSnoc(target.rows, i);
      SumSnoc(waits, i);
      SumSnoc(tats, i);
    }
    assert waits[..n] == waits && tats[..n] == tats;
    assert gantt == target.gantt && rows == target.rows;
    r := Report(gantt, rows, totalWait, totalTurnaround, finalCompletion);
  }

  /** The running maximum never decreases. */
  lemma {:induction false} RunningMaxMonotone(cs: seq<int>, i: nat, j: nat)
    requires i <= j <= |cs|
    ensures RunningMax(cs, i) <= RunningMax(cs, j)
  {
    if i < j {
      RunningMaxMonotone(cs, i, j - 1);
    }
  }

  /** After k entries the running maximum is the largest of zero and the
      first k completions. */
  lemma {:induction false} RunningMaxIsMax(cs: seq<int>, k: nat)
    requires k <= |cs|
    ensures RunningMax(cs, k) >= 0
    ensures forall j :: 0 <= j < k ==> cs[j] <= RunningMax(cs, k)
    ensures RunningMax(cs, k) == 0 || exists j :: 0 <= j < k && RunningMax(cs, k) == cs[j]
  {
    if k > 0 {
      RunningMaxIsMax(cs, k - 1);
    }
  }

  /** The timeline's stops are nondecreasing, and the last stop is the
      reported final completion: the largest of zero and all completions. */
  lemma TimelineStops(gids: seq<int>, es: seq<Process>, waits: seq<int>, tats: seq<int>)
    requires |gids| == |es| == |waits| == |tats|
    ensures var r := Tabulated(gids, es, waits, tats);
      && (forall i, j :: 0 <= i <= j < |r.gantt| ==> r.gantt[i].stop <= r.gantt[j].stop)
      && (|es| > 0 ==> r.gantt[|es| - 1].stop == r.finalCompletion)
      && r.finalCompletion >= 0
      && (forall i :: 0 <= i < |es| ==> r.rows[i].completion <= r.finalCompletion)
      && (r.finalCompletion == 0 || exists i :: 0 <= i < |es| && r.finalCompletion == r.rows[i].completion)
  {
    var r := Tabulated(gids, es, waits, tats);
    var cs := Completions(es, waits);
    forall i, j | 0 <= i <= j < |r.gantt| ensures r.gantt[i].stop <= r.gantt[j].stop {
      RunningMaxMonotone(cs, i + 1, j + 1);
    }
    RunningMaxIsMax(cs, |es|);
    assert forall i :: 0 <= i < |es| ==> r.rows[i].completion == cs[i] by {
      forall i | 0 <= i < |es| ensures r.rows[i].completion == cs[i] {
        assert r.rows[i] == MetricsRow(es[i], waits[i], tats[i]);
      }
    }
  }
}
