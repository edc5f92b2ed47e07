/** Round-robin with a quantum of two time units: a cursor walks the batch,
    giving the process under it one quantum (or the rest of its burst), and
    moves on to the next process only when that one has already arrived,
    falling back to the first process otherwise. */
module RoundRobin {
  import opened Processes
  import opened Timeline

  const Quantum := 2

  /** The scheduler's variables: the remaining times, the accumulated waits
      and turnarounds, the clock, the cursor, the number of unfinished
      processes and the completion flag. */
  datatype RRState = RRState(rt: seq<int>, wait: seq<int>, tat: seq<int>,
                             time: int, count: int, remain: int, flag: int)

  /** The shape the loop keeps whatever the input: the arrays have one entry
      per process, the flag is down between steps, the cursor is a valid
      index, and an empty batch has nothing remaining. */
  predicate Shaped(ps: seq<Process>, s: RRState) {
    && |s.rt| == |ps| && |s.wait| == |ps| && |s.tat| == |ps|
    && s.flag == 0
    && (|ps| == 0 ==> s.count == 0 && s.remain == 0)
    && (|ps| > 0 ==> 0 <= s.count < |ps|)
  }

  function Zeros(n: nat): (z: seq<int>)
    ensures |z| == n && forall i :: 0 <= i < n ==> z[i] == 0
  {
    seq(n, _ => 0)
  }

  /** The state when the loop is entered. */
  function Init(ps: seq<Process>): (s: RRState)
    ensures Shaped(ps, s)
  {
    RRState(Bursts(ps), Zeros(|ps|), Zeros(|ps|), 0, 0, |ps|, 0)
  }

  /** Where the cursor goes after a step that ends at `time`. */
  function NextCount(ps: seq<Process>, c: int, time: int): (n: int)
    requires 0 <= c < |ps|
    ensures 0 <= n < |ps|
    ensures n == c + 1 <==> c < |ps| - 1 && ps[c + 1].arrival <= time
    ensures n != c + 1 ==> n == 0
  {
    if c == |ps| - 1 then 0
    else if ps[c + 1].arrival <= time then c + 1
    else 0
  }

  /** The time one iteration serves the process with remaining time r: the
      rest of its burst when at most a quantum is left, a quantum when more
      is left, nothing when it has finished. */
  function Served(r: int): (t: int)
    ensures 0 <= t <= Quantum
    ensures r <= 0 ==> t == 0
    ensures 0 < r ==> 0 < t <= r && (t < Quantum ==> t == r)
  {
    if r <= Quantum && 0 < r then r
    else if 0 < r then Quantum
    else 0
  }

  /** One iteration of the loop: serve the process under the cursor; if it
      has just finished (the flag is raised and lowered within the
      iteration), count it off and record its wait and turnaround; then move
      the cursor. */
  function Step(ps: seq<Process>, s: RRState): (s': RRState)
    requires Shaped(ps, s) && |ps| > 0
    ensures Shaped(ps, s')
  {
    var c := s.count;
    var r := s.rt[c];
    var time := s.time + Served(r);
    var finishes := r <= Quantum && 0 < r;
    RRState(
      s.rt[c := r - Served(r)],
      if finishes then s.wait[c := s.wait[c] + time - ps[c].arrival - ps[c].burst] else s.wait,
      if finishes then s.tat[c := s.tat[c] + time - ps[c].arrival] else s.tat,
      time,
      NextCount(ps, c, time),
      if finishes then s.remain - 1 else s.remain,
      s.flag)
  }

  /** The loop, run for at most `fuel` iterations; None when the fuel runs
      out before every process has finished. */
  function RunRR(ps: seq<Process>, s: RRState, fuel: nat): (r: Option<RRState>)
    requires Shaped(ps, s)
    ensures r.Some? ==> Shaped(ps, r.value) && r.value.remain == 0
    decreases fuel
  {
    if s.remain == 0 then Some(s)
    else if fuel == 0 then None
    else RunRR(ps, Step(ps, s), fuel - 1)
  }

  /** The report of a round-robin run that finishes within `fuel`
      iterations: the batch's own rows with the recorded waits and
      turnarounds. */
  function RRReport(ps: seq<Process>, fuel: nat): Option<Report> {
    match RunRR(ps, Init(ps), fuel)
    case None => None
    case Some(f) => Some(Tabulated(Ids(ps), ps, f.wait, f.tat))
  }

  /** What one iteration does: only the entry under the cursor changes; its
      remaining time drops by a quantum, or to zero when at most a quantum
      is left, and the clock advances by the time served; exactly when it
      drops to zero from above are `remain` decremented and its wait and
      turnaround written; the cursor advances only to an arrived successor
      and wraps to zero otherwise. */
  lemma StepEffect(ps: seq<Process>, s: RRState)
    requires Shaped(ps, s) && |ps| > 0
    ensures var s' := Step(ps, s); var c := s.count; var r := s.rt[c];
      && (forall k :: 0 <= k < |ps| && k != c ==>
            s'.rt[k] == s.rt[k] && s'.wait[k] == s.wait[k] && s'.tat[k] == s.tat[k])
      && s'.rt[c] == (if 0 < r <= Quantum then 0 else if Quantum < r then r - Quantum else r)
      && s'.rt[c] <= r && (0 < r ==> 0 <= s'.rt[c])
      && s'.time == s.time + (r - s'.rt[c])
      && (0 < r <= Quantum <==> s'.remain == s.remain - 1)
      && (0 < r <= Quantum ==>
            s'.wait[c] == s.wait[c] + s'.time - ps[c].arrival - ps[c].burst &&
            s'.tat[c] == s.tat[c] + s'.time - ps[c].arrival)
      && (!(0 < r <= Quantum) ==>
            s'.remain == s.remain && s'.wait[c] == s.wait[c] && s'.tat[c] == s.tat[c])
      && (c < |ps| - 1 && ps[c + 1].arrival <= s'.time ==> s'.count == c + 1)
      && (c == |ps| - 1 || s'.time < ps[c + 1].arrival ==> s'.count == 0)
  {
  }

  /** Every remaining time lies between zero and the process's burst. */
  predicate Bounded(ps: seq<Process>, rt: seq<int>)
    requires |rt| == |ps|
  {
    forall k :: 0 <= k < |ps| ==> 0 <= rt[k] <= ps[k].burst
  }

  /** An unfinished process has nothing recorded yet; a finished one has a
      turnaround exceeding its wait by its burst and completed by `time`. */
  predicate Recorded(ps: seq<Process>, rt: seq<int>, wait: seq<int>, tat: seq<int>, time: int)
    requires |rt| == |ps| && |wait| == |ps| && |tat| == |ps|
  {
    && (forall k :: 0 <= k < |ps| && rt[k] > 0 ==> wait[k] == 0 && tat[k] == 0)
    && (forall k :: 0 <= k < |ps| && rt[k] == 0 ==>
          tat[k] - wait[k] == ps[k].burst && tat[k] + ps[k].arrival <= time)
  }

  /** Some process completed exactly at `time`. */
  predicate CompletedAt(ps: seq<Process>, tat: seq<int>, time: int)
    requires |tat| == |ps|
  {
    exists k :: 0 <= k < |ps| && tat[k] + ps[k].arrival == time
  }

  /** What the loop maintains for a batch whose bursts are all positive. */
  predicate Inv(ps: seq<Process>, s: RRState) {
    && Shaped(ps, s)
    && Bounded(ps, s.rt)
    && s.time == Sum(Bursts(ps)) - Sum(s.rt)
    && s.remain == |ps| - CountZeros(s.rt)
    && Recorded(ps, s.rt, s.wait, s.tat, s.time)
    && (|ps| > 0 && s.remain == 0 ==> CompletedAt(ps, s.tat, s.time))
  }

  lemma InitInv(ps: seq<Process>)
    requires WellFormed(ps)
    ensures Inv(ps, Init(ps))
  {
    var s := Init(ps);
    CountZerosNone(s.rt);
  }

  /** Lowering one remaining time, but not below zero, keeps the bounds. */
  lemma BoundedLower(ps: seq<Process>, rt: seq<int>, c: nat, v: int)
    requires |rt| == |ps| && c < |ps| && Bounded(ps, rt) && 0 <= v <= rt[c]
    ensures Bounded(ps, rt[c := v])
  {
    forall k | 0 <= k < |ps| ensures 0 <= rt[c := v][k] <= ps[k].burst {
      if k != c { assert rt[c := v][k] == rt[k]; }
    }
  }

  /** Serving part of an unfinished process, with the clock moving forward,
      keeps what is recorded. */
  lemma RecordedSlice(ps: seq<Process>, rt: seq<int>, wait: seq<int>, tat: seq<int>,
                      time: int, c: nat, v: int, time': int)
    requires |rt| == |ps| && |wait| == |ps| && |tat| == |ps| && c < |ps|
    requires Recorded(ps, rt, wait, tat, time)
    requires rt[c] > 0 && v > 0 && time <= time'
    ensures Recorded(ps, rt[c := v], wait, tat, time')
  {
    var rt' := rt[c := v];
    forall k | 0 <= k < |ps| && rt'[k] == 0
      ensures tat[k] - wait[k] == ps[k].burst && tat[k] + ps[k].arrival <= time'
    {
      assert rt'[k] == rt[k];
    }
    forall k | 0 <= k < |ps| && rt'[k] > 0 ensures wait[k] == 0 && tat[k] == 0 {
      assert rt[k] > 0;
    }
  }

  /** Finishing an unfinished process at time' and recording its wait and
      turnaround keeps what is recorded. */
  lemma RecordedFinish(ps: seq<Process>, rt: seq<int>, wait: seq<int>, tat: seq<int>,
                       time: int, c: nat, time': int)
    requires |rt| == |ps| && |wait| == |ps| && |tat| == |ps| && c < |ps|
    requires Recorded(ps, rt, wait, tat, time)
    requires rt[c] > 0 && time <= time'
    ensures Recorded(ps, rt[c := 0],
                     wait[c := wait[c] + time' - ps[c].arrival - ps[c].burst],
                     tat[c := tat[c] + time' - ps[c].arrival], time')
  {
    var rt' := rt[c := 0];
    var wait' := wait[c := wait[c] + time' - ps[c].arrival - ps[c].burst];
    var tat' := tat[c := tat[c] + time' - ps[c].arrival];
    forall k | 0 <= k < |ps| && rt'[k] == 0
      ensures tat'[k] - wait'[k] == ps[k].burst && tat'[k] + ps[k].arrival <= time'
    {
      if k != c {
        assert rt'[k] == rt[k] && tat'[k] == tat[k] && wait'[k] == wait[k];
      }
    }
    forall k | 0 <= k < |ps| && rt'[k] > 0 ensures wait'[k] == 0 && tat'[k] == 0 {
      assert k != c && rt[k] > 0;
    }
  }

  /** A step that finishes the process under the cursor keeps the invariant. */
  lemma StepFinishInv(ps: seq<Process>, s: RRState)
    requires WellFormed(ps) && Inv(ps, s) && s.remain != 0
    requires 0 < s.rt[s.count] <= Quantum
    ensures Inv(ps, Step(ps, s))
  {
    var c := s.count;
    var time := s.time + s.rt[c];
    var wait' := s.wait[c := s.wait[c] + time - ps[c].arrival - ps[c].burst];
    var tat' := s.tat[c := s.tat[c] + time - ps[c].arrival];
    var s' := RRState(s.rt[c := 0], wait', tat', time, NextCount(ps, c, time), s.remain - 1, s.flag);
    assert Step(ps, s) == s';
    SumUpdate(s.rt, c, 0);
    CountZerosUpdate(s.rt, c, 0);
    BoundedLower(ps, s.rt, c, 0);
    RecordedFinish(ps, s.rt, s.wait, s.tat, s.time, c, time);
    assert tat'[c] + ps[c].arrival == time;
    assert CompletedAt(ps, tat', time);
  }

  /** A step that serves a full quantum keeps the invariant. */
  lemma StepSliceInv(ps: seq<Process>, s: RRState)
    requires WellFormed(ps) && Inv(ps, s) && s.remain != 0
    requires Quantum < s.rt[s.count]
    ensures Inv(ps, Step(ps, s))
  {
    var c := s.count;
    var v := s.rt[c] - Quantum;
    var time := s.time + Quantum;
    var s' := RRState(s.rt[c := v], s.wait, s.tat, time, NextCount(ps, c, time), s.remain, s.flag);
    assert Step(ps, s) == s';
    SumUpdate(s.rt, c, v);
    CountZerosUpdate(s.rt, c, v);
    BoundedLower(ps, s.rt, c, v);
    RecordedSlice(ps, s.rt, s.wait, s.tat, s.time, c, v, time);
  }

  /** The loop keeps its invariant. */
  lemma StepInv(ps: seq<Process>, s: RRState)
    requires WellFormed(ps) && Inv(ps, s) && s.remain != 0
    ensures Inv(ps, Step(ps, s))
  {
    var r := s.rt[s.count];
    if 0 < r <= Quantum {
      StepFinishInv(ps, s);
    } else if Quantum < r {
      StepSliceInv(ps, s);
    } else {
      var s' := Step(ps, s);
      assert s'.rt == s.rt && s'.wait == s.wait && s'.tat == s.tat && s'.time == s.time;
    }
  }

  lemma {:induction false} RunInv(ps: seq<Process>, s: RRState, fuel: nat)
    requires WellFormed(ps) && Inv(ps, s)
    requires RunRR(ps, s, fuel).Some?
    ensures Inv(ps, RunRR(ps, s, fuel).value)
    decreases fuel
  {
    if s.remain != 0 {
      StepInv(ps, s);
      RunInv(ps, Step(ps, s), fuel - 1);
    }
  }

  lemma LastCompletionIsMax(cs: seq<int>, m: int)
    requires m >= 0
    requires forall j :: 0 <= j < |cs| ==> cs[j] <= m
    requires exists j :: 0 <= j < |cs| && cs[j] == m
    ensures RunningMax(cs, |cs|) == m
  {
    RunningMaxIsMax(cs, |cs|);
  }

  /** A round-robin run that finishes has served every burst in full: the
      clock stands at the total burst, every turnaround is burst + wait,
      every process completed (arrival + burst + wait) by the final clock,
      and the completion the throughput divides by is that total burst. */
  lemma RROutcome(ps: seq<Process>, fuel: nat)
    requires WellFormed(ps)
    requires RunRR(ps, Init(ps), fuel).Some?
    ensures var f := RunRR(ps, Init(ps), fuel).value;
      && (forall k :: 0 <= k < |ps| ==> f.rt[k] == 0)
      && f.time == Sum(Bursts(ps))
      && f.tat == FindTurnAroundTime(ps, f.wait)
      && (forall k :: 0 <= k < |ps| ==> f.wait[k] + ps[k].burst + ps[k].arrival <= f.time)
      && RRReport(ps, fuel).value.finalCompletion == Sum(Bursts(ps))
  {
    InitInv(ps);
    RunInv(ps, Init(ps), fuel);
    var f := RunRR(ps, Init(ps), fuel).value;
    CountZerosFull(f.rt);
    assert f.rt == Zeros(|ps|);
    SumZeros(|ps|);
    var cs := Completions(ps, f.wait);
    forall j | 0 <= j < |ps| ensures cs[j] == f.tat[j] + ps[j].arrival {
    }
    if |ps| == 0 {
    } else {
      SumNonNegative(Bursts(ps));
      LastCompletionIsMax(cs, f.time);
    }
    assert f.tat == FindTurnAroundTime(ps, f.wait);
  }

  lemma {:induction false} SumZeros(n: nat)
    ensures Sum(Zeros(n)) == 0
  {
    if n > 0 {
      assert Zeros(n)[..n - 1] == Zeros(n - 1);
      SumZeros(n - 1);
    }
  }

  function ExampleBatch(): seq<Process> {
    [Process(1, 0, 5, 0), Process(2, 1, 3, 0), Process(3, 2, 8, 0)]
  }

  /** The first three iterations on the example batch: each process gets
      one quantum. */
  lemma ExampleFirstRound()
    ensures RunRR(ExampleBatch(), Init(ExampleBatch()), 12)
         == RunRR(ExampleBatch(), RRState([3, 1, 6], [0, 0, 0], [0, 0, 0], 6, 0, 3, 0), 9)
  {
    var ps := ExampleBatch();
    var s0 := RRState([5, 3, 8], [0, 0, 0], [0, 0, 0], 0, 0, 3, 0);
    assert Init(ps) == s0 by {
      assert Bursts(ps) == [5, 3, 8];
      assert Zeros(3) == [0, 0, 0];
    }
    var s1 := RRState([3, 3, 8], [0, 0, 0], [0, 0, 0], 2, 1, 3, 0);
    var s2 := RRState([3, 1, 8], [0, 0, 0], [0, 0, 0], 4, 2, 3, 0);
    assert Step(ps, s0) == s1;
    assert Step(ps, s1) == s2;
    assert Step(ps, s2) == RRState([3, 1, 6], [0, 0, 0], [0, 0, 0], 6, 0, 3, 0);
  }

  /** Iterations four to six: process 2 finishes at time 9. */
  lemma ExampleSecondRound()
    ensures RunRR(ExampleBatch(), RRState([3, 1, 6], [0, 0, 0], [0, 0, 0], 6, 0, 3, 0), 9)
         == RunRR(ExampleBatch(), RRState([1, 0, 4], [0, 5, 0], [0, 8, 0], 11, 0, 2, 0), 6)
  {
    var ps := ExampleBatch();
    var s3 := RRState([3, 1, 6], [0, 0, 0], [0, 0, 0], 6, 0, 3, 0);
    var s4 := RRState([1, 1, 6], [0, 0, 0], [0, 0, 0], 8, 1, 3, 0);
    var s5 := RRState([1, 0, 6], [0, 5, 0], [0, 8, 0], 9, 2, 2, 0);
    assert Step(ps, s3) == s4;
    assert Step(ps, s4) == s5;
    assert Step(ps, s5) == RRState([1, 0, 4], [0, 5, 0], [0, 8, 0], 11, 0, 2, 0);
  }

  /** The last six iterations: process 1 finishes at 12, process 3 at 16,
      with the cursor passing over the finished processes in between. */
  lemma ExampleSecondHalf()
    ensures RunRR(ExampleBatch(), RRState([1, 0, 4], [0, 5, 0], [0, 8, 0], 11, 0, 2, 0), 6)
         == Some(RRState([0, 0, 0], [7, 5, 6], [12, 8, 14], 16, 0, 0, 0))
  {
    var ps := ExampleBatch();
    var s6 := RRState([1, 0, 4], [0, 5, 0], [0, 8, 0], 11, 0, 2, 0);
    var s7 := RRState([0, 0, 4], [7, 5, 0], [12, 8, 0], 12, 1, 1, 0);
    var s8 := s7.(count := 2);
    var s9 := RRState([0, 0, 2], [7, 5, 0], [12, 8, 0], 14, 0, 1, 0);
    var s10 := s9.(count := 1);
    var s11 := s9.(count := 2);
    var s12 := RRState([0, 0, 0], [7, 5, 6], [12, 8, 14], 16, 0, 0, 0);
    assert Step(ps, s6) == s7;
    assert Step(ps, s7) == s8;
    assert Step(ps, s8) == s9;
    assert Step(ps, s9) == s10;
    assert Step(ps, s10) == s11;
    assert Step(ps, s11) == s12;
    assert RunRR(ps, s9, 3) == Some(s12);
  }

  /** All twelve iterations on the example batch. */
  lemma ExampleRun()
    ensures RunRR(ExampleBatch(), Init(ExampleBatch()), 12)
         == Some(RRState([0, 0, 0], [7, 5, 6], [12, 8, 14], 16, 0, 0, 0))
  {
    ExampleFirstRound();
    ExampleSecondRound();
    ExampleSecondHalf();
  }

  /** The table built from the example's final waits and turnarounds. */
  lemma ExampleTable()
    ensures var r := Tabulated(Ids(ExampleBatch()), ExampleBatch(), [7, 5, 6], [12, 8, 14]);
      && [r.rows[0].wait, r.rows[1].wait, r.rows[2].wait] == [7, 5, 6]
      && [r.rows[0].turnaround, r.rows[1].turnaround, r.rows[2].turnaround] == [12, 8, 14]
      && r.finalCompletion == 16
  {
    var ps := ExampleBatch();
    var r := Tabulated(Ids(ps), ps, [7, 5, 6], [12, 8, 14]);
    assert r.rows[0] == MetricsRow(ps[0], 7, 12);
    assert r.rows[1] == MetricsRow(ps[1], 5, 8);
    assert r.rows[2] == MetricsRow(ps[2], 6, 14);
    var cs := Completions(ps, [7, 5, 6]);
    assert cs[0] == 12 && cs[1] == 9 && cs[2] == 16;
    assert RunningMax(cs, 1) == 12;
    assert RunningMax(cs, 2) == 12;
    assert r.finalCompletion == RunningMax(cs, 3) == 16;
  }

  /** Processes (id 1, burst 5, arrival 0), (id 2, burst 3, arrival 1),
      (id 3, burst 8, arrival 2) finish after twelve iterations at times 12,
      9 and 16: waits 7, 5, 6, turnarounds 12, 8, 14, final completion 16. */
  lemma RRThreeProcessExample()
    ensures var r := RRReport(ExampleBatch(), 12);
      && r.Some?
      && [r.value.rows[0].wait, r.value.rows[1].wait, r.value.rows[2].wait] == [7, 5, 6]
      && [r.value.rows[0].turnaround, r.value.rows[1].turnaround, r.value.rows[2].turnaround] == [12, 8, 14]
      && r.value.finalCompletion == 16
  {
    ExampleRun();
    ExampleTable();
  }

  /** Process 0 finishes at time 1 while process 1 arrives only at 5: the
      cursor stays on process 0, the clock stops, and the loop never ends. */
  lemma RRNonTermination(fuel: nat)
    ensures RunRR([Process(1, 0, 1, 0), Process(2, 5, 1, 0)], Init([Process(1, 0, 1, 0), Process(2, 5, 1, 0)]), fuel) == None
  {
    var ps := [Process(1, 0, 1, 0), Process(2, 5, 1, 0)];
    var s := Init(ps);
    var stuck := RRState([0, 1], [0, 0], [1, 0], 1, 0, 1, 0);
    assert s.rt == [1, 1] && s.wait == [0, 0] && s.tat == [0, 0];
    assert Step(ps, s) == stuck;
    assert Step(ps, stuck) == stuck;
    if fuel > 0 {
      StuckForever(ps, stuck, fuel - 1);
    }
  }

  lemma {:induction false} StuckForever(ps: seq<Process>, s: RRState, fuel: nat)
    requires Shaped(ps, s) && |ps| > 0 && s.remain != 0 && Step(ps, s) == s
    ensures RunRR(ps, s, fuel) == None
    decreases fuel
  {
    if fuel > 0 {
      StuckForever(ps, s, fuel - 1);
    }
  }

  /** What every iteration keeps on any batch: each process `remain` stops
      counting has had its positive remaining time driven to zero, so the
      processes whose burst was zero or less stay counted. */
  predicate Counted(ps: seq<Process>, s: RRState) {
    Shaped(ps, s) && s.remain - CountPositive(s.rt) == |ps| - CountPositive(Bursts(ps))
  }

  lemma StepCounted(ps: seq<Process>, s: RRState)
    requires Counted(ps, s) && |ps| > 0
    ensures Counted(ps, Step(ps, s))
  {
    var c := s.count;
    var r := s.rt[c];
    if 0 < r {
      CountPositiveUpdate(s.rt, c, r - Served(r));
    } else {
      assert Step(ps, s).rt == s.rt;
    }
  }

  /** A process whose burst is zero or less never takes the finishing
      branch, so `remain` never reaches zero and the loop never ends,
      whatever the fuel. */
  lemma {:induction false} RunCounted(ps: seq<Process>, s: RRState, fuel: nat)
    requires Counted(ps, s) && CountPositive(Bursts(ps)) < |ps|
    ensures RunRR(ps, s, fuel) == None
    decreases fuel
  {
    if fuel > 0 {
      StepCounted(ps, s);
      RunCounted(ps, Step(ps, s), fuel - 1);
    }
  }

  lemma RRNeverEndsWithoutBurst(ps: seq<Process>, k: nat, fuel: nat)
    requires k < |ps| && ps[k].burst <= 0
    ensures RRReport(ps, fuel) == None
  {
    CountPositiveMissing(Bursts(ps), k);
    RunCounted(ps, Init(ps), fuel);
  }

  /** The first index from c on whose remaining time is nonzero, or |rt|
      when there is none. */
  function FirstBusy(rt: seq<int>, c: nat): (f: nat)
    requires c <= |rt|
    ensures c <= f <= |rt|
    ensures f < |rt| ==> rt[f] != 0
    ensures forall j :: c <= j < f ==> rt[j] == 0
    decreases |rt| - c
  {
    if c == |rt| then c
    else if rt[c] != 0 then c
    else FirstBusy(rt, c + 1)
  }

  /** How many cursor moves, one index at a time and wrapping after the
      last, it takes from c to reach an unfinished process. */
  function Gap(rt: seq<int>, c: nat): nat
    requires c < |rt|
  {
    var f := FirstBusy(rt, c);
    if f < |rt| then f - c else (|rt| - c) + FirstBusy(rt, 0)
  }

  /** A bound on the iterations left when every process has arrived: each
      iteration either serves some time or moves the cursor closer to an
      unfinished process. */
  function Measure(ps: seq<Process>, s: RRState): int
    requires Shaped(ps, s) && |ps| > 0
  {
    (2 * |ps| + 1) * Sum(s.rt) + Gap(s.rt, s.count)
  }

  predicate AllArrived(ps: seq<Process>) {
    forall k :: 0 <= k < |ps| ==> ps[k].arrival <= 0
  }

  lemma MulMonotone(k: nat, a: int, b: int)
    requires a <= b
    ensures k * a <= k * b
  {
  }

  /** An iteration that finds the process under the cursor finished leaves
      everything but the cursor alone and brings it one move closer to an
      unfinished process. */
  lemma StepSkipGap(ps: seq<Process>, s: RRState)
    requires WellFormed(ps) && AllArrived(ps) && Inv(ps, s) && s.remain != 0
    requires s.rt[s.count] == 0
    ensures Step(ps, s).rt == s.rt
    ensures Gap(s.rt, Step(ps, s).count) == Gap(s.rt, s.count) - 1
  {
    var n := |ps|;
    var c := s.count;
    var rt := s.rt;
    var s' := Step(ps, s);
    assert s' == s.(count := NextCount(ps, c, s.time));
    SumMonotone(rt, Bursts(ps));
    CountZerosFull(rt);
    var j :| 0 <= j < n && rt[j] != 0;
    assert FirstBusy(rt, 0) <= j;
    if c < n - 1 {
      assert ps[c + 1].arrival <= s.time;
      assert s'.count == c + 1;
      assert FirstBusy(rt, c) == FirstBusy(rt, c + 1);
    } else {
      assert s'.count == 0;
      assert FirstBusy(rt, c) == n;
    }
  }

  /** An iteration that serves the process under the cursor lowers the
      total remaining time. */
  lemma StepServeSum(ps: seq<Process>, s: RRState)
    requires Shaped(ps, s) && |ps| > 0 && 0 < s.rt[s.count]
    ensures Sum(Step(ps, s).rt) < Sum(s.rt)
  {
    var c := s.count;
    var s' := Step(ps, s);
    StepEffect(ps, s);
    assert s'.rt == s.rt[c := s'.rt[c]];
    SumUpdate(s.rt, c, s'.rt[c]);
  }

  lemma GapBound(rt: seq<int>, c: nat)
    requires c < |rt|
    ensures Gap(rt, c) <= 2 * |rt|
  {
    assert FirstBusy(rt, 0) <= |rt|;
  }

  /** Under the invariant, with every process arrived, an iteration that
      does not end the loop lowers the measure, which stays nonnegative. */
  lemma StepMeasure(ps: seq<Process>, s: RRState)
    requires WellFormed(ps) && AllArrived(ps) && Inv(ps, s) && s.remain != 0
    ensures 0 <= Measure(ps, Step(ps, s)) < Measure(ps, s)
  {
    var k := 2 * |ps| + 1;
    var s' := Step(ps, s);
    assert Bounded(ps, s'.rt) by {
      StepInv(ps, s);
    }
    SumNonNegative(s'.rt);
    SumNonNegative(s.rt);
    var m, m' := Measure(ps, s), Measure(ps, s');
    assert m == k * Sum(s.rt) + Gap(s.rt, s.count);
    assert m' == k * Sum(s'.rt) + Gap(s'.rt, s'.count);
    MulMonotone(k, 0, Sum(s'.rt));
    if 0 < s.rt[s.count] {
      StepServeSum(ps, s);
      GapBound(s'.rt, s'.count);
      MeasureDrop(k, Sum(s.rt), Sum(s'.rt), Gap(s.rt, s.count), Gap(s'.rt, s'.count));
    } else {
      StepSkipGap(ps, s);
    }
  }

  lemma MeasureDrop(k: nat, total: int, total': int, gap: nat, gap': nat)
    requires total' <= total - 1 && gap' < k
    ensures k * total' + gap' < k * total + gap
  {
    MulMonotone(k, total', total - 1);
    assert k * (total - 1) == k * total - k;
  }

  lemma {:induction false} RunTerminates(ps: seq<Process>, s: RRState, fuel: nat)
    requires WellFormed(ps) && AllArrived(ps) && Inv(ps, s)
    requires |ps| > 0 ==> Measure(ps, s) < fuel
    ensures RunRR(ps, s, fuel).Some?
    decreases fuel
  {
    if s.remain != 0 {
      StepInv(ps, s);
      StepMeasure(ps, s);
      RunTerminates(ps, Step(ps, s), fuel - 1);
    }
  }

  /** When every process has arrived by time zero the loop always ends: the
      cursor then visits every process in turn, and
      (2n + 1) * (total burst) + 2n + 1 iterations are enough. */
  lemma RRTerminatesWhenAllArrived(ps: seq<Process>, fuel: nat)
    requires WellFormed(ps) && AllArrived(ps)
    requires fuel > (2 * |ps| + 1) * Sum(Bursts(ps)) + 2 * |ps|
    ensures RRReport(ps, fuel).Some?
  {
    InitInv(ps);
    if |ps| > 0 {
      assert FirstBusy(Bursts(ps), 0) <= |ps|;
    }
    RunTerminates(ps, Init(ps), fuel);
  }

  /** The scheduler's state as held in its arrays and variables. */
  function State(rt: array<int>, wait: array<int>, tat: array<int>,
                 time: int, count: int, remain: int, flag: int): RRState
    reads rt, wait, tat
  {
    RRState(rt[..], wait[..], tat[..], time, count, remain, flag)
  }

  /** One iteration of the loop on the arrays. */
  method RRTick(ps: seq<Process>, rt: array<int>, wait_time: array<int>, turnaround_time: array<int>,
                count: int, time: int, remain: int, flag: int)
    returns (count': int, time': int, remain': int, flag': int)
    requires rt != wait_time && rt != turnaround_time && wait_time != turnaround_time
    requires Shaped(ps, State(rt, wait_time, turnaround_time, time, count, remain, flag)) && |ps| > 0
    modifies rt, wait_time, turnaround_time
    ensures State(rt, wait_time, turnaround_time, time', count', remain', flag')
         == Step(ps, old(State(rt, wait_time, turnaround_time, time, count, remain, flag)))
  {
    count', time', remain', flag' := count, time, remain, flag;
    if rt[count'] <= Quantum && 0 < rt[count'] {
      time' := time' + rt[count'];
      rt[count'] := 0;
      flag' := 1;
    } else {
      if 0 < rt[count'] {
        rt[count'] := rt[count'] - Quantum;
        time' := time' + Quantum;
      }
    }
    if rt[count'] == 0 && flag' == 1 {
      remain' := remain' - 1;
      wait_time[count'] := wait_time[count'] + time' - ps[count'].arrival - ps[count'].burst;
      turnaround_time[count'] := turnaround_time[count'] + time' - ps[count'].arrival;
      flag' := 0;
    }
    if count' == |ps| - 1 {
      count' := 0;
    } else {
      if ps[count' + 1].arrival <= time' {
        count' := count' + 1;
      } else {
        count' := 0;
      }
    }
  }

  /** The main loop on the arrays, cut off after `fuel` iterations; `done`
      tells whether every process finished. */
  method RunLoop(ps: seq<Process>, rt: array<int>, wait_time: array<int>, turnaround_time: array<int>,
                 count: int, time: int, remain: int, flag: int, fuel: nat)
    returns (done: bool, count': int, time': int, remain': int, flag': int)
    requires rt != wait_time && rt != turnaround_time && wait_time != turnaround_time
    requires Shaped(ps, State(rt, wait_time, turnaround_time, time, count, remain, flag))
    modifies rt, wait_time, turnaround_time
    ensures done <==> RunRR(ps, old(State(rt, wait_time, turnaround_time, time, count, remain, flag)), fuel).Some?
    ensures done ==>
      Some(State(rt, wait_time, turnaround_time, time', count', remain', flag'))
        == RunRR(ps, old(State(rt, wait_time, turnaround_time, time, count, remain, flag)), fuel)
  {
    ghost var final := RunRR(ps, State(rt, wait_time, turnaround_time, time, count, remain, flag), fuel);
    count', time', remain', flag' := count, time, remain, flag;
    var left := fuel;
    while remain' != 0
      invariant Shaped(ps, State(rt, wait_time, turnaround_time, time', count', remain', flag'))
      invariant RunRR(ps, State(rt, wait_time, turnaround_time, time', count', remain', flag'), left) == final
      decreases left
    {
      if left == 0 {
        return false, count', time', remain', flag';
      }
      count', time', remain', flag' := RRTick(ps, rt, wait_time, turnaround_time, count', time', remain', flag');
      left := left - 1;
    }
    done := true;
  }

  /** The round-robin scheduler, its loop cut off after `fuel` iterations. */
  method RRSchedule(ps: seq<Process>, fuel: nat) returns (r: Option<Report>)
    ensures r == RRReport(ps, fuel)
  {
    var n := |ps|;
    var count := 0;
    var time := 0;
    var remain := 0;
    var flag := 0;
    var wait_time := new int[n](_ => 0);
    var turnaround_time := new int[n](_ => 0);
    var rt := new int[n];

    remain := n;
    count := 0;
    while count < n
      invariant 0 <= count <= n
      invariant forall k :: 0 <= k < count ==> rt[k] == ps[k].burst
      invariant forall k :: 0 <= k < n ==> wait_time[k] == 0 && turnaround_time[k] == 0
    {
      rt[count] := ps[count].burst;
      count := count + 1;
    }

    time := 0;
    count := 0;
    assert State(rt, wait_time, turnaround_time, time, count, remain, flag) == Init(ps);
    var done;
    done, count, time, remain, flag := RunLoop(ps, rt, wait_time, turnaround_time, count, time, remain, flag, fuel);
    if !done {
      return None;
    }
    var report := Tabulate(Ids(ps), ps, wait_time[..], turnaround_time[..]);
    r := Some(report);
  }
}
