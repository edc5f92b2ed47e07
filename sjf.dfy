/** Preemptive shortest-job-first (shortest remaining time first), simulated
    one integer tick at a time over a remaining-time array. */
module Sjf {
  import opened Processes
  import opened Timeline

  /** The scan's carried choice: `minm` (None stands for the math.MaxInt
      sentinel, that is, no current candidate), `shortest` and `check`. */
  datatype Candidate = Candidate(minm: Option<int>, shortest: int, check: bool)

  /** The simulation's state at the head of the tick loop. */
  datatype SjfState = SjfState(rt: seq<int>, waitingTime: seq<int>, complete: int, t: int, cand: Candidate)

  /** A remaining time beats the candidate's when there is no candidate or
      it is strictly smaller. */
  predicate Beats(r: int, minm: Option<int>) {
    minm.None? || r < minm.value
  }

  /** Process j has arrived by tick t, is unfinished, and beats `minm`. */
  predicate Better(ps: seq<Process>, rt: seq<int>, t: int, minm: Option<int>, j: int)
    requires |rt| == |ps| && 0 <= j < |ps|
  {
    ps[j].arrival <= t && Beats(rt[j], minm) && rt[j] > 0
  }

  /** The scan of indices i.. at tick t, updating the candidate whenever an
      index beats it. */
  function ScanFrom(ps: seq<Process>, rt: seq<int>, t: int, i: nat, c: Candidate): (r: Candidate)
    requires |rt| == |ps| && i <= |ps|
    ensures r == c || (r.check && i <= r.shortest < |ps| && r.minm == Some(rt[r.shortest]))
    decreases |ps| - i
  {
    if i == |ps| then c
    else ScanFrom(ps, rt, t, i + 1,
                  if Better(ps, rt, t, c.minm, i) then Candidate(Some(rt[i]), i, true) else c)
  }

  /** m is the lowest index among those from lo on with the least remaining
      time of all that beat `minm`. */
  predicate IsPick(ps: seq<Process>, rt: seq<int>, t: int, minm: Option<int>, lo: nat, m: int)
    requires |rt| == |ps| && lo <= |ps|
  {
    && lo <= m < |ps| && Better(ps, rt, t, minm, m)
    && (forall j :: lo <= j < |ps| && Better(ps, rt, t, minm, j) ==> rt[m] <= rt[j])
    && (forall j :: lo <= j < m && Better(ps, rt, t, minm, j) ==> rt[m] < rt[j])
  }

  /** The scan's selection rule: it keeps the candidate unless some index
      beats it, and otherwise picks the lowest index with the least remaining
      time among those that do. */
  lemma {:induction false} ScanPicks(ps: seq<Process>, rt: seq<int>, t: int, i: nat, c: Candidate)
    requires |rt| == |ps| && i <= |ps|
    decreases |ps| - i
    ensures var r := ScanFrom(ps, rt, t, i, c);
      if exists j :: i <= j < |ps| && Better(ps, rt, t, c.minm, j)
      then IsPick(ps, rt, t, c.minm, i, r.shortest) && r == Candidate(Some(rt[r.shortest]), r.shortest, true)
      else r == c
  {
    if i < |ps| {
      var r := ScanFrom(ps, rt, t, i, c);
      if Better(ps, rt, t, c.minm, i) {
        var c1 := Candidate(Some(rt[i]), i, true);
        ScanPicks(ps, rt, t, i + 1, c1);
        assert r == ScanFrom(ps, rt, t, i + 1, c1);
        assert forall j :: i + 1 <= j < |ps| && Better(ps, rt, t, c1.minm, j) ==> Better(ps, rt, t, c.minm, j);
        if exists j :: i + 1 <= j < |ps| && Better(ps, rt, t, c1.minm, j) {
          var m := r.shortest;
          assert IsPick(ps, rt, t, c1.minm, i + 1, m);
          forall j | i <= j < |ps| && Better(ps, rt, t, c.minm, j) ensures rt[m] <= rt[j] {
            if j > i && !Better(ps, rt, t, c1.minm, j) {
              assert rt[j] >= rt[i];
            }
          }
          forall j | i <= j < m && Better(ps, rt, t, c.minm, j) ensures rt[m] < rt[j] {
            if j > i && !Better(ps, rt, t, c1.minm, j) {
              assert rt[j] >= rt[i];
            }
          }
        } else {
          assert r == c1;
          forall j | i <= j < |ps| && Better(ps, rt, t, c.minm, j) ensures rt[i] <= rt[j] {
            if j > i {
              assert !Better(ps, rt, t, c1.minm, j);
            }
          }
        }
      } else {
        ScanPicks(ps, rt, t, i + 1, c);
        assert r == ScanFrom(ps, rt, t, i + 1, c);
        if exists j :: i <= j < |ps| && Better(ps, rt, t, c.minm, j) {
          var j :| i <= j < |ps| && Better(ps, rt, t, c.minm, j);
          assert j != i;
        }
      }
    }
  }

  /** The state's arrays have the batch's length and a current candidate
      names a process. */
  predicate Shaped(ps: seq<Process>, s: SjfState) {
    |s.rt| == |ps| && |s.waitingTime| == |ps| && (s.cand.check ==> 0 <= s.cand.shortest < |ps|)
  }

  /** One pass of the tick loop: scan for the candidate; with none the tick
      is idle; otherwise run the candidate for one tick, and when that
      finishes it record its wait, clamped at zero, and drop the
      candidate. */
  function Step(ps: seq<Process>, s: SjfState): (s': SjfState)
    requires Shaped(ps, s)
    ensures Shaped(ps, s')
  {
    var c := ScanFrom(ps, s.rt, s.t, 0, s.cand);
    if !c.check then s.(t := s.t + 1, cand := c)
    else
      var k := c.shortest;
      var left := s.rt[k] - 1;
      if left == 0 then
        SjfState(s.rt[k := 0], s.waitingTime[k := Max(0, s.t + 1 - ps[k].burst - ps[k].arrival)],
                 s.complete + 1, s.t + 1, Candidate(None, k, false))
      else
        SjfState(s.rt[k := left], s.waitingTime, s.complete, s.t + 1, Candidate(Some(left), k, true))
  }

  /** Process i has arrived by tick t and still needs CPU time. */
  predicate Eligible(ps: seq<Process>, s: SjfState, i: int)
    requires |s.rt| == |ps| && 0 <= i < |ps|
  {
    ps[i].arrival <= s.t && s.rt[i] > 0
  }

  /** Remaining times lie between zero and the burst, and the CPU time a
      process has had is at most the ticks since its arrival. */
  predicate Progress(ps: seq<Process>, rt: seq<int>, t: int)
    requires |rt| == |ps|
  {
    && (forall i :: 0 <= i < |ps| ==> 0 <= rt[i] <= ps[i].burst)
    && (forall i :: 0 <= i < |ps| ==> ps[i].burst - rt[i] <= Max(0, t - ps[i].arrival))
  }

  /** Waits are never negative, and an unfinished process has none yet. */
  predicate WaitsRecorded(ps: seq<Process>, rt: seq<int>, wt: seq<int>)
    requires |rt| == |ps| && |wt| == |ps|
  {
    && (forall i :: 0 <= i < |ps| ==> wt[i] >= 0)
    && (forall i :: 0 <= i < |ps| && rt[i] > 0 ==> wt[i] == 0)
  }

  /** What holds at the head of every tick: remaining times lie between zero
      and the burst; the CPU time a process has had is at most the ticks
      since its arrival; an unfinished process has no wait recorded yet;
      `complete` counts the finished processes; a candidate, when there is
      one, is an arrived unfinished process whose remaining time is `minm`. */
  predicate Inv(ps: seq<Process>, s: SjfState) {
    && Shaped(ps, s)
    && s.t >= 0
    && Progress(ps, s.rt, s.t)
    && WaitsRecorded(ps, s.rt, s.waitingTime)
    && s.complete == CountZeros(s.rt)
    && (s.cand.check <==> s.cand.minm.Some?)
    && (s.cand.check ==> s.cand.minm == Some(s.rt[s.cand.shortest]) && Eligible(ps, s, s.cand.shortest))
  }

  /** The state before the first tick. */
  function Init(ps: seq<Process>): (s: SjfState)
    ensures Shaped(ps, s) && s.complete == 0 && !s.cand.check
  {
    SjfState(Bursts(ps), seq(|ps|, _ => 0), 0, 0, Candidate(None, 0, false))
  }

  /** When every burst is positive the starting state satisfies the loop
      invariant. */
  lemma InitInv(ps: seq<Process>)
    requires WellFormed(ps)
    ensures Inv(ps, Init(ps))
  {
    CountZerosNone(Init(ps).rt);
  }

  /** A tick is idle exactly when no process has arrived unfinished, and an
      idle tick changes nothing but the clock. */
  lemma TickIdle(ps: seq<Process>, s: SjfState)
    requires Inv(ps, s)
    ensures !ScanFrom(ps, s.rt, s.t, 0, s.cand).check <==>
            forall j :: 0 <= j < |ps| ==> !Eligible(ps, s, j)
    ensures (forall j :: 0 <= j < |ps| ==> !Eligible(ps, s, j)) ==> Step(ps, s) == s.(t := s.t + 1)
  {
    ScanPicks(ps, s.rt, s.t, 0, s.cand);
    if !s.cand.check {
      assert forall j :: 0 <= j < |ps| ==> (Better(ps, s.rt, s.t, s.cand.minm, j) <==> Eligible(ps, s, j));
    }
  }

  /** A busy tick runs exactly one arrived, unfinished process for one tick.
      A current candidate keeps the CPU unless an arrived process has a
      strictly smaller remaining time; otherwise the process run is the
      lowest index with the least remaining time among those that beat the
      candidate (all arrived unfinished processes, when there is none). */
  lemma TickDispatch(ps: seq<Process>, s: SjfState, j: nat)
    requires Inv(ps, s) && j < |ps| && Eligible(ps, s, j)
    ensures var c := ScanFrom(ps, s.rt, s.t, 0, s.cand);
      && c.check && 0 <= c.shortest < |ps| && Eligible(ps, s, c.shortest)
      && Step(ps, s).rt == s.rt[c.shortest := s.rt[c.shortest] - 1]
      && Step(ps, s).t == s.t + 1
      && (if exists b :: 0 <= b < |ps| && Better(ps, s.rt, s.t, s.cand.minm, b)
          then IsPick(ps, s.rt, s.t, s.cand.minm, 0, c.shortest)
          else s.cand.check && c.shortest == s.cand.shortest)
  {
    ScanPicks(ps, s.rt, s.t, 0, s.cand);
    if !s.cand.check {
      assert Better(ps, s.rt, s.t, s.cand.minm, j);
    }
  }

  /** A finished process stays finished with its wait untouched; the one
      process a tick finishes gets wait t + 1 - burst - arrival, a value that
      is never negative, so the clamp never changes it; no other wait
      changes. */
  lemma TickCompletion(ps: seq<Process>, s: SjfState)
    requires Inv(ps, s)
    ensures var s' := Step(ps, s);
      && (forall i :: 0 <= i < |ps| && s.rt[i] == 0 ==> s'.rt[i] == 0)
      && (forall i :: 0 <= i < |ps| && s.rt[i] > 0 && s'.rt[i] == 0 ==>
            s'.waitingTime[i] == s.t + 1 - ps[i].burst - ps[i].arrival >= 0 &&
            s'.complete == s.complete + 1)
      && (forall i :: 0 <= i < |ps| && !(s.rt[i] > 0 && s'.rt[i] == 0) ==>
            s'.waitingTime[i] == s.waitingTime[i])
  {
    var c := ScanFrom(ps, s.rt, s.t, 0, s.cand);
    ScanPicks(ps, s.rt, s.t, 0, s.cand);
    if c.check {
      var k := c.shortest;
      assert Eligible(ps, s, k);
      assert ps[k].burst - s.rt[k] <= s.t - ps[k].arrival;
    }
  }

  /** An idle tick keeps the invariant, and while some process is
      unfinished it happens before the latest arrival. */
  lemma StepIdle(ps: seq<Process>, s: SjfState)
    requires Inv(ps, s) && s.complete < |ps| && !ScanFrom(ps, s.rt, s.t, 0, s.cand).check
    ensures Inv(ps, Step(ps, s)) && Step(ps, s).rt == s.rt && Step(ps, s).t == s.t + 1
    ensures s.t < LatestArrival(ps)
  {
    TickIdle(ps, s);
    CountZerosFull(s.rt);
    var j :| 0 <= j < |ps| && s.rt[j] != 0;
    assert !Eligible(ps, s, j);
    var s' := Step(ps, s);
    forall i | 0 <= i < |ps|
      ensures ps[i].burst - s'.rt[i] <= Max(0, s'.t - ps[i].arrival)
    {
      assert ps[i].burst - s.rt[i] <= Max(0, s.t - ps[i].arrival);
    }
  }

  /** Running an arrived, unfinished process for one tick keeps the
      progress bounds. */
  lemma ProgressTick(ps: seq<Process>, rt: seq<int>, t: int, k: nat)
    requires |rt| == |ps| && k < |ps| && Progress(ps, rt, t)
    requires ps[k].arrival <= t && rt[k] > 0
    ensures Progress(ps, rt[k := rt[k] - 1], t + 1)
  {
    var rt' := rt[k := rt[k] - 1];
    forall i | 0 <= i < |ps|
      ensures 0 <= rt'[i] <= ps[i].burst && ps[i].burst - rt'[i] <= Max(0, t + 1 - ps[i].arrival)
    {
      assert ps[i].burst - rt[i] <= Max(0, t - ps[i].arrival);
      if i == k {
        assert ps[k].burst - rt[k] <= t - ps[k].arrival;
      }
    }
  }

  /** Lowering a remaining time that stays positive changes no wait. */
  lemma WaitsContinue(ps: seq<Process>, rt: seq<int>, wt: seq<int>, k: nat)
    requires |rt| == |ps| && |wt| == |ps| && k < |ps| && WaitsRecorded(ps, rt, wt)
    requires rt[k] > 1
    ensures WaitsRecorded(ps, rt[k := rt[k] - 1], wt)
  {
    var rt' := rt[k := rt[k] - 1];
    forall i | 0 <= i < |ps| && rt'[i] > 0 ensures wt[i] == 0 {
      assert rt[i] > 0;
    }
  }

  /** Finishing a process with a nonnegative wait keeps the waits recorded. */
  lemma WaitsFinish(ps: seq<Process>, rt: seq<int>, wt: seq<int>, k: nat, v: int)
    requires |rt| == |ps| && |wt| == |ps| && k < |ps| && WaitsRecorded(ps, rt, wt)
    requires v >= 0
    ensures WaitsRecorded(ps, rt[k := 0], wt[k := v])
  {
    var rt', wt' := rt[k := 0], wt[k := v];
    forall i | 0 <= i < |ps| ensures wt'[i] >= 0 {
      if i != k { assert wt'[i] == wt[i]; }
    }
    forall i | 0 <= i < |ps| && rt'[i] > 0 ensures wt'[i] == 0 {
      assert i != k && rt[i] > 0;
    }
  }

  /** The tick that runs the last unit of an eligible process keeps the
      invariant. */
  lemma BusyFinish(ps: seq<Process>, s: SjfState, k: nat)
    requires Inv(ps, s) && k < |ps| && Eligible(ps, s, k) && s.rt[k] == 1
    ensures Inv(ps, SjfState(s.rt[k := 0], s.waitingTime[k := Max(0, s.t + 1 - ps[k].burst - ps[k].arrival)],
                             s.complete + 1, s.t + 1, Candidate(None, k, false)))
  {
    CountZerosUpdate(s.rt, k, 0);
    ProgressTick(ps, s.rt, s.t, k);
    WaitsFinish(ps, s.rt, s.waitingTime, k, Max(0, s.t + 1 - ps[k].burst - ps[k].arrival));
  }

  /** A tick that runs an eligible process without finishing it keeps the
      invariant, with that process as the new candidate. */
  lemma BusyContinue(ps: seq<Process>, s: SjfState, k: nat)
    requires Inv(ps, s) && k < |ps| && Eligible(ps, s, k) && s.rt[k] > 1
    ensures Inv(ps, SjfState(s.rt[k := s.rt[k] - 1], s.waitingTime, s.complete, s.t + 1,
                             Candidate(Some(s.rt[k] - 1), k, true)))
  {
    CountZerosUpdate(s.rt, k, s.rt[k] - 1);
    ProgressTick(ps, s.rt, s.t, k);
    WaitsContinue(ps, s.rt, s.waitingTime, k);
  }

  /** A busy tick runs the picked process k for one tick: it finishes, and
      gets its clamped wait, when that was its last unit, and otherwise
      stays the candidate with its new remaining time as `minm`. */
  lemma BusyNext(ps: seq<Process>, s: SjfState, k: int)
    requires Inv(ps, s) && ScanFrom(ps, s.rt, s.t, 0, s.cand).check
    requires k == ScanFrom(ps, s.rt, s.t, 0, s.cand).shortest
    ensures 0 <= k < |ps| && Eligible(ps, s, k)
    ensures s.rt[k] == 1 ==>
      Step(ps, s) == SjfState(s.rt[k := 0], s.waitingTime[k := Max(0, s.t + 1 - ps[k].burst - ps[k].arrival)],
                              s.complete + 1, s.t + 1, Candidate(None, k, false))
    ensures s.rt[k] != 1 ==>
      Step(ps, s) == SjfState(s.rt[k := s.rt[k] - 1], s.waitingTime, s.complete, s.t + 1,
                              Candidate(Some(s.rt[k] - 1), k, true))
  {
    ScanEligible(ps, s);
  }

  /** A busy tick keeps the invariant and uses up one unit of remaining
      time. */
  lemma StepBusy(ps: seq<Process>, s: SjfState)
    requires Inv(ps, s) && ScanFrom(ps, s.rt, s.t, 0, s.cand).check
    ensures Inv(ps, Step(ps, s)) && Sum(Step(ps, s).rt) == Sum(s.rt) - 1
  {
    var k := ScanFrom(ps, s.rt, s.t, 0, s.cand).shortest;
    BusyNext(ps, s, k);
    SumUpdate(s.rt, k, s.rt[k] - 1);
    if s.rt[k] == 1 {
      BusyFinish(ps, s, k);
    } else {
      BusyContinue(ps, s, k);
    }
  }

  /** A scan that ends with a candidate has picked an arrived, unfinished
      process. */
  lemma ScanEligible(ps: seq<Process>, s: SjfState)
    requires Inv(ps, s) && ScanFrom(ps, s.rt, s.t, 0, s.cand).check
    ensures var k := ScanFrom(ps, s.rt, s.t, 0, s.cand).shortest; 0 <= k < |ps| && Eligible(ps, s, k)
  {
    ScanPicks(ps, s.rt, s.t, 0, s.cand);
  }

  /** Every tick keeps the invariant and makes progress: either one unit of
      remaining time is used up, or (idle) the clock moves towards the
      latest arrival of a process still waiting. */
  lemma StepInv(ps: seq<Process>, s: SjfState)
    requires Inv(ps, s) && s.complete < |ps|
    ensures Inv(ps, Step(ps, s))
    ensures Sum(s.rt) >= 0 && Sum(Step(ps, s).rt) >= 0
    ensures Sum(Step(ps, s).rt) < Sum(s.rt) ||
            (Sum(Step(ps, s).rt) == Sum(s.rt) && 0 <= LatestArrival(ps) - Step(ps, s).t < LatestArrival(ps) - s.t)
  {
    if ScanFrom(ps, s.rt, s.t, 0, s.cand).check {
      StepBusy(ps, s);
    } else {
      StepIdle(ps, s);
    }
    SumNonNegative(s.rt);
    SumNonNegative(Step(ps, s).rt);
  }

  /** The tick loop run to the end: while some process is unfinished. */
  function Run(ps: seq<Process>, s: SjfState): (f: SjfState)
    requires Inv(ps, s)
    ensures Inv(ps, f) && f.complete >= |ps|
    decreases Sum(s.rt), LatestArrival(ps) - s.t
  {
    if s.complete >= |ps| then s
    else
      StepInv(ps, s);
      Run(ps, Step(ps, s))
  }

  /** The state in which the tick loop, entered from the start, ends. */
  function SjfFinal(ps: seq<Process>): (f: SjfState)
    requires WellFormed(ps)
    ensures Inv(ps, f) && f.complete >= |ps|
  {
    InitInv(ps);
    Run(ps, Init(ps))
  }

  /** The waits a complete run records. */
  function SjfWaits(ps: seq<Process>): seq<int>
    requires WellFormed(ps)
  {
    SjfFinal(ps).waitingTime
  }

  function SjfReport(ps: seq<Process>): Report
    requires WellFormed(ps)
  {
    var ws := SjfWaits(ps);
    Tabulated(Ids(ps), ps, ws, FindTurnAroundTime(ps, ws))
  }

  /** When the loop ends every process is finished, and every reported wait
      is the tick after its last run minus burst and arrival: never
      negative, with turnaround = burst + wait. */
  lemma SjfOutcome(ps: seq<Process>)
    requires WellFormed(ps)
    ensures var f := SjfFinal(ps);
      forall i :: 0 <= i < |ps| ==> f.rt[i] == 0
    ensures var r := SjfReport(ps);
      forall i :: 0 <= i < |ps| ==>
        r.rows[i].wait >= 0 && r.rows[i].turnaround == ps[i].burst + r.rows[i].wait
  {
    var f := SjfFinal(ps);
    assert f.complete == |ps|;
    CountZerosFull(f.rt);
    var ws := f.waitingTime;
    assert SjfWaits(ps) == ws;
    assert WaitsRecorded(ps, f.rt, ws);
    var tat := FindTurnAroundTime(ps, ws);
    var r := Tabulated(Ids(ps), ps, ws, tat);
    assert SjfReport(ps) == r;
    forall i | 0 <= i < |ps|
      ensures r.rows[i].wait >= 0 && r.rows[i].turnaround == ps[i].burst + r.rows[i].wait
    {
      assert r.rows[i] == MetricsRow(ps[i], ws[i], tat[i]);
    }
  }

  /** What every tick keeps on any batch: each completion used up one of
      the processes that started with a positive burst, and a carried
      candidate still needs CPU time. */
  predicate Accounted(ps: seq<Process>, s: SjfState) {
    && Shaped(ps, s)
    && s.complete + CountPositive(s.rt) == CountPositive(Bursts(ps))
    && (s.cand.check ==> s.rt[s.cand.shortest] > 0)
  }

  lemma StepAccounted(ps: seq<Process>, s: SjfState)
    requires Accounted(ps, s)
    ensures Accounted(ps, Step(ps, s))
  {
    var c := ScanFrom(ps, s.rt, s.t, 0, s.cand);
    ScanPicks(ps, s.rt, s.t, 0, s.cand);
    if c.check {
      var k := c.shortest;
      assert s.rt[k] > 0;
      CountPositiveUpdate(s.rt, k, s.rt[k] - 1);
    }
  }

  /** The state after n ticks, whether or not the loop would have stopped. */
  function Ticks(ps: seq<Process>, s: SjfState, n: nat): (r: SjfState)
    requires Shaped(ps, s)
    ensures Shaped(ps, r)
    decreases n
  {
    if n == 0 then s else Ticks(ps, Step(ps, s), n - 1)
  }

  lemma {:induction false} TicksAccounted(ps: seq<Process>, s: SjfState, n: nat)
    requires Accounted(ps, s)
    ensures Accounted(ps, Ticks(ps, s, n))
    decreases n
  {
    if n > 0 {
      StepAccounted(ps, s);
      TicksAccounted(ps, Step(ps, s), n - 1);
    }
  }

  /** A process whose burst is zero or less is never picked, so `complete`
      never reaches the batch size and the tick loop never ends: after any
      number of ticks some process is still counted as unfinished. */
  lemma SjfNeverEnds(ps: seq<Process>, k: nat, n: nat)
    requires k < |ps| && ps[k].burst <= 0
    ensures Ticks(ps, Init(ps), n).complete < |ps|
  {
    CountPositiveMissing(Bursts(ps), k);
    TicksAccounted(ps, Init(ps), n);
  }

  /** One scan of the tick loop, over indices 0..n-1 in order. */
  method Scan(ps: seq<Process>, rt: array<int>, t: int, minm: Option<int>, shortest: int, check: bool)
    returns (minm': Option<int>, shortest': int, check': bool)
    requires rt.Length == |ps|
    ensures Candidate(minm', shortest', check') == ScanFrom(ps, rt[..], t, 0, Candidate(minm, shortest, check))
  {
    minm', shortest', check' := minm, shortest, check;
    for i := 0 to |ps|
      invariant ScanFrom(ps, rt[..], t, i, Candidate(minm', shortest', check')) ==
                ScanFrom(ps, rt[..], t, 0, Candidate(minm, shortest, check))
    {
      if ps[i].arrival <= t && (minm'.None? || rt[i] < minm'.value) && rt[i] > 0 {
        minm' := Some(rt[i]);
        shortest' := i;
        check' := true;
      }
    }
  }

  /** One pass of the tick loop on the working arrays. */
  method Tick(ps: seq<Process>, rt: array<int>, waitingTime: array<int>,
              complete: int, t: int, minm: Option<int>, shortest: int, check: bool)
    returns (complete': int, t': int, minm': Option<int>, shortest': int, check': bool)
    requires rt != waitingTime && rt.Length == |ps| && waitingTime.Length == |ps|
    requires check ==> 0 <= shortest < |ps|
    modifies rt, waitingTime
    ensures SjfState(rt[..], waitingTime[..], complete', t', Candidate(minm', shortest', check')) ==
            Step(ps, SjfState(old(rt[..]), old(waitingTime[..]), complete, t, Candidate(minm, shortest, check)))
  {
    complete', t' := complete, t;
    minm', shortest', check' := Scan(ps, rt, t, minm, shortest, check);
    if !check' {
      t' := t' + 1;
      return;
    }
    rt[shortest'] := rt[shortest'] - 1;
    minm' := Some(rt[shortest']);
    if rt[shortest'] == 0 {
      minm' := None;
    }
    if rt[shortest'] == 0 {
      complete' := complete' + 1;
      check' := false;
      var finishTime := t + 1;
      waitingTime[shortest'] := finishTime - ps[shortest'].burst - ps[shortest'].arrival;
      if waitingTime[shortest'] < 0 {
        waitingTime[shortest'] := 0;
      }
    }
    t' := t' + 1;
  }

  method SJFSchedule(ps: seq<Process>) returns (r: Report)
    requires WellFormed(ps)
    ensures r == SjfReport(ps)
  {
    var n := |ps|;
    var rt := new int[n];
    var waitingTime := new int[n](_ => 0);
    var complete, t := 0, 0;
    var minm: Option<int> := None;
    var shortest, check := 0, false;
    for i := 0 to n
      invariant forall k :: 0 <= k < i ==> rt[k] == ps[k].burst
      invariant forall k :: 0 <= k < n ==> waitingTime[k] == 0
    {
      rt[i] := ps[i].burst;
    }
    assert rt[..] == Bursts(ps) && waitingTime[..] == seq(n, _ => 0);
    assert SjfState(rt[..], waitingTime[..], complete, t, Candidate(minm, shortest, check)) == Init(ps);
    InitInv(ps);
    ghost var final := SjfFinal(ps);
    while complete < n
      invariant Inv(ps, SjfState(rt[..], waitingTime[..], complete, t, Candidate(minm, shortest, check)))
      invariant Run(ps, SjfState(rt[..], waitingTime[..], complete, t, Candidate(minm, shortest, check))) == final
      decreases Sum(rt[..]), LatestArrival(ps) - t
    {
      ghost var s := SjfState(rt[..], waitingTime[..], complete, t, Candidate(minm, shortest, check));
      StepInv(ps, s);
      complete, t, minm, shortest, check := Tick(ps, rt, waitingTime, complete, t, minm, shortest, check);
    }
    var tat := FindTurnAroundTime(ps, waitingTime[..]);
    r := Tabulate(Ids(ps), ps, waitingTime[..], tat);
  }
}
