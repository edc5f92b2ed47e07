/** The data every scheduler shares: the input batch, the timeline entries,
    the per-process metrics rows and the integer aggregates, together with
    the sums and counts the schedulers' invariants are phrased in. */
module Processes {

  datatype Option<T> = None | Some(value: T)

  /** One unit of schedulable work, as loaded from one input record. */
  datatype Process = Process(id: int, arrival: int, burst: int, priority: int)

  /** One entry of the Gantt timeline. */
  datatype TimeSlice = TimeSlice(pid: int, start: int, stop: int)

  /** One line of the schedule table: ID, Priority, Burst, Arrival, Wait,
      Turnaround, Exit. */
  datatype Row = Row(id: int, priority: int, burst: int, arrival: int,
                     wait: int, turnaround: int, completion: int)

  /** What one scheduler hands to the renderer: the timeline, the table, and
      the integer totals from which the averages and the throughput are
      computed (the total wait, the total turnaround, and the completion time
      the throughput divides by). */
  datatype Report = Report(gantt: seq<TimeSlice>, rows: seq<Row>,
                           totalWait: int, totalTurnaround: int,
                           finalCompletion: int)

  /** The batch as the schedulers need it to terminate: every process asks
      for at least one unit of CPU time. */
  predicate WellFormed(ps: seq<Process>) {
    forall i :: 0 <= i < |ps| ==> ps[i].burst >= 1
  }

  function Max(a: int, b: int): int {
    if a < b then b else a
  }

  /** The latest arrival in the batch, or zero: no process arrives after it. */
  function LatestArrival(ps: seq<Process>): (m: int)
    ensures m >= 0
    ensures forall j :: 0 <= j < |ps| ==> ps[j].arrival <= m
  {
    if ps == [] then 0
    else
      var init := ps[..|ps| - 1];
      assert forall j :: 0 <= j < |init| ==> init[j] == ps[j];
      Max(LatestArrival(init), ps[|ps| - 1].arrival)
  }

  function Ids(ps: seq<Process>): (ids: seq<int>)
    ensures |ids| == |ps|
    ensures forall i :: 0 <= i < |ps| ==> ids[i] == ps[i].id
  {
    seq(|ps|, i requires 0 <= i < |ps| => ps[i].id)
  }

  function Bursts(ps: seq<Process>): (bs: seq<int>)
    ensures |bs| == |ps|
    ensures forall i :: 0 <= i < |ps| ==> bs[i] == ps[i].burst
  {
    seq(|ps|, i requires 0 <= i < |ps| => ps[i].burst)
  }

  function Arrivals(ps: seq<Process>): (as_: seq<int>)
    ensures |as_| == |ps|
    ensures forall i :: 0 <= i < |ps| ==> as_[i] == ps[i].arrival
  {
    seq(|ps|, i requires 0 <= i < |ps| => ps[i].arrival)
  }

  /** Sum of a sequence, peeled from the back so that a prefix sum grows by
      one element at a time as the schedulers' loops do. */
  function Sum(s: seq<int>): int {
    if s == [] then 0 else Sum(s[..|s| - 1]) + s[|s| - 1]
  }

  /** A prefix one longer is the prefix extended by the next element. */
  lemma PrefixSnoc<T>(s: seq<T>, i: nat)
    requires i < |s|
    ensures s[..i + 1] == s[..i] + [s[i]]
  {
  }

  lemma SumSnoc(s: seq<int>, i: nat)
    requires i < |s|
    ensures Sum(s[..i + 1]) == Sum(s[..i]) + s[i]
  {
    assert s[..i + 1][..i] == s[..i];
  }

  /** Replacing one element changes the sum by the difference. */
  lemma {:induction false} SumUpdate(s: seq<int>, k: nat, v: int)
    requires k < |s|
    ensures Sum(s[k := v]) == Sum(s) - s[k] + v
  {
    var last := |s| - 1;
    if k < last {
      assert s[k := v][..last] == s[..last][k := v];
      SumUpdate(s[..last], k, v);
    } else {
      assert s[k := v][..last] == s[..last];
    }
  }

  /** A sum of entries that are each at least zero is at least zero. */
  lemma {:induction false} SumNonNegative(s: seq<int>)
    requires forall i :: 0 <= i < |s| ==> s[i] >= 0
    ensures Sum(s) >= 0
  {
    if s != [] {
      SumNonNegative(s[..|s| - 1]);
    }
  }

  /** A sum is monotone in each entry. */
  lemma {:induction false} SumMonotone(s: seq<int>, t: seq<int>)
    requires |s| == |t|
    requires forall i :: 0 <= i < |s| ==> s[i] <= t[i]
    ensures Sum(s) <= Sum(t)
  {
    if s != [] {
      SumMonotone(s[..|s| - 1], t[..|t| - 1]);
    }
  }

  /** Number of entries equal to zero: the processes a preemptive scheduler
      has finished. */
  function CountZeros(s: seq<int>): (c: nat)
    ensures c <= |s|
  {
    if s == [] then 0
    else CountZeros(s[..|s| - 1]) + (if s[|s| - 1] == 0 then 1 else 0)
  }

  /** Driving one nonzero entry to zero finishes exactly one more process;
      any other change of a nonzero entry to a nonzero one finishes none. */
  lemma {:induction false} CountZerosUpdate(s: seq<int>, k: nat, v: int)
    requires k < |s| && s[k] != 0
    ensures CountZeros(s[k := v]) == CountZeros(s) + (if v == 0 then 1 else 0)
  {
    var last := |s| - 1;
    if k < last {
      assert s[k := v][..last] == s[..last][k := v];
      CountZerosUpdate(s[..last], k, v);
    } else {
      assert s[k := v][..last] == s[..last];
    }
  }

  /** All entries are zero exactly when the count reaches the length. */
  lemma {:induction false} CountZerosFull(s: seq<int>)
    ensures CountZeros(s) == |s| <==> forall i :: 0 <= i < |s| ==> s[i] == 0
  {
    if s != [] {
      var init := s[..|s| - 1];
      CountZerosFull(init);
      if CountZeros(s) == |s| {
        assert CountZeros(init) == |init| && s[|s| - 1] == 0;
        forall i | 0 <= i < |s| ensures s[i] == 0 {
          if i < |s| - 1 { assert s[i] == init[i]; }
        }
      }
      if forall i :: 0 <= i < |s| ==> s[i] == 0 {
        assert forall i :: 0 <= i < |init| ==> init[i] == s[i];
      }
    }
  }

  /** No entry is zero, so none is counted. */
  lemma {:induction false} CountZerosNone(s: seq<int>)
    requires forall i :: 0 <= i < |s| ==> s[i] != 0
    ensures CountZeros(s) == 0
  {
    if s != [] {
      var init := s[..|s| - 1];
      assert forall i :: 0 <= i < |init| ==> init[i] == s[i];
      CountZerosNone(init);
    }
  }

  /** Number of entries above zero: the processes a scheduler can still
      pick. */
  function CountPositive(s: seq<int>): (c: nat)
    ensures c <= |s|
  {
    if s == [] then 0
    else CountPositive(s[..|s| - 1]) + (if s[|s| - 1] > 0 then 1 else 0)
  }

  /** Lowering a positive entry takes it out of the count exactly when it
      reaches zero or below. */
  lemma {:induction false} CountPositiveUpdate(s: seq<int>, k: nat, v: int)
    requires k < |s| && s[k] > 0
    ensures CountPositive(s[k := v]) == CountPositive(s) - (if v > 0 then 0 else 1)
  {
    var last := |s| - 1;
    if k < last {
      assert s[k := v][..last] == s[..last][k := v];
      CountPositiveUpdate(s[..last], k, v);
    } else {
      assert s[k := v][..last] == s[..last];
    }
  }

  /** An entry at zero or below keeps the count under the length. */
  lemma {:induction false} CountPositiveMissing(s: seq<int>, k: nat)
    requires k < |s| && s[k] <= 0
    ensures CountPositive(s) < |s|
  {
    var last := |s| - 1;
    if k < last {
      CountPositiveMissing(s[..last], k);
    }
  }
}
