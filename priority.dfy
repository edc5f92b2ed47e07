/** Non-preemptive priority scheduling: the batch is copied into four
    parallel working arrays (display id, priority, burst, arrival), sorted by
    priority with a selection sort, and the waits follow from a cumulative
    formula over the sorted order. */
module Priority {
  import opened Processes
  import opened Timeline

  /** The working copy before sorting: every field copied, and the display
      id replaced by the 1-based position in the batch. */
  function Numbered(ps: seq<Process>): (es: seq<Process>)
    ensures |es| == |ps|
  {
    seq(|ps|, i requires 0 <= i < |ps| => ps[i].(id := i + 1))
  }

  /** Four parallel columns read as one table of entries. */
  function Table(pid: seq<int>, pri: seq<int>, b: seq<int>, arr: seq<int>): (es: seq<Process>)
    requires |pri| == |pid| && |b| == |pid| && |arr| == |pid|
    ensures |es| == |pid|
    ensures forall i :: 0 <= i < |pid| ==> es[i] == Process(pid[i], arr[i], b[i], pri[i])
  {
    seq(|pid|, i requires 0 <= i < |pid| => Process(pid[i], arr[i], b[i], pri[i]))
  }

  /** The four parallel arrays read as one table of entries. */
  function Entries(pid: array<int>, pri: array<int>, b: array<int>, arr: array<int>): (es: seq<Process>)
    requires pri.Length == pid.Length && b.Length == pid.Length && arr.Length == pid.Length
    reads pid, pri, b, arr
    ensures |es| == pid.Length
  {
    Table(pid[..], pri[..], b[..], arr[..])
  }

  /** Swapping positions i and p in each column swaps the entries. */
  lemma TableSwap(pid: seq<int>, pri: seq<int>, b: seq<int>, arr: seq<int>, i: nat, p: nat)
    requires |pri| == |pid| && |b| == |pid| && |arr| == |pid| && i < |pid| && p < |pid|
    ensures Table(pid[i := pid[p]][p := pid[i]], pri[i := pri[p]][p := pri[i]],
                  b[i := b[p]][p := b[i]], arr[i := arr[p]][p := arr[i]])
         == Swap(Table(pid, pri, b, arr), i, p)
  {
  }

  /** The inner scan of the selection sort: from position j on, move `pos`
      to every entry whose priority is strictly smaller. */
  function MinPosFrom(es: seq<Process>, pos: nat, j: nat): (m: nat)
    requires pos < |es| && j <= |es|
    ensures m < |es| && (m == pos || j <= m)
    decreases |es| - j
  {
    if j == |es| then pos
    else MinPosFrom(es, if es[j].priority < es[pos].priority then j else pos, j + 1)
  }

  /** Exchange entries i and p, all four fields together. */
  function Swap(es: seq<Process>, i: nat, p: nat): (r: seq<Process>)
    requires i < |es| && p < |es|
    ensures |r| == |es| && r[i] == es[p] && r[p] == es[i]
    ensures forall k :: 0 <= k < |es| && k != i && k != p ==> r[k] == es[k]
  {
    es[i := es[p]][p := es[i]]
  }

  /** The selection sort from position i on. */
  function SelectionSort(es: seq<Process>, i: nat): (r: seq<Process>)
    requires i <= |es|
    ensures |r| == |es|
    decreases |es| - i
  {
    if i == |es| then es
    else SelectionSort(Swap(es, i, MinPosFrom(es, i, i + 1)), i + 1)
  }

  predicate SortedByPriority(es: seq<Process>) {
    forall a, b :: 0 <= a < b < |es| ==> es[a].priority <= es[b].priority
  }

  /** The first i entries are in place: sorted, and none has a larger
      priority than an entry after them. */
  predicate PlacedUpTo(es: seq<Process>, i: nat)
    requires i <= |es|
  {
    && (forall a, b :: 0 <= a < b < i ==> es[a].priority <= es[b].priority)
    && (forall a, b :: 0 <= a < i <= b < |es| ==> es[a].priority <= es[b].priority)
  }

  /** The inner scan finds the first position, from lo on, that holds the
      least priority value. */
  lemma {:induction false} MinPosFinds(es: seq<Process>, lo: nat, pos: nat, j: nat)
    requires lo <= pos < j <= |es|
    requires forall k :: lo <= k < j ==> es[pos].priority <= es[k].priority
    requires forall k :: lo <= k < pos ==> es[pos].priority < es[k].priority
    ensures var m := MinPosFrom(es, pos, j);
      && lo <= m < |es|
      && (forall k :: lo <= k < |es| ==> es[m].priority <= es[k].priority)
      && (forall k :: lo <= k < m ==> es[m].priority < es[k].priority)
    decreases |es| - j
  {
    if j < |es| {
      var pos' := if es[j].priority < es[pos].priority then j else pos;
      MinPosFinds(es, lo, pos', j + 1);
    }
  }

  lemma SwapMultiset(es: seq<Process>, i: nat, p: nat)
    requires i < |es| && p < |es|
    ensures multiset(Swap(es, i, p)) == multiset(es)
  {
    var s1 := es[i := es[p]];
    assert multiset(s1) == multiset(es) - multiset{es[i]} + multiset{es[p]};
    assert multiset(s1[p := es[i]]) == multiset(s1) - multiset{s1[p]} + multiset{es[i]};
  }

  /** One outer pass moves the least remaining priority to position i, so
      one more entry is in place. */
  lemma SwapPlaces(es: seq<Process>, i: nat)
    requires i < |es| && PlacedUpTo(es, i)
    ensures PlacedUpTo(Swap(es, i, MinPosFrom(es, i, i + 1)), i + 1)
  {
    var m := MinPosFrom(es, i, i + 1);
    MinPosFinds(es, i, i, i + 1);
    var es' := Swap(es, i, m);
    forall b | i < b < |es'| ensures es'[i].priority <= es'[b].priority {
      if b != m {
        assert es'[b] == es[b];
      }
    }
    forall a, b | 0 <= a < i < b < |es'| ensures es'[a].priority <= es'[b].priority {
      assert es'[a] == es[a];
      if b != m {
        assert es'[b] == es[b];
      }
    }
    forall a, b | 0 <= a < b < i + 1 ensures es'[a].priority <= es'[b].priority {
      assert es'[a] == es[a];
      if b < i {
        assert es'[b] == es[b];
      }
    }
  }

  /** Sorting from a placed prefix on yields a sequence sorted by priority
      that is a permutation of the input, entries kept whole. */
  lemma {:induction false} SelectionSortSorts(es: seq<Process>, i: nat)
    requires i <= |es| && PlacedUpTo(es, i)
    ensures SortedByPriority(SelectionSort(es, i))
    ensures multiset(SelectionSort(es, i)) == multiset(es)
    decreases |es| - i
  {
    if i < |es| {
      var m := MinPosFrom(es, i, i + 1);
      SwapMultiset(es, i, m);
      SwapPlaces(es, i);
      SelectionSortSorts(Swap(es, i, m), i + 1);
    }
  }

  /** The sorted working copy: nondecreasing priority, and exactly the
      batch's processes, each with its own priority, burst and arrival and
      its 1-based position in the batch as display id. */
  lemma PrioritySorted(ps: seq<Process>)
    ensures var es := SelectionSort(Numbered(ps), 0);
      && SortedByPriority(es)
      && multiset(es) == multiset(Numbered(ps))
      && forall k :: 0 <= k < |es| ==> exists j :: 0 <= j < |ps| && es[k] == ps[j].(id := j + 1)
  {
    var es := SelectionSort(Numbered(ps), 0);
    SelectionSortSorts(Numbered(ps), 0);
    forall k | 0 <= k < |es| ensures exists j :: 0 <= j < |ps| && es[k] == ps[j].(id := j + 1) {
      assert es[k] in multiset(Numbered(ps));
      var j :| 0 <= j < |ps| && Numbered(ps)[j] == es[k];
    }
  }

  /** Selection sort does not keep equal priorities in batch order: of two
      processes with priority 1, the later one can end up first. */
  lemma SelectionSortNotStable()
    ensures var es := SelectionSort(Numbered([Process(10, 0, 1, 1), Process(11, 0, 1, 1), Process(12, 0, 1, 0)]), 0);
      [es[0].id, es[1].id, es[2].id] == [3, 2, 1]
  {
    var es0 := Numbered([Process(10, 0, 1, 1), Process(11, 0, 1, 1), Process(12, 0, 1, 0)]);
    assert es0 == [Process(1, 0, 1, 1), Process(2, 0, 1, 1), Process(3, 0, 1, 0)];
    assert MinPosFrom(es0, 0, 1) == 2;
    var es1 := Swap(es0, 0, 2);
    assert es1 == [Process(3, 0, 1, 0), Process(2, 0, 1, 1), Process(1, 0, 1, 1)];
    assert MinPosFrom(es1, 1, 2) == 1;
    assert Swap(es1, 1, 1) == es1;
    assert MinPosFrom(es1, 2, 3) == 2;
    assert Swap(es1, 2, 2) == es1;
    assert SelectionSort(es1, 3) == es1;
  }

  /** The wait that survives the inner loop: only its last write,
      wait[i] = wait[i-1] + burst[i-1] - arrival[i], with wait[0] = 0 and no
      clamping. */
  function PriorityWait(es: seq<Process>, i: nat): int
    requires i < |es|
  {
    if i == 0 then 0 else PriorityWait(es, i - 1) + es[i - 1].burst - es[i].arrival
  }

  function PriorityWaits(es: seq<Process>): (ws: seq<int>)
    ensures |ws| == |es|
  {
    seq(|es|, i requires 0 <= i < |es| => PriorityWait(es, i))
  }

  /** Closed form of the wait: the bursts of all entries before i minus the
      arrivals of entries 1..i. */
  lemma {:induction false} PriorityWaitClosedForm(es: seq<Process>, i: nat)
    requires i < |es|
    ensures PriorityWait(es, i) == Sum(Bursts(es)[..i]) - Sum(Arrivals(es)[1..i + 1])
  {
    if i > 0 {
      PriorityWaitClosedForm(es, i - 1);
      SumSnoc(Bursts(es), i - 1);
      assert Arrivals(es)[1..i + 1][..i - 1] == Arrivals(es)[1..i];
    }
  }

  /** With every arrival at zero the wait is the textbook non-preemptive
      one: the total burst of the entries scheduled before. */
  lemma {:induction false} PriorityWaitZeroArrivals(es: seq<Process>, i: nat)
    requires i < |es|
    requires forall k :: 0 <= k < |es| ==> es[k].arrival == 0
    ensures PriorityWait(es, i) == Sum(Bursts(es)[..i])
  {
    if i > 0 {
      PriorityWaitZeroArrivals(es, i - 1);
      SumSnoc(Bursts(es), i - 1);
    }
  }

  /** The report of a priority run; None for an empty batch, where the
      source indexes past the end of the wait array. The timeline shows the
      batch's ids in batch order next to the starts of the sorted entries;
      the table shows the sorted entries with their 1-based positions. */
  function PriorityReport(ps: seq<Process>): Option<Report> {
    if |ps| == 0 then None
    else
      var es := SelectionSort(Numbered(ps), 0);
      var ws := PriorityWaits(es);
      Some(Tabulated(Ids(ps), es, ws, FindTurnAroundTime(es, ws)))
  }

  /** Per row of a priority run: the wait follows the survivor formula
      (unclamped), turnaround = burst + wait, and the timeline entry carries
      the batch's id at that index, not the id of the process whose start it
      shows. */
  lemma PriorityMetrics(ps: seq<Process>, i: nat)
    requires 0 < |ps| && i < |ps|
    ensures var es := SelectionSort(Numbered(ps), 0);
      var r := PriorityReport(ps).value;
      && r.rows[0].wait == 0
      && (i > 0 ==> r.rows[i].wait == r.rows[i - 1].wait + es[i - 1].burst - es[i].arrival)
      && r.rows[i].turnaround == r.rows[i].burst + r.rows[i].wait
      && r.gantt[i].pid == ps[i].id
      && r.gantt[i].start == es[i].arrival + r.rows[i].wait
  {
    SelectionSortSorts(Numbered(ps), 0);
    var es := SelectionSort(Numbered(ps), 0);
    assert |es| == |ps| by {
      assert |multiset(es)| == |multiset(Numbered(ps))|;
    }
  }

  /** Processes 7 (priority 2, burst 4) and 8 (priority 1, burst 1), both
      arriving at 0: the table's first row is process 8 shown with id 2, and
      the timeline's first entry shows id 7 with process 8's start. */
  lemma PriorityTimelineExample()
    ensures var r := PriorityReport([Process(7, 0, 4, 2), Process(8, 0, 1, 1)]).value;
      && r.rows[0].id == 2 && r.rows[0].burst == 1 && r.rows[1].wait == 1
      && r.gantt[0] == TimeSlice(7, 0, 1) && r.gantt[1] == TimeSlice(8, 1, 5)
  {
    var ps := [Process(7, 0, 4, 2), Process(8, 0, 1, 1)];
    var es0 := Numbered(ps);
    assert es0 == [Process(1, 0, 4, 2), Process(2, 0, 1, 1)];
    assert MinPosFrom(es0, 0, 1) == 1;
    var es1 := Swap(es0, 0, 1);
    assert es1 == [Process(2, 0, 1, 1), Process(1, 0, 4, 2)];
    assert MinPosFrom(es1, 1, 2) == 1;
    assert Swap(es1, 1, 1) == es1;
    assert SelectionSort(es1, 2) == es1;
    assert SelectionSort(es0, 0) == es1;
    assert PriorityWait(es1, 0) == 0 && PriorityWait(es1, 1) == 1;
    assert PriorityWaits(es1) == [0, 1];
  }

  /** The selection sort on the four parallel arrays, swapping all four at
      the same positions. */
  method SortByPriority(pid: array<int>, pri: array<int>, b: array<int>, arr: array<int>)
    requires pri.Length == pid.Length && b.Length == pid.Length && arr.Length == pid.Length
    requires pid != pri && pid != b && pid != arr && pri != b && pri != arr && b != arr
    modifies pid, pri, b, arr
    ensures Entries(pid, pri, b, arr) == SelectionSort(old(Entries(pid, pri, b, arr)), 0)
  {
    var n := pid.Length;
    var i := 0;
    while i < n
      invariant 0 <= i <= n
      invariant SelectionSort(Entries(pid, pri, b, arr), i) == SelectionSort(old(Entries(pid, pri, b, arr)), 0)
    {
      var pos := FindMin(pid, pri, b, arr, i);
      SwapEntries(pid, pri, b, arr, i, pos);
      i := i + 1;
    }
  }

  /** The inner loop of one selection-sort pass: the first position from i
      on holding the least priority value. */
  method FindMin(pid: array<int>, pri: array<int>, b: array<int>, arr: array<int>, i: int) returns (pos: int)
    requires pri.Length == pid.Length && b.Length == pid.Length && arr.Length == pid.Length
    requires 0 <= i < pid.Length
    ensures pos == MinPosFrom(Entries(pid, pri, b, arr), i, i + 1)
  {
    ghost var es := Entries(pid, pri, b, arr);
    var n := pid.Length;
    pos := i;
    var j := i + 1;
    while j < n
      invariant i <= pos < j <= n
      invariant MinPosFrom(es, pos, j) == MinPosFrom(es, i, i + 1)
    {
      if pri[j] < pri[pos] {
        pos := j;
      }
      j := j + 1;
    }
  }

  /** The four exchanges of one selection-sort pass. */
  method SwapEntries(pid: array<int>, pri: array<int>, b: array<int>, arr: array<int>, i: int, pos: int)
    requires pri.Length == pid.Length && b.Length == pid.Length && arr.Length == pid.Length
    requires pid != pri && pid != b && pid != arr && pri != b && pri != arr && b != arr
    requires 0 <= i < pid.Length && 0 <= pos < pid.Length
    modifies pid, pri, b, arr
    ensures Entries(pid, pri, b, arr) == Swap(old(Entries(pid, pri, b, arr)), i, pos)
  {
    ghost var pid0, pri0, b0, arr0 := pid[..], pri[..], b[..], arr[..];
    var temp := pri[i];
    pri[i] := pri[pos];
    pri[pos] := temp;

    temp := b[i];
    b[i] := b[pos];
    b[pos] := temp;

    temp := pid[i];
    pid[i] := pid[pos];
    pid[pos] := temp;

    temp := arr[i];
    arr[i] := arr[pos];
    arr[pos] := temp;

    assert pid[..] == pid0[i := pid0[pos]][pos := pid0[i]];
    assert pri[..] == pri0[i := pri0[pos]][pos := pri0[i]];
    assert b[..] == b0[i := b0[pos]][pos := b0[i]];
    assert arr[..] == arr0[i := arr0[pos]][pos := arr0[i]];
    TableSwap(pid0, pri0, b0, arr0, i, pos);
  }

  /** Copy the batch into the four working arrays, the display id being
      overwritten with the 1-based position. */
  method CopyNumbered(ps: seq<Process>, pid: array<int>, pri: array<int>, b: array<int>, arr: array<int>)
    requires pid.Length == |ps| && pri.Length == |ps| && b.Length == |ps| && arr.Length == |ps|
    requires pid != pri && pid != b && pid != arr && pri != b && pri != arr && b != arr
    modifies pid, pri, b, arr
    ensures Entries(pid, pri, b, arr) == Numbered(ps)
  {
    var n := |ps|;
    var i := 0;
    while i < n
      invariant 0 <= i <= n
      invariant forall k :: 0 <= k < i ==> Process(pid[k], arr[k], b[k], pri[k]) == Numbered(ps)[k]
    {
      pid[i] := ps[i].id;
      pri[i] := ps[i].priority;
      b[i] := ps[i].burst;
      arr[i] := ps[i].arrival;

      pid[i] := i + 1;
      i := i + 1;
    }
  }

  /** The wait loops over the sorted bursts and arrivals: every inner
      iteration overwrites wait[i], so only the one with j = i - 1 counts. */
  method ComputeWaits(b: array<int>, arr: array<int>, w: array<int>, ghost es: seq<Process>)
    requires b.Length == |es| && arr.Length == |es| && w.Length == |es| && 0 < |es|
    requires w != b && w != arr
    requires forall k :: 0 <= k < |es| ==> b[k] == es[k].burst && arr[k] == es[k].arrival
    modifies w
    ensures w[..] == PriorityWaits(es)
  {
    var n := w.Length;
    w[0] := 0;
    var i := 1;
    while i < n
      invariant 1 <= i <= n
      invariant forall k :: 0 <= k < i ==> w[k] == PriorityWait(es, k)
    {
      w[i] := 0;
      var j := 0;
      while j < i
        invariant 0 <= j <= i
        invariant forall k :: 0 <= k < i ==> w[k] == PriorityWait(es, k)
        invariant j > 0 ==> w[i] == PriorityWait(es, j - 1) + es[j - 1].burst - es[i].arrival
      {
        w[i] := w[j] + b[j] - arr[i];
        j := j + 1;
      }
      i := i + 1;
    }
  }

  /** turnaround[i] = burst[i] + wait[i] over the sorted entries. */
  method ComputeTurnarounds(b: array<int>, w: array<int>, tat: array<int>, ghost es: seq<Process>)
    requires b.Length == |es| && w.Length == |es| && tat.Length == |es|
    requires tat != b && tat != w
    requires forall k :: 0 <= k < |es| ==> b[k] == es[k].burst
    modifies tat
    ensures tat[..] == FindTurnAroundTime(es, w[..])
  {
    var i := 0;
    while i < tat.Length
      invariant 0 <= i <= tat.Length
      invariant forall k :: 0 <= k < i ==> tat[k] == b[k] + w[k]
    {
      tat[i] := b[i] + w[i];
      i := i + 1;
    }
  }

  method SJFPrioritySchedule(ps: seq<Process>) returns (r: Option<Report>)
    ensures r == PriorityReport(ps)
  {
    var n := |ps|;
    var tempB := new int[n];
    var tempPID := new int[n];
    var tempPriority := new int[n];
    var tempArr := new int[n];
    var waiting_time := new int[n];
    var tat := new int[n];
    CopyNumbered(ps, tempPID, tempPriority, tempB, tempArr);
    SortByPriority(tempPID, tempPriority, tempB, tempArr);
    var es := Entries(tempPID, tempPriority, tempB, tempArr);
    assert es == SelectionSort(Numbered(ps), 0);
    if n == 0 {
      // waiting_time[0] is out of range: the source panics here.
      return None;
    }
    ComputeWaits(tempB, tempArr, waiting_time, es);
    ComputeTurnarounds(tempB, waiting_time, tat, es);
    var report := Tabulate(Ids(ps), es, waiting_time[..], tat[..]);
    r := Some(report);
  }
}
