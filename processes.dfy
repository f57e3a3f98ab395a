/**
  Process records and the decisions the schedulers take over a process list:
  resetting it before a run, the ready set at a clock value, and the choice
  of one ready process by a key.
 */
module Processes {
  import opened Lists

  /** A process; `remainingTime` and `completed` are what a run updates. */
  datatype Process = Process(
    pid: string,
    name: string,
    burstTime: int,
    remainingTime: int,
    arrivalTime: int,
    priority: int,
    queueLevel: int,
    completed: bool)

  /** One execution interval `[start, end)` of the named process. */
  datatype Slice = Slice(name: string, start: int, end: int)

  /** A line of the textual report: an executed slice, or the queue-2 header. */
  datatype ReportLine = Line(slice: Slice) | QueueTwoHeader

  /** The state a process is in before any run. */
  ghost predicate Fresh(p: Process) {
    p.remainingTime == p.burstTime && !p.completed
  }

  /** A new process: remaining time starts at the burst, not completed. */
  function NewProcess(pid: string, name: string, burstTime: int,
                      arrivalTime: int := 0, priority: int := 1, queueLevel: int := 1): (p: Process)
    ensures Fresh(p)
    ensures p.pid == pid && p.name == name && p.burstTime == burstTime
    ensures p.arrivalTime == arrivalTime && p.priority == priority && p.queueLevel == queueLevel
  {
    Process(pid, name, burstTime, burstTime, arrivalTime, priority, queueLevel, false)
  }

  /** What a run resets in a process: remaining time back to the burst, not completed. */
  function ResetProcess(p: Process): (r: Process)
    ensures Fresh(r)
    ensures r == p.(remainingTime := r.remainingTime, completed := r.completed)
  {
    p.(remainingTime := p.burstTime, completed := false)
  }

  function ResetAll(ps: seq<Process>): (r: seq<Process>)
    ensures |r| == |ps|
    ensures forall i :: 0 <= i < |ps| ==> r[i] == ResetProcess(ps[i])
  {
    seq(|ps|, i requires 0 <= i < |ps| => ResetProcess(ps[i]))
  }

  /** Resetting twice is resetting once: a run never sees a previous run's state. */
  lemma {:induction false} ResetAllIdempotent(ps: seq<Process>)
    ensures ResetAll(ResetAll(ps)) == ResetAll(ps)
    ensures forall i :: 0 <= i < |ps| ==> Fresh(ResetAll(ps)[i])
  {
  }

  /** `[p for p in ps if p.queue_level == level]`. */
  function OfLevel(ps: seq<Process>, level: int): (r: seq<Process>)
    ensures forall i :: 0 <= i < |r| ==> r[i].queueLevel == level
    ensures forall i :: 0 <= i < |ps| && ps[i].queueLevel == level ==> ps[i] in r
    ensures |r| <= |ps|
  {
    if |ps| == 0 then []
    else
      var r := (if ps[0].queueLevel == level then [ps[0]] else []) + OfLevel(ps[1..], level);
      assert forall i :: 1 <= i < |ps| ==> ps[i] == ps[1..][i - 1];
      r
  }

  /** The filter's test for queue level `level`. */
  function AtLevel(level: int): Process -> bool {
    (p: Process) => p.queueLevel == level
  }

  lemma {:induction false} OfLevelAppend(a: seq<Process>, b: seq<Process>, level: int)
    ensures OfLevel(a + b, level) == OfLevel(a, level) + OfLevel(b, level)
  {
    if |a| > 0 {
      assert (a + b)[1..] == a[1..] + b;
      OfLevelAppend(a[1..], b, level);
    } else {
      assert a + b == b;
    }
  }

  /** Entry `k` of `r` is the element of `s` at position `pos[k]`. */
  ghost predicate PicksAt(r: seq<Process>, s: seq<Process>, pos: seq<nat>) {
    |r| == |pos| && forall k :: 0 <= k < |pos| ==> pos[k] < |s| && r[k] == s[pos[k]]
  }

  lemma {:induction false} PicksAtSnoc(r: seq<Process>, s: seq<Process>, pos: seq<nat>, x: Process, keep: bool)
    requires PicksAt(r, s, pos)
    ensures PicksAt(r + (if keep then [x] else []), s + [x], pos + (if keep then [|s|] else []))
  {
    var r' := r + (if keep then [x] else []);
    var s' := s + [x];
    var pos' := pos + (if keep then [|s|] else []);
    forall k | 0 <= k < |pos'|
      ensures pos'[k] < |s'| && r'[k] == s'[pos'[k]]
    {
      if k < |pos| {
        assert r'[k] == r[k] && pos'[k] == pos[k] && s'[pos[k]] == s[pos[k]];
      }
    }
  }

  lemma {:induction false} OfLevelSnoc(ps: seq<Process>, level: int)
    requires |ps| > 0
    ensures var n := |ps|;
      OfLevel(ps, level) == OfLevel(ps[..n - 1], level) + (if AtLevel(level)(ps[n - 1]) then [ps[n - 1]] else [])
  {
    var n := |ps|;
    assert ps[..n - 1] + [ps[n - 1]] == ps;
    OfLevelAppend(ps[..n - 1], [ps[n - 1]], level);
    OfLevelOne(ps[n - 1], level);
  }

  /**
    The level filter keeps exactly the processes of that level, in list
    order: entry `k` is the process at the `k`-th position that passes.
   */
  lemma {:induction false} OfLevelExact(ps: seq<Process>, level: int)
    ensures PicksAt(OfLevel(ps, level), ps, Positions(ps, AtLevel(level)))
  {
    if |ps| > 0 {
      var n := |ps|;
      var init := ps[..n - 1];
      OfLevelExact(init, level);
      OfLevelSnoc(ps, level);
      PositionsSnoc(ps, AtLevel(level));
      PicksAtSnoc(OfLevel(init, level), init, Positions(init, AtLevel(level)), ps[n - 1], AtLevel(level)(ps[n - 1]));
      assert init + [ps[n - 1]] == ps;
    }
  }

  lemma {:induction false} OfLevelOne(p: Process, level: int)
    ensures OfLevel([p], level) == if AtLevel(level)(p) then [p] else []
  {
    assert [p][1..] == [];
  }

  lemma {:induction false} ResetAllAppend(a: seq<Process>, b: seq<Process>)
    ensures ResetAll(a + b) == ResetAll(a) + ResetAll(b)
  {
  }

  /** Filtering by level and resetting commute (the level is not a reset field). */
  lemma {:induction false} OfLevelResetAll(ps: seq<Process>, level: int)
    ensures OfLevel(ResetAll(ps), level) == ResetAll(OfLevel(ps, level))
  {
    if |ps| > 0 {
      var head := if ps[0].queueLevel == level then [ps[0]] else [];
      OfLevelResetAll(ps[1..], level);
      assert ResetAll(ps)[1..] == ResetAll(ps[1..]);
      calc {
        ResetAll(OfLevel(ps, level));
        ResetAll(head + OfLevel(ps[1..], level));
        { ResetAllAppend(head, OfLevel(ps[1..], level)); }
        ResetAll(head) + ResetAll(OfLevel(ps[1..], level));
      }
    }
  }

  /** Arrival time: the key of the FCFS sort. */
  function ArrivalOf(p: Process): int {
    p.arrivalTime
  }

  /** The field a non-preemptive or preemptive choice minimises. */
  datatype Key = ByBurst | ByPriority | ByRemaining

  function KeyOf(p: Process, key: Key): int {
    match key
    case ByBurst => p.burstTime
    case ByPriority => p.priority
    case ByRemaining => p.remainingTime
  }

  /** In the ready set at clock `t`: arrived and not completed. */
  predicate IsReady(p: Process, t: int) {
    !p.completed && p.arrivalTime <= t
  }

  /**
    Process `a` is chosen over process `b`: a smaller key, or the same key
    and no later in the list.
   */
  ghost predicate Precedes(ps: seq<Process>, key: Key, a: nat, b: nat)
    requires a < |ps| && b < |ps|
  {
    KeyOf(ps[a], key) < KeyOf(ps[b], key) || (KeyOf(ps[a], key) == KeyOf(ps[b], key) && a <= b)
  }

  /**
    Process `m` is the one to run at `t`: it is ready, and it precedes every
    ready process (smallest key, and the earliest in the list among equal keys).
   */
  ghost predicate Chosen(ps: seq<Process>, t: int, key: Key, m: nat) {
    m < |ps| && IsReady(ps[m], t) &&
    forall j {:trigger IsReady(ps[j], t)} :: 0 <= j < |ps| && IsReady(ps[j], t) ==> Precedes(ps, key, m, j)
  }

  /** Nothing is ready at `t`. */
  ghost predicate NoneReady(ps: seq<Process>, t: int) {
    forall j {:trigger IsReady(ps[j], t)} :: 0 <= j < |ps| ==> !IsReady(ps[j], t)
  }

  /**
    `min(ready, key=...)` over the ready set among the first `n` processes,
    as a position in `ps`: the scan goes through the list in order and
    replaces its candidate only by a ready process with a strictly smaller
    key, so the first of the smallest wins.
   */
  function SelectIn(ps: seq<Process>, t: int, key: Key, n: nat): (r: Option<nat>)
    requires n <= |ps|
    ensures r.Some? ==> r.value < n
  {
    if n == 0 then None
    else
      var r := SelectIn(ps, t, key, n - 1);
      if !IsReady(ps[n - 1], t) then r
      else if r.None? || KeyOf(ps[n - 1], key) < KeyOf(ps[r.value], key) then Some(n - 1)
      else r
  }

  /** The scan finds nothing exactly when no process among the first `n` is ready, and otherwise the first ready one with the smallest key. */
  lemma {:induction false} SelectInSpec(ps: seq<Process>, t: int, key: Key, n: nat)
    requires n <= |ps|
    ensures var r := SelectIn(ps, t, key, n);
      (r.None? <==> forall j {:trigger IsReady(ps[j], t)} :: 0 <= j < n ==> !IsReady(ps[j], t)) &&
      (r.Some? ==> r.value < n && IsReady(ps[r.value], t)) &&
      (r.Some? ==> forall j {:trigger IsReady(ps[j], t)} :: 0 <= j < n && IsReady(ps[j], t) ==> Precedes(ps, key, r.value, j))
  {
    if n > 0 {
      SelectInSpec(ps, t, key, n - 1);
    }
  }

  /**
    The process a ready-set policy runs at `t`: `min` over the ready set
    `[p for p in ps if not p.completed and p.arrival_time <= t]`, or `None`
    when nothing is ready.
   */
  function Select(ps: seq<Process>, t: int, key: Key): (r: Option<nat>)
    ensures r.Some? ==> r.value < |ps| && IsReady(ps[r.value], t)
  {
    SelectInSpec(ps, t, key, |ps|);
    SelectIn(ps, t, key, |ps|)
  }

  /** `Select` finds nothing exactly when nothing is ready, and otherwise the process `Chosen` designates. */
  lemma {:induction false} SelectSpec(ps: seq<Process>, t: int, key: Key)
    ensures Select(ps, t, key).None? <==> NoneReady(ps, t)
    ensures Select(ps, t, key).Some? ==> Chosen(ps, t, key, Select(ps, t, key).value)
  {
    SelectInSpec(ps, t, key, |ps|);
  }

  /** At most one process is the one to run. */
  lemma {:induction false} ChosenUnique(ps: seq<Process>, t: int, key: Key, m: nat, m': nat)
    requires Chosen(ps, t, key, m) && Chosen(ps, t, key, m')
    ensures m == m'
  {
    assert Precedes(ps, key, m, m') && Precedes(ps, key, m', m);
  }

  /** `Select` returns exactly the process the specification designates. */
  lemma {:induction false} SelectExact(ps: seq<Process>, t: int, key: Key, m: nat)
    ensures Select(ps, t, key) == Some(m) <==> Chosen(ps, t, key, m)
  {
    SelectSpec(ps, t, key);
    if Chosen(ps, t, key, m) {
      var r := Select(ps, t, key);
      assert !NoneReady(ps, t) by { assert IsReady(ps[m], t); }
      ChosenUnique(ps, t, key, m, r.value);
    }
  }

  /** The ready-set filter's test at clock `t`. */
  function ReadyAt(t: int): Process -> bool {
    (p: Process) => IsReady(p, t)
  }

  /** The key of the process at a position, for `min` over positions. */
  function KeyAt(ps: seq<Process>, key: Key): nat -> int {
    (i: nat) => if i < |ps| then KeyOf(ps[i], key) else 0
  }

  /**
    `Select` is `min(ready, key=…)` taken literally: the ready set is empty
    exactly when nothing is selected, and otherwise the selected process is
    the first smallest-key element of the ready list.
   */
  lemma {:induction false} SelectIsLeftmostMin(ps: seq<Process>, t: int, key: Key)
    ensures var ready := Positions(ps, ReadyAt(t));
      (|ready| == 0 <==> Select(ps, t, key).None?) &&
      (|ready| > 0 ==> Select(ps, t, key) == Some(ready[LeftmostMin(ready, KeyAt(ps, key))]))
  {
    var ready := Positions(ps, ReadyAt(t));
    SelectSpec(ps, t, key);
    if |ready| == 0 {
      forall j | 0 <= j < |ps|
        ensures !ReadyAt(t)(ps[j])
      {
      }
    } else {
      assert ReadyAt(t)(ps[ready[0]]);
      var i := LeftmostMin(ready, KeyAt(ps, key));
      var m := ready[i];
      forall j | 0 <= j < |ps| && IsReady(ps[j], t)
        ensures Precedes(ps, key, m, j)
      {
        assert ReadyAt(t)(ps[j]);
        assert j in ready;
        var l :| 0 <= l < |ready| && ready[l] == j;
        assert KeyAt(ps, key)(ready[i]) <= KeyAt(ps, key)(ready[l]);
        if l < i {
          assert KeyAt(ps, key)(ready[i]) < KeyAt(ps, key)(ready[l]);
        }
      }
      assert ReadyAt(t)(ps[m]);
      SelectExact(ps, t, key, m);
    }
  }

  /** Number of completed processes in the list. */
  function CountDone(ps: seq<Process>): (c: nat)
    ensures c <= |ps|
  {
    if |ps| == 0 then 0
    else CountDone(ps[..|ps| - 1]) + (if ps[|ps| - 1].completed then 1 else 0)
  }

  /** Fewer completed than processes: some process is not completed. */
  lemma {:induction false} CountDoneBelow(ps: seq<Process>)
    requires CountDone(ps) < |ps|
    ensures exists j :: 0 <= j < |ps| && !ps[j].completed
  {
    if ps[|ps| - 1].completed {
      CountDoneBelow(ps[..|ps| - 1]);
      var j :| 0 <= j < |ps| - 1 && !ps[..|ps| - 1][j].completed;
      assert !ps[j].completed;
    }
  }

  /** As many completed as processes: every process is completed. */
  lemma {:induction false} CountDoneAll(ps: seq<Process>)
    requires CountDone(ps) == |ps|
    ensures forall j :: 0 <= j < |ps| ==> ps[j].completed
  {
    if |ps| > 0 {
      CountDoneAll(ps[..|ps| - 1]);
      forall j | 0 <= j < |ps| - 1 ensures ps[j].completed {
        assert ps[..|ps| - 1][j].completed;
      }
    }
  }

  /** Replacing one process changes the count only by that process's flag. */
  lemma {:induction false} CountDoneUpdate(ps: seq<Process>, m: nat, q: Process)
    requires m < |ps|
    ensures CountDone(ps[m := q]) ==
      CountDone(ps) - (if ps[m].completed then 1 else 0) + (if q.completed then 1 else 0)
  {
    var n := |ps|;
    if m < n - 1 {
      CountDoneUpdate(ps[..n - 1], m, q);
      assert ps[m := q][..n - 1] == ps[..n - 1][m := q];
    } else {
      assert ps[m := q][..n - 1] == ps[..n - 1];
    }
  }

  /** Remaining work: the positive parts of all remaining times. */
  function Outstanding(ps: seq<Process>): (w: nat)
  {
    if |ps| == 0 then 0
    else
      var r := ps[|ps| - 1].remainingTime;
      Outstanding(ps[..|ps| - 1]) + (if r > 0 then r else 0)
  }

  /** The outstanding work of a prefix grows by what its last process has left. */
  lemma {:induction false} OutstandingPrefix(ps: seq<Process>, i: nat)
    requires 0 < i <= |ps|
    ensures Outstanding(ps[..i]) == Outstanding(ps[..i - 1]) + (if ps[i - 1].remainingTime > 0 then ps[i - 1].remainingTime else 0)
  {
    assert ps[..i][..i - 1] == ps[..i - 1];
  }

  lemma {:induction false} OutstandingUpdate(ps: seq<Process>, m: nat, q: Process)
    requires m < |ps|
    ensures Outstanding(ps[m := q]) == Outstanding(ps)
      - (if ps[m].remainingTime > 0 then ps[m].remainingTime else 0)
      + (if q.remainingTime > 0 then q.remainingTime else 0)
  {
    var n := |ps|;
    if m < n - 1 {
      OutstandingUpdate(ps[..n - 1], m, q);
      assert ps[m := q][..n - 1] == ps[..n - 1][m := q];
    } else {
      assert ps[m := q][..n - 1] == ps[..n - 1];
    }
  }

  /** A bound on all arrival times: the clock never idles past it. */
  function LatestArrival(ps: seq<Process>): (a: int)
    ensures forall j :: 0 <= j < |ps| ==> ps[j].arrivalTime <= a
  {
    if |ps| == 0 then 0
    else
      var a0 := LatestArrival(ps[..|ps| - 1]);
      var last := ps[|ps| - 1].arrivalTime;
      assert forall j :: 0 <= j < |ps| - 1 ==> ps[j] == ps[..|ps| - 1][j];
      if last > a0 then last else a0
  }
}
