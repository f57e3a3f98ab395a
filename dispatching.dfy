/**
  The ready-set policies (SJF, Priority and SRTF) as one reference
  definition: the sequence of dispatches their loop makes from a process
  list and a clock value, and what is proved about it: every dispatch runs
  the process the selection rule designates, the clock idles only while
  nothing is ready, dispatches come in clock order, and every process gets
  exactly the work it needs.
 */
module Dispatching {
  import opened Lists
  import opened Processes

  /** One dispatch: the process at position `proc` runs for `slice`. */
  datatype Turn = Turn(proc: nat, slice: Slice)

  /** The timeline of a sequence of dispatches. */
  function SlicesOf(turns: seq<Turn>): (tl: seq<Slice>)
    ensures |tl| == |turns|
    ensures forall k :: 0 <= k < |turns| ==> tl[k] == turns[k].slice
  {
    seq(|turns|, k requires 0 <= k < |turns| => turns[k].slice)
  }

  lemma {:induction false} SlicesOfSnoc(turns: seq<Turn>, t: Turn)
    ensures SlicesOf(turns + [t]) == SlicesOf(turns) + [t.slice]
  {
  }

  /** The positions dispatched, in order. */
  function Procs(turns: seq<Turn>): (ms: seq<nat>)
    ensures |ms| == |turns|
    ensures forall k :: 0 <= k < |turns| ==> ms[k] == turns[k].proc
  {
    seq(|turns|, k requires 0 <= k < |turns| => turns[k].proc)
  }

  ghost predicate TurnsWithin(turns: seq<Turn>, n: nat) {
    forall k :: 0 <= k < |turns| ==> turns[k].proc < n
  }

  /**
    What a dispatch does to the chosen process `m`: a non-preemptive policy
    runs it to completion; the preemptive one takes one unit off its
    remaining time and marks it completed when that reaches 0.
   */
  function Dispatch(ps: seq<Process>, m: nat, preemptive: bool): (r: seq<Process>)
    requires m < |ps|
    ensures |r| == |ps|
  {
    if preemptive then
      var rem := ps[m].remainingTime - 1;
      ps[m := ps[m].(remainingTime := rem, completed := ps[m].completed || rem == 0)]
    else
      ps[m := ps[m].(completed := true)]
  }

  /**
    A dispatch changes the chosen process only, and of it only the remaining
    time and the completed flag: a run to completion marks it completed, a
    tick takes one unit off and marks it completed when none is left.
   */
  lemma {:induction false} DispatchOnly(ps: seq<Process>, m: nat, preemptive: bool)
    requires m < |ps|
    ensures var r := Dispatch(ps, m, preemptive);
      (forall j :: 0 <= j < |ps| && j != m ==> r[j] == ps[j]) &&
      r[m] == ps[m].(remainingTime := r[m].remainingTime, completed := r[m].completed) &&
      (!preemptive ==> r[m] == ps[m].(completed := true)) &&
      (preemptive ==> r[m].remainingTime == ps[m].remainingTime - 1 &&
                      (r[m].completed <==> ps[m].completed || r[m].remainingTime == 0))
  {
  }

  /** The length of the slice a dispatch emits. */
  function SliceLength(p: Process, preemptive: bool): int {
    if preemptive then 1 else p.burstTime
  }

  /**
    The state SRTF keeps: no remaining time is negative, and a process is
    completed exactly when nothing of it remains.
   */
  ghost predicate Ticking(ps: seq<Process>) {
    forall j :: 0 <= j < |ps| ==> ps[j].remainingTime >= 0 && (ps[j].completed <==> ps[j].remainingTime == 0)
  }

  /**
    A preemptive tick of a process that is not completed keeps `Ticking`
    (it is marked completed exactly when its remaining time reaches 0) and
    takes exactly one unit off the outstanding work.
   */
  lemma {:induction false} TickKeeps(ps: seq<Process>, m: nat)
    requires Ticking(ps) && m < |ps| && !ps[m].completed
    ensures Ticking(Dispatch(ps, m, true))
    ensures Outstanding(Dispatch(ps, m, true)) == Outstanding(ps) - 1
    ensures Dispatch(ps, m, true)[m].completed <==> ps[m].remainingTime == 1
  {
    OutstandingUpdate(ps, m, Dispatch(ps, m, true)[m]);
  }

  /** The clock only idles while some process has not arrived yet. */
  lemma {:induction false} IdleBeforeLastArrival(ps: seq<Process>, time: int)
    requires CountDone(ps) < |ps| && NoneReady(ps, time)
    ensures time < LatestArrival(ps)
  {
    CountDoneBelow(ps);
    var j :| 0 <= j < |ps| && !ps[j].completed;
    assert !IsReady(ps[j], time);
  }

  /** What is left to do: processes to complete, or units of work to tick. */
  function Work(ps: seq<Process>, preemptive: bool): nat {
    if preemptive then Outstanding(ps) else |ps| - CountDone(ps)
  }

  /** Dispatching a process that is not completed keeps `Ticking` and leaves one unit less to do. */
  lemma {:induction false} DispatchProgress(ps: seq<Process>, m: nat, preemptive: bool)
    requires m < |ps| && !ps[m].completed && (preemptive ==> Ticking(ps))
    ensures preemptive ==> Ticking(Dispatch(ps, m, preemptive))
    ensures Work(Dispatch(ps, m, preemptive), preemptive) == Work(ps, preemptive) - 1
  {
    if preemptive {
      TickKeeps(ps, m);
    } else {
      CountDoneUpdate(ps, m, Dispatch(ps, m, preemptive)[m]);
    }
  }

  /**
    The dispatches of the loop shared by SJF, Priority (non-preemptive) and
    SRTF (preemptive, key `ByRemaining`), from list `ps` at clock `time`:
    while some process is not completed, run the one `Select` picks, or
    let the clock idle one unit when nothing is ready.
   */
  function Dispatches(ps: seq<Process>, time: int, key: Key, preemptive: bool): (r: seq<Turn>)
    requires preemptive ==> Ticking(ps)
    ensures TurnsWithin(r, |ps|)
    decreases Work(ps, preemptive), LatestArrival(ps) - time
  {
    if CountDone(ps) == |ps| then []
    else
      match Select(ps, time, key)
      case Some(m) =>
        var p := ps[m];
        var next := Dispatch(ps, m, preemptive);
        DispatchProgress(ps, m, preemptive);
        [Turn(m, Slice(p.name, time, time + SliceLength(p, preemptive)))]
          + Dispatches(next, time + SliceLength(p, preemptive), key, preemptive)
      case None =>
        SelectSpec(ps, time, key);
        IdleBeforeLastArrival(ps, time);
        Dispatches(ps, time + 1, key, preemptive)
  }

  /** The list as it stands after the given dispatches. */
  function DispatchAll(ps: seq<Process>, turns: seq<Turn>, preemptive: bool): (r: seq<Process>)
    requires TurnsWithin(turns, |ps|)
    ensures |r| == |ps|
    decreases |turns|
  {
    if |turns| == 0 then ps
    else DispatchAll(Dispatch(ps, turns[0].proc, preemptive), turns[1..], preemptive)
  }

  lemma {:induction false} DispatchAllSnoc(ps: seq<Process>, turns: seq<Turn>, t: Turn, preemptive: bool)
    requires TurnsWithin(turns, |ps|) && t.proc < |ps|
    ensures TurnsWithin(turns + [t], |ps|)
    ensures DispatchAll(ps, turns + [t], preemptive) == Dispatch(DispatchAll(ps, turns, preemptive), t.proc, preemptive)
    decreases |turns|
  {
    if |turns| > 0 {
      var ps' := Dispatch(ps, turns[0].proc, preemptive);
      DispatchAllSnoc(ps', turns[1..], t, preemptive);
      assert (turns + [t])[1..] == turns[1..] + [t];
    }
  }

  /**
    One dispatch of the loop, as the reference definition takes it: when
    `Select` picks `m`, the dispatches still to come are this turn followed
    by those from the updated list, and the turn is recorded in the prefix.
   */
  lemma {:induction false} DispatchStep(ps0: seq<Process>, turns: seq<Turn>, ps: seq<Process>, time: int, key: Key, preemptive: bool, m: nat)
    requires preemptive ==> Ticking(ps)
    requires preemptive ==> Ticking(ps0)
    requires TurnsWithin(turns, |ps0|) && ps == DispatchAll(ps0, turns, preemptive)
    requires turns + Dispatches(ps, time, key, preemptive) == Dispatches(ps0, 0, key, preemptive)
    requires CountDone(ps) < |ps| && Select(ps, time, key) == Some(m)
    ensures var t := Turn(m, Slice(ps[m].name, time, time + SliceLength(ps[m], preemptive)));
      var next := Dispatch(ps, m, preemptive);
      (preemptive ==> Ticking(next)) &&
      Work(next, preemptive) == Work(ps, preemptive) - 1 &&
      TurnsWithin(turns + [t], |ps0|) && next == DispatchAll(ps0, turns + [t], preemptive) &&
      (turns + [t]) + Dispatches(next, time + SliceLength(ps[m], preemptive), key, preemptive) == Dispatches(ps0, 0, key, preemptive) &&
      SlicesOf(turns + [t]) == SlicesOf(turns) + [t.slice] &&
      CountDone(next) == CountDone(ps) + (if next[m].completed then 1 else 0)
  {
    var t := Turn(m, Slice(ps[m].name, time, time + SliceLength(ps[m], preemptive)));
    var next := Dispatch(ps, m, preemptive);
    DispatchProgress(ps, m, preemptive);
    CountDoneUpdate(ps, m, next[m]);
    var rest := Dispatches(next, time + SliceLength(ps[m], preemptive), key, preemptive);
    assert Dispatches(ps, time, key, preemptive) == [t] + rest;
    assert turns + ([t] + rest) == (turns + [t]) + rest;
    SlicesOfSnoc(turns, t);
    DispatchAllSnoc(ps0, turns, t, preemptive);
  }

  /** When `Select` picks `m`, the dispatches begin with `m`'s slice and continue from the updated list. */
  lemma {:induction false} DispatchesCons(ps: seq<Process>, time: int, key: Key, preemptive: bool, m: nat)
    requires preemptive ==> Ticking(ps)
    requires CountDone(ps) < |ps| && Select(ps, time, key) == Some(m)
    ensures m < |ps| && !ps[m].completed
    ensures var next := Dispatch(ps, m, preemptive);
      (preemptive ==> Ticking(next)) && Work(next, preemptive) == Work(ps, preemptive) - 1 &&
      Dispatches(ps, time, key, preemptive) ==
        [Turn(m, Slice(ps[m].name, time, time + SliceLength(ps[m], preemptive)))]
          + Dispatches(next, time + SliceLength(ps[m], preemptive), key, preemptive)
  {
    DispatchProgress(ps, m, preemptive);
  }

  /** When `Select` picks `m`, one dispatch more is to come than from the list after it. */
  lemma {:induction false} DispatchesLength(ps: seq<Process>, time: int, key: Key, preemptive: bool, m: nat)
    requires preemptive ==> Ticking(ps)
    requires CountDone(ps) < |ps| && Select(ps, time, key) == Some(m)
    ensures m < |ps|
    ensures var next := Dispatch(ps, m, preemptive);
      (preemptive ==> Ticking(next)) && Work(next, preemptive) == Work(ps, preemptive) - 1 &&
      |Dispatches(ps, time, key, preemptive)| == 1 + |Dispatches(next, time + SliceLength(ps[m], preemptive), key, preemptive)|
  {
    DispatchesCons(ps, time, key, preemptive, m);
  }

  /** How many of the dispatches run position `j`. */
  function Occurrences(turns: seq<Turn>, j: nat): nat {
    if |turns| == 0 then 0
    else (if turns[0].proc == j then 1 else 0) + Occurrences(turns[1..], j)
  }

  lemma {:induction false} OccurrencesCount(turns: seq<Turn>, j: nat)
    ensures multiset(Procs(turns))[j] == Occurrences(turns, j)
  {
    if |turns| > 0 {
      OccurrencesCount(turns[1..], j);
      assert Procs(turns) == [turns[0].proc] + Procs(turns[1..]);
    }
  }

  /** An idle unit of the loop: when nothing is ready the clock advances and the dispatches to come are unchanged. */
  lemma {:induction false} IdleStep(ps: seq<Process>, time: int, key: Key, preemptive: bool)
    requires preemptive ==> Ticking(ps)
    requires CountDone(ps) < |ps| && Select(ps, time, key).None?
    ensures time < LatestArrival(ps)
    ensures Dispatches(ps, time + 1, key, preemptive) == Dispatches(ps, time, key, preemptive)
  {
    SelectSpec(ps, time, key);
    IdleBeforeLastArrival(ps, time);
  }

  /** The clock at which dispatch `k` could start: the end of the previous one, or `time` for the first. */
  function Since(turns: seq<Turn>, k: nat, time: int): int
    requires k <= |turns|
  {
    if k == 0 then time else turns[k - 1].slice.end
  }

  lemma {:induction false} DispatchKeeps(ps: seq<Process>, m: nat, preemptive: bool, j: nat)
    requires m < |ps| && j < |ps|
    ensures Dispatch(ps, m, preemptive)[j].name == ps[j].name
    ensures Dispatch(ps, m, preemptive)[j].burstTime == ps[j].burstTime
    ensures Dispatch(ps, m, preemptive)[j].arrivalTime == ps[j].arrivalTime
  {
  }

  /**
    Dispatch `k` (if there is one) runs its process for one unit
    (preemptive) or its whole burst, starting no earlier than its arrival,
    and no earlier than the previous dispatch ended (than `time` for the
    first).
   */
  ghost predicate SliceAt(ps: seq<Process>, time: int, key: Key, preemptive: bool, k: nat)
    requires preemptive ==> Ticking(ps)
  {
    var r := Dispatches(ps, time, key, preemptive);
    k < |r| ==>
      r[k].proc < |ps| &&
      r[k].slice == Slice(ps[r[k].proc].name, r[k].slice.start,
                          r[k].slice.start + SliceLength(ps[r[k].proc], preemptive)) &&
      r[k].slice.start >= ps[r[k].proc].arrivalTime &&
      r[k].slice.start >= Since(r, k, time)
  }

  /** Dispatch `k - 1` after a first dispatch is dispatch `k` from `time`, and runs a process that first dispatch left unchanged in name, burst and arrival. */
  lemma {:induction false} SliceAfterDispatch(ps: seq<Process>, time: int, key: Key, preemptive: bool, m: nat, k: nat)
    requires preemptive ==> Ticking(ps)
    requires 0 < k && CountDone(ps) < |ps| && Select(ps, time, key) == Some(m)
    requires preemptive ==> Ticking(Dispatch(ps, m, preemptive))
    requires SliceAt(Dispatch(ps, m, preemptive), time + SliceLength(ps[m], preemptive), key, preemptive, k - 1)
    ensures SliceAt(ps, time, key, preemptive, k)
  {
    var r := Dispatches(ps, time, key, preemptive);
    if k < |r| {
      ShiftAfterDispatch(ps, time, key, preemptive, m, k);
      DispatchKeeps(ps, m, preemptive, r[k].proc);
    }
  }

  /** Dispatch `k` from `time + 1` is dispatch `k` from `time` when nothing is ready at `time`. */
  lemma {:induction false} SliceAfterIdle(ps: seq<Process>, time: int, key: Key, preemptive: bool, k: nat)
    requires preemptive ==> Ticking(ps)
    requires CountDone(ps) < |ps| && Select(ps, time, key).None?
    requires SliceAt(ps, time + 1, key, preemptive, k)
    ensures SliceAt(ps, time, key, preemptive, k)
  {
    IdleStep(ps, time, key, preemptive);
  }

  /** The first dispatch runs the selected process from `time` on. */
  lemma {:induction false} SliceFirst(ps: seq<Process>, time: int, key: Key, preemptive: bool, m: nat)
    requires preemptive ==> Ticking(ps)
    requires CountDone(ps) < |ps| && Select(ps, time, key) == Some(m)
    ensures SliceAt(ps, time, key, preemptive, 0)
  {
    FirstDispatch(ps, time, key, preemptive, m);
  }

  lemma {:induction false} SliceAtHolds(ps: seq<Process>, time: int, key: Key, preemptive: bool, k: nat)
    requires preemptive ==> Ticking(ps)
    ensures SliceAt(ps, time, key, preemptive, k)
    decreases Work(ps, preemptive), LatestArrival(ps) - time
  {
    if CountDone(ps) < |ps| {
      match Select(ps, time, key)
      case Some(m) =>
        if k == 0 {
          SliceFirst(ps, time, key, preemptive, m);
        } else {
          DispatchesLength(ps, time, key, preemptive, m);
          SliceAtHolds(Dispatch(ps, m, preemptive), time + SliceLength(ps[m], preemptive), key, preemptive, k - 1);
          SliceAfterDispatch(ps, time, key, preemptive, m, k);
        }
      case None =>
        IdleStep(ps, time, key, preemptive);
        SliceAtHolds(ps, time + 1, key, preemptive, k);
        SliceAfterIdle(ps, time, key, preemptive, k);
    } else {
      assert Dispatches(ps, time, key, preemptive) == [];
    }
  }

  /**
    Dispatch `k` runs its process for one unit (preemptive) or its whole
    burst, starting no earlier than its arrival, and no earlier than the
    previous dispatch ended (than `time` for the first).
   */
  lemma {:induction false} DispatchSliceAt(ps: seq<Process>, time: int, key: Key, preemptive: bool, k: nat)
    requires preemptive ==> Ticking(ps)
    requires k < |Dispatches(ps, time, key, preemptive)|
    ensures var r := Dispatches(ps, time, key, preemptive);
      r[k].proc < |ps| &&
      r[k].slice == Slice(ps[r[k].proc].name, r[k].slice.start,
                          r[k].slice.start + SliceLength(ps[r[k].proc], preemptive)) &&
      r[k].slice.start >= ps[r[k].proc].arrivalTime &&
      r[k].slice.start >= Since(r, k, time)
  {
    SliceAtHolds(ps, time, key, preemptive, k);
  }

  lemma {:induction false} DispatchAllCons(ps: seq<Process>, t: Turn, rest: seq<Turn>, preemptive: bool)
    requires t.proc < |ps| && TurnsWithin(rest, |ps|)
    ensures TurnsWithin([t] + rest, |ps|)
    ensures DispatchAll(ps, [t] + rest, preemptive) == DispatchAll(Dispatch(ps, t.proc, preemptive), rest, preemptive)
  {
    assert ([t] + rest)[1..] == rest;
  }

  /**
    The selection rule: dispatch `k` runs the process `Chosen` designates in
    the list as it stands after the dispatches before it: ready, smallest
    key, earliest in the list on ties.
   */
  lemma {:induction false} DispatchChoiceAt(ps: seq<Process>, time: int, key: Key, preemptive: bool, k: nat)
    requires preemptive ==> Ticking(ps)
    requires k < |Dispatches(ps, time, key, preemptive)|
    ensures var r := Dispatches(ps, time, key, preemptive);
      Chosen(DispatchAll(ps, r[..k], preemptive), r[k].slice.start, key, r[k].proc)
    decreases Work(ps, preemptive), LatestArrival(ps) - time
  {
    DispatchesPending(ps, time, key, preemptive);
    var r := Dispatches(ps, time, key, preemptive);
    match Select(ps, time, key)
    case Some(m) =>
      var next := Dispatch(ps, m, preemptive);
      DispatchProgress(ps, m, preemptive);
      var time' := time + SliceLength(ps[m], preemptive);
      var tail := Dispatches(next, time', key, preemptive);
      if k == 0 {
        FirstDispatch(ps, time, key, preemptive, m);
        assert r[..0] == [];
      } else {
        DispatchChoiceAt(next, time', key, preemptive, k - 1);
        ShiftAfterDispatch(ps, time, key, preemptive, m, k);
      }
    case None =>
      IdleStep(ps, time, key, preemptive);
      DispatchChoiceAt(ps, time + 1, key, preemptive, k);
  }

  /** Some dispatch is still to come only while some process is not completed. */
  lemma {:induction false} DispatchesPending(ps: seq<Process>, time: int, key: Key, preemptive: bool)
    requires preemptive ==> Ticking(ps)
    requires |Dispatches(ps, time, key, preemptive)| > 0
    ensures CountDone(ps) < |ps|
  {
  }

  /** The first dispatch runs the process `Chosen` designates at `time`, from `time` on. */
  lemma {:induction false} FirstDispatch(ps: seq<Process>, time: int, key: Key, preemptive: bool, m: nat)
    requires preemptive ==> Ticking(ps)
    requires CountDone(ps) < |ps| && Select(ps, time, key) == Some(m)
    ensures var r := Dispatches(ps, time, key, preemptive);
      |r| > 0 && r[0].proc == m && r[0].slice == Slice(ps[m].name, time, time + SliceLength(ps[m], preemptive)) &&
      Chosen(ps, time, key, m)
  {
    SelectSpec(ps, time, key);
  }

  /**
    Dispatch `k > 0` from `ps` at `time`, when `Select` picks `m` first, is
    dispatch `k - 1` from the list after that first dispatch: the same turn,
    the same list before it, and the same end of the turn before it.
   */
  lemma {:induction false} ShiftAfterDispatch(ps: seq<Process>, time: int, key: Key, preemptive: bool, m: nat, k: nat)
    requires preemptive ==> Ticking(ps)
    requires 0 < k < |Dispatches(ps, time, key, preemptive)| && CountDone(ps) < |ps| && Select(ps, time, key) == Some(m)
    ensures var r := Dispatches(ps, time, key, preemptive);
      var next := Dispatch(ps, m, preemptive);
      var time' := time + SliceLength(ps[m], preemptive);
      (preemptive ==> Ticking(next)) &&
      var tail := Dispatches(next, time', key, preemptive);
      k - 1 < |tail| && r[k] == tail[k - 1] &&
      DispatchAll(ps, r[..k], preemptive) == DispatchAll(next, tail[..k - 1], preemptive) &&
      Since(r, k, time) == Since(tail, k - 1, time')
  {
    var r := Dispatches(ps, time, key, preemptive);
    var next := Dispatch(ps, m, preemptive);
    DispatchProgress(ps, m, preemptive);
    var time' := time + SliceLength(ps[m], preemptive);
    var tail := Dispatches(next, time', key, preemptive);
    assert r == [r[0]] + tail;
    assert r[..k] == [r[0]] + tail[..k - 1];
    DispatchAllCons(ps, r[0], tail[..k - 1], preemptive);
  }

  /**
    When nothing is ready at `time`, the idle stretch before dispatch `k`
    that holds from `time + 1` on also holds from `time` on.
   */
  lemma {:induction false} IdleSince(ps: seq<Process>, r: seq<Turn>, time: int, preemptive: bool, k: nat, t: int)
    requires TurnsWithin(r, |ps|) && k < |r| && NoneReady(ps, time)
    requires Since(r, k, time + 1) <= t < r[k].slice.start ==> NoneReady(DispatchAll(ps, r[..k], preemptive), t)
    ensures Since(r, k, time) <= t < r[k].slice.start ==> NoneReady(DispatchAll(ps, r[..k], preemptive), t)
  {
    if k == 0 {
      assert r[..0] == [];
    }
  }

  /**
    Clock value `t` lies in the gap before dispatch `k` (from the end of the
    previous dispatch, or from `time` for the first, up to its start), and
    nothing in the list as it stands then is ready at `t`.
   */
  ghost predicate IdleGap(ps: seq<Process>, time: int, key: Key, preemptive: bool, k: nat, t: int)
    requires preemptive ==> Ticking(ps)
  {
    var r := Dispatches(ps, time, key, preemptive);
    k < |r| && Since(r, k, time) <= t < r[k].slice.start ==> NoneReady(DispatchAll(ps, r[..k], preemptive), t)
  }

  /** The gap before dispatch `k - 1` after a first dispatch is the gap before dispatch `k` from `time`. */
  lemma {:induction false} IdleAfterDispatch(ps: seq<Process>, time: int, key: Key, preemptive: bool, m: nat, k: nat, t: int)
    requires preemptive ==> Ticking(ps)
    requires 0 < k < |Dispatches(ps, time, key, preemptive)| && CountDone(ps) < |ps| && Select(ps, time, key) == Some(m)
    requires preemptive ==> Ticking(Dispatch(ps, m, preemptive))
    requires IdleGap(Dispatch(ps, m, preemptive), time + SliceLength(ps[m], preemptive), key, preemptive, k - 1, t)
    ensures IdleGap(ps, time, key, preemptive, k, t)
  {
    ShiftAfterDispatch(ps, time, key, preemptive, m, k);
  }

  /** The gap before dispatch `k` from `time + 1` extends back to `time` when nothing is ready at `time`. */
  lemma {:induction false} IdleAfterIdle(ps: seq<Process>, time: int, key: Key, preemptive: bool, k: nat, t: int)
    requires preemptive ==> Ticking(ps)
    requires CountDone(ps) < |ps| && Select(ps, time, key).None?
    requires IdleGap(ps, time + 1, key, preemptive, k, t)
    ensures IdleGap(ps, time, key, preemptive, k, t)
  {
    IdleStep(ps, time, key, preemptive);
    SelectSpec(ps, time, key);
    var r := Dispatches(ps, time, key, preemptive);
    if k < |r| {
      IdleSince(ps, r, time, preemptive, k, t);
    }
  }

  lemma {:induction false} IdleGapHolds(ps: seq<Process>, time: int, key: Key, preemptive: bool, k: nat, t: int)
    requires preemptive ==> Ticking(ps)
    ensures IdleGap(ps, time, key, preemptive, k, t)
    decreases Work(ps, preemptive), LatestArrival(ps) - time
  {
    if CountDone(ps) < |ps| {
      match Select(ps, time, key)
      case Some(m) =>
        if k == 0 {
          FirstDispatch(ps, time, key, preemptive, m);
        } else {
          DispatchesLength(ps, time, key, preemptive, m);
          IdleGapHolds(Dispatch(ps, m, preemptive), time + SliceLength(ps[m], preemptive), key, preemptive, k - 1, t);
          if k < |Dispatches(ps, time, key, preemptive)| {
            IdleAfterDispatch(ps, time, key, preemptive, m, k, t);
          }
        }
      case None =>
        IdleStep(ps, time, key, preemptive);
        IdleGapHolds(ps, time + 1, key, preemptive, k, t);
        IdleAfterIdle(ps, time, key, preemptive, k, t);
    } else {
      assert Dispatches(ps, time, key, preemptive) == [];
    }
  }

  /**
    The clock idles only when it must: at every clock value from the end of
    the previous dispatch (from `time` for the first) up to the start of
    dispatch `k`, nothing in the list as it then stands was ready.
   */
  lemma {:induction false} IdleBeforeDispatch(ps: seq<Process>, time: int, key: Key, preemptive: bool, k: nat, t: int)
    requires preemptive ==> Ticking(ps)
    requires k < |Dispatches(ps, time, key, preemptive)|
    ensures var r := Dispatches(ps, time, key, preemptive);
      Since(r, k, time) <= t < r[k].slice.start ==> NoneReady(DispatchAll(ps, r[..k], preemptive), t)
  {
    IdleGapHolds(ps, time, key, preemptive, k, t);
  }

  /**
    Run to completion: each process not yet completed is dispatched exactly
    once, and a completed one never.
   */
  lemma {:induction false} DispatchedOnce(ps: seq<Process>, time: int, key: Key, j: nat)
    requires j < |ps|
    ensures multiset(Procs(Dispatches(ps, time, key, false)))[j] == if ps[j].completed then 0 else 1
  {
    OnceEach(ps, time, key, j);
    OccurrencesCount(Dispatches(ps, time, key, false), j);
  }

  lemma {:induction false} OnceEach(ps: seq<Process>, time: int, key: Key, j: nat)
    requires j < |ps|
    ensures Occurrences(Dispatches(ps, time, key, false), j) == if ps[j].completed then 0 else 1
    decreases Work(ps, false), LatestArrival(ps) - time
  {
    if CountDone(ps) == |ps| {
      CountDoneAll(ps);
    } else {
      match Select(ps, time, key)
      case Some(m) =>
        DispatchesCons(ps, time, key, false, m);
        var next := Dispatch(ps, m, false);
        OnceEach(next, time + ps[m].burstTime, key, j);
        assert next[j].completed <==> j == m || ps[j].completed;
      case None =>
        IdleStep(ps, time, key, false);
        OnceEach(ps, time + 1, key, j);
    }
  }

  /**
    Work conservation under SRTF: each process is ticked exactly as many
    times as it has time remaining.
   */
  lemma {:induction false} TickedRemaining(ps: seq<Process>, time: int, j: nat)
    requires Ticking(ps) && j < |ps|
    ensures multiset(Procs(Dispatches(ps, time, ByRemaining, true)))[j] == ps[j].remainingTime
    decreases Work(ps, true), LatestArrival(ps) - time
  {
    var r := Dispatches(ps, time, ByRemaining, true);
    if CountDone(ps) == |ps| {
      CountDoneAll(ps);
    } else {
      match Select(ps, time, ByRemaining)
      case Some(m) =>
        var next := Dispatch(ps, m, true);
        TickKeeps(ps, m);
        var tail := Dispatches(next, time + 1, ByRemaining, true);
        TickedRemaining(next, time + 1, j);
        assert r == [r[0]] + tail;
        assert Procs(r) == [m] + Procs(tail);
      case None =>
        SelectSpec(ps, time, ByRemaining);
        IdleBeforeLastArrival(ps, time);
        TickedRemaining(ps, time + 1, j);
    }
  }

  /** After all dispatches from `ps` at `time`, process `j` is completed and nothing else about it has changed. */
  ghost predicate Finished(ps: seq<Process>, time: int, key: Key, j: nat) {
    j < |ps| ==> DispatchAll(ps, Dispatches(ps, time, key, false), false)[j] == ps[j].(completed := true)
  }

  /** What the dispatches after the first leave of process `j` is what all of them leave of it. */
  lemma {:induction false} FinalAfterDispatch(ps: seq<Process>, time: int, key: Key, m: nat, j: nat)
    requires CountDone(ps) < |ps| && Select(ps, time, key) == Some(m)
    requires Finished(Dispatch(ps, m, false), time + ps[m].burstTime, key, j)
    ensures Finished(ps, time, key, j)
  {
    DispatchesCons(ps, time, key, false, m);
    if j < |ps| {
      var next := Dispatch(ps, m, false);
      var tail := Dispatches(next, time + ps[m].burstTime, key, false);
      DispatchAllCons(ps, Turn(m, Slice(ps[m].name, time, time + ps[m].burstTime)), tail, false);
      assert next[j].(completed := true) == ps[j].(completed := true);
    }
  }

  lemma {:induction false} FinishedHolds(ps: seq<Process>, time: int, key: Key, j: nat)
    ensures Finished(ps, time, key, j)
    decreases Work(ps, false), LatestArrival(ps) - time
  {
    if CountDone(ps) == |ps| {
      CountDoneAll(ps);
    } else {
      match Select(ps, time, key)
      case Some(m) =>
        DispatchProgress(ps, m, false);
        FinishedHolds(Dispatch(ps, m, false), time + ps[m].burstTime, key, j);
        FinalAfterDispatch(ps, time, key, m, j);
      case None =>
        IdleStep(ps, time, key, false);
        FinishedHolds(ps, time + 1, key, j);
    }
  }

  /**
    Run to completion, non-preemptive: after all dispatches every process is
    completed and nothing else about it has changed.
   */
  lemma {:induction false} DispatchFinal(ps: seq<Process>, time: int, key: Key, j: nat)
    requires j < |ps|
    ensures DispatchAll(ps, Dispatches(ps, time, key, false), false)[j] == ps[j].(completed := true)
  {
    FinishedHolds(ps, time, key, j);
  }

  /**
    Run to completion under SRTF: after all ticks every process has nothing
    remaining and is completed, and nothing else about it has changed.
   */
  lemma {:induction false} TickFinal(ps: seq<Process>, time: int, j: nat)
    requires Ticking(ps) && j < |ps|
    ensures DispatchAll(ps, Dispatches(ps, time, ByRemaining, true), true)[j]
         == ps[j].(remainingTime := 0, completed := true)
    decreases Work(ps, true), LatestArrival(ps) - time
  {
    if CountDone(ps) == |ps| {
      CountDoneAll(ps);
    } else {
      match Select(ps, time, ByRemaining)
      case Some(m) =>
        DispatchesCons(ps, time, ByRemaining, true, m);
        var next := Dispatch(ps, m, true);
        var tail := Dispatches(next, time + 1, ByRemaining, true);
        TickFinal(next, time + 1, j);
        DispatchAllCons(ps, Turn(m, Slice(ps[m].name, time, time + 1)), tail, true);
      case None =>
        IdleStep(ps, time, ByRemaining, true);
        TickFinal(ps, time + 1, j);
    }
  }
}
