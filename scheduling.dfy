/**
  The CPU scheduling simulator: a scheduler holding a process list, and its
  six policies, each of which resets the list and then advances a clock,
  appending one slice per execution to the timeline and one line per slice
  to the report.
 */
module Scheduling {
  import opened Lists
  import opened Processes
  import opened Timelines
  import opened Dispatching

  /** The report holds exactly one line per timeline slice, in order. */
  ghost predicate Reports(output: seq<ReportLine>, tl: seq<Slice>) {
    |output| == |tl| && forall k :: 0 <= k < |tl| ==> output[k] == Line(tl[k])
  }

  lemma {:induction false} CountDoneNone(ps: seq<Process>)
    requires forall j :: 0 <= j < |ps| ==> !ps[j].completed
    ensures CountDone(ps) == 0
  {
    if |ps| > 0 {
      CountDoneNone(ps[..|ps| - 1]);
    }
  }

  /** One Round Robin turn appends the slice of the next run of the reference definition. */
  lemma {:induction false} RrTurn(ps0: seq<Process>, runs: seq<Run>, r: Run, timeline: seq<Slice>, output: seq<ReportLine>, name: string)
    requires RunsWithin(runs, |ps0|) && r.proc < |ps0| && name == ps0[r.proc].name
    requires timeline == Layout(ps0, runs) && Reports(output, timeline)
    ensures RunsWithin(runs + [r], |ps0|)
    ensures timeline + [Slice(name, Busy(runs), Busy(runs) + r.len)] == Layout(ps0, runs + [r])
    ensures Busy(runs + [r]) == Busy(runs) + r.len
    ensures Reports(output + [Line(Slice(name, Busy(runs), Busy(runs) + r.len))],
                    timeline + [Slice(name, Busy(runs), Busy(runs) + r.len)])
  {
    LayoutSnoc(ps0, runs, r);
  }

  /**
    One turn of a Round Robin pass at position `i`: a process with work left
    adds one slice to the timeline, as long as a quantum or what it has left,
    starting where the timeline so far ends; a process without work adds none.
   */
  lemma {:induction false} PassStep(ps0: seq<Process>, before: seq<Process>, quantum: int, i: nat, done: seq<Run>,
                 timeline: seq<Slice>, output: seq<ReportLine>)
    requires quantum > 0 && i < |before| == |ps0| && Names(before) == Names(ps0)
    requires RunsWithin(done + PassRuns(before, quantum, i), |ps0|)
    requires timeline == Layout(ps0, done + PassRuns(before, quantum, i)) && Reports(output, timeline)
    ensures var all := done + PassRuns(before, quantum, i);
            var next := done + PassRuns(before, quantum, i + 1);
            var rem := before[i].remainingTime;
            var s := Slice(before[i].name, Busy(all), Busy(all) + Min(quantum, rem));
            RunsWithin(next, |ps0|) &&
            (rem > 0 ==> Layout(ps0, next) == timeline + [s] && Busy(next) == Busy(all) + Min(quantum, rem)
                         && Reports(output + [Line(s)], timeline + [s])) &&
            (rem <= 0 ==> next == all)
  {
    var pass := PassRuns(before, quantum, i);
    var rem := before[i].remainingTime;
    assert before[i].name == Names(before)[i] == ps0[i].name;
    if rem > 0 {
      var r := Run(i, Min(quantum, rem));
      assert PassRuns(before, quantum, i + 1) == pass + [r];
      AppendAssoc(done, pass, [r]);
      RrTurn(ps0, done + pass, r, timeline, output, before[i].name);
    } else {
      assert PassRuns(before, quantum, i + 1) == pass + [];
      assert pass + [] == pass;
    }
  }

  /**
    The state of the dispatch loop started from `ps0`: the dispatches
    `turns` have been made, leaving the list `ps` as they left it, with
    `completed` processes completed; the clock is at `time`, and the
    dispatches still to come from here complete those of the reference
    definition. The timeline holds the slices made so far; the report
    holds one line per slice (non-preemptive) or stays empty (SRTF).
   */
  ghost predicate RunState(ps0: seq<Process>, turns: seq<Turn>, key: Key, preemptive: bool, time: int, completed: int,
                           ps: seq<Process>, output: seq<ReportLine>, timeline: seq<Slice>)
  {
    |ps| == |ps0| && completed == CountDone(ps) &&
    (preemptive ==> Ticking(ps0) && Ticking(ps)) &&
    TurnsWithin(turns, |ps0|) && ps == DispatchAll(ps0, turns, preemptive) &&
    turns + Dispatches(ps, time, key, preemptive) == Dispatches(ps0, 0, key, preemptive) &&
    timeline == SlicesOf(turns) &&
    (if preemptive then output == [] else Reports(output, timeline))
  }

  /** Running the selected process to completion moves the loop state forward by one dispatch. */
  lemma {:induction false} RunStateDispatch(ps0: seq<Process>, turns: seq<Turn>, key: Key, time: int, completed: int,
                          ps: seq<Process>, output: seq<ReportLine>, timeline: seq<Slice>, m: nat)
    requires RunState(ps0, turns, key, false, time, completed, ps, output, timeline)
    requires completed < |ps0| && Select(ps, time, key) == Some(m)
    ensures var s := Slice(ps[m].name, time, time + ps[m].burstTime);
      RunState(ps0, turns + [Turn(m, s)], key, false, time + ps[m].burstTime, completed + 1,
               Dispatch(ps, m, false), output + [Line(s)], timeline + [s])
  {
    DispatchStep(ps0, turns, ps, time, key, false, m);
  }

  /** Ticking the selected process moves the SRTF state forward by one dispatch and lowers the outstanding work. */
  lemma {:induction false} RunStateTick(ps0: seq<Process>, turns: seq<Turn>, time: int, completed: int,
                      ps: seq<Process>, timeline: seq<Slice>, m: nat)
    requires RunState(ps0, turns, ByRemaining, true, time, completed, ps, [], timeline)
    requires completed < |ps0| && Select(ps, time, ByRemaining) == Some(m)
    ensures var s := Slice(ps[m].name, time, time + 1);
      var next := Dispatch(ps, m, true);
      (next[m].completed <==> ps[m].remainingTime == 1) &&
      Outstanding(next) < Outstanding(ps) &&
      RunState(ps0, turns + [Turn(m, s)], ByRemaining, true, time + 1,
               completed + (if ps[m].remainingTime == 1 then 1 else 0), next, [], timeline + [s])
  {
    DispatchStep(ps0, turns, ps, time, ByRemaining, true, m);
    TickKeeps(ps, m);
  }

  /** An idle unit moves the clock and nothing else, and only while some process has yet to arrive. */
  lemma {:induction false} RunStateIdle(ps0: seq<Process>, turns: seq<Turn>, key: Key, preemptive: bool, time: int, completed: int,
                      ps: seq<Process>, output: seq<ReportLine>, timeline: seq<Slice>)
    requires RunState(ps0, turns, key, preemptive, time, completed, ps, output, timeline)
    requires completed < |ps0| && Select(ps, time, key).None?
    ensures time < LatestArrival(ps)
    ensures RunState(ps0, turns, key, preemptive, time + 1, completed, ps, output, timeline)
  {
    IdleStep(ps, time, key, preemptive);
  }

  class Scheduler {
    var processes: seq<Process>
    var output: seq<ReportLine>
    var timeline: seq<Slice>

    constructor ()
      ensures processes == [] && output == [] && timeline == []
    {
      processes := [];
      output := [];
      timeline := [];
    }

    /** Every process back to its burst and not completed; report and timeline emptied. */
    method Reset()
      modifies this
      ensures processes == ResetAll(old(processes))
      ensures output == [] && timeline == []
    {
      var i := 0;
      while i < |processes|
        invariant 0 <= i <= |processes| == |old(processes)|
        invariant forall j :: 0 <= j < i ==> processes[j] == ResetProcess(old(processes)[j])
        invariant forall j :: i <= j < |processes| ==> processes[j] == old(processes)[j]
      {
        var p := processes[i];
        processes := processes[i := p.(remainingTime := p.burstTime, completed := false)];
        i := i + 1;
      }
      output := [];
      timeline := [];
    }

    /**
      First come, first served: the list is stably sorted by arrival in
      place, then every process runs to completion in that order, back to
      back from clock 0.
     */
    method Fcfs()
      modifies this
      ensures processes == SortBy(ResetAll(old(processes)), ArrivalOf)
      ensures SortedBy(processes, ArrivalOf) && multiset(processes) == multiset(ResetAll(old(processes)))
      ensures timeline == Layout(processes, InOrder(processes))
      ensures |timeline| == |processes|
      ensures forall k :: 0 <= k < |processes| ==>
        timeline[k] == Slice(processes[k].name, PrevEnd(timeline, k), PrevEnd(timeline, k) + processes[k].burstTime)
      ensures Reports(output, timeline)
    {
      Reset();
      processes := SortBy(processes, ArrivalOf);
      SortByPermutes(ResetAll(old(processes)), ArrivalOf);
      RunInOrder();
      FcfsShape(processes);
    }

    /** Runs every process for its burst in list order, back to back from clock 0, reporting each slice. */
    method RunInOrder()
      requires output == [] && timeline == []
      modifies this
      ensures processes == old(processes)
      ensures timeline == Layout(processes, InOrder(processes))
      ensures Reports(output, timeline)
    {
      var time := 0;
      ghost var runs := InOrder(processes);
      assert runs[..0] == [];
      for i := 0 to |processes|
        invariant processes == old(processes)
        invariant timeline == Layout(processes, runs[..i]) && time == Busy(runs[..i])
        invariant Reports(output, timeline)
      {
        InOrderStep(processes, i);
        var p := processes[i];
        var start := time;
        time := time + p.burstTime;
        output := output + [Line(Slice(p.name, start, time))];
        timeline := timeline + [Slice(p.name, start, time)];
      }
      assert runs[..|processes|] == runs;
    }

    /**
      The loop shared by SJF and Priority, from the state a reset leaves:
      while some process is not completed, run the ready process with the smallest key to completion,
      or let the clock idle one unit when nothing is ready.
     */
    method RunToCompletion(key: Key)
      requires forall j :: 0 <= j < |processes| ==> !processes[j].completed
      requires output == [] && timeline == []
      modifies this
      ensures processes == DispatchAll(old(processes), Dispatches(old(processes), 0, key, false), false)
      ensures timeline == SlicesOf(Dispatches(old(processes), 0, key, false))
      ensures Reports(output, timeline)
    {
      ghost var ps0 := processes;
      var time := 0;
      var completed := 0;
      var n := |processes|;
      ghost var turns: seq<Turn> := [];
      CountDoneNone(ps0);
      while completed < n
        invariant n == |ps0| && Running(ps0, turns, key, false, time, completed)
        decreases n - completed, LatestArrival(processes) - time
      {
        time, completed, turns := DispatchNext(ps0, turns, key, time, completed);
      }
      assert turns + [] == turns;
    }

    /** The dispatch loop's state, on the scheduler's fields. */
    ghost predicate Running(ps0: seq<Process>, turns: seq<Turn>, key: Key, preemptive: bool, time: int, completed: int)
      reads this
    {
      RunState(ps0, turns, key, preemptive, time, completed, processes, output, timeline)
    }

    /**
      One iteration of the SJF / Priority loop: run the ready process with
      the smallest key to completion, or idle one unit when nothing is ready.
     */
    method DispatchNext(ghost ps0: seq<Process>, ghost turns: seq<Turn>, key: Key, time: int, completed: int)
      returns (time': int, completed': int, ghost turns': seq<Turn>)
      requires Running(ps0, turns, key, false, time, completed) && completed < |ps0|
      modifies this
      ensures Running(ps0, turns', key, false, time', completed')
      ensures completed < completed' ||
              (completed' == completed && processes == old(processes) &&
               0 <= LatestArrival(processes) - time' < LatestArrival(processes) - time)
    {
      var pick := Select(processes, time, key);
      if pick.Some? {
        var m := pick.value;
        RunStateDispatch(ps0, turns, key, time, completed, processes, output, timeline, m);
        turns' := turns + [Turn(m, Slice(processes[m].name, time, time + processes[m].burstTime))];
        time' := RunProcess(m, time);
        completed' := completed + 1;
      } else {
        RunStateIdle(ps0, turns, key, false, time, completed, processes, output, timeline);
        time', completed', turns' := time + 1, completed, turns;
      }
    }

    /**
      Runs process `m` to completion from clock `start`: it is marked
      completed, and its slice, ending at the returned clock, is appended to
      the timeline and reported.
     */
    method RunProcess(m: nat, start: int) returns (end: int)
      requires m < |processes| && Reports(output, timeline)
      modifies this
      ensures end == start + old(processes)[m].burstTime
      ensures processes == Dispatch(old(processes), m, false)
      ensures timeline == old(timeline) + [Slice(old(processes)[m].name, start, end)]
      ensures Reports(output, timeline)
    {
      var p := processes[m];
      end := start + p.burstTime;
      processes := processes[m := p.(completed := true)];
      output := output + [Line(Slice(p.name, start, end))];
      timeline := timeline + [Slice(p.name, start, end)];
    }

    /** Shortest job first, non-preemptive: the key is the burst time. */
    method Sjf()
      modifies this
      ensures processes == DispatchAll(ResetAll(old(processes)), Dispatches(ResetAll(old(processes)), 0, ByBurst, false), false)
      ensures timeline == SlicesOf(Dispatches(ResetAll(old(processes)), 0, ByBurst, false))
      ensures Reports(output, timeline)
    {
      Reset();
      RunToCompletion(ByBurst);
    }

    /** Priority scheduling, non-preemptive: the key is the priority (lower runs first). */
    method PriorityScheduling()
      modifies this
      ensures processes == DispatchAll(ResetAll(old(processes)), Dispatches(ResetAll(old(processes)), 0, ByPriority, false), false)
      ensures timeline == SlicesOf(Dispatches(ResetAll(old(processes)), 0, ByPriority, false))
      ensures Reports(output, timeline)
    {
      Reset();
      RunToCompletion(ByPriority);
    }

    /**
      Round Robin: after the reset, passes over the list in order, each
      process with work left running for at most one quantum, until none
      has work left.
     */
    method RoundRobin(quantum: int := 2)
      requires quantum > 0
      modifies this
      ensures processes == RrAfter(ResetAll(old(processes)), quantum)
      ensures timeline == Layout(ResetAll(old(processes)), RrRuns(ResetAll(old(processes)), quantum))
      ensures Reports(output, timeline)
    {
      Reset();
      RunPasses(quantum);
    }

    /**
      The passes of Round Robin from an empty report: the list ends as the
      reference definition's final list, and the timeline is its runs laid
      out back to back from clock 0.
     */
    method RunPasses(quantum: int)
      requires quantum > 0 && output == [] && timeline == []
      modifies this
      ensures processes == RrAfter(old(processes), quantum)
      ensures timeline == Layout(old(processes), RrRuns(old(processes), quantum))
      ensures Reports(output, timeline)
    {
      ghost var ps0 := processes;
      var time := 0;
      var n := |processes|;
      ghost var done: seq<Run> := [];
      while AnyPending(processes)
        invariant |processes| == n == |ps0| && Names(processes) == Names(ps0)
        invariant RrAfter(processes, quantum) == RrAfter(ps0, quantum)
        invariant done + RrRuns(processes, quantum) == RrRuns(ps0, quantum)
        invariant RunsWithin(done, n)
        invariant timeline == Layout(ps0, done) && time == Busy(done)
        invariant Reports(output, timeline)
        decreases Outstanding(processes)
      {
        ghost var before := processes;
        ghost var pass := PassRuns(before, quantum, n);
        assert done + [] == done;
        time := RunPass(quantum, time, ps0, done);
        CutPrefixAll(before, quantum);
        PassProgress(before, quantum);
        AfterPassNames(before, quantum);
        assert RrRuns(before, quantum) == pass + RrRuns(processes, quantum);
        AppendAssoc(done, pass, RrRuns(processes, quantum));
        done := done + pass;
      }
      assert done == RrRuns(ps0, quantum) by {
        assert done + [] == done;
      }
    }

    /**
      One pass of Round Robin over the list in order, from clock `start`:
      every process with work left gets its turn, and the runs of the pass
      are appended to the timeline after the runs `done` before it.
     */
    method RunPass(quantum: int, start: int, ghost ps0: seq<Process>, ghost done: seq<Run>) returns (end: int)
      requires quantum > 0 && |processes| == |ps0| && Names(processes) == Names(ps0)
      requires RunsWithin(done, |ps0|) && timeline == Layout(ps0, done) && start == Busy(done)
      requires Reports(output, timeline)
      modifies this
      ensures processes == CutPrefix(old(processes), quantum, |ps0|)
      ensures RunsWithin(done + PassRuns(old(processes), quantum, |ps0|), |ps0|)
      ensures timeline == Layout(ps0, done + PassRuns(old(processes), quantum, |ps0|))
      ensures end == Busy(done + PassRuns(old(processes), quantum, |ps0|))
      ensures Reports(output, timeline)
    {
      ghost var before := processes;
      var n := |processes|;
      end := start;
      assert CutPrefix(before, quantum, 0) == before;
      assert done + PassRuns(before, quantum, 0) == done;
      for i := 0 to n
        invariant InPass(ps0, before, done, quantum, i, end)
      {
        end := PassTurn(i, quantum, end, ps0, before, done);
      }
    }

    /**
      The state after the first `i` turns of a Round Robin pass that started
      from `before`, with the runs `done` of earlier passes: the first `i`
      processes have had their turn, and the timeline and report hold the
      runs so far, ending at `clock`.
     */
    ghost predicate InPass(ps0: seq<Process>, before: seq<Process>, done: seq<Run>, quantum: int, i: nat, clock: int)
      reads this
      requires quantum > 0 && i <= |before|
    {
      processes == CutPrefix(before, quantum, i) &&
      RunsWithin(done + PassRuns(before, quantum, i), |ps0|) &&
      timeline == Layout(ps0, done + PassRuns(before, quantum, i)) &&
      clock == Busy(done + PassRuns(before, quantum, i)) &&
      Reports(output, timeline)
    }

    /** The turn of position `i` within a Round Robin pass that started from `before`. */
    method PassTurn(i: nat, quantum: int, start: int, ghost ps0: seq<Process>, ghost before: seq<Process>,
                    ghost done: seq<Run>) returns (end: int)
      requires quantum > 0 && i < |before| == |ps0| && Names(before) == Names(ps0)
      requires InPass(ps0, before, done, quantum, i, start)
      modifies this
      ensures InPass(ps0, before, done, quantum, i + 1, end)
    {
      CutPrefixStep(before, quantum, i);
      PassStep(ps0, before, quantum, i, done, timeline, output);
      end := start;
      if processes[i].remainingTime > 0 {
        end := RunQuantum(i, quantum, end);
      }
    }

    /**
      Gives process `i` its turn of a Round Robin pass from clock `start`:
      it runs for a quantum or for what it has left, whichever is less, and
      its slice, ending at the returned clock, is appended and reported.
     */
    method RunQuantum(i: nat, quantum: int, start: int) returns (end: int)
      requires i < |processes| && quantum > 0 && processes[i].remainingTime > 0
      requires Reports(output, timeline)
      modifies this
      ensures end == start + Min(quantum, old(processes)[i].remainingTime)
      ensures processes == old(processes)[i := Cut(old(processes)[i], quantum)]
      ensures timeline == old(timeline) + [Slice(old(processes)[i].name, start, end)]
      ensures Reports(output, timeline)
    {
      var p := processes[i];
      var execTime := Min(quantum, p.remainingTime);
      end := start + execTime;
      processes := processes[i := p.(remainingTime := p.remainingTime - execTime)];
      output := output + [Line(Slice(p.name, start, end))];
      timeline := timeline + [Slice(p.name, start, end)];
    }

    /**
      Shortest remaining time first, preemptive: after the reset, each unit
      of clock either runs the ready process with the least remaining time
      for one unit, or idles when nothing is ready. It writes no report lines.
     */
    method Srtf()
      requires forall j :: 0 <= j < |processes| ==> processes[j].burstTime >= 1
      modifies this
      ensures Ticking(ResetAll(old(processes)))
      ensures processes == DispatchAll(ResetAll(old(processes)), Dispatches(ResetAll(old(processes)), 0, ByRemaining, true), true)
      ensures timeline == SlicesOf(Dispatches(ResetAll(old(processes)), 0, ByRemaining, true))
      ensures output == []
    {
      Reset();
      RunTicks();
    }

    /**
      Runs process `m` for one unit at clock `time`: one unit less remains,
      it is marked completed when nothing remains, and its slice is appended
      to the timeline. Reports whether it completed.
     */
    method TickProcess(m: nat, time: int) returns (finished: bool)
      requires m < |processes| && Ticking(processes) && !processes[m].completed
      modifies this
      ensures processes == Dispatch(old(processes), m, true)
      ensures finished <==> old(processes)[m].remainingTime == 1
      ensures timeline == old(timeline) + [Slice(old(processes)[m].name, time, time + 1)]
      ensures output == old(output)
    {
      var p := processes[m];
      p := p.(remainingTime := p.remainingTime - 1);
      processes := processes[m := p];
      timeline := timeline + [Slice(p.name, time, time + 1)];
      finished := false;
      if p.remainingTime == 0 {
        processes := processes[m := p.(completed := true)];
        finished := true;
      }
    }

    /** The ticks of SRTF from the state a reset leaves. */
    method RunTicks()
      requires Ticking(processes) && forall j :: 0 <= j < |processes| ==> !processes[j].completed
      requires output == [] && timeline == []
      modifies this
      ensures processes == DispatchAll(old(processes), Dispatches(old(processes), 0, ByRemaining, true), true)
      ensures timeline == SlicesOf(Dispatches(old(processes), 0, ByRemaining, true))
      ensures output == []
    {
      ghost var ps0 := processes;
      var time := 0;
      var completed := 0;
      var n := |processes|;
      ghost var turns: seq<Turn> := [];
      CountDoneNone(ps0);
      while completed < n
        invariant n == |ps0| && Running(ps0, turns, ByRemaining, true, time, completed)
        decreases Outstanding(processes), LatestArrival(processes) - time
      {
        time, completed, turns := TickNext(ps0, turns, time, completed);
      }
      assert turns + [] == turns;
    }

    /**
      One unit of SRTF: tick the ready process with the least remaining
      time, or idle when nothing is ready.
     */
    method TickNext(ghost ps0: seq<Process>, ghost turns: seq<Turn>, time: int, completed: int)
      returns (time': int, completed': int, ghost turns': seq<Turn>)
      requires Running(ps0, turns, ByRemaining, true, time, completed) && completed < |ps0|
      modifies this
      ensures Running(ps0, turns', ByRemaining, true, time', completed')
      ensures Outstanding(processes) < Outstanding(old(processes)) ||
              (processes == old(processes) && 0 <= LatestArrival(processes) - time' < LatestArrival(processes) - time)
    {
      var pick := Select(processes, time, ByRemaining);
      if pick.Some? {
        var m := pick.value;
        RunStateTick(ps0, turns, time, completed, processes, timeline, m);
        turns' := turns + [Turn(m, Slice(processes[m].name, time, time + 1))];
        var finished := TickProcess(m, time);
        completed' := if finished then completed + 1 else completed;
        time' := time + 1;
      } else {
        RunStateIdle(ps0, turns, ByRemaining, true, time, completed, processes, output, timeline);
        time', completed', turns' := time + 1, completed, turns;
      }
    }

    /**
      Multilevel queue as written: Round Robin over the level-1 then level-2
      processes, a queue-2 header, then FCFS over the level-2 processes. The
      reset inside FCFS empties the report and the timeline again, so only
      the FCFS part survives, and the list keeps only the level-2 processes.
     */
    method MultilevelQueue()
      modifies this
      ensures processes == SortBy(ResetAll(OfLevel(old(processes), 2)), ArrivalOf)
      ensures timeline == Layout(processes, InOrder(processes))
      ensures Reports(output, timeline)
    {
      Reset();
      var q1 := OfLevel(processes, 1);
      var q2 := OfLevel(processes, 2);
      processes := q1 + q2;
      RoundRobin(2);
      output := output + [QueueTwoHeader];
      processes := q2;
      Fcfs();
      OfLevelResetAll(old(processes), 2);
      ResetAllIdempotent(OfLevel(old(processes), 2));
    }
  }
}
