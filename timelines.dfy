/**
  Timelines laid out back to back from clock 0, and the reference
  definition of Round Robin as a sequence of passes over the process list.
 */
module Timelines {
  import opened Processes

  /** The process at position `proc` runs for `len` time units. */
  datatype Run = Run(proc: nat, len: int)

  ghost predicate RunsWithin(runs: seq<Run>, n: nat) {
    forall k :: 0 <= k < |runs| ==> runs[k].proc < n
  }

  /** Total length of the runs. */
  function Busy(runs: seq<Run>): int {
    if |runs| == 0 then 0 else Busy(runs[..|runs| - 1]) + runs[|runs| - 1].len
  }

  lemma {:induction false} BusyAppend(a: seq<Run>, b: seq<Run>)
    ensures Busy(a + b) == Busy(a) + Busy(b)
  {
    if |b| > 0 {
      BusyAppend(a, b[..|b| - 1]);
      assert (a + b)[..|a + b| - 1] == a + b[..|b| - 1];
    } else {
      assert a + b == a;
    }
  }

  /** The clock value at which slice `k` begins when slices are back to back from 0. */
  function PrevEnd(tl: seq<Slice>, k: nat): int
    requires k <= |tl|
  {
    if k == 0 then 0 else tl[k - 1].end
  }

  /** The slices of `runs`, executed one after another from clock 0 without gaps. */
  function Layout(ps: seq<Process>, runs: seq<Run>): (tl: seq<Slice>)
    requires RunsWithin(runs, |ps|)
    ensures |tl| == |runs|
  {
    if |runs| == 0 then []
    else
      var init := runs[..|runs| - 1];
      var r := runs[|runs| - 1];
      Layout(ps, init) + [Slice(ps[r.proc].name, Busy(init), Busy(init) + r.len)]
  }

  /**
    A laid-out timeline starts at 0, each slice starts where the previous
    one ended, slice `k` carries run `k`'s process name and length, and the
    last slice ends at the total length of the runs.
   */
  lemma {:induction false} LayoutShape(ps: seq<Process>, runs: seq<Run>)
    requires RunsWithin(runs, |ps|)
    ensures var tl := Layout(ps, runs);
      (forall k :: 0 <= k < |tl| ==>
         tl[k].name == ps[runs[k].proc].name && tl[k].start == PrevEnd(tl, k) &&
         tl[k].end == tl[k].start + runs[k].len) &&
      PrevEnd(tl, |tl|) == Busy(runs)
  {
    if |runs| > 0 {
      var init := runs[..|runs| - 1];
      LayoutShape(ps, init);
      var tl := Layout(ps, runs);
      assert tl[..|runs| - 1] == Layout(ps, init);
      forall k | 0 <= k < |runs| - 1
        ensures tl[k].name == ps[runs[k].proc].name && tl[k].start == PrevEnd(tl, k)
        ensures tl[k].end == tl[k].start + runs[k].len
      {
        assert tl[k] == Layout(ps, init)[k] && runs[k] == init[k];
        if k > 0 {
          assert tl[k - 1] == Layout(ps, init)[k - 1];
        }
      }
    }
  }

  /** Laying out one more run appends its slice, starting where the others end. */
  lemma {:induction false} LayoutSnoc(ps: seq<Process>, runs: seq<Run>, r: Run)
    requires RunsWithin(runs, |ps|) && r.proc < |ps|
    ensures RunsWithin(runs + [r], |ps|)
    ensures Layout(ps, runs + [r]) == Layout(ps, runs) + [Slice(ps[r.proc].name, Busy(runs), Busy(runs) + r.len)]
    ensures Busy(runs + [r]) == Busy(runs) + r.len
  {
    assert (runs + [r])[..|runs|] == runs;
  }

  /** Every process once, in list order, for its whole burst. */
  function InOrder(ps: seq<Process>): (runs: seq<Run>)
    ensures |runs| == |ps| && RunsWithin(runs, |ps|)
    ensures forall k :: 0 <= k < |ps| ==> runs[k] == Run(k, ps[k].burstTime)
  {
    seq(|ps|, k requires 0 <= k < |ps| => Run(k, ps[k].burstTime))
  }

  /** Running process `i` next extends the in-order timeline by its slice, of length its burst. */
  lemma {:induction false} InOrderStep(ps: seq<Process>, i: nat)
    requires i < |ps|
    ensures var runs := InOrder(ps);
      RunsWithin(runs[..i], |ps|) && RunsWithin(runs[..i + 1], |ps|) &&
      Layout(ps, runs[..i + 1]) == Layout(ps, runs[..i]) + [Slice(ps[i].name, Busy(runs[..i]), Busy(runs[..i]) + ps[i].burstTime)] &&
      Busy(runs[..i + 1]) == Busy(runs[..i]) + ps[i].burstTime
  {
    var runs := InOrder(ps);
    var r := Run(i, ps[i].burstTime);
    assert runs[i] == r;
    assert runs[..i + 1] == runs[..i] + [r];
    LayoutSnoc(ps, runs[..i], r);
  }

  /**
    First come, first served over a list already in arrival order: one slice
    per process in list order, the first at 0, each starting where the
    previous ended (no idle time, whatever the arrival times), each as long
    as its burst.
   */
  lemma {:induction false} FcfsShape(ps: seq<Process>)
    ensures var tl := Layout(ps, InOrder(ps));
      |tl| == |ps| &&
      (forall k :: 0 <= k < |ps| ==>
         tl[k] == Slice(ps[k].name, PrevEnd(tl, k), PrevEnd(tl, k) + ps[k].burstTime))
  {
    LayoutShape(ps, InOrder(ps));
  }

  // ---------------------------------------------------------------------
  // Round Robin

  function Min(a: int, b: int): int {
    if a < b then a else b
  }

  /** A process after its turn in a pass: up to one quantum less to run. */
  function Cut(p: Process, quantum: int): (r: Process)
    ensures r == p.(remainingTime := r.remainingTime)
    ensures p.remainingTime <= 0 ==> r == p
    ensures quantum > 0 && p.remainingTime > 0 ==> 0 <= r.remainingTime < p.remainingTime
    ensures quantum > 0 && p.remainingTime > quantum ==> r.remainingTime == p.remainingTime - quantum
  {
    if p.remainingTime > 0 then p.(remainingTime := p.remainingTime - Min(quantum, p.remainingTime)) else p
  }

  /** The turns of one pass over positions `[0, i)`: each process with work left runs one quantum at most. */
  function PassRuns(ps: seq<Process>, quantum: int, i: nat): (runs: seq<Run>)
    requires i <= |ps| && quantum > 0
    ensures RunsWithin(runs, |ps|)
    ensures forall k :: 0 <= k < |runs| ==> 0 < runs[k].len <= quantum
  {
    if i == 0 then []
    else
      var rem := ps[i - 1].remainingTime;
      PassRuns(ps, quantum, i - 1) + (if rem > 0 then [Run(i - 1, Min(quantum, rem))] else [])
  }

  function AfterPass(ps: seq<Process>, quantum: int): (r: seq<Process>)
    ensures |r| == |ps|
    ensures forall j :: 0 <= j < |ps| ==> r[j] == Cut(ps[j], quantum)
  {
    seq(|ps|, j requires 0 <= j < |ps| => Cut(ps[j], quantum))
  }

  predicate AnyPending(ps: seq<Process>) {
    exists j :: 0 <= j < |ps| && ps[j].remainingTime > 0
  }

  lemma {:induction false} BusyPositive(runs: seq<Run>)
    requires forall k :: 0 <= k < |runs| ==> runs[k].len > 0
    ensures Busy(runs) >= 0
    ensures |runs| > 0 ==> Busy(runs) > 0
  {
    if |runs| > 0 {
      BusyPositive(runs[..|runs| - 1]);
    }
  }

  /** The work left at positions `[0, i)`. */
  function OutstandingBefore(ps: seq<Process>, i: nat): int
    requires i <= |ps|
  {
    if i == 0 then 0
    else OutstandingBefore(ps, i - 1) + (if ps[i - 1].remainingTime > 0 then ps[i - 1].remainingTime else 0)
  }

  lemma {:induction false} OutstandingBeforeIs(ps: seq<Process>, i: nat)
    requires i <= |ps|
    ensures OutstandingBefore(ps, i) == Outstanding(ps[..i])
  {
    if i > 0 {
      OutstandingBeforeIs(ps, i - 1);
      OutstandingPrefix(ps, i);
    }
  }

  /** A turn takes from a process's outstanding work what the turn runs. */
  lemma {:induction false} CutLeft(p: Process, quantum: int)
    requires quantum > 0
    ensures var left := Cut(p, quantum).remainingTime;
      (if left > 0 then left else 0) ==
      (if p.remainingTime > 0 then p.remainingTime - Min(quantum, p.remainingTime) else 0)
  {
  }

  /** The turn at position `i - 1` adds what that process has left, up to one quantum, to the pass's length. */
  lemma {:induction false} PassBusyStep(ps: seq<Process>, quantum: int, i: nat)
    requires 0 < i <= |ps| && quantum > 0
    ensures var rem := ps[i - 1].remainingTime;
      Busy(PassRuns(ps, quantum, i)) == Busy(PassRuns(ps, quantum, i - 1)) + (if rem > 0 then Min(quantum, rem) else 0)
  {
    var rem := ps[i - 1].remainingTime;
    var prev := PassRuns(ps, quantum, i - 1);
    if rem > 0 {
      var r := Run(i - 1, Min(quantum, rem));
      assert PassRuns(ps, quantum, i) == prev + [r];
      assert (prev + [r])[..|prev|] == prev;
    } else {
      assert PassRuns(ps, quantum, i) == prev + [];
      assert prev + [] == prev;
    }
  }

  /** A pass over positions `[0, i)` takes from their outstanding work exactly what its turns run. */
  lemma {:induction false} PassOutstanding(ps: seq<Process>, quantum: int, i: nat)
    requires i <= |ps| && quantum > 0
    ensures OutstandingBefore(AfterPass(ps, quantum), i) == OutstandingBefore(ps, i) - Busy(PassRuns(ps, quantum, i))
  {
    if i > 0 {
      PassOutstanding(ps, quantum, i - 1);
      PassBusyStep(ps, quantum, i);
      assert AfterPass(ps, quantum)[i - 1] == Cut(ps[i - 1], quantum);
      CutLeft(ps[i - 1], quantum);
    }
  }

  /** A pass gives a turn to every process with work left. */
  lemma {:induction false} PassNonEmpty(ps: seq<Process>, quantum: int, i: nat, j: nat)
    requires j < i <= |ps| && quantum > 0 && ps[j].remainingTime > 0
    ensures |PassRuns(ps, quantum, i)| > 0
  {
    if j < i - 1 {
      PassNonEmpty(ps, quantum, i - 1, j);
    }
  }

  lemma {:induction false} OutstandingNone(ps: seq<Process>)
    requires !AnyPending(ps)
    ensures Outstanding(ps) == 0
  {
    if |ps| > 0 {
      OutstandingNone(ps[..|ps| - 1]);
    }
  }

  /** A pass over a list with work left strictly lowers the outstanding work. */
  lemma {:induction false} PassProgress(ps: seq<Process>, quantum: int)
    requires quantum > 0 && AnyPending(ps)
    ensures Outstanding(AfterPass(ps, quantum)) == Outstanding(ps) - Busy(PassRuns(ps, quantum, |ps|))
    ensures Outstanding(AfterPass(ps, quantum)) < Outstanding(ps)
  {
    PassOutstandingAll(ps, quantum);
    var j :| 0 <= j < |ps| && ps[j].remainingTime > 0;
    PassBusy(ps, quantum, j);
  }

  lemma {:induction false} PassOutstandingAll(ps: seq<Process>, quantum: int)
    requires quantum > 0
    ensures Outstanding(AfterPass(ps, quantum)) == Outstanding(ps) - Busy(PassRuns(ps, quantum, |ps|))
  {
    var after := AfterPass(ps, quantum);
    PassOutstanding(ps, quantum, |ps|);
    OutstandingBeforeIs(ps, |ps|);
    OutstandingBeforeIs(after, |ps|);
    assert ps[..|ps|] == ps;
    assert after[..|ps|] == after;
  }

  lemma {:induction false} PassBusy(ps: seq<Process>, quantum: int, j: nat)
    requires quantum > 0 && j < |ps| && ps[j].remainingTime > 0
    ensures Busy(PassRuns(ps, quantum, |ps|)) > 0
  {
    PassNonEmpty(ps, quantum, |ps|, j);
    BusyPositive(PassRuns(ps, quantum, |ps|));
  }

  /**
    Round Robin over a fixed list: full passes, in list order, until no
    process has work left.
   */
  function RrRuns(ps: seq<Process>, quantum: int): (runs: seq<Run>)
    requires quantum > 0
    ensures RunsWithin(runs, |ps|)
    ensures forall k :: 0 <= k < |runs| ==> 0 < runs[k].len <= quantum
    decreases Outstanding(ps)
  {
    if !AnyPending(ps) then []
    else
      PassProgress(ps, quantum);
      PassRuns(ps, quantum, |ps|) + RrRuns(AfterPass(ps, quantum), quantum)
  }

  /** The clock at the end of Round Robin is the total outstanding work at the start. */
  lemma {:induction false} RrBusy(ps: seq<Process>, quantum: int)
    requires quantum > 0
    ensures Busy(RrRuns(ps, quantum)) == Outstanding(ps)
    decreases Outstanding(ps)
  {
    if !AnyPending(ps) {
      OutstandingNone(ps);
    } else {
      PassProgress(ps, quantum);
      RrBusy(AfterPass(ps, quantum), quantum);
      BusyAppend(PassRuns(ps, quantum, |ps|), RrRuns(AfterPass(ps, quantum), quantum));
    }
  }

  /** The list after Round Robin: full passes until no process has work left. */
  function RrAfter(ps: seq<Process>, quantum: int): (r: seq<Process>)
    requires quantum > 0
    ensures |r| == |ps|
    decreases Outstanding(ps)
  {
    if !AnyPending(ps) then ps
    else
      PassProgress(ps, quantum);
      RrAfter(AfterPass(ps, quantum), quantum)
  }

  /**
    Round Robin leaves every process with work left at remaining time 0 and
    changes nothing else; a process without work left is untouched.
   */
  lemma {:induction false} RrFinal(ps: seq<Process>, quantum: int, j: nat)
    requires quantum > 0 && j < |ps|
    ensures RrAfter(ps, quantum)[j] == ps[j].(remainingTime := if ps[j].remainingTime > 0 then 0 else ps[j].remainingTime)
    decreases Outstanding(ps)
  {
    if AnyPending(ps) {
      PassProgress(ps, quantum);
      RrFinal(AfterPass(ps, quantum), quantum, j);
    }
  }

  /** The list part-way through a pass: positions before `i` have had their turn, one after another. */
  function CutPrefix(ps: seq<Process>, quantum: int, i: nat): (r: seq<Process>)
    requires i <= |ps|
    ensures |r| == |ps|
  {
    if i == 0 then ps else CutPrefix(ps, quantum, i - 1)[i - 1 := Cut(ps[i - 1], quantum)]
  }

  lemma {:induction false} CutPrefixAt(ps: seq<Process>, quantum: int, i: nat, j: nat)
    requires i <= |ps| && j < |ps|
    ensures CutPrefix(ps, quantum, i)[j] == if j < i then Cut(ps[j], quantum) else ps[j]
  {
    if i > 0 {
      CutPrefixAt(ps, quantum, i - 1, j);
    }
  }

  lemma {:induction false} CutPrefixStep(ps: seq<Process>, quantum: int, i: nat)
    requires i < |ps|
    ensures CutPrefix(ps, quantum, i)[i] == ps[i]
    ensures CutPrefix(ps, quantum, i)[i := Cut(ps[i], quantum)] == CutPrefix(ps, quantum, i + 1)
  {
    CutPrefixAt(ps, quantum, i, i);
  }

  /** A pass that has reached the end of the list is `AfterPass`. */
  lemma {:induction false} CutPrefixAll(ps: seq<Process>, quantum: int)
    ensures CutPrefix(ps, quantum, 0) == ps
    ensures CutPrefix(ps, quantum, |ps|) == AfterPass(ps, quantum)
  {
    forall j | 0 <= j < |ps|
      ensures CutPrefix(ps, quantum, |ps|)[j] == AfterPass(ps, quantum)[j]
    {
      CutPrefixAt(ps, quantum, |ps|, j);
    }
  }

  /** The names of the processes, in list order. */
  function Names(ps: seq<Process>): (r: seq<string>)
    ensures |r| == |ps| && forall j :: 0 <= j < |ps| ==> r[j] == ps[j].name
  {
    seq(|ps|, j requires 0 <= j < |ps| => ps[j].name)
  }

  lemma {:induction false} AfterPassNames(ps: seq<Process>, quantum: int)
    ensures Names(AfterPass(ps, quantum)) == Names(ps)
  {
  }

  /** Total length of the runs of process `j`. */
  function WorkOf(runs: seq<Run>, j: nat): int {
    if |runs| == 0 then 0
    else WorkOf(runs[..|runs| - 1], j) + (if runs[|runs| - 1].proc == j then runs[|runs| - 1].len else 0)
  }

  lemma {:induction false} WorkOfAppend(a: seq<Run>, b: seq<Run>, j: nat)
    ensures WorkOf(a + b, j) == WorkOf(a, j) + WorkOf(b, j)
  {
    if |b| > 0 {
      WorkOfAppend(a, b[..|b| - 1], j);
      assert (a + b)[..|a + b| - 1] == a + b[..|b| - 1];
    } else {
      assert a + b == a;
    }
  }

  lemma {:induction false} PassWork(ps: seq<Process>, quantum: int, i: nat, j: nat)
    requires i <= |ps| && quantum > 0
    ensures WorkOf(PassRuns(ps, quantum, i), j) ==
      if j < i && ps[j].remainingTime > 0 then Min(quantum, ps[j].remainingTime) else 0
  {
    if i > 0 {
      PassWork(ps, quantum, i - 1, j);
      var rem := ps[i - 1].remainingTime;
      var prev := PassRuns(ps, quantum, i - 1);
      if rem > 0 {
        var turn := Run(i - 1, Min(quantum, rem));
        assert PassRuns(ps, quantum, i) == prev + [turn];
        WorkOfAppend(prev, [turn], j);
        assert [turn][..0] == [];
        assert WorkOf([turn], j) == if j == i - 1 then Min(quantum, rem) else 0;
      } else {
        assert PassRuns(ps, quantum, i) == prev + [];
        assert prev + [] == prev;
      }
    }
  }

  /**
    Work conservation: under Round Robin each process runs, over all its
    slices, exactly its outstanding work (its remaining time if positive,
    otherwise not at all).
   */
  lemma {:induction false} RrWork(ps: seq<Process>, quantum: int, j: nat)
    requires quantum > 0 && j < |ps|
    ensures WorkOf(RrRuns(ps, quantum), j) == if ps[j].remainingTime > 0 then ps[j].remainingTime else 0
    decreases Outstanding(ps)
  {
    if AnyPending(ps) {
      PassProgress(ps, quantum);
      var after := AfterPass(ps, quantum);
      RrWork(after, quantum, j);
      PassWork(ps, quantum, |ps|, j);
      WorkOfAppend(PassRuns(ps, quantum, |ps|), RrRuns(after, quantum), j);
    } else {
      assert ps[j].remainingTime <= 0;
    }
  }

  /**
    With positive run lengths, a process's work is never negative, and it
    is zero exactly when the process has no run.
   */
  lemma {:induction false} WorkOfZero(runs: seq<Run>, j: nat)
    requires forall k :: 0 <= k < |runs| ==> runs[k].len > 0
    ensures WorkOf(runs, j) >= 0
    ensures WorkOf(runs, j) == 0 <==> forall k :: 0 <= k < |runs| ==> runs[k].proc != j
  {
    if |runs| > 0 {
      var init := runs[..|runs| - 1];
      WorkOfZero(init, j);
      assert forall k :: 0 <= k < |init| ==> init[k] == runs[k];
    }
  }

  /**
    Round Robin gives a process a slice exactly when its remaining time is
    positive: a process with nothing remaining is never run.
   */
  lemma {:induction false} RrSkipsDone(ps: seq<Process>, quantum: int, j: nat)
    requires quantum > 0 && j < |ps|
    ensures var runs := RrRuns(ps, quantum);
      ps[j].remainingTime > 0 <==> exists k :: 0 <= k < |runs| && runs[k].proc == j
  {
    RrWork(ps, quantum, j);
    WorkOfZero(RrRuns(ps, quantum), j);
  }
}
