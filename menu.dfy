/**
  How the scheduler window runs a policy: the text in the policy box (one
  of the menu's labels, or whatever the user typed there) is lower-cased,
  its spaces become underscores, and the scheduler method of that name is
  looked up and called.
 */
module Menu {
  import opened Lists
  import opened Processes
  import opened Timelines
  import opened Dispatching
  import opened Scheduling

  /**
    The scheduler's own methods, which a name typed into the (editable)
    policy box can reach: the six policies, `reset` and `__init__`.
   */
  datatype Command = Fcfs | Sjf | PriorityScheduling | RoundRobin | Srtf | MultilevelQueue | Reset | Init

  /** The policy menu. */
  const Labels: seq<string> := ["FCFS", "SJF", "Priority", "Round Robin", "SRTF", "Multilevel Queue"]

  /** The policy each menu entry stands for, in menu order. */
  const Policies: seq<Command> := [Fcfs, Sjf, PriorityScheduling, RoundRobin, Srtf, MultilevelQueue]

  /** The name under which the scheduler defines each method. */
  function Name(cmd: Command): string {
    match cmd
    case Fcfs => "fcfs"
    case Sjf => "sjf"
    case PriorityScheduling => "priority_scheduling"
    case RoundRobin => "round_robin"
    case Srtf => "srtf"
    case MultilevelQueue => "multilevel_queue"
    case Reset => "reset"
    case Init => "__init__"
  }

  /**
    Lower-casing of one character, for ASCII letters: a capital becomes
    the small letter at the same place in the alphabet, and every other
    character is kept.
   */
  function Lower(c: char): (r: char)
    ensures !('A' <= r <= 'Z')
    ensures 'A' <= c <= 'Z' ==> 'a' <= r <= 'z' && r as int - 'a' as int == c as int - 'A' as int
    ensures !('A' <= c <= 'Z') ==> r == c
  {
    if 'A' <= c <= 'Z' then (c as int + 32) as char else c
  }

  /** `label.lower().replace(" ", "_")`. */
  function MethodName(text: string): (r: string)
    ensures |r| == |text|
  {
    if |text| == 0 then []
    else [if text[0] == ' ' then '_' else Lower(text[0])] + MethodName(text[1..])
  }

  /**
    The method name is the label character by character, with each space
    turned into `_` and each capital lower-cased: it holds no space and no
    capital.
   */
  lemma {:induction false} MethodNameAt(text: string)
    ensures var r := MethodName(text);
      (forall i :: 0 <= i < |text| ==> r[i] == if text[i] == ' ' then '_' else Lower(text[i])) &&
      (forall i :: 0 <= i < |r| ==> r[i] != ' ' && !('A' <= r[i] <= 'Z'))
  {
    if |text| > 0 {
      MethodNameAt(text[1..]);
      assert forall i :: 1 <= i < |text| ==> text[i] == text[1..][i - 1];
    }
  }

  /**
    The scheduler method of a name, if the scheduler has one: exactly the
    eight methods are found, each under its own name.
   */
  function Attribute(name: string): (r: Option<Command>)
    ensures r.Some? ==> Name(r.value) == name
    ensures r.None? ==> forall cmd :: Name(cmd) != name
  {
    if name == "fcfs" then Some(Fcfs)
    else if name == "sjf" then Some(Sjf)
    else if name == "priority_scheduling" then Some(PriorityScheduling)
    else if name == "round_robin" then Some(RoundRobin)
    else if name == "srtf" then Some(Srtf)
    else if name == "multilevel_queue" then Some(MultilevelQueue)
    else if name == "reset" then Some(Reset)
    else if name == "__init__" then Some(Init)
    else None
  }

  /**
    The scheduler method a label calls, as written; `None` is the failed
    lookup. A method is found exactly when its name is the label's method
    name.
   */
  function Resolve(text: string): (r: Option<Command>)
    ensures r.Some? ==> Name(r.value) == MethodName(text)
    ensures r.None? ==> forall cmd :: Name(cmd) != MethodName(text)
  {
    Attribute(MethodName(text))
  }

  /**
    As written, the menu entry "Priority" names no scheduler method: its
    method name is `priority`, and the scheduler has no method of that name.
   */
  lemma {:induction false} PriorityLabelUnresolved()
    ensures Labels[2] == "Priority" && Resolve(Labels[2]) == None
  {
    PriorityName();
  }

  /** The method name the "Priority" entry produces. */
  lemma {:induction false} PriorityName()
    ensures MethodName("Priority") == "priority"
  {
    assert "Priority"[1..] == "riority";
    assert "riority"[1..] == "iority";
    assert "iority"[1..] == "ority";
    assert "ority"[1..] == "rity";
    assert "rity"[1..] == "ity";
    assert "ity"[1..] == "ty";
    assert "ty"[1..] == "y";
    assert "y"[1..] == "";
  }

  /**
    The scheduler's methods with Priority also reachable by the name its
    menu entry produces: `priority` finds the Priority policy, and every
    other name finds what it found before.
   */
  function AttributeFixed(name: string): (r: Option<Command>)
    ensures name == "priority" ==> r == Some(PriorityScheduling)
    ensures name != "priority" ==> r == Attribute(name)
    ensures r.Some? ==> Name(r.value) == name || (name == "priority" && r.value == PriorityScheduling)
  {
    if name == "priority" then Some(PriorityScheduling) else Attribute(name)
  }

  /** The method name the typed text "Reset" produces. */
  lemma {:induction false} ResetName()
    ensures MethodName("Reset") == "reset"
  {
    assert "Reset"[1..] == "eset";
    assert "eset"[1..] == "set";
    assert "set"[1..] == "et";
    assert "et"[1..] == "t";
    assert "t"[1..] == "";
  }

  /** The method name the typed text "__init__" produces. */
  lemma {:induction false} InitName()
    ensures MethodName("__init__") == "__init__"
  {
    assert "__init__"[1..] == "_init__";
    assert "_init__"[1..] == "init__";
    assert "init__"[1..] == "nit__";
    assert "nit__"[1..] == "it__";
    assert "it__"[1..] == "t__";
    assert "t__"[1..] == "__";
    assert "__"[1..] == "_";
    assert "_"[1..] == "";
  }

  /** Typed into the policy box, "Reset" calls `reset` and "__init__" calls `__init__`. */
  lemma {:induction false} TypedNamesResolve()
    ensures Resolve("Reset") == Some(Reset)
    ensures Resolve("__init__") == Some(Init)
  {
    ResetName();
    InitName();
  }

  /**
    The scheduler method a label calls, corrected: a label whose method
    name is `priority` runs the Priority policy, and every other label
    calls what it called before.
   */
  function ResolveFixed(text: string): (r: Option<Command>)
    ensures MethodName(text) == "priority" ==> r == Some(PriorityScheduling)
    ensures MethodName(text) != "priority" ==> r == Resolve(text)
    ensures r.Some? <==> Resolve(text).Some? || MethodName(text) == "priority"
  {
    AttributeFixed(MethodName(text))
  }

  /** The method name the "FCFS" entry produces, and the policy it calls. */
  lemma {:induction false} FcfsName(entry: string)
    requires entry == "FCFS"
    ensures MethodName(entry) == "fcfs"
    ensures Resolve(entry) == Some(Fcfs)
  {
    MethodNameAt(entry);
    var r := MethodName(entry);
    assert r[0] == 'f' && r[1] == 'c' && r[2] == 'f' && r[3] == 's';
  }

  /** The method name the "SJF" entry produces, and the policy it calls. */
  lemma {:induction false} SjfName(entry: string)
    requires entry == "SJF"
    ensures MethodName(entry) == "sjf"
    ensures Resolve(entry) == Some(Sjf)
  {
    MethodNameAt(entry);
    var r := MethodName(entry);
    assert r[0] == 's' && r[1] == 'j' && r[2] == 'f';
  }

  /** The method name the "Round Robin" entry produces, and the policy it calls. */
  lemma {:induction false} RoundRobinName(entry: string)
    requires entry == "Round Robin"
    ensures MethodName(entry) == "round_robin"
    ensures Resolve(entry) == Some(RoundRobin)
  {
    MethodNameAt(entry);
    var r := MethodName(entry);
    assert r[0] == 'r' && r[1] == 'o' && r[2] == 'u' && r[3] == 'n' && r[4] == 'd' && r[5] == '_';
    assert r[6] == 'r' && r[7] == 'o' && r[8] == 'b' && r[9] == 'i' && r[10] == 'n';
  }

  /** The method name the "SRTF" entry produces, and the policy it calls. */
  lemma {:induction false} SrtfName(entry: string)
    requires entry == "SRTF"
    ensures MethodName(entry) == "srtf"
    ensures Resolve(entry) == Some(Srtf)
  {
    MethodNameAt(entry);
    var r := MethodName(entry);
    assert r[0] == 's' && r[1] == 'r' && r[2] == 't' && r[3] == 'f';
  }

  /** The method name the "Multilevel Queue" entry produces, and the policy it calls. */
  lemma {:induction false} MultilevelQueueName(entry: string)
    requires entry == "Multilevel Queue"
    ensures MethodName(entry) == "multilevel_queue"
    ensures Resolve(entry) == Some(MultilevelQueue)
  {
    MethodNameAt(entry);
    var r := MethodName(entry);
    assert r[0] == 'm' && r[1] == 'u' && r[2] == 'l' && r[3] == 't' && r[4] == 'i' && r[5] == 'l';
    assert r[6] == 'e' && r[7] == 'v' && r[8] == 'e' && r[9] == 'l' && r[10] == '_' && r[11] == 'q';
    assert r[12] == 'u' && r[13] == 'e' && r[14] == 'u' && r[15] == 'e';
  }

  /** As written, every menu entry except "Priority" calls the policy it stands for. */
  lemma {:induction false} LabelsResolve()
    ensures Resolve(Labels[0]) == Some(Policies[0])
    ensures Resolve(Labels[1]) == Some(Policies[1])
    ensures Resolve(Labels[3]) == Some(Policies[3])
    ensures Resolve(Labels[4]) == Some(Policies[4])
    ensures Resolve(Labels[5]) == Some(Policies[5])
  {
    FcfsName(Labels[0]);
    SjfName(Labels[1]);
    RoundRobinName(Labels[3]);
    SrtfName(Labels[4]);
    MultilevelQueueName(Labels[5]);
  }

  /**
    Corrected, the "Priority" entry runs the Priority policy, and every
    label that already called a method calls the same one.
   */
  lemma {:induction false} PriorityLabelResolves()
    ensures ResolveFixed(Labels[2]) == Some(PriorityScheduling)
    ensures forall text :: Resolve(text).Some? ==> ResolveFixed(text) == Resolve(text)
  {
    PriorityName();
  }

  /**
    What calling `cmd` leaves in the scheduler. A policy leaves its
    reference result over the reset list; the window calls the method with
    no arguments, so Round Robin runs with its default quantum 2. `reset`
    leaves the reset list, and `__init__` empties the scheduler again.
   */
  twostate predicate CommandRan(s: Scheduler, cmd: Command)
    reads s
  {
    var ps := ResetAll(old(s.processes));
    match cmd
    case Fcfs =>
      s.processes == SortBy(ps, ArrivalOf) && s.timeline == Layout(s.processes, InOrder(s.processes)) &&
      Reports(s.output, s.timeline)
    case Sjf =>
      s.processes == DispatchAll(ps, Dispatches(ps, 0, ByBurst, false), false) &&
      s.timeline == SlicesOf(Dispatches(ps, 0, ByBurst, false)) && Reports(s.output, s.timeline)
    case PriorityScheduling =>
      s.processes == DispatchAll(ps, Dispatches(ps, 0, ByPriority, false), false) &&
      s.timeline == SlicesOf(Dispatches(ps, 0, ByPriority, false)) && Reports(s.output, s.timeline)
    case RoundRobin =>
      s.processes == RrAfter(ps, 2) && s.timeline == Layout(ps, RrRuns(ps, 2)) && Reports(s.output, s.timeline)
    case Srtf =>
      Ticking(ps) && s.processes == DispatchAll(ps, Dispatches(ps, 0, ByRemaining, true), true) &&
      s.timeline == SlicesOf(Dispatches(ps, 0, ByRemaining, true)) && s.output == []
    case MultilevelQueue =>
      s.processes == SortBy(ResetAll(OfLevel(old(s.processes), 2)), ArrivalOf) &&
      s.timeline == Layout(s.processes, InOrder(s.processes)) && Reports(s.output, s.timeline)
    case Reset =>
      s.processes == ps && s.output == [] && s.timeline == []
    case Init =>
      s.processes == [] && s.output == [] && s.timeline == []
  }

  /** Calls one method of the scheduler; `__init__` reassigns the three fields. */
  method RunCommand(s: Scheduler, cmd: Command)
    requires cmd == Srtf ==> forall j :: 0 <= j < |s.processes| ==> s.processes[j].burstTime >= 1
    modifies s
    ensures CommandRan(s, cmd)
  {
    match cmd
    case Fcfs => s.Fcfs();
    case Sjf => s.Sjf();
    case PriorityScheduling => s.PriorityScheduling();
    case RoundRobin => s.RoundRobin();
    case Srtf => s.Srtf();
    case MultilevelQueue => s.MultilevelQueue();
    case Reset => s.Reset();
    case Init =>
      s.processes := [];
      s.output := [];
      s.timeline := [];
  }

  /**
    The Run button: the text in the policy box is turned into a method
    name and that method is called. When the scheduler has no method of
    that name the lookup fails before anything runs, and nothing changes.
   */
  method RunLabel(s: Scheduler, text: string) returns (ok: bool)
    requires Resolve(text) == Some(Srtf) ==> forall j :: 0 <= j < |s.processes| ==> s.processes[j].burstTime >= 1
    modifies s
    ensures ok <==> Resolve(text).Some?
    ensures !ok ==> s.processes == old(s.processes) && s.output == old(s.output) && s.timeline == old(s.timeline)
    ensures ok ==> CommandRan(s, Resolve(text).value)
  {
    var cmd := Resolve(text);
    if cmd.None? {
      return false;
    }
    RunCommand(s, cmd.value);
    ok := true;
  }
}
