# Virtual OS manager: process scheduling and memory allocation

This project models the simulation core of a small teaching "virtual OS
manager" (`main1.py`). The model covers two parts.

- **Process scheduling.** A `Scheduler` holds a list of processes and runs
  one of six policies over it: FCFS, SJF, Priority, Round Robin, SRTF and
  Multilevel Queue. Each run fills a timeline of `(name, start, end)`
  slices. Every policy except SRTF also writes a report with one line per
  slice; SRTF writes no report at all.
- **Contiguous memory allocation.** A `MemoryManager` keeps the memory
  as an address-ordered list of blocks. It places a request with First,
  Best or Worst Fit, splitting the chosen free block, and it shows the
  blocks as a table.

## Structure

- `lists.dfy` (module `Lists`) covers the Python built-ins that the
  policies rely on:
  - the stable `list.sort(key=…)`, proved sorted, a permutation and stable, with the leftmost minimum at its head;
  - `min(…, key=…)`, where the first of equal keys wins;
  - list-comprehension filters, written as positions.
- `processes.dfy` (module `Processes`) holds the `Process` record, `reset`,
  the ready set and the policy choice `Select`.
- `timelines.dfy` (module `Timelines`) lays runs out back to back on the
  clock. It gives the reference definitions for FCFS and for Round Robin
  pass by pass.
- `dispatching.dfy` (module `Dispatching`) is the reference definition of
  the three ready-set policies (SJF, Priority and SRTF) as the list of
  dispatches they make. It proves what those dispatches are.
- `scheduling.dfy` (module `Scheduling`) holds the `Scheduler` class. Its
  methods loop the way the source does, and each is proved equal to its
  reference definition.
- `memory.dfy` (module `Memory`) holds `MemoryBlock`, the placement
  policies and the `MemoryManager` class.
- `menu.dfy` (module `Menu`) covers how the window turns the policy menu's
  label into a scheduler method name, and how it runs the policy that name
  finds.

A process is a value. The scheduler's list is a `seq<Process>` that the
methods update by position. The source mutates shared `Process` objects,
but each list entry is a distinct object, so updating by position has the
same effect. The report text is modelled as a list of report lines, one
`Line(slice)` per slice plus the Multilevel Queue header. For every policy
except SRTF, `Reports` states that the lines are exactly the timeline's
slices. SRTF never writes to the report, so its report stays empty.

## Model

| member | source | states |
|---|---|---|
| Lists.Positions | main1.py:136 | the comprehension filter keeps exactly the positions whose element passes, in increasing order |
| Lists.LeftmostMin | main1.py:141-145 | `min(key=)` returns an element with the smallest key, and no earlier element has that key |
| Lists.SortBy | main1.py:34 | the sorted list has one entry per input entry; what it holds and in which order is stated by the three lemmas below |
| Lists.SortByPermutes | main1.py:34 | `sort(key=)` yields a list ordered by key that is a permutation of the input |
| Lists.SortByStable | main1.py:34 | the sort is stable: the elements with any one key keep their original relative order |
| Lists.SortByHead | main1.py:141 | the head of the sorted list is the leftmost element with the smallest key |
| Lists.InsertSorted | main1.py:34 | inserting into a sorted list keeps it sorted |
| Lists.InsertPermutes | main1.py:34 | inserting adds exactly that one element |
| Lists.InsertWithKey | main1.py:34 | an element is inserted ahead of the elements with its key, so an element from earlier in the input stays earlier |
| Processes.NewProcess | main1.py:9-17 | a new process keeps its given fields, has its whole burst remaining and is not completed |
| Processes.ResetProcess | main1.py:27-28 | a reset process is fresh (whole burst remaining, not completed) and otherwise unchanged |
| Processes.ResetAll | main1.py:26-28 | reset gives each process its burst back and clears `completed`, changing nothing else and keeping the order |
| Processes.ResetAllIdempotent | main1.py:25-30 | resetting twice is the same as resetting once, and leaves every process fresh |
| Processes.ResetAllAppend | main1.py:114 | resetting a concatenation resets each part |
| Processes.OfLevel | main1.py:112-113 | a level filter keeps only processes of that queue level, and keeps every process of that level |
| Processes.OfLevelAppend | main1.py:114 | filtering a concatenation filters each part |
| Processes.OfLevelExact | main1.py:112-113 | the filter keeps exactly the processes of that level, in list order: entry `k` is the process at the `k`-th position whose level matches |
| Processes.OfLevelResetAll | main1.py:110-113 | filtering by level commutes with reset |
| Processes.SelectInSpec | main1.py:48-50 | scanning a prefix finds nothing exactly when no process there is ready, and otherwise the first ready process with the smallest key |
| Processes.SelectIn | main1.py:48-50 | a choice among the first `n` processes is one of them; its meaning is stated by SelectInSpec |
| Processes.Select | main1.py:48-50 | the chosen process is a ready one: not completed and already arrived |
| Processes.SelectSpec | main1.py:98-100 | nothing is chosen exactly when the ready set is empty; otherwise the choice is the first ready process of least key |
| Processes.SelectIsLeftmostMin | main1.py:48-50 | the selection is `min(ready, key=…)` taken literally: nothing is selected exactly when the ready list is empty, and otherwise the selected process is the ready list's first smallest-key entry |
| Processes.ChosenUnique | main1.py:66-68 | at most one process meets the choice rule |
| Processes.SelectExact | main1.py:48-50 | `Select` returns `m` if and only if `m` meets the choice rule |
| Processes.CountDone | main1.py:45-47 | the completion count never exceeds the number of processes |
| Processes.CountDoneBelow | main1.py:47 | while fewer than all have completed, some process has not |
| Processes.CountDoneAll | main1.py:47 | once all have completed, each one has |
| Processes.CountDoneUpdate | main1.py:53-54 | replacing one process changes the count by exactly its change in `completed` |
| Processes.OutstandingUpdate | main1.py:101 | replacing one process changes the outstanding work by exactly its change in positive remaining time |
| Processes.LatestArrival | main1.py:57-58 | every process has arrived by the latest arrival time |
| Timelines.BusyAppend | main1.py:38 | the clock time of two run lists is the sum of their times |
| Timelines.Layout | main1.py:37-40 | laying runs out back to back gives one slice per run; LayoutShape states each slice |
| Timelines.LayoutShape | main1.py:37-40 | each slice names its process, starts where the previous one ended and lasts as long as its run |
| Timelines.LayoutSnoc | main1.py:37-40 | one more run adds one slice that starts at the current clock |
| Timelines.InOrder | main1.py:36-38 | FCFS runs each process once, in list order, for its whole burst |
| Timelines.InOrderStep | main1.py:36-40 | after `i` processes, FCFS's next slice starts at the sum of their bursts |
| Timelines.FcfsShape | main1.py:32-40 | under FCFS, slice `k` runs process `k` from where slice `k-1` ended for its burst |
| Timelines.Cut | main1.py:86-88 | a turn changes only the remaining time: nothing for a process without work, otherwise a strict decrease that stays at or above 0, and exactly one quantum when more than a quantum is left |
| Timelines.PassRuns | main1.py:83-88 | a Round Robin pass gives runs that are positive and no longer than the quantum |
| Timelines.AfterPass | main1.py:84-88 | after a pass, each process has lost up to a quantum of its remaining time |
| Timelines.BusyPositive | main1.py:86-87 | a non-empty list of positive runs advances the clock |
| Timelines.OutstandingBeforeIs | main1.py:82 | the outstanding work of a prefix, summed by position, equals that of its slice |
| Timelines.CutLeft | main1.py:86-88 | a process cut by a quantum keeps the positive part of what is left |
| Timelines.PassBusyStep | main1.py:84-87 | one more turn of a pass adds its run to the clock |
| Timelines.PassOutstanding | main1.py:84-88 | part of a pass lowers the outstanding work by exactly the time it ran |
| Timelines.PassNonEmpty | main1.py:82-84 | a pass over a process with work left runs at least once |
| Timelines.OutstandingNone | main1.py:82 | when nothing has work left, the outstanding work is zero |
| Timelines.PassProgress | main1.py:82-90 | each pass while work is left lowers the outstanding work by the time it ran, so the loop ends |
| Timelines.PassOutstandingAll | main1.py:83-90 | a whole pass lowers the outstanding work by exactly the time it ran |
| Timelines.PassBusy | main1.py:82-87 | a pass with work left advances the clock |
| Timelines.RrRuns | main1.py:82-90 | the Round Robin runs are positive and no longer than the quantum |
| Timelines.RrBusy | main1.py:78-90 | Round Robin ends at the total remaining work |
| Timelines.RrAfter | main1.py:82-88 | Round Robin keeps the list's length; RrFinal states each entry |
| Timelines.RrFinal | main1.py:82-88 | after Round Robin, every process with work has none left, and nothing else about it changed |
| Timelines.CutPrefix | main1.py:83-88 | the list part-way through a pass keeps its length; CutPrefixAt states each entry |
| Timelines.CutPrefixAt | main1.py:83-88 | partway through a pass, the processes already visited are cut and the rest are untouched |
| Timelines.CutPrefixStep | main1.py:83-88 | visiting position `i` cuts that process only |
| Timelines.CutPrefixAll | main1.py:83-88 | a pass starts from the list and ends at the list after the pass |
| Timelines.AfterPassNames | main1.py:83-88 | a pass keeps every process's name |
| Timelines.WorkOfAppend | main1.py:86-88 | the time a process runs over two run lists adds up |
| Timelines.PassWork | main1.py:84-88 | in a pass, a process with work runs for the quantum or for what it has left |
| Timelines.RrWork | main1.py:78-90 | under Round Robin, each process runs in total for exactly its remaining time |
| Timelines.WorkOfZero | main1.py:84-88 | when every run has positive length, a process's total work is never negative, and it is zero exactly when the process has no run |
| Timelines.RrSkipsDone | main1.py:84 | Round Robin runs a process exactly when its remaining time is positive, so a process with nothing remaining never gets a slice |
| Dispatching.TickKeeps | main1.py:100-106 | an SRTF tick keeps the tick invariant, lowers the outstanding work by one, and completes the process exactly when one unit was left |
| Dispatching.IdleBeforeLastArrival | main1.py:57-58 | the CPU idles only before the last arrival, so idling ends |
| Dispatching.Dispatch | main1.py:53 | a dispatch keeps the list's length; DispatchOnly states what changes |
| Dispatching.DispatchOnly | main1.py:101-106 | a dispatch changes only the chosen process and only its remaining time and completed flag: a run to completion marks it completed, a tick takes one unit off and completes it when none is left |
| Dispatching.DispatchProgress | main1.py:47-58 | every dispatch lowers the work still to do by one |
| Dispatching.Dispatches | main1.py:47-58 | the dispatch sequence names only processes of the list |
| Dispatching.DispatchAll | main1.py:53 | the list after a sequence of dispatches keeps its length; DispatchAllSnoc and DispatchAllCons apply the dispatches one at a time, in order, and DispatchFinal and TickFinal give the final list |
| Dispatching.DispatchAllSnoc | main1.py:53 | applying one more dispatch updates the state by that dispatch |
| Dispatching.DispatchStep | main1.py:48-56 | a dispatch at the current clock is the next entry of the whole sequence |
| Dispatching.DispatchesCons | main1.py:49-56 | when a process is chosen, the sequence starts with its slice from the current clock, and the rest follows from the updated list |
| Dispatching.DispatchesLength | main1.py:47-56 | each dispatch accounts for exactly one entry |
| Dispatching.OccurrencesCount | main1.py:50 | the count of a process among the dispatches equals its multiplicity |
| Dispatching.IdleStep | main1.py:57-58 | idling one unit does not change the sequence still to come |
| Dispatching.DispatchKeeps | main1.py:53 | a dispatch keeps every process's name, burst and arrival time |
| Dispatching.SliceAtHolds | main1.py:47-58 | the slice shape holds for every dispatch position |
| Dispatching.DispatchSliceAt | main1.py:51-56 | each dispatch runs its process for a whole burst (or one tick under SRTF), starting after it arrived and after the previous slice ended |
| Dispatching.DispatchChoiceAt | main1.py:48-50 | each dispatch is the choice rule applied to the list as it stood at that dispatch's start |
| Dispatching.IdleGapHolds | main1.py:57-58 | the idle-gap property holds for every dispatch position |
| Dispatching.IdleBeforeDispatch | main1.py:57-58 | in a gap before a dispatch, nothing in the list was ready |
| Dispatching.OnceEach | main1.py:47-56 | every process not yet completed is dispatched once, and a completed one never |
| Dispatching.DispatchedOnce | main1.py:47-56 | SJF and Priority run every pending process exactly once |
| Dispatching.TickedRemaining | main1.py:97-106 | SRTF gives each process exactly as many ticks as it had time remaining |
| Dispatching.FinishedHolds | main1.py:53 | the final-state property holds from any clock |
| Dispatching.DispatchFinal | main1.py:53 | after SJF or Priority, every process is completed and otherwise unchanged |
| Dispatching.TickFinal | main1.py:101-106 | after SRTF, every process has no time remaining and is completed |
| Scheduling.CountDoneNone | main1.py:28 | after a reset, nothing is completed |
| Scheduling.RrTurn | main1.py:85-90 | one Round Robin turn extends the reference timeline and the report by one slice |
| Scheduling.PassStep | main1.py:84-90 | a turn of a pass adds a slice (for the quantum or what is left) for a process with work, and nothing otherwise |
| Scheduling.RunStateDispatch | main1.py:49-56 | a non-preemptive dispatch keeps the loop invariant with the clock advanced by the burst and one more completed |
| Scheduling.RunStateTick | main1.py:99-106 | an SRTF tick keeps the loop invariant, advances the clock by one and lowers the outstanding work |
| Scheduling.RunStateIdle | main1.py:57-58 | an idle unit keeps the loop invariant and comes before the last arrival |
| Scheduling.Scheduler.constructor | main1.py:20-23 | a new scheduler has no processes, no report and no timeline |
| Scheduling.Scheduler.Reset | main1.py:25-30 | every process gets its burst back and is not completed, and the report and timeline are empty |
| Scheduling.Scheduler.Fcfs | main1.py:32-40 | the list is stably sorted by arrival, and each process runs once in that order, from where the previous one ended, for its burst; the report matches |
| Scheduling.Scheduler.RunInOrder | main1.py:35-40 | the loop produces the FCFS reference timeline and report |
| Scheduling.Scheduler.RunToCompletion | main1.py:44-58 | the loop produces exactly the reference dispatches, their timeline and report, and the final process list |
| Scheduling.Scheduler.DispatchNext | main1.py:48-58 | one loop step keeps the invariant and either completes a process or advances the clock toward the last arrival |
| Scheduling.Scheduler.RunProcess | main1.py:51-56 | a dispatch runs the process for its burst, completes it and appends its slice |
| Scheduling.Scheduler.Sjf | main1.py:42-58 | SJF produces the shortest-burst dispatches over the reset list |
| Scheduling.Scheduler.PriorityScheduling | main1.py:60-76 | Priority produces the smallest-priority-number dispatches over the reset list |
| Scheduling.Scheduler.RoundRobin | main1.py:78-90 | Round Robin produces the pass-by-pass reference timeline and report, and leaves no work |
| Scheduling.Scheduler.RunPasses | main1.py:82-90 | the outer loop runs passes until no process has work |
| Scheduling.Scheduler.RunPass | main1.py:83-90 | one pass cuts every process by a quantum and appends that pass's slices |
| Scheduling.Scheduler.PassTurn | main1.py:84-90 | one turn of the pass keeps the pass invariant |
| Scheduling.Scheduler.RunQuantum | main1.py:85-90 | a turn runs for the quantum or what is left, and appends its slice |
| Scheduling.Scheduler.Srtf | main1.py:92-108 | SRTF produces the one-tick least-remaining-time dispatches over the reset list and writes no report |
| Scheduling.Scheduler.RunTicks | main1.py:97-108 | the loop produces exactly the reference ticks and final list |
| Scheduling.Scheduler.TickNext | main1.py:98-108 | one loop step keeps the invariant, and either lowers the outstanding work or moves the clock toward the last arrival |
| Scheduling.Scheduler.TickProcess | main1.py:100-106 | a tick lowers the remaining time by one, appends a one-unit slice and reports when it completes the process |
| Scheduling.Scheduler.MultilevelQueue | main1.py:110-118 | the end state is FCFS over the reset level-2 processes: the Round Robin phase is wiped by the nested reset |
| Memory.Candidates | main1.py:136 | the candidates are exactly the free blocks large enough, in address order |
| Memory.FitOf | main1.py:140-143 | Best Fit and Worst Fit select their policy, and any other label means First Fit |
| Memory.Choose | main1.py:136-145 | a chosen block is free and large enough |
| Memory.FitsUnique | main1.py:140-145 | each policy's rule picks at most one block |
| Memory.SortedHead | main1.py:141-145 | the sorted candidates' head is the leftmost block with the least key |
| Memory.NoCandidates | main1.py:137-138 | no candidates means no block is free and large enough |
| Memory.FirstCandidate | main1.py:145 | the first candidate is the lowest-address fitting block |
| Memory.ChooseSpec | main1.py:136-145 | the choice fails exactly when no block fits; otherwise it is the first, smallest or largest fitting block, the leftmost on ties |
| Memory.ChooseExact | main1.py:136-145 | the choice is block `i` if and only if `i` meets the policy's rule |
| Memory.TilesSplice | main1.py:152 | replacing a block by pieces that tile it keeps the whole memory tiled |
| Memory.TilesAppend | main1.py:152 | adjacent tilings join into one |
| Memory.FreeSpaceAppend | main1.py:152 | free space adds up over concatenation |
| Memory.Pieces | main1.py:147-151 | a used block of the request's size at the chosen block's start, then a free leftover exactly when the block is larger, ending where the block ended |
| Memory.Place | main1.py:150-154 | the chosen block is replaced in place by its pieces, and every other block is unchanged and keeps its order |
| Memory.PiecesFit | main1.py:147-154 | the used block and any leftover tile the chosen block, with free space reduced by the request |
| Memory.PlaceTiles | main1.py:146-154 | placing a request keeps the blocks tiling the memory, puts the used block at the chosen index and lowers free space by the request |
| Memory.PlaceTagged | main1.py:147-154 | placing keeps "free exactly when no owner", and keeps sizes positive for a positive request |
| Memory.NegativeRequestGranted | main1.py:135-154 | as written, a request of negative size is granted and leaves a block of negative size |
| Memory.MemoryManager.constructor | main1.py:131-133 | memory starts as one free block covering the whole size |
| Memory.MemoryManager.Allocate | main1.py:135-156 | succeeds exactly when some block fits; on failure nothing changes, on success the policy's block is split and free space drops by the request |
| Memory.MemoryManager.FindBlock | main1.py:136-145 | returns the block the policy chooses, or none |
| Memory.MemoryManager.Split | main1.py:146-154 | replaces the chosen block by the used block and any leftover, keeping the tiling |
| Memory.MemoryManager.AllocateChecked | main1.py:135-156 | corrected allocation: refuses a non-positive request and otherwise does what `Allocate` does, keeping all sizes positive |
| Memory.MemoryManager.MemoryTable | main1.py:158-164 | one row per block, in order, with its start, size and free flag, and the owner as PID, or `-` for a free block |
| Memory.MemoryManager.TableRoundTrip | main1.py:158-164 | each row gives its block back, and a free block's row shows PID `-` |
| Menu.MethodName | main1.py:293 | the method name has the label's length |
| Menu.Lower | main1.py:293 | lower-casing turns a capital into the small letter at the same place in the alphabet, keeps every other character, and never yields a capital |
| Menu.MethodNameAt | main1.py:293 | the method name is the label with each space turned into `_` and each capital lower-cased, so it holds neither |
| Menu.Attribute | main1.py:19-110 | the lookup finds exactly the scheduler's eight methods, each only under its own name, and finds nothing under any other name |
| Menu.Resolve | main1.py:292-293 | a label finds a method exactly when that method's name is the label's method name |
| Menu.AttributeFixed | main1.py:293 | corrected, the name `priority` finds the Priority policy, and every other name finds what it found before |
| Menu.ResolveFixed | main1.py:293 | corrected, a label whose method name is `priority` runs the Priority policy, every other label calls what it called before, and a label finds a method exactly when it did before or its name is `priority` |
| Menu.FcfsName | main1.py:291-293 | the "FCFS" entry produces `fcfs` and calls the FCFS policy |
| Menu.SjfName | main1.py:291-293 | the "SJF" entry produces `sjf` and calls the SJF policy |
| Menu.RoundRobinName | main1.py:291-293 | the "Round Robin" entry produces `round_robin` and calls the Round Robin policy |
| Menu.SrtfName | main1.py:291-293 | the "SRTF" entry produces `srtf` and calls the SRTF policy |
| Menu.MultilevelQueueName | main1.py:291-293 | the "Multilevel Queue" entry produces `multilevel_queue` and calls the Multilevel Queue policy |
| Menu.LabelsResolve | main1.py:291-293 | as written, every menu entry except "Priority" calls the policy it stands for |
| Menu.PriorityLabelUnresolved | main1.py:293 | as written, the "Priority" menu entry names no scheduler method |
| Menu.PriorityName | main1.py:293 | the "Priority" entry produces the name `priority` |
| Menu.PriorityLabelResolves | main1.py:293 | corrected, "Priority" runs the Priority policy, and every label that already worked runs the same policy |
| Menu.ResetName | main1.py:293 | the typed text "Reset" produces the name `reset` |
| Menu.InitName | main1.py:293 | the typed text "__init__" produces the name `__init__` |
| Menu.TypedNamesResolve | main1.py:293 | typed into the editable policy box, "Reset" calls the scheduler's `reset` and "__init__" calls its `__init__` |
| Menu.RunCommand | main1.py:293 | calling a policy leaves the scheduler in that policy's reference result over the reset list, with Round Robin at its default quantum 2; `reset` leaves the reset list with an empty report and timeline, and `__init__` empties all three |
| Menu.RunLabel | main1.py:292-293 | the Run button succeeds exactly when the text in the policy box names one of the scheduler's eight methods, and then calls it; a failed lookup changes nothing |

## Left out

- The Tkinter window, its widgets, the progress bar and the message boxes are left out. The one exception is the Run button's lookup of the text in the policy box and the call it makes, which are in `Menu`.
- The window's `int()` parsing of user input is left out. Sizes and times are integers already.
- The file-management classes (`File` and `FileManager`) are left out. They are outside the scheduling and memory core.
- The report text's exact characters (the f-string formatting) are not modelled. A report is a list of lines, each carrying the slice it prints, plus the Multilevel Queue header.
- Object identity is modelled by list position. That is exact here, because every list entry is a distinct object. `blocks.index(selected)` is the chosen position.
- The loops are split into step methods. The placement in `allocate` is split into `FindBlock` and `Split`. Together they do what the one loop or function of the source does.
- Scheduling.Scheduler.Srtf requires every burst to be at least 1. With a burst of 0 or less, the source's loop never ends: the remaining time goes negative, so the process never completes.
- Menu.RunCommand and Menu.RunLabel carry the same requirement when they run SRTF, for the same reason.
- Scheduling.Scheduler.RoundRobin requires a positive quantum. The source only ever passes 2. With a quantum of 0 or less, the source's loop never ends once some process has a positive burst.
- Menu.Lower lower-cases ASCII letters only, where Python also lower-cases other letters. The six menu labels are ASCII. A typed non-ASCII letter stays as it is in the model, so the lookup fails. In Python, the only non-ASCII letter that lower-cases to an ASCII letter is the Kelvin sign, which becomes `k`. No scheduler method name has a `k`, so the lookup fails either way.
- Menu.RunLabel finds only the scheduler's own methods: the six policies, `reset` and `__init__`. The attributes every Python object inherits (such as `__str__` or `__class__`) are not modelled. Typing one of those names either raises an error or returns without touching the scheduler's three fields.
- Integers are unbounded, as Python's are.

## Findings

| source | as written | input that shows it | evidently intended | confidence | as-written member | corrected member |
|---|---|---|---|---|---|---|
| main1.py:135-154 | `allocate` never checks that the request is positive | one free block of 1000 units and a request of -100 | a request of size 0 or less is refused, so every block keeps a positive size | not executed | Memory.NegativeRequestGranted | Memory.MemoryManager.AllocateChecked |
| main1.py:293 | the method name is the label lower-cased with spaces replaced by `_`, so "Priority" looks up `priority`, which the scheduler lacks (its method is `priority_scheduling`) | choosing "Priority" in the policy menu | "Priority" runs `priority_scheduling` | not executed | Menu.PriorityLabelUnresolved | Menu.PriorityLabelResolves |
