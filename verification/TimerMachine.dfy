/**
 `timer.c` as a step machine: any number of ioctl callers, the timer, its handler, the
 work item and the tasks of the system interleave between every two accesses.
 */
module TimerMachine {
  import opened TimerDevice

  datatype Caller =
    | Idle
    | MonLock(task: nat)     // reference taken, at spin_lock_bh
    | MonAdd(task: nat)      // lock held, before list_add
    | MonUnlock              // lock held, after list_add
    | MonStore               // before the store of the flag
    | Arming                 // flag stored, before mod_timer

  datatype Handler =
    | Waiting
    | Fired                  // timer no longer pending, before the flag is read
    | ScanLock               // at spin_lock_irqsave
    // at the loop test; start, dead0, keeps and puts0 are history
    | Scanning(i: nat, start: seq<nat>, dead0: set<nat>, keeps: seq<bool>, puts0: nat)
    | ScanUnlock(start: seq<nat>, dead0: set<nat>, keeps: seq<bool>, puts0: nat)

  datatype Holder = Nobody | TheHandler | TheCaller(c: nat)

  /** The flag that a dispatch read and the number of stores before it. */
  datatype Dispatched = Dispatched(flag: Flag, after: nat)

  datatype Counts = Counts(
    arms: nat, fires: nat, overwritten: nat, cancels: nat,
    allocFires: nat, workRuns: nat, coalesced: nat, workCancels: nat,
    gets: nat, puts: nat, scans: nat)

  datatype State = State(
    flag: Flag,
    armed: bool,
    work: bool,
    list: seq<nat>,               // the monitored tasks
    held: multiset<nat>,          // the references the driver holds
    lock: Holder,
    callers: seq<Caller>,
    handler: Handler,
    pids: map<int, nat>,          // the kernel's own references: findable tasks
    tasks: nat,                   // tasks created so far
    dead: set<nat>,
    stores: seq<Flag>,            // every store to the flag
    dispatches: seq<Dispatched>,  // every dispatch of the handler
    counts: Counts,
    exited: bool)

  datatype Action =
    // the system
    | Spawn(pid: int) | Die(task: nat) | Reap(pid: int)
    // a caller enters timer_ioctl
    | IoctlSet(c: nat) | IoctlAlloc(c: nat) | IoctlCancel(c: nat) | IoctlMonitor(c: nat, pid: int, memory: bool)
    | Go(c: nat)
    // timer, handler, work item, module exit
    | Fire | Handle | RunWork | Exit

  function Init(callers: nat): State {
    State(FlagNone, false, false, [], multiset{}, Nobody, seq(callers, _ => Idle), Waiting, map[], 0, {}, [], [],
          Counts(0, 0, 0, 0, 0, 0, 0, 0, 0, 0, 0), false)
  }

  predicate Enabled(s: State, a: Action) {
    match a
    case Spawn(pid) => pid !in s.pids
    case Die(t) => t < s.tasks
    case Reap(pid) => pid in s.pids && s.pids[pid] in s.dead
    case IoctlSet(c) => !s.exited && c < |s.callers| && s.callers[c].Idle?
    case IoctlAlloc(c) => !s.exited && c < |s.callers| && s.callers[c].Idle?
    case IoctlCancel(c) => !s.exited && c < |s.callers| && s.callers[c].Idle?
    case IoctlMonitor(c, _, _) => !s.exited && c < |s.callers| && s.callers[c].Idle?
    case Go(c) => c < |s.callers| && !s.callers[c].Idle? && (s.callers[c].MonLock? ==> s.lock == Nobody)
    case Fire => s.armed && s.handler.Waiting?
    case Handle => !s.handler.Waiting? && (s.handler.ScanLock? ==> s.lock == Nobody)
    case RunWork => s.work
    case Exit => !s.exited && s.handler.Waiting? && forall c :: 0 <= c < |s.callers| ==> s.callers[c].Idle?
  }

  function At(s: State, c: nat, pc: Caller): State
    requires c < |s.callers|
  {
    s.(callers := s.callers[c := pc])
  }

  function Stored(s: State, flag: Flag): State {
    s.(flag := flag, stores := s.stores + [flag])
  }

  /** `mod_timer`: arming a pending timer overwrites its expiry. */
  function ModTimer(s: State): State {
    var n := s.counts;
    s.(armed := true, counts := n.(arms := n.arms + 1, overwritten := n.overwritten + if s.armed then 1 else 0))
  }

  /** `del_timer` has an effect on a pending timer only. */
  function DelTimer(s: State): State {
    var n := s.counts;
    s.(armed := false, counts := n.(cancels := n.cancels + if s.armed then 1 else 0))
  }

  function ScheduleWork(s: State): State {
    var n := s.counts;
    s.(work := true,
       counts := n.(allocFires := n.allocFires + 1, coalesced := n.coalesced + if s.work then 1 else 0))
  }

  function GetTask(s: State, t: nat): State {
    s.(held := s.held + multiset{t}, counts := s.counts.(gets := s.counts.gets + 1))
  }

  /** `put_task_struct`, `list_del` and `kfree` for the node at position i. */
  function Release(s: State, i: nat): State
    requires i < |s.list|
  {
    s.(held := s.held - multiset{s.list[i]}, list := s.list[..i] + s.list[i + 1..],
       counts := s.counts.(puts := s.counts.puts + 1))
  }

  function StepCaller(s: State, c: nat): State
    requires Enabled(s, Go(c))
  {
    match s.callers[c]
    case MonLock(t) => At(s, c, MonAdd(t)).(lock := TheCaller(c))
    case MonAdd(t) => At(s, c, MonUnlock).(list := [t] + s.list)
    case MonUnlock => At(s, c, MonStore).(lock := Nobody)
    case MonStore => Stored(At(s, c, Arming), FlagMonitor)
    case Arming => ModTimer(At(s, c, Idle))
  }

  /** `timer_handler` reads the flag. */
  function Dispatch(s: State): State {
    var s' := s.(dispatches := s.dispatches + [Dispatched(s.flag, |s.stores|)], handler := Waiting);
    match s.flag
    case FlagAlloc => ScheduleWork(s')
    case FlagMonitor => s'.(handler := ScanLock)
    case _ => s'
  }

  function StepHandler(s: State): State
    requires Enabled(s, Handle)
  {
    match s.handler
    case Fired => Dispatch(s)
    case ScanLock =>
      s.(lock := TheHandler, handler := Scanning(0, s.list, s.dead, [], s.counts.puts),
         counts := s.counts.(scans := s.counts.scans + 1))
    case Scanning(i, start, dead0, keeps, puts0) =>
      if i >= |s.list| then s.(handler := ScanUnlock(start, dead0, keeps, puts0))
      else if s.list[i] in s.dead then Release(s, i).(handler := Scanning(i, start, dead0, keeps + [false], puts0))
      else s.(handler := Scanning(i + 1, start, dead0, keeps + [true], puts0))
    case ScanUnlock(_, _, _, _) => s.(lock := Nobody, handler := Waiting)
  }

  /** The teardown loop over the monitor list. */
  function ReleaseAll(s: State): (s': State)
    ensures s' == s.(held := s'.held, list := [], counts := s.counts.(puts := s'.counts.puts))
    ensures s'.counts.puts == s.counts.puts + |s.list|
    decreases |s.list|
  {
    if s.list == [] then s else ReleaseAll(Release(s, 0))
  }

  /** `deferred_exit` up to its loop: `del_timer` and `cancel_work_sync`. */
  function ExitStart(s: State): State {
    var s' := DelTimer(s);
    var n := s'.counts;
    s'.(exited := true, work := false, counts := n.(workCancels := n.workCancels + if s.work then 1 else 0))
  }

  function Next(s: State, a: Action): State
    requires Enabled(s, a)
  {
    match a
    case Spawn(pid) => s.(pids := s.pids[pid := s.tasks], tasks := s.tasks + 1)
    case Die(t) => s.(dead := s.dead + {t})
    case Reap(pid) => s.(pids := s.pids - {pid})
    case IoctlSet(c) => Stored(At(s, c, Arming), FlagSet)
    case IoctlAlloc(c) => Stored(At(s, c, Arming), FlagAlloc)
    case IoctlCancel(c) => DelTimer(s)
    case IoctlMonitor(c, pid, memory) =>
      // get_proc: -ESRCH, -ENOMEM, or a reference
      if pid !in s.pids || !memory then s else GetTask(At(s, c, MonLock(s.pids[pid])), s.pids[pid])
    case Go(c) => StepCaller(s, c)
    case Fire => s.(armed := false, handler := Fired, counts := s.counts.(fires := s.counts.fires + 1))
    case Handle => StepHandler(s)
    case RunWork => s.(work := false, counts := s.counts.(workRuns := s.counts.workRuns + 1))
    case Exit => ReleaseAll(ExitStart(s))
  }

  /** The state after a schedule of actions. */
  ghost predicate Leads(s: State, acts: seq<Action>, s': State)
    decreases |acts|
  {
    if acts == [] then s' == s else Enabled(s, acts[0]) && Leads(Next(s, acts[0]), acts[1..], s')
  }
}
