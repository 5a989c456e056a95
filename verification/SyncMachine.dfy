/**
 `list-sync.c` as a step machine: any number of threads call the exported functions
 and interleave at every lock operation, every loop iteration and every clock tick.
 */
module SyncMachine {
  import opened Words
  import opened TaskInfo

  /**
   A node with what it stores (`info`) and its history: which allocation it came
   from, the true clock of its last stamp, how often a lookup hit it, and its place
   in the order of linking.
   */
  datatype Entry = Entry(node: nat, info: Info, at: nat, hits: nat, serial: nat)

  datatype Pc =
    | Idle
    // task_info_add_to_list
    | AddWant(pid: int)              // at the first write_lock
    | AddScan(pid: int, i: nat)      // in task_info_find_pid, write lock held
    | AddHit(pid: int, at: nat)      // refreshed at clock `at`, write lock held
    | AddMiss(pid: int)              // lookup failed, write lock held
    | AddAlloc(pid: int)             // lock dropped, before the allocation
    | AddHeld(e: Entry)              // allocated, at the second write_lock
    | AddLink(e: Entry)              // write lock held, before list_add
    | AddDone(linked: Info)          // write lock held, linked as it then was
    // task_info_print_list
    | PrintWant
    | PrintScan(i: nat, out: seq<(int, u64)>)
    | PrintDone(out: seq<(int, u64)>)
    // task_info_remove_expired; start, since and times are history
    | SweepWant
    | SweepScan(i: nat, start: seq<Entry>, since: nat, times: seq<nat>)
    | SweepDone(start: seq<Entry>, since: nat, times: seq<nat>)
    // task_info_purge_list; start and before, the list and the frees it found, are history
    | PurgeWant
    | PurgeScan(start: seq<Entry>, before: seq<nat>)
    | PurgeDone(start: seq<Entry>, before: seq<nat>)

  datatype Holder = Nobody | Thread(t: nat)

  datatype State = State(
    hz: nat,
    now: nat,                // the true clock
    list: seq<Entry>,        // the linked nodes, head first
    freed: seq<nat>,         // every kfree so far
    nodes: nat,              // allocations so far
    links: nat,              // list_add calls so far
    threads: seq<Pc>,
    writer: Holder,
    readers: set<nat>)

  datatype Op = Add(pid: int) | Print | Sweep | Purge

  datatype Action =
    | Tick(d: nat)           // the clock advances
    | Call(t: nat, op: Op)   // an idle thread enters a function
    | Go(t: nat)             // a thread makes its next step

  function Init(threads: nat, hz: nat, now: nat): State {
    State(hz, now, [], [], 0, 0, seq(threads, _ => Idle), Nobody, {})
  }

  predicate HoldsWrite(pc: Pc) {
    pc.AddScan? || pc.AddHit? || pc.AddMiss? || pc.AddLink? || pc.AddDone? || pc.SweepScan? || pc.SweepDone?
    || pc.PurgeScan? || pc.PurgeDone?
  }

  predicate HoldsRead(pc: Pc) {
    pc.PrintScan? || pc.PrintDone?
  }

  predicate WantsWrite(pc: Pc) {
    pc.AddWant? || pc.AddHeld? || pc.SweepWant? || pc.PurgeWant?
  }

  /** `write_lock` waits for everybody, `read_lock` for a writer only. */
  predicate Runnable(s: State, t: nat)
    requires t < |s.threads|
  {
    var pc := s.threads[t];
    && pc != Idle
    && (WantsWrite(pc) ==> s.writer == Nobody && s.readers == {})
    && (pc.PrintWant? ==> s.writer == Nobody)
  }

  function Entering(op: Op): Pc {
    match op
    case Add(pid) => AddWant(pid)
    case Print => PrintWant
    case Sweep => SweepWant
    case Purge => PurgeWant
  }

  predicate Enabled(s: State, a: Action) {
    match a
    case Tick(_) => true
    case Call(t, _) => t < |s.threads| && s.threads[t] == Idle
    case Go(t) => t < |s.threads| && Runnable(s, t)
  }

  function Apply(s: State, a: Action): State
    requires Enabled(s, a)
  {
    match a
    case Tick(d) => s.(now := s.now + d)
    case Call(t, op) => s.(threads := s.threads[t := Entering(op)])
    case Go(t) => Step(s, t)
  }

  function At(s: State, t: nat, pc: Pc): State
    requires t < |s.threads|
  {
    s.(threads := s.threads[t := pc])
  }

  function Locked(s: State, t: nat, pc: Pc): State
    requires t < |s.threads|
  {
    At(s, t, pc).(writer := Thread(t))
  }

  function Unlocked(s: State, t: nat, pc: Pc): State
    requires t < |s.threads|
  {
    At(s, t, pc).(writer := Nobody)
  }

  function Hit(e: Entry, now: nat): Entry {
    e.(info := Touch(e.info, now), at := now, hits := e.hits + 1)
  }

  /** `list_del` and `kfree` of the node at position i. */
  function Dropped(s: State, i: nat): State
    requires i < |s.list|
  {
    s.(list := s.list[..i] + s.list[i + 1..], freed := s.freed + [s.list[i].node])
  }

  function Step(s: State, t: nat): State
    requires t < |s.threads| && Runnable(s, t)
  {
    match s.threads[t]
    case AddWant(pid) => Locked(s, t, AddScan(pid, 0))
    case AddScan(pid, i) =>
      if i >= |s.list| then At(s, t, AddMiss(pid))
      else if s.list[i].info.pid == pid then At(s, t, AddHit(pid, s.now)).(list := s.list[i := Hit(s.list[i], s.now)])
      else At(s, t, AddScan(pid, i + 1))
    case AddHit(_, _) => Unlocked(s, t, Idle)
    case AddMiss(pid) => Unlocked(s, t, AddAlloc(pid))
    case AddAlloc(pid) =>
      At(s, t, AddHeld(Entry(s.nodes, Fresh(pid, s.now), s.now, 0, 0))).(nodes := s.nodes + 1)
    case AddHeld(e) => Locked(s, t, AddLink(e))
    case AddLink(e) =>
      At(s, t, AddDone(e.info)).(list := [e.(serial := s.links)] + s.list, links := s.links + 1)
    case AddDone(_) => Unlocked(s, t, Idle)
    case PrintWant => At(s, t, PrintScan(0, [])).(readers := s.readers + {t})
    case PrintScan(i, out) =>
      if i >= |s.list| then At(s, t, PrintDone(out))
      else At(s, t, PrintScan(i + 1, out + [(s.list[i].info.pid, s.list[i].info.timestamp)]))
    case PrintDone(_) => At(s, t, Idle).(readers := s.readers - {t})
    case SweepWant => Locked(s, t, SweepScan(0, s.list, s.now, []))
    case SweepScan(i, start, since, times) =>
      if i >= |s.list| then At(s, t, SweepDone(start, since, times))
      else if Expired(s.list[i].info, s.now, s.hz) then
        Dropped(At(s, t, SweepScan(i, start, since, times + [s.now])), i)
      else At(s, t, SweepScan(i + 1, start, since, times + [s.now]))
    case SweepDone(_, _, _) => Unlocked(s, t, Idle)
    case PurgeWant => Locked(s, t, PurgeScan(s.list, s.freed))
    case PurgeScan(start, before) =>
      if s.list == [] then At(s, t, PurgeDone(start, before)) else Dropped(s, 0)
    case PurgeDone(_, _) => Unlocked(s, t, Idle)
  }

  ghost predicate Next(s: State, s': State) {
    exists a :: Enabled(s, a) && s' == Apply(s, a)
  }

  /** A run of the machine: the states it passes through, from the empty list. */
  ghost predicate IsRun(threads: nat, hz: nat, run: seq<State>) {
    && run != []
    && (exists now: nat :: run[0] == Init(threads, hz, now))
    && forall i :: 0 <= i < |run| - 1 ==> Next(run[i], run[i + 1])
  }

  /** The states some run arrives at. */
  ghost predicate Reachable(threads: nat, hz: nat, s: State) {
    exists run :: IsRun(threads, hz, run) && run[|run| - 1] == s
  }

  lemma ReachableInit(threads: nat, hz: nat, now: nat)
    ensures Reachable(threads, hz, Init(threads, hz, now))
  {
    assert IsRun(threads, hz, [Init(threads, hz, now)]);
  }

  lemma RunReaches(threads: nat, hz: nat, run: seq<State>, i: nat)
    requires IsRun(threads, hz, run) && i < |run|
    ensures Reachable(threads, hz, run[i])
  {
    hide Next, Init;
    var part := run[..i + 1];
    forall k | 0 <= k < |part| - 1 ensures Next(part[k], part[k + 1]) {
      assert Next(run[k], run[k + 1]);
    }
    assert IsRun(threads, hz, part) && part[|part| - 1] == run[i];
  }

  lemma ReachableNext(threads: nat, hz: nat, s: State, a: Action)
    requires Reachable(threads, hz, s) && Enabled(s, a)
    ensures Reachable(threads, hz, Apply(s, a))
  {
    hide Apply, Enabled, Init;
    var run :| IsRun(threads, hz, run) && run[|run| - 1] == s;
    var more := run + [Apply(s, a)];
    forall i | 0 <= i < |more| - 1 ensures Next(more[i], more[i + 1]) {
      if i < |run| - 1 {
        assert Next(run[i], run[i + 1]);
      }
    }
    assert IsRun(threads, hz, more) && more[|more| - 1] == Apply(s, a);
  }
}
