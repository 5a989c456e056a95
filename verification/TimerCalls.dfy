/**
 What the ioctls and the handler of the timer driver bring about: on every run each stored
 flag is followed by its arming and each dispatch does what its flag says; undisturbed,
 a call of the step machine has the effect of the call on the heap.
 */
module TimerCalls {
  import opened Masks
  import opened Counting
  import opened TimerDevice
  import opened TimerMachine
  import opened TimerInvariants

  // ---------- every store is armed, every dispatch does its work ----------

  function BeforeArming(): Caller -> bool {
    (pc: Caller) => pc.Arming?
  }

  /** A monitor ioctl after `list_add` and before its store. */
  function BeforeStore(): Caller -> bool {
    (pc: Caller) => pc.MonUnlock? || pc.MonStore?
  }

  function IsFlag(flag: Flag): Flag -> bool {
    (f: Flag) => f == flag
  }

  function To(flag: Flag): Dispatched -> bool {
    (d: Dispatched) => d.flag == flag
  }

  ghost predicate StoreInv(s: State) {
    && |s.stores| == s.counts.arms + Count(s.callers, BeforeArming())
    && |s.list| + s.counts.puts == Count(s.stores, IsFlag(FlagMonitor)) + Count(s.callers, BeforeStore())
  }

  ghost predicate DispatchInv(s: State) {
    && s.counts.allocFires == Count(s.dispatches, To(FlagAlloc))
    && s.counts.scans + One(s.handler.ScanLock?) == Count(s.dispatches, To(FlagMonitor))
    && (s.handler.ScanLock? || HandlerInside(s.handler) ==>
          s.dispatches != [] && s.dispatches[|s.dispatches| - 1].flag == FlagMonitor)
  }

  lemma SameStores(s: State, s': State)
    requires StoreInv(s) && s'.stores == s.stores && s'.counts.arms == s.counts.arms && s'.callers == s.callers
    requires |s'.list| + s'.counts.puts == |s.list| + s.counts.puts
    ensures StoreInv(s')
  {
  }

  /** How a caller that enters an ioctl or makes a step moves the two ledgers. */
  lemma MovesStores(s: State, s': State, c: nat)
    requires StoreInv(s) && c < |s.callers| && |s'.callers| == |s.callers|
    requires s'.callers == s.callers[c := s'.callers[c]]
    requires var pc, pc' := s.callers[c], s'.callers[c];
             && (s'.stores == s.stores || exists f :: s'.stores == s.stores + [f])
             && |s'.stores| - |s.stores|
                  == s'.counts.arms - s.counts.arms + One(pc'.Arming?) - One(pc.Arming?)
             && One(|s'.stores| > |s.stores| && s'.stores[|s.stores|] == FlagMonitor)
                  == |s'.list| + s'.counts.puts - |s.list| - s.counts.puts
                     - One(BeforeStore()(pc')) + One(BeforeStore()(pc))
    ensures StoreInv(s')
  {
    CountUpdate(s.callers, c, s'.callers[c], BeforeArming());
    CountUpdate(s.callers, c, s'.callers[c], BeforeStore());
    if f :| s'.stores == s.stores + [f] {
      CountNext(s.stores, f, IsFlag(FlagMonitor));
    }
  }

  lemma CountNext<T>(xs: seq<T>, x: T, f: T -> bool)
    ensures Count(xs + [x], f) == Count(xs, f) + One(f(x))
  {
    CountConcat(xs, [x], f);
    CountConcat([], [x], f);
  }

  /** The two ledgers across one step of a caller. */
  lemma CallerMoves(s: State, c: nat)
    requires Enabled(s, Go(c))
    ensures var s' := StepCaller(s, c); var pc, pc' := s.callers[c], s'.callers[c];
            && s'.callers == s.callers[c := pc'] && s'.counts.puts == s.counts.puts
            && s'.counts.arms == s.counts.arms + One(pc.Arming?)
            && s'.stores == (if pc.MonStore? then s.stores + [FlagMonitor] else s.stores)
            && |s'.list| == |s.list| + One(pc.MonAdd?)
            && pc'.Arming? == pc.MonStore?
            && BeforeStore()(pc') == (pc.MonAdd? || pc.MonUnlock?)
  {
    match s.callers[c]
    case MonLock(_) =>
    case MonAdd(_) =>
    case MonUnlock =>
    case MonStore =>
    case Arming =>
  }

  lemma CallerStores(s: State, c: nat)
    requires StoreInv(s) && Enabled(s, Go(c))
    ensures StoreInv(StepCaller(s, c))
  {
    hide StoreInv, StepCaller;
    CallerMoves(s, c);
    MovesStores(s, StepCaller(s, c), c);
  }

  lemma HandlerMoves(s: State)
    requires Enabled(s, Handle)
    ensures var s' := StepHandler(s);
            && s'.stores == s.stores && s'.counts.arms == s.counts.arms && s'.callers == s.callers
            && |s'.list| + s'.counts.puts == |s.list| + s.counts.puts
  {
    hide Release, Dispatch;
    match s.handler
    case Fired => DispatchMoves(s);
    case ScanLock =>
    case Scanning(i, _, _, _, _) =>
      if i < |s.list| {
        ReleaseMoves(s, i);
      }
    case ScanUnlock(_, _, _, _) =>
  }

  lemma DispatchMoves(s: State)
    ensures var s' := Dispatch(s);
            && s'.stores == s.stores && s'.counts.arms == s.counts.arms && s'.callers == s.callers
            && s'.list == s.list && s'.counts.puts == s.counts.puts
  {
  }

  lemma ReleaseMoves(s: State, i: nat)
    requires i < |s.list|
    ensures var s' := Release(s, i);
            && s'.stores == s.stores && s'.counts.arms == s.counts.arms && s'.callers == s.callers
            && |s'.list| + s'.counts.puts == |s.list| + s.counts.puts
  {
  }

  lemma HandlerStores(s: State)
    requires StoreInv(s) && Enabled(s, Handle)
    ensures StoreInv(StepHandler(s))
  {
    hide StoreInv, StepHandler;
    HandlerMoves(s);
    SameStores(s, StepHandler(s));
  }

  lemma StoreInvStep(s: State, a: Action)
    requires StoreInv(s) && Enabled(s, a)
    ensures StoreInv(Next(s, a))
  {
    hide StoreInv, StepCaller, StepHandler, ReleaseAll;
    match a
    case Go(c) => CallerStores(s, c);
    case Handle => HandlerStores(s);
    case IoctlSet(c) =>
      assert Next(s, a).stores == s.stores + [FlagSet];
      MovesStores(s, Next(s, a), c);
    case IoctlAlloc(c) =>
      assert Next(s, a).stores == s.stores + [FlagAlloc];
      MovesStores(s, Next(s, a), c);
    case IoctlMonitor(c, pid, memory) =>
      if pid in s.pids && memory {
        MovesStores(s, Next(s, a), c);
      }
    case _ => SameStores(s, Next(s, a));
  }

  lemma DispatchDoes(s: State)
    requires DispatchInv(s) && s.handler.Fired?
    ensures DispatchInv(Dispatch(s))
  {
    hide Count;
    var d := Dispatched(s.flag, |s.stores|);
    CountNext(s.dispatches, d, To(FlagAlloc));
    CountNext(s.dispatches, d, To(FlagMonitor));
  }

  lemma SameDispatches(s: State, s': State)
    requires DispatchInv(s) && s'.dispatches == s.dispatches && s'.counts.allocFires == s.counts.allocFires
    requires s'.counts.scans + One(s'.handler.ScanLock?) == s.counts.scans + One(s.handler.ScanLock?)
    requires s'.handler.ScanLock? || HandlerInside(s'.handler) ==> s.handler.ScanLock? || HandlerInside(s.handler)
    ensures DispatchInv(s')
  {
  }

  lemma CallerKeepsHandler(s: State, c: nat)
    requires Enabled(s, Go(c))
    ensures var s' := StepCaller(s, c);
            && s'.handler == s.handler && s'.dispatches == s.dispatches
            && s'.counts.allocFires == s.counts.allocFires && s'.counts.scans == s.counts.scans
  {
    match s.callers[c]
    case MonLock(_) =>
    case MonAdd(_) =>
    case MonUnlock =>
    case MonStore =>
    case Arming =>
  }

  lemma HandlerDispatches(s: State)
    requires DispatchInv(s) && Enabled(s, Handle)
    ensures DispatchInv(StepHandler(s))
  {
    hide DispatchInv, Dispatch;
    match s.handler
    case Fired => DispatchDoes(s);
    case ScanLock => SameDispatches(s, StepHandler(s));
    case Scanning(_, _, _, _, _) => SameDispatches(s, StepHandler(s));
    case ScanUnlock(_, _, _, _) => SameDispatches(s, StepHandler(s));
  }

  lemma DispatchInvStep(s: State, a: Action)
    requires DispatchInv(s) && Enabled(s, a)
    ensures DispatchInv(Next(s, a))
  {
    hide DispatchInv, StepCaller, StepHandler, ReleaseAll;
    match a
    case Go(c) =>
      CallerKeepsHandler(s, c);
      SameDispatches(s, Next(s, a));
    case Handle => HandlerDispatches(s);
    case _ => SameDispatches(s, Next(s, a));
  }

  lemma {:induction false} FlowAlways(s: State, acts: seq<Action>, s': State)
    requires StoreInv(s) && DispatchInv(s) && Leads(s, acts, s')
    ensures StoreInv(s') && DispatchInv(s')
    decreases |acts|
  {
    hide StoreInv, DispatchInv, Next, Enabled;
    if acts != [] {
      StoreInvStep(s, acts[0]);
      DispatchInvStep(s, acts[0]);
      FlowAlways(Next(s, acts[0]), acts[1..], s');
    }
  }

  lemma FlowInit(callers: nat)
    ensures StoreInv(Init(callers)) && DispatchInv(Init(callers))
  {
    CountNone(Init(callers).callers, BeforeArming());
    CountNone(Init(callers).callers, BeforeStore());
  }

  /**
   On every run every flag that an ioctl stored has been armed, exactly once, by the time
   the ioctl returns; and every node that a monitor ioctl linked has been followed by the
   store of the monitor flag.  Linked nodes are those still linked and those put back.
   */
  lemma EveryStoreArms(callers: nat, acts: seq<Action>, s: State)
    requires Leads(Init(callers), acts, s)
    ensures |s.stores| == s.counts.arms + Count(s.callers, BeforeArming())
    ensures |s.list| + s.counts.puts == Count(s.stores, IsFlag(FlagMonitor)) + Count(s.callers, BeforeStore())
  {
    hide Leads, Init, Count, DispatchInv;
    FlowInit(callers);
    FlowAlways(Init(callers), acts, s);
  }

  /** With no ioctl in flight each store has been armed once, and each linked node has had its store. */
  lemma AllArmedBetweenCalls(callers: nat, acts: seq<Action>, s: State)
    requires Leads(Init(callers), acts, s) && forall c :: 0 <= c < |s.callers| ==> s.callers[c].Idle?
    ensures s.counts.arms == |s.stores|
    ensures Count(s.stores, IsFlag(FlagMonitor)) == |s.list| + s.counts.puts
  {
    hide Leads, Init, Count;
    EveryStoreArms(callers, acts, s);
    CountNone(s.callers, BeforeArming());
    CountNone(s.callers, BeforeStore());
  }

  /** The step in which an arming ioctl returns leaves the timer pending, a cancel leaves it not pending. */
  lemma ReturnsArmed(s: State, a: Action)
    requires Enabled(s, a)
    ensures a.Go? && s.callers[a.c].Arming? ==>
              var s' := Next(s, a); s'.armed && s'.callers == s.callers[a.c := Idle] && s'.flag == s.flag
    ensures a.IoctlCancel? ==>
              && !Next(s, a).armed
              && Next(s, a).counts == s.counts.(cancels := s.counts.cancels + One(s.armed))
              && Next(s, a) == s.(armed := false, counts := Next(s, a).counts)
  {
  }

  /**
   On every run work has been queued once for each dispatch on ALLOC, a scan has begun or is
   about to begin for each dispatch on MONITOR, and a handler in its scan was sent there by
   the flag MONITOR.
   */
  lemma DispatchesDoTheirWork(callers: nat, acts: seq<Action>, s: State)
    requires Leads(Init(callers), acts, s)
    ensures s.counts.allocFires == Count(s.dispatches, To(FlagAlloc))
    ensures s.counts.scans + One(s.handler.ScanLock?) == Count(s.dispatches, To(FlagMonitor))
    ensures s.handler.ScanLock? || s.handler.Scanning? || s.handler.ScanUnlock? ==>
              s.dispatches != [] && s.dispatches[|s.dispatches| - 1].flag == FlagMonitor
  {
    hide Leads;
    FlowInit(callers);
    FlowAlways(Init(callers), acts, s);
  }

  /** What the step that reads the flag does for each flag. */
  lemma HandlerDoes(s: State)
    requires s.handler.Fired?
    ensures Enabled(s, Handle)
    ensures var s' := Next(s, Handle);
            && s'.list == s.list && s'.held == s.held && s'.armed == s.armed && s'.callers == s.callers
            && s'.lock == s.lock && s'.flag == s.flag
            && (s.flag == FlagAlloc ==> s'.work && s'.handler == Waiting)
            && (s.flag == FlagMonitor ==> s'.work == s.work && s'.handler == ScanLock)
            && (s.flag == FlagSet || s.flag == FlagNone ==> s'.work == s.work && s'.handler == Waiting)
  {
    assert Next(s, Handle) == Dispatch(s);
  }

  // ---------- undisturbed calls ----------

  lemma LeadsOn(s: State, a: Action, acts: seq<Action>, s': State)
    requires Enabled(s, a) && Leads(Next(s, a), acts, s')
    ensures Leads(s, [a] + acts, s')
  {
    hide Next, Enabled;
    assert ([a] + acts)[1..] == acts;
  }

  lemma LeadsTwo(s: State, a: Action, b: Action)
    requires Enabled(s, a) && Enabled(Next(s, a), b)
    ensures Leads(s, [a, b], Next(Next(s, a), b))
  {
    hide Next, Enabled;
    var s1 := Next(s, a);
    assert [a, b][1..] == [b] && [b][1..] == [];
    assert Leads(Next(s1, b), [], Next(s1, b));
    assert Leads(s1, [b], Next(s1, b));
  }

  /** The steps of one ioctl that nobody disturbs. */
  function Ioctl(s: State, c: nat, cmd: Cmd, arg: int, memory: bool): seq<Action> {
    match cmd
    case TimerSet => [IoctlSet(c), Go(c)]
    case TimerAlloc => [IoctlAlloc(c), Go(c)]
    case TimerCancel => [IoctlCancel(c)]
    case TimerMonitor =>
      [IoctlMonitor(c, arg, memory)] + if arg in s.pids && memory then [Go(c), Go(c), Go(c), Go(c), Go(c)] else []
    case TimerOther => []
  }

  lemma MonitorAlone(s: State, c: nat, pid: int) returns (s': State)
    requires Enabled(s, IoctlMonitor(c, pid, true)) && pid in s.pids && s.lock == Nobody
    ensures Leads(s, Ioctl(s, c, TimerMonitor, pid, true), s')
    ensures s'.callers == s.callers && s'.armed && s'.flag == FlagMonitor && s'.list == [s.pids[pid]] + s.list
    ensures s'.work == s.work && s'.held == s.held + multiset{s.pids[pid]} && s'.lock == Nobody
    ensures s'.handler == s.handler && s'.dead == s.dead && s'.tasks == s.tasks
  {
    hide Leads;
    var s1 := Next(s, IoctlMonitor(c, pid, true));
    var s2 := Next(s1, Go(c));
    var s3 := Next(s2, Go(c));
    var s4 := Next(s3, Go(c));
    var s5 := Next(s4, Go(c));
    s' := Next(s5, Go(c));
    LeadsTwo(s4, Go(c), Go(c));
    LeadsOn(s3, Go(c), [Go(c), Go(c)], s');
    LeadsOn(s2, Go(c), [Go(c)] + [Go(c), Go(c)], s');
    LeadsOn(s1, Go(c), [Go(c)] + ([Go(c)] + [Go(c), Go(c)]), s');
    LeadsOn(s, IoctlMonitor(c, pid, true), [Go(c)] + ([Go(c)] + ([Go(c)] + [Go(c), Go(c)])), s');
    assert [Go(c)] + ([Go(c)] + ([Go(c)] + [Go(c), Go(c)])) == [Go(c), Go(c), Go(c), Go(c), Go(c)];
    assert s'.callers == s.callers;
  }

  /** An ioctl that nobody disturbs has the effect that `TimerDev.TimerIoctl` promises on the heap. */
  lemma IoctlAlone(s: State, c: nat, cmd: Cmd, arg: int, memory: bool) returns (s': State)
    requires !s.exited && c < |s.callers| && s.callers[c].Idle? && s.lock == Nobody
    ensures Leads(s, Ioctl(s, c, cmd, arg, memory), s') && s'.callers == s.callers && s'.work == s.work
    ensures var ok := cmd == TimerMonitor ==> arg in s.pids && memory;
            && (cmd == TimerCancel ==> !s'.armed && s'.flag == s.flag)
            && (cmd == TimerOther ==> s'.armed == s.armed && s'.flag == s.flag)
            && (ok && cmd != TimerCancel && cmd != TimerOther ==>
                  && s'.armed
                  && s'.flag == match cmd case TimerSet => FlagSet case TimerAlloc => FlagAlloc case _ => FlagMonitor)
            && s'.list == (if cmd == TimerMonitor && ok then [s.pids[arg]] + s.list else s.list)
            && s'.held == (if cmd == TimerMonitor && ok then s.held + multiset{s.pids[arg]} else s.held)
            && (!ok ==> s' == s)
  {
    hide Leads;
    match cmd
    case TimerSet =>
      s' := Next(Next(s, IoctlSet(c)), Go(c));
      LeadsTwo(s, IoctlSet(c), Go(c));
      assert s'.callers == s.callers;
    case TimerAlloc =>
      s' := Next(Next(s, IoctlAlloc(c)), Go(c));
      LeadsTwo(s, IoctlAlloc(c), Go(c));
      assert s'.callers == s.callers;
    case TimerCancel =>
      s' := Next(s, IoctlCancel(c));
      LeadsNone(s');
      LeadsOn(s, IoctlCancel(c), [], s');
      assert [IoctlCancel(c)] + [] == [IoctlCancel(c)];
    case TimerMonitor =>
      if arg in s.pids && memory {
        s' := MonitorAlone(s, c, arg);
      } else {
        s' := Next(s, IoctlMonitor(c, arg, memory));
        LeadsNone(s');
        LeadsOn(s, IoctlMonitor(c, arg, memory), [], s');
      }
    case TimerOther =>
      s' := s;
      LeadsNone(s);
  }

  lemma LeadsNone(s: State)
    ensures Leads(s, [], s)
  {
  }

  /** The tasks of xs that are alive, in order. */
  function Alive(xs: seq<nat>, dead: set<nat>): seq<nat> {
    if xs == [] then [] else (if xs[0] in dead then [] else [xs[0]]) + Alive(xs[1..], dead)
  }

  function Handles(n: nat): seq<Action> {
    if n == 0 then [] else [Handle] + Handles(n - 1)
  }

  /** One iteration of the scan. */
  lemma ScanStep(s: State)
    requires s.handler.Scanning? && s.handler.i < |s.list|
    ensures Enabled(s, Handle)
    ensures var s', i := Next(s, Handle), s.handler.i; var gone := s.list[i] in s.dead;
            && s'.list == (if gone then Without(s.list, i) else s.list)
            && |s'.list| == |s.list| - One(gone)
            && s'.handler.Scanning? && s'.handler.i == (if gone then i else i + 1)
            && s'.armed == s.armed && s'.work == s.work && s'.flag == s.flag && s'.callers == s.callers
            && s'.dead == s.dead && s'.lock == s.lock
  {
    assert Next(s, Handle) == StepHandler(s);
  }

  /** The rest of a scan: every entry from position i on is examined once, and the lock is given back. */
  lemma {:induction false} ScanAlone(s: State) returns (s': State)
    requires s.handler.Scanning? && s.handler.i <= |s.list|
    ensures Leads(s, Handles(|s.list| - s.handler.i + 2), s')
    ensures s'.handler == Waiting && s'.lock == Nobody
    ensures s'.list == s.list[..s.handler.i] + Alive(s.list[s.handler.i..], s.dead)
    ensures s'.armed == s.armed && s'.work == s.work && s'.flag == s.flag && s'.callers == s.callers
    decreases |s.list| - s.handler.i
  {
    hide Leads, Next, Enabled, Alive, Without;
    var i := s.handler.i;
    if i == |s.list| {
      assert s.list[..i] == s.list && s.list[i..] == [];
      s' := ScanOver(s);
    } else {
      ScanStep(s);
      var s1 := Next(s, Handle);
      s' := ScanAlone(s1);
      LeadsOn(s, Handle, Handles(|s.list| - i + 1), s');
      AliveNext(s.list, i, s.dead);
    }
  }

  lemma AliveNext(xs: seq<nat>, i: nat, dead: set<nat>)
    requires i < |xs|
    ensures |Without(xs, i)| == |xs| - 1
    ensures xs[..i] + Alive(xs[i..], dead) ==
              if xs[i] in dead then Without(xs, i)[..i] + Alive(Without(xs, i)[i..], dead)
              else xs[..i + 1] + Alive(xs[i + 1..], dead)
  {
    assert xs[i..][1..] == xs[i + 1..];
    assert Without(xs, i)[..i] == xs[..i] && Without(xs, i)[i..] == xs[i + 1..];
    assert xs[..i + 1] == xs[..i] + [xs[i]];
  }

  lemma ScanOver(s: State) returns (s': State)
    requires s.handler.Scanning? && s.handler.i == |s.list|
    ensures Leads(s, Handles(2), s')
    ensures s'.handler == Waiting && s'.lock == Nobody && s'.list == s.list + Alive([], s.dead)
    ensures s'.armed == s.armed && s'.work == s.work && s'.flag == s.flag && s'.callers == s.callers
  {
    hide Leads;
    s' := Next(Next(s, Handle), Handle);
    LeadsTwo(s, Handle, Handle);
    TwoHandles();
  }

  lemma TwoHandles()
    ensures Handles(2) == [Handle, Handle]
  {
    assert Handles(1) == [Handle];
  }

  /**
   A fire that nobody disturbs: ALLOC queues the work, MONITOR leaves exactly the live tasks
   in their order, SET does nothing; the handler comes to its end and holds no lock.
   */
  lemma FireAlone(s: State) returns (s': State, n: nat)
    requires s.armed && s.handler.Waiting? && s.lock == Nobody
    ensures Leads(s, [Fire] + Handles(n), s') && n <= |s.list| + 4
    ensures s'.handler == Waiting && s'.lock == Nobody && !s'.armed && s'.callers == s.callers && s'.flag == s.flag
    ensures s'.work == (s.work || s.flag == FlagAlloc)
    ensures s'.list == if s.flag == FlagMonitor then Alive(s.list, s.dead) else s.list
  {
    hide Leads;
    var s1 := Next(s, Fire);
    HandlerDoes(s1);
    var s2 := Next(s1, Handle);
    if s.flag == FlagMonitor {
      var s3 := Next(s2, Handle);
      s' := ScanAlone(s3);
      n := |s.list| + 4;
      assert s3.list[..0] + Alive(s3.list[0..], s3.dead) == Alive(s.list, s.dead);
      LeadsOn(s2, Handle, Handles(n - 2), s');
      LeadsOn(s1, Handle, Handles(n - 1), s');
      LeadsOn(s, Fire, Handles(n), s');
    } else {
      s', n := s2, 1;
      LeadsTwo(s, Fire, Handle);
      assert [Fire] + Handles(1) == [Fire, Handle];
    }
  }

  lemma {:induction false} LeadsConcat(s: State, a: seq<Action>, m: State, b: seq<Action>, s': State)
    requires Leads(s, a, m) && Leads(m, b, s')
    ensures Leads(s, a + b, s')
    decreases |a|
  {
    hide Enabled, Next;
    if a == [] {
      assert a + b == b;
    } else {
      assert (a + b)[1..] == a[1..] + b;
      LeadsConcat(Next(s, a[0]), a[1..], m, b, s');
    }
  }

  /**
   From the set-up device: a process is created and monitored, it may die, and the timer
   fires.  Its node is dropped and its reference given back exactly if it died.
   */
  lemma MonitorsUntilDeath(pid: int, dies: bool) returns (s: State, n: nat)
    ensures Leads(Init(1), Monitored(pid) + (if dies then [Die(0)] else []) + ([Fire] + Handles(n)), s)
    ensures s.list == (if dies then [] else [0]) && s.held[0] == (if dies then 0 else 1)
  {
    hide Leads, Ioctl, Handles, Count;
    var s2 := MonitoredState(pid);
    var s3, death := s2, [];
    LeadsNone(s2);
    if dies {
      s3, death := Next(s2, Die(0)), [Die(0)];
      LeadsNone(s3);
      LeadsOn(s2, Die(0), [], s3);
      assert [Die(0)] + [] == [Die(0)];
    }
    LeadsConcat(Init(1), Monitored(pid), s2, death, s3);
    s, n := FireAlone(s3);
    var acts := Monitored(pid) + death;
    LeadsConcat(Init(1), acts, s3, [Fire] + Handles(n), s);
    AliveOne(s3.dead);
    NothingLeaksBetweenCalls(1, acts + ([Fire] + Handles(n)), s, 0);
    CountNone(s.list, Names(0));
    if !dies {
      CountAll(s.list, Names(0));
    }
  }

  /** A process is created and then monitored by the one caller. */
  function Monitored(pid: int): seq<Action> {
    [Spawn(pid), IoctlMonitor(0, pid, true), Go(0), Go(0), Go(0), Go(0), Go(0)]
  }

  lemma MonitoredState(pid: int) returns (s: State)
    ensures Leads(Init(1), Monitored(pid), s)
    ensures s.list == [0] && s.armed && s.flag == FlagMonitor && s.lock == Nobody && s.handler == Waiting
    ensures s.callers == [Idle] && s.tasks == 1 && s.dead == {}
  {
    hide Leads;
    var s1 := Next(Init(1), Spawn(pid));
    s := MonitorAlone(s1, 0, pid);
    var acts := Ioctl(s1, 0, TimerMonitor, pid, true);
    LeadsOn(Init(1), Spawn(pid), acts, s);
    assert [Spawn(pid)] + acts == Monitored(pid);
  }

  lemma AliveOne(dead: set<nat>)
    ensures Alive([0], dead) == if 0 in dead then [] else [0]
  {
    assert Alive([], dead) == [];
  }

  /** A process that has been reaped is found by no monitor ioctl; a live or dead one that has not is. */
  lemma ReapedIsNotFound(s: State, pid: int, c: nat, memory: bool)
    requires Enabled(s, Reap(pid)) && Enabled(s, IoctlMonitor(c, pid, true))
    ensures var s1 := Next(s, Reap(pid));
            Enabled(s1, IoctlMonitor(c, pid, memory)) && Next(s1, IoctlMonitor(c, pid, memory)) == s1
    ensures var s2 := Next(s, IoctlMonitor(c, pid, true)); s2.callers[c] == MonLock(s.pids[pid])
  {
  }

  // ---------- after the module exit ----------

  /** Unloaded, with nothing pending, linked or held and nobody inside the driver. */
  ghost predicate Gone(s: State) {
    && s.exited && s.handler.Waiting? && !s.armed && !s.work && s.list == [] && s.held == multiset{}
    && forall c :: 0 <= c < |s.callers| ==> s.callers[c].Idle?
  }

  lemma {:induction false} GoneStays(s: State, acts: seq<Action>, s': State)
    requires Gone(s) && Leads(s, acts, s')
    ensures Gone(s')
    decreases |acts|
  {
    hide ReleaseAll;
    if acts != [] {
      GoneStays(Next(s, acts[0]), acts[1..], s');
    }
  }

  /** Once the module has exited on any run, nothing is ever armed, queued, linked or held again. */
  lemma NothingAfterExit(callers: nat, before: seq<Action>, s: State, acts: seq<Action>, s': State)
    requires Leads(Init(callers), before, s) && Enabled(s, Exit) && Leads(Next(s, Exit), acts, s')
    ensures !s'.armed && !s'.work && s'.list == [] && s'.held == multiset{} && s'.handler.Waiting?
    ensures forall c :: 0 <= c < |s'.callers| ==> s'.callers[c].Idle?
  {
    hide Leads, ReleaseAll;
    ExitReleasesAll(callers, before, s);
    GoneStays(Next(s, Exit), acts, s');
  }

  // ---------- what a scan remembers ----------

  /** The handler stays inside one scan during the whole schedule. */
  ghost predicate StaysInScan(s: State, acts: seq<Action>)
    decreases |acts|
  {
    && HandlerInside(s.handler)
    && (acts == [] || (Enabled(s, acts[0]) && StaysInScan(Next(s, acts[0]), acts[1..])))
  }

  lemma ScanKeepsRecord(s: State, a: Action)
    requires Enabled(s, a) && HandlerInside(s.handler) && HandlerInside(Next(s, a).handler)
    ensures var h, h' := s.handler, Next(s, a).handler;
            h'.start == h.start && h'.dead0 == h.dead0 && h'.puts0 == h.puts0
  {
    hide StepCaller, StepHandler, ReleaseAll;
    match a
    case Go(c) => CallerKeepsHandler(s, c);
    case Handle => HandlerKeepsRecord(s);
    case _ =>
  }

  lemma HandlerKeepsRecord(s: State)
    requires Enabled(s, Handle) && HandlerInside(s.handler) && HandlerInside(StepHandler(s).handler)
    ensures var h, h' := s.handler, StepHandler(s).handler;
            h'.start == h.start && h'.dead0 == h.dead0 && h'.puts0 == h.puts0
  {
    hide Release, Dispatch;
    assert !s.handler.Fired? && !s.handler.ScanLock?;
    match s.handler
    case Scanning(_, _, _, _, _) =>
    case ScanUnlock(_, _, _, _) =>
  }

  lemma {:induction false} ScanSince(s: State, acts: seq<Action>, s': State)
    requires Leads(s, acts, s') && StaysInScan(s, acts)
    ensures HandlerInside(s'.handler)
    ensures s'.handler.start == s.handler.start && s'.handler.dead0 == s.handler.dead0
    ensures s'.handler.puts0 == s.handler.puts0
    decreases |acts|
  {
    hide Next, Enabled;
    if acts != [] {
      ScanSince(Next(s, acts[0]), acts[1..], s');
      ScanKeepsRecord(s, acts[0]);
    }
  }

  /**
   From the step that takes the lock to the end of the loop, with callers, deaths and all
   else in between: the list is an order-preserving selection of the list at the lock, every
   task dead then is gone, every task gone is dead, and each removal made one put.
   */
  lemma ScanFromTheLock(callers: nat, before: seq<Action>, s: State, acts: seq<Action>, s': State)
    requires Leads(Init(callers), before, s) && s.handler.ScanLock? && Enabled(s, Handle)
    requires Leads(Next(s, Handle), acts, s') && StaysInScan(Next(s, Handle), acts) && s'.handler.ScanUnlock?
    ensures var keeps := s'.handler.keeps;
            && |keeps| == |s.list|
            && PicksExactly(s'.list, s.list, keeps, Marked(keeps, |keeps|))
            && (forall k :: 0 <= k < |s.list| ==>
                  (s.list[k] in s.dead ==> !keeps[k]) && (!keeps[k] ==> s.list[k] in s'.dead))
            && s'.counts.puts - s.counts.puts == |s.list| - |s'.list|
  {
    hide Leads, StaysInScan, PicksExactly, Marked, Inv;
    InvInit(callers);
    InvAlways(Init(callers), before, s);
    InvStep(s, Handle);
    var s1 := Next(s, Handle);
    InvAlways(s1, acts, s');
    ScanSince(s1, acts, s');
    ScanEnds(s');
  }

  lemma ScanEnds(s: State)
    requires Inv(s) && s.handler.ScanUnlock?
    ensures var ScanUnlock(start, dead0, keeps, puts0) := s.handler;
            && |keeps| == |start|
            && PicksExactly(s.list, start, keeps, Marked(keeps, |keeps|))
            && (forall k :: 0 <= k < |start| ==>
                  (start[k] in dead0 ==> !keeps[k]) && (!keeps[k] ==> start[k] in s.dead))
            && s.counts.puts - puts0 == |start| - |s.list|
  {
    hide RefsInv, LedgerInv, FlagInv, LockInv;
    var ScanUnlock(start, dead0, keeps, puts0) := s.handler;
    KeepPicks(start, keeps);
    VisitHere(start, keeps, |keeps|);
  }
}
