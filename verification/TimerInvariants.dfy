/** What every step of the timer driver keeps, and what follows on every run. */
module TimerInvariants {
  import opened Masks
  import opened Counting
  import opened TimerDevice
  import opened TimerMachine

  // ---------- references ----------

  function Names(t: nat): nat -> bool {
    (x: nat) => x == t
  }

  /** A caller between `get_task_struct` and `list_add` for task t. */
  function Carries(t: nat): Caller -> bool {
    (pc: Caller) => (pc.MonLock? || pc.MonAdd?) && pc.task == t
  }

  ghost predicate RefsInv(s: State) {
    forall t: nat :: s.held[t] == Count(s.list, Names(t)) + Count(s.callers, Carries(t))
  }

  lemma ReleaseRefs(s: State, i: nat)
    requires RefsInv(s) && i < |s.list|
    ensures RefsInv(Release(s, i)) && s.list[i] in s.held
  {
    hide Count;
    CountRemove(s.list, i, Names(s.list[i]));
    assert s.held[s.list[i]] > 0;
    forall t: nat
      ensures Release(s, i).held[t] == Count(Release(s, i).list, Names(t)) + Count(s.callers, Carries(t))
    {
      CountRemove(s.list, i, Names(t));
    }
  }

  lemma {:induction false} ReleaseAllRefs(s: State)
    requires RefsInv(s)
    ensures RefsInv(ReleaseAll(s))
    decreases |s.list|
  {
    if s.list != [] {
      ReleaseRefs(s, 0);
      ReleaseAllRefs(Release(s, 0));
    }
  }

  /** How a step of a caller moves the reference it carries. */
  lemma CarriesMoves(s: State, c: nat, t: nat)
    requires Enabled(s, Go(c))
    ensures var s' := StepCaller(s, c); var pc := s.callers[c];
            && s'.held == s.held && s'.callers == s.callers[c := s'.callers[c]]
            && s'.list == (if pc.MonAdd? then [pc.task] + s.list else s.list)
            && One(Carries(t)(s'.callers[c])) == One(Carries(t)(pc)) - One(pc.MonAdd? && pc.task == t)
  {
    match s.callers[c]
    case MonLock(_) =>
    case MonAdd(_) =>
    case MonUnlock =>
    case MonStore =>
    case Arming =>
  }

  lemma CallerRefs(s: State, c: nat)
    requires RefsInv(s) && Enabled(s, Go(c))
    ensures RefsInv(StepCaller(s, c))
  {
    hide StepCaller;
    var s' := StepCaller(s, c);
    forall t: nat ensures s'.held[t] == Count(s'.list, Names(t)) + Count(s'.callers, Carries(t)) {
      CarriesMoves(s, c, t);
      CountUpdate(s.callers, c, s'.callers[c], Carries(t));
      if s.callers[c].MonAdd? {
        CountConcat([s.callers[c].task], s.list, Names(t));
      }
    }
  }

  lemma EnterRefs(s: State, c: nat, pc: Caller)
    requires RefsInv(s) && c < |s.callers| && s.callers[c].Idle? && !pc.MonAdd?
    ensures var s' := At(s, c, pc); RefsInv(if pc.MonLock? then GetTask(s', pc.task) else s')
  {
    var s' := At(s, c, pc);
    forall t: nat
      ensures s'.held[t] + One(pc.MonLock? && pc.task == t) == Count(s'.list, Names(t)) + Count(s'.callers, Carries(t))
    {
      CountUpdate(s.callers, c, pc, Carries(t));
    }
  }

  lemma HandlerRefs(s: State)
    requires RefsInv(s) && Enabled(s, Handle)
    ensures RefsInv(StepHandler(s))
  {
    hide RefsInv, Release;
    var s' := StepHandler(s);
    if s.handler.Scanning? && s.handler.i < |s.list| && s.list[s.handler.i] in s.dead {
      ReleaseRefs(s, s.handler.i);
      SameRefs(Release(s, s.handler.i), s');
    } else {
      SameRefs(s, s');
    }
  }

  lemma SameRefs(s: State, s': State)
    requires RefsInv(s) && s'.held == s.held && s'.list == s.list && s'.callers == s.callers
    ensures RefsInv(s')
  {
  }

  lemma RefsStep(s: State, a: Action)
    requires RefsInv(s) && Enabled(s, a)
    ensures RefsInv(Next(s, a))
  {
    hide RefsInv, StepCaller, StepHandler, ReleaseAll;
    match a
    case Go(c) => CallerRefs(s, c);
    case Handle => HandlerRefs(s);
    case IoctlSet(c) =>
      EnterRefs(s, c, Arming);
      SameRefs(At(s, c, Arming), Next(s, a));
    case IoctlAlloc(c) =>
      EnterRefs(s, c, Arming);
      SameRefs(At(s, c, Arming), Next(s, a));
    case IoctlMonitor(c, pid, memory) =>
      if pid in s.pids && memory {
        EnterRefs(s, c, MonLock(s.pids[pid]));
      }
    case Exit =>
      SameRefs(s, ExitStart(s));
      ReleaseAllRefs(ExitStart(s));
    case _ => SameRefs(s, Next(s, a));
  }

  // ---------- the lock and the scan ----------

  ghost predicate LockInv(s: State) {
    && (forall c :: 0 <= c < |s.callers| ==>
          (Inside(s.callers[c]) <==> s.lock == TheCaller(c)))
    && (HandlerInside(s.handler) <==> s.lock == TheHandler)
    && (s.lock.TheCaller? ==> s.lock.c < |s.callers|)
  }

  predicate Inside(pc: Caller) {
    pc.MonAdd? || pc.MonUnlock?
  }

  predicate HandlerInside(h: Handler) {
    h.Scanning? || h.ScanUnlock?
  }

  lemma CallerLock(s: State, c: nat)
    requires Enabled(s, Go(c))
    ensures var s' := StepCaller(s, c); var was, now := Inside(s.callers[c]), Inside(s'.callers[c]);
            && s'.handler == s.handler && s'.callers == s.callers[c := s'.callers[c]]
            && s'.lock == (if was == now then s.lock else if now then TheCaller(c) else Nobody)
            && (now && !was ==> s.lock == Nobody)
  {
    match s.callers[c]
    case MonLock(_) =>
    case MonAdd(_) =>
    case MonUnlock =>
    case MonStore =>
    case Arming =>
  }

  lemma HandlerLock(s: State)
    requires Enabled(s, Handle)
    ensures var s' := StepHandler(s); var was, now := HandlerInside(s.handler), HandlerInside(s'.handler);
            && s'.callers == s.callers
            && s'.lock == (if was == now then s.lock else if now then TheHandler else Nobody)
            && (now && !was ==> s.lock == Nobody)
  {
    match s.handler
    case Fired =>
    case ScanLock =>
    case Scanning(_, _, _, _, _) =>
    case ScanUnlock(_, _, _, _) =>
  }

  lemma SameLock(s: State, s': State)
    requires LockInv(s) && s'.lock == s.lock && |s'.callers| == |s.callers|
    requires HandlerInside(s'.handler) == HandlerInside(s.handler)
    requires forall c :: 0 <= c < |s.callers| ==> Inside(s'.callers[c]) == Inside(s.callers[c])
    ensures LockInv(s')
  {
  }

  lemma CallerLockStep(s: State, c: nat)
    requires LockInv(s) && Enabled(s, Go(c))
    ensures LockInv(StepCaller(s, c))
  {
    hide StepCaller, Inside, HandlerInside;
    CallerLock(s, c);
  }

  lemma HandlerLockStep(s: State)
    requires LockInv(s) && Enabled(s, Handle)
    ensures LockInv(StepHandler(s))
  {
    hide StepHandler, Inside, HandlerInside;
    HandlerLock(s);
  }

  lemma LockStep(s: State, a: Action)
    requires LockInv(s) && Enabled(s, a)
    ensures LockInv(Next(s, a))
  {
    hide LockInv, StepCaller, StepHandler, ReleaseAll;
    match a
    case Go(c) => CallerLockStep(s, c);
    case Handle => HandlerLockStep(s);
    case _ => SameLock(s, Next(s, a));
  }

  /** The scan so far: the examined entries that were alive, then those not yet examined. */
  ghost predicate Scanned(s: State, i: nat, start: seq<nat>, dead0: set<nat>, keeps: seq<bool>, puts0: nat) {
    && |keeps| <= |start|
    && dead0 <= s.dead
    && i == Cursor(start, keeps, |keeps|)
    && s.list == Pending(start, keeps, |keeps|)
    && (forall k :: 0 <= k < |keeps| ==> (start[k] in dead0 ==> !keeps[k]) && (!keeps[k] ==> start[k] in s.dead))
    && s.counts.puts == puts0 + |keeps| - i
  }

  ghost predicate ScanInv(s: State) {
    match s.handler
    case Scanning(i, start, dead0, keeps, puts0) => Scanned(s, i, start, dead0, keeps, puts0)
    case ScanUnlock(start, dead0, keeps, puts0) =>
      |keeps| == |start| && Scanned(s, |s.list|, start, dead0, keeps, puts0)
    case _ => true
  }

  lemma ScanNext(s: State)
    requires ScanInv(s) && Enabled(s, Handle) && s.handler.Scanning?
    ensures ScanInv(StepHandler(s))
  {
    hide Pending, Cursor;
    var Scanning(i, start, dead0, keeps, puts0) := s.handler;
    VisitHere(start, keeps, |keeps|);
    if i < |s.list| {
      if s.list[i] in s.dead {
        VisitGrow(start, keeps, false);
      } else {
        VisitGrow(start, keeps, true);
      }
    }
  }

  lemma HandlerScan(s: State)
    requires ScanInv(s) && Enabled(s, Handle)
    ensures ScanInv(StepHandler(s))
  {
    hide Pending, Cursor;
    match s.handler
    case ScanLock => VisitStart(s.list, []);
    case Scanning(_, _, _, _, _) => ScanNext(s);
    case Fired => NotScanning(StepHandler(s));
    case ScanUnlock(_, _, _, _) => NotScanning(StepHandler(s));
  }

  lemma ScanFrame(s: State, s': State)
    requires ScanInv(s) && s'.handler == s.handler && s.dead <= s'.dead
    requires HandlerInside(s.handler) ==> s'.list == s.list && s'.counts.puts == s.counts.puts
    ensures ScanInv(s')
  {
    hide Pending, Cursor;
  }

  lemma CallerLeavesScan(s: State, c: nat)
    requires Enabled(s, Go(c))
    ensures var s' := StepCaller(s, c);
            && s'.handler == s.handler && s'.dead == s.dead && s'.counts.puts == s.counts.puts
            && (s'.list == s.list || Inside(s.callers[c]))
  {
    match s.callers[c]
    case MonLock(_) =>
    case MonAdd(_) =>
    case MonUnlock =>
    case MonStore =>
    case Arming =>
  }

  lemma ScanStep(s: State, a: Action)
    requires LockInv(s) && ScanInv(s) && Enabled(s, a)
    ensures ScanInv(Next(s, a))
  {
    hide ScanInv, StepCaller, StepHandler, ReleaseAll;
    match a
    case Handle => HandlerScan(s);
    case Go(c) =>
      CallerLeavesScan(s, c);
      ScanFrame(s, Next(s, a));
    case Fire => NotScanning(Next(s, a));
    case _ => ScanFrame(s, Next(s, a));
  }

  lemma NotScanning(s: State)
    requires !HandlerInside(s.handler)
    ensures ScanInv(s)
  {
  }

  // ---------- the ledgers and the flag ----------

  ghost predicate LedgerInv(s: State) {
    var n := s.counts;
    && n.arms == n.fires + n.overwritten + n.cancels + One(s.armed)
    && n.allocFires == n.workRuns + n.coalesced + n.workCancels + One(s.work)
    && n.fires == |s.dispatches| + One(s.handler.Fired?)
    && n.gets == n.puts + |s.held|
  }

  ghost predicate FlagInv(s: State) {
    && s.flag == (if s.stores == [] then FlagNone else s.stores[|s.stores| - 1])
    && FlagNone !in s.stores
    && (s.armed || s.handler.Fired? ==> s.stores != [])
    && (forall c :: 0 <= c < |s.callers| && s.callers[c].Arming? ==> s.stores != [])
    && forall k :: 0 <= k < |s.dispatches| ==>
         0 < s.dispatches[k].after <= |s.stores| && s.dispatches[k].flag == s.stores[s.dispatches[k].after - 1]
  }

  lemma {:induction false} ReleaseAllLedger(s: State)
    requires RefsInv(s)
    ensures |ReleaseAll(s).held| + |s.list| == |s.held|
    decreases |s.list|
  {
    if s.list != [] {
      ReleaseRefs(s, 0);
      ReleaseAllLedger(Release(s, 0));
    }
  }

  lemma SameLedger(s: State, s': State)
    requires LedgerInv(s) && s'.counts == s.counts.(scans := s'.counts.scans)
    requires s'.armed == s.armed && s'.work == s.work
    requires s'.dispatches == s.dispatches && s'.handler.Fired? == s.handler.Fired? && s'.held == s.held
    ensures LedgerInv(s')
  {
  }

  lemma CallerLedger(s: State, c: nat)
    requires LedgerInv(s) && Enabled(s, Go(c))
    ensures LedgerInv(StepCaller(s, c))
  {
    hide LedgerInv;
    match s.callers[c]
    case MonLock(_) => SameLedger(s, StepCaller(s, c));
    case MonAdd(_) => SameLedger(s, StepCaller(s, c));
    case MonUnlock => SameLedger(s, StepCaller(s, c));
    case MonStore => SameLedger(s, StepCaller(s, c));
    case Arming =>
      SameLedger(s, At(s, c, Idle));
      ModTimerLedger(At(s, c, Idle));
  }

  lemma ModTimerLedger(s: State)
    requires LedgerInv(s)
    ensures LedgerInv(ModTimer(s))
  {
  }

  lemma DispatchLedger(s: State)
    requires LedgerInv(s) && s.handler.Fired?
    ensures LedgerInv(Dispatch(s))
  {
    match s.flag
    case FlagAlloc =>
    case FlagMonitor =>
    case FlagSet =>
    case FlagNone =>
  }

  lemma ReleaseLedger(s: State, i: nat)
    requires LedgerInv(s) && RefsInv(s) && i < |s.list|
    ensures LedgerInv(Release(s, i))
  {
    hide RefsInv;
    ReleaseRefs(s, i);
  }

  lemma HandlerLedger(s: State)
    requires LedgerInv(s) && RefsInv(s) && Enabled(s, Handle)
    ensures LedgerInv(StepHandler(s))
  {
    hide LedgerInv, RefsInv, Dispatch, Release;
    match s.handler
    case Fired => DispatchLedger(s);
    case ScanLock => SameLedger(s, StepHandler(s));
    case Scanning(i, _, _, _, _) =>
      if i < |s.list| && s.list[i] in s.dead {
        ReleaseLedger(s, i);
        ReleaseKeeps(s, i);
        SameLedger(Release(s, i), StepHandler(s));
      } else {
        SameLedger(s, StepHandler(s));
      }
    case ScanUnlock(_, _, _, _) => SameLedger(s, StepHandler(s));
  }

  lemma ReleaseKeeps(s: State, i: nat)
    requires i < |s.list|
    ensures Release(s, i).handler == s.handler
  {
  }

  lemma ExitLedger(s: State)
    requires LedgerInv(s) && RefsInv(s) && Enabled(s, Exit)
    ensures LedgerInv(Next(s, Exit))
  {
    hide RefsInv, ReleaseAll;
    SameRefs(s, ExitStart(s));
    ReleaseAllLedger(ExitStart(s));
  }

  lemma LedgerStep(s: State, a: Action)
    requires LedgerInv(s) && RefsInv(s) && Enabled(s, a)
    ensures LedgerInv(Next(s, a))
  {
    hide RefsInv, StepCaller, StepHandler, ReleaseAll;
    match a
    case Go(c) => CallerLedger(s, c);
    case Handle => HandlerLedger(s);
    case Exit => ExitLedger(s);
    case _ =>
  }

  lemma SameFlag(s: State, s': State)
    requires FlagInv(s) && s'.flag == s.flag && s'.stores == s.stores && s'.dispatches == s.dispatches
    requires s'.armed || s'.handler.Fired? ==>
               s.armed || s.handler.Fired? || exists c :: 0 <= c < |s.callers| && s.callers[c].Arming?
    requires forall c :: 0 <= c < |s'.callers| && s'.callers[c].Arming? ==> c < |s.callers| && s.callers[c].Arming?
    ensures FlagInv(s')
  {
  }

  lemma StoredFlag(s: State, flag: Flag)
    requires FlagInv(s) && flag != FlagNone
    ensures FlagInv(Stored(s, flag))
  {
  }

  /** After a store any caller may be about to arm. */
  lemma ArmingFlag(s: State, c: nat)
    requires FlagInv(s) && s.stores != [] && c < |s.callers|
    ensures FlagInv(At(s, c, Arming))
  {
  }

  lemma CallerFlag(s: State, c: nat)
    requires FlagInv(s) && Enabled(s, Go(c))
    ensures FlagInv(StepCaller(s, c))
  {
    hide FlagInv;
    match s.callers[c]
    case MonLock(_) => SameFlag(s, StepCaller(s, c));
    case MonAdd(_) => SameFlag(s, StepCaller(s, c));
    case MonUnlock => SameFlag(s, StepCaller(s, c));
    case MonStore =>
      StoredFlag(s, FlagMonitor);
      ArmingFlag(Stored(s, FlagMonitor), c);
    case Arming => SameFlag(s, StepCaller(s, c));
  }

  lemma DispatchFlag(s: State)
    requires FlagInv(s) && s.handler.Fired?
    ensures FlagInv(Dispatch(s))
  {
    match s.flag
    case FlagAlloc =>
    case FlagMonitor =>
    case FlagSet =>
    case FlagNone =>
  }

  lemma HandlerFlag(s: State)
    requires FlagInv(s) && Enabled(s, Handle)
    ensures FlagInv(StepHandler(s))
  {
    hide FlagInv, Dispatch;
    match s.handler
    case Fired => DispatchFlag(s);
    case ScanLock => SameFlag(s, StepHandler(s));
    case Scanning(_, _, _, _, _) => SameFlag(s, StepHandler(s));
    case ScanUnlock(_, _, _, _) => SameFlag(s, StepHandler(s));
  }

  lemma FlagStep(s: State, a: Action)
    requires FlagInv(s) && Enabled(s, a)
    ensures FlagInv(Next(s, a))
  {
    hide StepCaller, StepHandler, ReleaseAll;
    match a
    case Go(c) => CallerFlag(s, c);
    case Handle => HandlerFlag(s);
    case _ =>
  }

  // ---------- all of it ----------

  ghost predicate Inv(s: State) {
    RefsInv(s) && LockInv(s) && ScanInv(s) && LedgerInv(s) && FlagInv(s)
  }

  lemma InvInit(callers: nat)
    ensures Inv(Init(callers))
  {
    forall t: nat ensures Count(Init(callers).callers, Carries(t)) == 0 {
      CountNone(Init(callers).callers, Carries(t));
    }
  }

  lemma InvStep(s: State, a: Action)
    requires Inv(s) && Enabled(s, a)
    ensures Inv(Next(s, a))
  {
    hide RefsInv, LockInv, ScanInv, LedgerInv, FlagInv, Next;
    RefsStep(s, a);
    LockStep(s, a);
    ScanStep(s, a);
    LedgerStep(s, a);
    FlagStep(s, a);
  }

  lemma {:induction false} InvAlways(s: State, acts: seq<Action>, s': State)
    requires Inv(s) && Leads(s, acts, s')
    ensures Inv(s')
    decreases |acts|
  {
    hide Inv, Next, Enabled;
    if acts != [] {
      InvStep(s, acts[0]);
      InvAlways(Next(s, acts[0]), acts[1..], s');
    }
  }

  // ---------- theorems ----------

  /** On every run the references held on a task are its monitor nodes plus the callers carrying it. */
  lemma ReferencesExact(callers: nat, acts: seq<Action>, s: State, t: nat)
    requires Leads(Init(callers), acts, s)
    ensures s.held[t] == Count(s.list, Names(t)) + Count(s.callers, Carries(t))
  {
    InvInit(callers);
    InvAlways(Init(callers), acts, s);
  }

  /** The task the handler is about to read is still referenced by the driver. */
  lemma HandlerReadsReferenced(callers: nat, acts: seq<Action>, s: State)
    requires Leads(Init(callers), acts, s)
    requires s.handler.Scanning? && s.handler.i < |s.list|
    ensures s.list[s.handler.i] in s.held
  {
    InvInit(callers);
    InvAlways(Init(callers), acts, s);
    ReleaseRefs(s, s.handler.i);
  }

  /** With no ioctl in flight nothing is held beyond the monitor list, whatever failed before. */
  lemma NothingLeaksBetweenCalls(callers: nat, acts: seq<Action>, s: State, t: nat)
    requires Leads(Init(callers), acts, s)
    requires forall c :: 0 <= c < |s.callers| ==> s.callers[c].Idle?
    ensures s.held[t] == Count(s.list, Names(t))
  {
    ReferencesExact(callers, acts, s, t);
    CountNone(s.callers, Carries(t));
  }

  /** After a quiescent exit no reference is held and nothing is pending. */
  lemma ExitReleasesAll(callers: nat, acts: seq<Action>, s: State)
    requires Leads(Init(callers), acts, s) && Enabled(s, Exit)
    ensures var s' := Next(s, Exit);
            s'.held == multiset{} && s'.list == [] && !s'.armed && !s'.work && s'.counts.gets == s'.counts.puts
  {
    InvInit(callers);
    InvAlways(Init(callers), acts, s);
    ExitRefs(s);
    ExitLedger(s);
  }

  lemma ExitRefs(s: State)
    requires RefsInv(s) && Enabled(s, Exit)
    ensures var s' := Next(s, Exit); s'.held == multiset{} && s'.list == [] && !s'.armed && !s'.work
  {
    hide ReleaseAll;
    RefsStep(s, Exit);
    var s' := Next(s, Exit);
    forall t: nat ensures s'.held[t] == 0 {
      CountNone(s.callers, Carries(t));
    }
    assert s'.held == multiset{};
  }

  /** Every arming is accounted for: fired, overwritten, cancelled or still pending; likewise the work item. */
  lemma TimerLedger(callers: nat, acts: seq<Action>, s: State)
    requires Leads(Init(callers), acts, s)
    ensures var n := s.counts;
            && n.arms == n.fires + n.overwritten + n.cancels + One(s.armed)
            && n.allocFires == n.workRuns + n.coalesced + n.workCancels + One(s.work)
            && n.gets == n.puts + |s.held|
  {
    InvInit(callers);
    InvAlways(Init(callers), acts, s);
  }

  /**
   A pending timer implies a stored flag, and every fire dispatches on the last flag
   stored before the dispatch, also when that store came after the arming that fired.
   */
  lemma DispatchesOnLastStore(callers: nat, acts: seq<Action>, s: State)
    requires Leads(Init(callers), acts, s)
    ensures s.armed ==> s.flag != FlagNone
    ensures |s.dispatches| + One(s.handler.Fired?) == s.counts.fires
    ensures forall k :: 0 <= k < |s.dispatches| ==>
              0 < s.dispatches[k].after <= |s.stores| && s.dispatches[k].flag == s.stores[s.dispatches[k].after - 1]
    ensures s.handler.Fired? ==>
              && s.stores != []
              && Next(s, Handle).dispatches == s.dispatches + [Dispatched(s.stores[|s.stores| - 1], |s.stores|)]
  {
    InvInit(callers);
    InvAlways(Init(callers), acts, s);
  }

  /** The flag that an action stores: each of the three arming ioctls has one such step. */
  function StoresFlag(s: State, a: Action): Flag {
    match a
    case IoctlSet(_) => FlagSet
    case IoctlAlloc(_) => FlagAlloc
    case Go(c) => if c < |s.callers| && s.callers[c].MonStore? then FlagMonitor else FlagNone
    case _ => FlagNone
  }

  lemma StoreStep(s: State, a: Action)
    requires Enabled(s, a) && StoresFlag(s, a) != FlagNone
    ensures a.IoctlSet? || a.IoctlAlloc? || a.Go?
    ensures var s1 := Next(s, a);
            && s1.flag == StoresFlag(s, a) && s1.stores == s.stores + [s1.flag] && s1.dispatches == s.dispatches
            && a.c < |s1.callers| && s1.callers[a.c] == Arming && s1.armed == s.armed && s1.handler == s.handler
  {
  }

  lemma FireAndHandle(s: State)
    requires s.armed && s.handler.Waiting?
    ensures Enabled(s, Fire) && Enabled(Next(s, Fire), Handle)
    ensures var s2 := Next(Next(s, Fire), Handle);
            s2.dispatches == s.dispatches + [Dispatched(s.flag, |s.stores|)] && s2.callers == s.callers && !s2.armed
  {
    var s1 := Next(s, Fire);
    assert Next(s1, Handle) == Dispatch(s1);
  }

  /**
   A timer armed for another purpose that fires between the store of any arming ioctl,
   SET, ALLOC or MONITOR, and that ioctl's `mod_timer` is dispatched on the new flag.
   */
  lemma FireInsideTheWindow(s: State, a: Action)
    requires Enabled(s, a) && StoresFlag(s, a) != FlagNone && s.armed && s.handler.Waiting?
    ensures a.IoctlSet? || a.IoctlAlloc? || a.Go?
    ensures var s1 := Next(s, a);
            && Enabled(s1, Fire) && Enabled(Next(s1, Fire), Handle)
            && var s3 := Next(Next(s1, Fire), Handle);
               && s3.dispatches == s.dispatches + [Dispatched(StoresFlag(s, a), |s.stores| + 1)]
               && a.c < |s3.callers| && s3.callers[a.c] == Arming && !s3.armed
  {
    hide Next, Enabled;
    StoreStep(s, a);
    FireAndHandle(Next(s, a));
  }

  /**
   When a scan ends, with tasks free to die during it: the list is an order-preserving
   selection of the list at its start, every task dead at the start is gone, every
   removed task is dead, and each removal made exactly one `put_task_struct`.
   */
  lemma ScanIsExact(callers: nat, acts: seq<Action>, s: State)
    requires Leads(Init(callers), acts, s) && s.handler.ScanUnlock?
    ensures var ScanUnlock(start, dead0, keeps, puts0) := s.handler;
            && |keeps| == |start|
            && PicksExactly(s.list, start, keeps, Marked(keeps, |keeps|))
            && (forall k :: 0 <= k < |start| ==>
                  (start[k] in dead0 ==> !keeps[k]) && (!keeps[k] ==> start[k] in s.dead))
            && s.counts.puts - puts0 == |start| - |s.list|
  {
    InvInit(callers);
    InvAlways(Init(callers), acts, s);
    var ScanUnlock(start, dead0, keeps, puts0) := s.handler;
    KeepPicks(start, keeps);
    VisitHere(start, keeps, |keeps|);
  }
}
