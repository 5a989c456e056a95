/** Whole calls of the list machine: which sections a call completes, and that each section comes to its end. */
module SyncCalls {
  import opened Words
  import opened Counting
  import opened TaskInfo
  import opened SyncMachine
  import opened SyncInvariants
  import opened SyncTheorems
  import opened SyncAtomic

  // ---------- which sections a call completes ----------

  /** The sections that thread t completes in the steps from i to j. */
  ghost function By(run: seq<State>, i: nat, j: nat, t: nat): seq<Section>
    requires i <= j < |run|
  {
    if i == j then [] else By(run, i, j - 1, t) + Done(run[j - 1], run[j], t)
  }

  ghost function Done(s: State, s': State, t: nat): seq<Section> {
    if t < |s.threads| && Unlocks(s, s', t) && Ending(s.threads[t]) then [SectionOf(s.threads[t])] else []
  }

  /** An add hits, or misses and then links a fresh entry; the others complete their one section. */
  ghost predicate Answers(op: Op, cs: seq<Section>) {
    match op
    case Add(pid) =>
      || (|cs| == 1 && cs[0].DidHit? && cs[0].pid == pid)
      || (|cs| == 2 && cs[0] == DidMiss(pid) && cs[1].DidLink? && cs[1].x.pid == pid && cs[1].x.count == 0)
    case Print => |cs| == 1 && cs[0].DidPrint?
    case Sweep => |cs| == 1 && cs[0].DidSweep?
    case Purge => |cs| == 1 && cs[0].DidPurge?
  }

  /** Where a call of op can stand once it has completed cs. */
  ghost predicate Progress(op: Op, pc: Pc, cs: seq<Section>) {
    match pc
    case Idle => Answers(op, cs)
    case AddWant(pid) => op == Add(pid) && cs == []
    case AddScan(pid, _) => op == Add(pid) && cs == []
    case AddHit(pid, _) => op == Add(pid) && cs == []
    case AddMiss(pid) => op == Add(pid) && cs == []
    case AddAlloc(pid) => op == Add(pid) && cs == [DidMiss(pid)]
    case AddHeld(e) => op == Add(e.info.pid) && cs == [DidMiss(e.info.pid)] && e.info.count == 0
    case AddLink(e) => op == Add(e.info.pid) && cs == [DidMiss(e.info.pid)] && e.info.count == 0
    case AddDone(x) => op == Add(x.pid) && cs == [DidMiss(x.pid)] && x.count == 0
    case PrintWant => op == Print && cs == []
    case PrintScan(_, _) => op == Print && cs == []
    case PrintDone(_) => op == Print && cs == []
    case SweepWant => op == Sweep && cs == []
    case SweepScan(_, _, _, _) => op == Sweep && cs == []
    case SweepDone(_, _, _) => op == Sweep && cs == []
    case PurgeWant => op == Purge && cs == []
    case PurgeScan(_, _) => op == Purge && cs == []
    case PurgeDone(_, _) => op == Purge && cs == []
  }

  lemma OwnProgress(s: State, t: nat, op: Op, cs: seq<Section>)
    requires t < |s.threads| && Runnable(s, t) && Progress(op, s.threads[t], cs)
    ensures var pc, pc' := s.threads[t], Step(s, t).threads[t];
            Progress(op, pc', cs + if Ending(pc) then [SectionOf(pc)] else [])
  {
    hide Expired, Touch;
    var pc := s.threads[t];
    assert cs + [] == cs;
    match pc
    case AddScan(_, _) =>
    case SweepScan(_, _, _, _) =>
    case PrintScan(_, _) =>
    case PurgeScan(_, _) =>
    case _ =>
  }

  lemma ProgressStep(s: State, a: Action, t: nat, op: Op, cs: seq<Section>)
    requires Inv(s) && Enabled(s, a) && t < |s.threads| && s.threads[t] != Idle
    requires Progress(op, s.threads[t], cs)
    ensures t < |Apply(s, a).threads| && Progress(op, Apply(s, a).threads[t], cs + Done(s, Apply(s, a), t))
  {
    hide Step, Inv, Progress, Unlocks, Ending, SectionOf;
    OwnThread(s, a);
    UnlockEnds(s, a, t);
    if a == Go(t) {
      OwnProgress(s, t, op, cs);
    } else {
      assert cs + [] == cs;
    }
  }

  lemma {:induction false} ProgressAlways(threads: nat, hz: nat, run: seq<State>, i: nat, j: nat, t: nat, op: Op)
    requires IsRun(threads, hz, run) && i < j < |run|
    requires Enabled(run[i], Call(t, op)) && run[i + 1] == Apply(run[i], Call(t, op))
    requires forall k :: i < k < j ==> t < |run[k].threads| && run[k].threads[t] != Idle
    ensures t < |run[j].threads| && Progress(op, run[j].threads[t], By(run, i, j, t))
  {
    hide IsRun, Inv, Progress, Done, Step;
    if j == i + 1 {
      CallBegins(threads, hz, run, i, t, op);
    } else {
      ProgressAlways(threads, hz, run, i, j - 1, t, op);
      InvAlways(threads, hz, run, j - 1);
      var a := ActionAt(threads, hz, run, j - 1);
      hide Enabled, Apply;
      ProgressStep(run[j - 1], a, t, op, By(run, i, j - 1, t));
    }
  }

  lemma CallBegins(threads: nat, hz: nat, run: seq<State>, i: nat, t: nat, op: Op)
    requires IsRun(threads, hz, run) && i + 1 < |run|
    requires Enabled(run[i], Call(t, op)) && run[i + 1] == Apply(run[i], Call(t, op))
    ensures t < |run[i + 1].threads| && Progress(op, run[i + 1].threads[t], By(run, i, i + 1, t))
  {
    hide IsRun, Inv, Unlocks;
    InvAlways(threads, hz, run, i);
    UnlockEnds(run[i], Call(t, op), t);
    assert By(run, i, i, t) == [];
  }

  /**
   On every run a call that has returned completed exactly the sections of its function: an
   add of a pid one hit of that pid, or a miss and then the link of a fresh entry with that
   pid; a print, a sweep or a purge its own one.
   */
  lemma CallCompletes(threads: nat, hz: nat, run: seq<State>, i: nat, j: nat, t: nat, op: Op)
    requires IsRun(threads, hz, run) && i < j < |run|
    requires Enabled(run[i], Call(t, op)) && run[i + 1] == Apply(run[i], Call(t, op))
    requires forall k :: i < k < j ==> t < |run[k].threads| && run[k].threads[t] != Idle
    requires t < |run[j].threads| && run[j].threads[t] == Idle
    ensures var cs := By(run, i, j, t);
            match op
            case Add(pid) =>
              || (|cs| == 1 && cs[0].DidHit? && cs[0].pid == pid)
              || (|cs| == 2 && cs[0] == DidMiss(pid) && cs[1].DidLink? && cs[1].x.pid == pid && cs[1].x.count == 0)
            case Print => |cs| == 1 && cs[0].DidPrint?
            case Sweep => |cs| == 1 && cs[0].DidSweep?
            case Purge => |cs| == 1 && cs[0].DidPurge?
  {
    hide IsRun, By, Enabled, Apply;
    ProgressAlways(threads, hz, run, i, j, t, op);
  }

  // ---------- every section ends ----------

  /** How many steps of its own a thread still makes before it unlocks. */
  function ToGo(s: State, pc: Pc): int {
    match pc
    case AddScan(_, i) => |s.list| - i + 2
    case AddLink(_) => 2
    case PrintScan(i, _) => |s.list| - i + 2
    case SweepScan(i, _, _, _) => |s.list| - i + 2
    case PurgeScan(_, _) => |s.list| + 2
    case _ => 1
  }

  predicate InSection(pc: Pc) {
    HoldsWrite(pc) || HoldsRead(pc)
  }

  lemma OwnGo(s: State, t: nat)
    requires t < |s.threads| && Runnable(s, t) && InSection(s.threads[t]) && LoopInv(s, s.threads[t])
    ensures var s' := Step(s, t);
            && 1 <= ToGo(s, s.threads[t]) <= |s.list| + 2
            && (InSection(s'.threads[t]) ==> ToGo(s', s'.threads[t]) < ToGo(s, s.threads[t]))
            && (!InSection(s'.threads[t]) ==> ToGo(s, s.threads[t]) == 1)
  {
    hide Expired, Touch, Infos, Printed, Purging;
    match s.threads[t]
    case AddScan(_, _) =>
    case PrintScan(_, _) =>
    case SweepScan(_, _, _, _) => SweepInside(s, t);
    case PurgeScan(_, _) =>
    case _ =>
  }

  lemma SweepInside(s: State, t: nat)
    requires t < |s.threads| && s.threads[t].SweepScan? && LoopInv(s, s.threads[t])
    ensures s.threads[t].i <= |s.list|
  {
    var SweepScan(i, start, since, times) := s.threads[t];
    Masks.VisitHere(start, Verdicts(start, times, s.hz), |times|);
  }

  /** No step of another thread sends a thread in a section back. */
  lemma OthersGo(s: State, a: Action, t: nat)
    requires Inv(s) && Enabled(s, a) && t < |s.threads| && InSection(s.threads[t]) && a != Go(t)
    ensures t < |Apply(s, a).threads| && Apply(s, a).threads[t] == s.threads[t]
    ensures ToGo(Apply(s, a), s.threads[t]) == ToGo(s, s.threads[t])
  {
    hide Step, Expired, EntriesInv, LoopsInv, OwnershipInv, CopiesInv;
    OwnThread(s, a);
    if Apply(s, a).list != s.list {
      OnlyWriterChanges(s, a);
    }
  }

  function Goes(t: nat): Action -> bool {
    (a: Action) => a == Go(t)
  }

  ghost predicate Schedules(acts: seq<Action>, run: seq<State>) {
    |run| == |acts| + 1
    && forall k :: 0 <= k < |acts| ==> Enabled(run[k], acts[k]) && run[k + 1] == Apply(run[k], acts[k])
  }

  /**
   However the others are scheduled, a thread that has taken the lock unlocks after at most
   two steps of its own more than the list had entries then.
   */
  lemma {:induction false} SectionsEnd(threads: nat, hz: nat, run: seq<State>, acts: seq<Action>,
                                       i: nat, j: nat, t: nat)
    requires IsRun(threads, hz, run) && Schedules(acts, run) && i <= j < |run|
    requires forall k :: i <= k <= j ==> t < |run[k].threads| && InSection(run[k].threads[t])
    ensures Count(acts[i..j], Goes(t)) + ToGo(run[j], run[j].threads[t]) <= ToGo(run[i], run[i].threads[t])
    ensures 1 <= ToGo(run[j], run[j].threads[t]) && ToGo(run[i], run[i].threads[t]) <= |run[i].list| + 2
  {
    hide IsRun, Inv, Enabled, Apply, ToGo, InSection, Count;
    ToGoBounds(threads, hz, run, i, t);
    ToGoBounds(threads, hz, run, j, t);
    if i == j {
      CountNone(acts[i..j], Goes(t));
    } else {
      var s, a := run[j - 1], acts[j - 1];
      SectionsEnd(threads, hz, run, acts, i, j - 1, t);
      InvAlways(threads, hz, run, j - 1);
      assert acts[i..j] == acts[i..j - 1] + [a];
      CountConcat(acts[i..j - 1], [a], Goes(t));
      CountOne(a, Goes(t));
      assert run[j - 1 + 1] == Apply(s, a);
      if a == Go(t) {
        OwnGoes(s, t);
      } else {
        OthersGo(s, a, t);
      }
    }
  }

  lemma CountOne(a: Action, f: Action -> bool)
    ensures Count([a], f) == One(f(a))
  {
    CountConcat([], [a], f);
  }

  lemma OwnGoes(s: State, t: nat)
    requires Inv(s) && Enabled(s, Go(t)) && t < |s.threads| && InSection(s.threads[t])
    requires t < |Apply(s, Go(t)).threads| && InSection(Apply(s, Go(t)).threads[t])
    ensures var s' := Apply(s, Go(t)); ToGo(s', s'.threads[t]) < ToGo(s, s.threads[t])
  {
    hide Step, LoopInv, InSection, ToGo;
    assert LoopInv(s, s.threads[t]);
    OwnGo(s, t);
  }

  lemma ToGoBounds(threads: nat, hz: nat, run: seq<State>, i: nat, t: nat)
    requires IsRun(threads, hz, run) && i < |run| && t < |run[i].threads| && InSection(run[i].threads[t])
    ensures 1 <= ToGo(run[i], run[i].threads[t]) <= |run[i].list| + 2
  {
    hide IsRun, LoopInv, Step;
    InvAlways(threads, hz, run, i);
    assert LoopInv(run[i], run[i].threads[t]);
    assert Runnable(run[i], t);
    OwnGo(run[i], t);
  }

  // ---------- what a sweep remembers ----------

  predicate InSweep(pc: Pc) {
    pc.SweepScan? || pc.SweepDone?
  }

  /** A sweep remembers the list and the clock of the moment when it locked. */
  ghost predicate SweepRemembers(pc: Pc, pc': Pc, s: State) {
    InSweep(pc') ==>
      if pc == SweepWant then pc'.start == s.list && pc'.since == s.now
      else InSweep(pc) && pc'.start == pc.start && pc'.since == pc.since
  }

  lemma SweepOwn(s: State, t: nat)
    requires t < |s.threads| && Runnable(s, t)
    ensures SweepRemembers(s.threads[t], Step(s, t).threads[t], s)
  {
    hide Expired, Touch, Fresh;
    match s.threads[t]
    case AddScan(_, _) =>
    case SweepScan(_, _, _, _) =>
    case PrintScan(_, _) =>
    case PurgeScan(_, _) =>
    case _ =>
  }

  lemma SweepStays(s: State, a: Action, t: nat)
    requires Enabled(s, a) && t < |s.threads|
    ensures |Apply(s, a).threads| == |s.threads| && SweepRemembers(s.threads[t], Apply(s, a).threads[t], s)
  {
    hide Step;
    OwnThread(s, a);
    if a == Go(t) {
      SweepOwn(s, t);
    }
  }

  /** What `SweepIsComplete` calls the start of a sweep is the state in which it took the lock. */
  lemma {:induction false} SweepSince(threads: nat, hz: nat, run: seq<State>, i: nat, j: nat, t: nat)
    requires IsRun(threads, hz, run) && i < j < |run|
    requires t < |run[i].threads| && run[i].threads[t] == SweepWant
    requires forall k :: i < k <= j ==> t < |run[k].threads| && InSweep(run[k].threads[t])
    ensures InSweep(run[j].threads[t])
    ensures run[j].threads[t].start == run[i].list && run[j].threads[t].since == run[i].now
  {
    hide IsRun, Enabled, Apply;
    if i < j - 1 {
      SweepSince(threads, hz, run, i, j - 1, t);
    }
    assert InSweep(run[j].threads[t]);
    var a := ActionAt(threads, hz, run, j - 1);
    SweepStays(run[j - 1], a, t);
  }

  // ---------- runs that exist ----------

  /** Thread t calls the print and takes the read lock beside the readers already there. */
  lemma OneMoreReader(threads: nat, hz: nat, s: State, t: nat)
    requires Reachable(threads, hz, s) && s.writer == Nobody && t < |s.threads| && s.threads[t] == Idle
    ensures Reachable(threads, hz, s.(threads := s.threads[t := PrintScan(0, [])], readers := s.readers + {t}))
  {
    hide Reachable;
    ReachableNext(threads, hz, s, Call(t, Print));
    var s1 := Apply(s, Call(t, Print));
    ReachableNext(threads, hz, s1, Go(t));
    assert Step(s1, t) == s.(threads := s.threads[t := PrintScan(0, [])], readers := s.readers + {t});
  }

  /** Readers do not exclude each other: for every number of threads all of them can print at once. */
  lemma {:induction false} ReadersShare(threads: nat, hz: nat, k: nat) returns (s: State)
    requires k <= threads
    ensures Reachable(threads, hz, s) && |s.threads| == threads && s.writer == Nobody
    ensures forall t :: 0 <= t < threads ==> s.threads[t] == (if t < k then PrintScan(0, []) else Idle)
    ensures forall t: nat :: t in s.readers <==> t < k
  {
    hide Reachable;
    if k == 0 {
      s := Init(threads, hz, 0);
      ReachableInit(threads, hz, 0);
    } else {
      var s0 := ReadersShare(threads, hz, k - 1);
      OneMoreReader(threads, hz, s0, k - 1);
      s := s0.(threads := s0.threads[k - 1 := PrintScan(0, [])], readers := s0.readers + {k - 1});
    }
  }

  /** The state after a schedule of actions. */
  ghost predicate Leads(s: State, acts: seq<Action>, s': State)
    decreases |acts|
  {
    if acts == [] then s' == s else Enabled(s, acts[0]) && Leads(Apply(s, acts[0]), acts[1..], s')
  }

  lemma {:induction false} LeadsConcat(s: State, a: seq<Action>, m: State, b: seq<Action>, s': State)
    requires Leads(s, a, m) && Leads(m, b, s')
    ensures Leads(s, a + b, s')
    decreases |a|
  {
    hide Enabled, Apply;
    if a == [] {
      assert a + b == b;
    } else {
      assert (a + b)[1..] == a[1..] + b;
      LeadsConcat(Apply(s, a[0]), a[1..], m, b, s');
    }
  }

  lemma LeadsOne(s: State, a: Action)
    requires Enabled(s, a)
    ensures Leads(s, [a], Apply(s, a))
  {
    assert Leads(Apply(s, a), [a][1..], Apply(s, a));
  }

  /** n steps of thread 0, each by itself. */
  function Steps(n: nat): seq<Action> {
    if n == 0 then [] else Steps(n - 1) + [Go(0)]
  }

  lemma OneStep(s: State, acts: seq<Action>, n: nat, m: State)
    requires Leads(s, acts + Steps(n), m) && |m.threads| > 0 && Runnable(m, 0)
    ensures Leads(s, acts + Steps(n + 1), Step(m, 0))
  {
    hide Step, Leads;
    LeadsOne(m, Go(0));
    LeadsConcat(s, acts + Steps(n), m, [Go(0)], Step(m, 0));
    assert acts + Steps(n) + [Go(0)] == acts + Steps(n + 1);
  }

  /** One thread, idle, and one entry with this pid, stamped now and hit k times. */
  ghost predicate OneEntry(s: State, pid: int, k: nat) {
    && s.threads == [Idle] && s.writer == Nobody && s.readers == {}
    && |s.list| == 1 && s.list[0].info == Info(pid, Jiffies(s.now), Counter32(k))
  }

  lemma Begun(s: State, a: Action)
    requires Enabled(s, a)
    ensures Leads(s, [a] + Steps(0), Apply(s, a))
  {
    LeadsOne(s, a);
    assert [a] + Steps(0) == [a];
  }

  lemma FirstMiss(hz: nat, now: nat, pid: int) returns (s: State)
    ensures Leads(Init(1, hz, now), [Call(0, Add(pid))] + Steps(3), s)
    ensures s == Init(1, hz, now).(threads := [AddAlloc(pid)])
  {
    hide Leads, Expired, Touch, Fresh;
    var s0 := Init(1, hz, now);
    var acts := [Call(0, Add(pid))];
    Begun(s0, Call(0, Add(pid)));
    s := Apply(s0, Call(0, Add(pid)));
    OneStep(s0, acts, 0, s);
    s := Step(s, 0);
    OneStep(s0, acts, 1, s);
    s := Step(s, 0);
    OneStep(s0, acts, 2, s);
    s := Step(s, 0);
  }

  lemma FirstAdd(hz: nat, now: nat, pid: int) returns (s: State)
    ensures Leads(Init(1, hz, now), [Call(0, Add(pid))] + Steps(7), s) && OneEntry(s, pid, 0) && s.hz == hz
  {
    hide Leads, Jiffies, Counter32, Expired, Touch;
    var s0, acts := Init(1, hz, now), [Call(0, Add(pid))];
    s := FirstMiss(hz, now, pid);
    OneStep(s0, acts, 3, s);
    s := Step(s, 0);
    OneStep(s0, acts, 4, s);
    s := Step(s, 0);
    OneStep(s0, acts, 5, s);
    s := Step(s, 0);
    OneStep(s0, acts, 6, s);
    s := Step(s, 0);
    CounterStep(0);
  }

  lemma AddAgain(s0: State, pid: int, k: nat) returns (s: State)
    requires OneEntry(s0, pid, k)
    ensures Leads(s0, [Call(0, Add(pid))] + Steps(3), s) && OneEntry(s, pid, k + 1) && s.hz == s0.hz
  {
    hide Leads, Jiffies, Counter32;
    var acts := [Call(0, Add(pid))];
    Begun(s0, Call(0, Add(pid)));
    s := Apply(s0, Call(0, Add(pid)));
    OneStep(s0, acts, 0, s);
    s := Step(s, 0);
    OneStep(s0, acts, 1, s);
    s := Step(s, 0);
    OneStep(s0, acts, 2, s);
    s := Step(s, 0);
    CounterStep(k);
  }

  /** k repeated adds of the pid. */
  function Again(pid: int, k: nat): seq<Action> {
    if k == 0 then [] else Again(pid, k - 1) + ([Call(0, Add(pid))] + Steps(3))
  }

  lemma {:induction false} AddsAgain(s0: State, pid: int, k: nat) returns (s: State)
    requires OneEntry(s0, pid, 0)
    ensures Leads(s0, Again(pid, k), s) && OneEntry(s, pid, k) && s.hz == s0.hz
  {
    hide OneEntry, Steps, Enabled, Apply;
    if k == 0 {
      s := s0;
    } else {
      var m := AddsAgain(s0, pid, k - 1);
      s := AddAgain(m, pid, k - 1);
      LeadsConcat(s0, Again(pid, k - 1), m, [Call(0, Add(pid))] + Steps(3), s);
    }
  }

  lemma SweepOnce(s0: State, x: Info) returns (s: State)
    requires s0.threads == [Idle] && s0.writer == Nobody && s0.readers == {}
    requires |s0.list| == 1 && s0.list[0].info == x
    ensures Leads(s0, [Call(0, Op.Sweep)] + Steps(4), s)
    ensures s.list == if Expired(x, s0.now, s0.hz) then [] else s0.list
  {
    hide Leads, Expired;
    var acts := [Call(0, Op.Sweep)];
    Begun(s0, Call(0, Op.Sweep));
    s := Apply(s0, Call(0, Op.Sweep));
    OneStep(s0, acts, 0, s);
    s := Step(s, 0);
    OneStep(s0, acts, 1, s);
    s := Step(s, 0);
    OneStep(s0, acts, 2, s);
    s := Step(s, 0);
    OneStep(s0, acts, 3, s);
    s := Step(s, 0);
  }

  /**
   From the empty list: a pid is added and added again k times, the clock advances by d, and
   a sweep runs.  The entry is gone exactly if d is more than three seconds and k below five.
   */
  lemma AgeAndHitsDecide(hz: nat, now: nat, pid: int, k: nat, d: nat) returns (s: State)
    requires d < 0x1_0000_0000_0000_0000 && k < 0x8000_0000
    ensures Leads(Init(1, hz, now),
                  [Call(0, Add(pid))] + Steps(7) + Again(pid, k) + [Tick(d)] + ([Call(0, Op.Sweep)] + Steps(4)), s)
    ensures |s.list| == if d > 3 * hz && k < 5 then 0 else 1
  {
    hide Leads, Steps, Again, Expired, Jiffies, Counter32;
    var s0, acts := Init(1, hz, now), [Call(0, Add(pid))] + Steps(7);
    var s1 := FirstAdd(hz, now, pid);
    var s2 := AddsAgain(s1, pid, k);
    LeadsConcat(s0, acts, s1, Again(pid, k), s2);
    var s3 := Apply(s2, Tick(d));
    LeadsOne(s2, Tick(d));
    LeadsConcat(s0, acts + Again(pid, k), s2, [Tick(d)], s3);
    s := SweepOnce(s3, s2.list[0].info);
    LeadsConcat(s0, acts + Again(pid, k) + [Tick(d)], s3, [Call(0, Op.Sweep)] + Steps(4), s);
    WrappedTestExact(s2.list[0].info, s2.now, s3.now, hz);
    ProtectedExactly(k);
    SmallCount(k);
  }

  lemma SmallCount(k: nat)
    requires k < 0x8000_0000
    ensures Counter32(k) == k
  {
  }
}
