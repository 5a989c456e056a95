/** What holds on every run of the list machine, for any number of threads. */
module SyncTheorems {
  import opened Words
  import opened Masks
  import opened Counting
  import opened TaskInfo
  import opened SyncMachine
  import opened SyncInvariants

  // ---------- duplicates ----------

  /** Linked copies of a pid and adders between lookup and `list_add` never outnumber the threads. */
  lemma DuplicatesBounded(threads: nat, hz: nat, run: seq<State>, i: nat, pid: int)
    requires IsRun(threads, hz, run) && i < |run|
    ensures Count(run[i].list, PidIs(pid)) + Count(run[i].threads, InFlight(pid)) <= threads
  {
    InvAlways(threads, hz, run, i);
    assert Copies(run[i], pid) <= threads;
  }

  lemma ReachableInv(threads: nat, hz: nat, s: State)
    requires Reachable(threads, hz, s)
    ensures Inv(s) && |s.threads| == threads
  {
    hide Inv;
    var run :| IsRun(threads, hz, run) && run[|run| - 1] == s;
    InvAlways(threads, hz, run, |run| - 1);
  }

  /** Nobody holds the lock, threads below k stand at `low` and the others at `high`. */
  ghost predicate Lined(s: State, k: nat, low: Pc, high: Pc) {
    && k <= |s.threads| && s.writer == Nobody && s.readers == {}
    && forall t :: 0 <= t < |s.threads| ==> s.threads[t] == if t < k then low else high
  }

  /** Thread t calls the add, locks, misses the pid in the empty list and unlocks. */
  lemma MissOnEmpty(threads: nat, hz: nat, s: State, t: nat, pid: int)
    requires Reachable(threads, hz, s) && s.list == [] && s.writer == Nobody && s.readers == {}
    requires t < |s.threads| && s.threads[t] == Idle
    ensures Reachable(threads, hz, s.(threads := s.threads[t := AddAlloc(pid)]))
  {
    hide Reachable;
    ReachableNext(threads, hz, s, Call(t, Add(pid)));
    var s1 := Apply(s, Call(t, Add(pid)));
    ReachableNext(threads, hz, s1, Go(t));
    var s2 := Step(s1, t);
    ReachableNext(threads, hz, s2, Go(t));
    var s3 := Step(s2, t);
    ReachableNext(threads, hz, s3, Go(t));
    assert Step(s3, t) == s.(threads := s.threads[t := AddAlloc(pid)]);
  }

  /** Thread t allocates, locks, links and unlocks. */
  lemma LinkOne(threads: nat, hz: nat, s: State, t: nat, pid: int) returns (s': State)
    requires Reachable(threads, hz, s) && s.writer == Nobody && s.readers == {}
    requires t < |s.threads| && s.threads[t] == AddAlloc(pid)
    ensures Reachable(threads, hz, s') && s'.threads == s.threads[t := Idle] && s'.writer == Nobody && s'.readers == {}
    ensures |s'.list| == |s.list| + 1 && s'.list[0].info.pid == pid && s'.list[1..] == s.list
  {
    hide Reachable;
    var s1 := Step(s, t);
    ReachableNext(threads, hz, s, Go(t));
    var s2 := Step(s1, t);
    ReachableNext(threads, hz, s1, Go(t));
    var s3 := Step(s2, t);
    ReachableNext(threads, hz, s2, Go(t));
    s' := Step(s3, t);
    ReachableNext(threads, hz, s3, Go(t));
  }

  lemma {:induction false} AllMiss(threads: nat, hz: nat, pid: int, k: nat) returns (s: State)
    requires k <= threads
    ensures Reachable(threads, hz, s) && |s.threads| == threads && s.list == [] && Lined(s, k, AddAlloc(pid), Idle)
  {
    hide Reachable;
    if k == 0 {
      s := Init(threads, hz, 0);
      ReachableInit(threads, hz, 0);
    } else {
      var s0 := AllMiss(threads, hz, pid, k - 1);
      MissOnEmpty(threads, hz, s0, k - 1, pid);
      s := s0.(threads := s0.threads[k - 1 := AddAlloc(pid)]);
    }
  }

  lemma {:induction false} AllLink(threads: nat, hz: nat, pid: int, k: nat) returns (s: State)
    requires k <= threads
    ensures Reachable(threads, hz, s) && |s.threads| == threads && Lined(s, k, Idle, AddAlloc(pid))
    ensures |s.list| == k && forall i :: 0 <= i < k ==> s.list[i].info.pid == pid
  {
    hide Reachable;
    if k == 0 {
      s := AllMiss(threads, hz, pid, threads);
    } else {
      var s0 := AllLink(threads, hz, pid, k - 1);
      s := LinkOne(threads, hz, s0, k - 1, pid);
      forall i | 0 <= i < k ensures s.list[i].info.pid == pid {
        if i > 0 {
          assert s.list[i] == s.list[1..][i - 1];
        }
      }
    }
  }

  /**
   The bound is reached for every number of threads and every pid: if all of them miss
   the pid before any of them links it, the list holds one copy for each thread.
   */
  lemma BoundIsReached(threads: nat, hz: nat, pid: int)
    ensures exists s :: Reachable(threads, hz, s) && |s.list| == threads && Count(s.list, PidIs(pid)) == threads
  {
    var s := AllLink(threads, hz, pid, threads);
    CountAll(s.list, PidIs(pid));
  }

  ghost predicate PidsDistinct(list: seq<Entry>) {
    forall j, k :: 0 <= j < k < |list| ==> list[j].info.pid != list[k].info.pid
  }

  /** No pid is ever linked twice exactly when there is at most one thread. */
  lemma DistinctExactlyWhenAlone(threads: nat, hz: nat)
    ensures (forall s :: Reachable(threads, hz, s) ==> PidsDistinct(s.list)) <==> threads <= 1
  {
    hide Reachable;
    if threads <= 1 {
      forall s | Reachable(threads, hz, s) ensures PidsDistinct(s.list) {
        AtMostOneCopy(threads, hz, s);
      }
    } else {
      var s := AllLink(threads, hz, 7, threads);
      assert s.list[0].info.pid == s.list[1].info.pid;
    }
  }

  lemma AtMostOneCopy(threads: nat, hz: nat, s: State)
    requires Reachable(threads, hz, s) && threads <= 1
    ensures PidsDistinct(s.list)
  {
    hide Reachable;
    ReachableInv(threads, hz, s);
    forall j, k | 0 <= j < k < |s.list| ensures s.list[j].info.pid != s.list[k].info.pid {
      var pid := s.list[j].info.pid;
      assert Copies(s, pid) <= 1;
      if s.list[k].info.pid == pid {
        CountTwo(s.list, j, k, PidIs(pid));
      }
    }
  }

  /** With one thread no pid is linked twice at any moment of a run. */
  lemma UniqueWhenAlone(hz: nat, run: seq<State>, i: nat, j: nat, k: nat)
    requires IsRun(1, hz, run) && i < |run| && j < k < |run[i].list|
    ensures run[i].list[j].info.pid != run[i].list[k].info.pid
  {
    RunReaches(1, hz, run, i);
    AtMostOneCopy(1, hz, run[i]);
  }

  // ---------- ownership ----------

  ghost predicate IsLinked(s: State, n: nat) {
    exists i :: 0 <= i < |s.list| && s.list[i].node == n
  }

  ghost predicate IsHeld(s: State, n: nat) {
    exists t :: 0 <= t < |s.threads| && Holding(s.threads[t]) && s.threads[t].e.node == n
  }

  lemma PlacesMean(s: State, n: nat)
    ensures Count(s.list, NodeIs(n)) > 0 <==> IsLinked(s, n)
    ensures Count(s.threads, Owns(n)) > 0 <==> IsHeld(s, n)
    ensures Count(s.freed, Is(n)) > 0 <==> n in s.freed
  {
    CountNone(s.list, NodeIs(n));
    CountNone(s.threads, Owns(n));
    CountNone(s.freed, Is(n));
  }

  /** Every node ever allocated is linked, held by one adder or freed, and only one of these. */
  lemma ExactlyOnePlace(threads: nat, hz: nat, run: seq<State>, i: nat, n: nat)
    requires IsRun(threads, hz, run) && i < |run|
    ensures var s := run[i];
            && (n < s.nodes <==> IsLinked(s, n) || IsHeld(s, n) || n in s.freed)
            && !(IsLinked(s, n) && IsHeld(s, n)) && !(IsLinked(s, n) && n in s.freed) && !(IsHeld(s, n) && n in s.freed)
  {
    InvAlways(threads, hz, run, i);
    PlacesMean(run[i], n);
    assert Places(run[i], n) == if n < run[i].nodes then 1 else 0;
  }

  lemma FreedAtMostOnce(threads: nat, hz: nat, run: seq<State>, i: nat, j: nat, k: nat)
    requires IsRun(threads, hz, run) && i < |run| && j < k < |run[i].freed|
    ensures run[i].freed[j] != run[i].freed[k]
  {
    InvAlways(threads, hz, run, i);
    var n := run[i].freed[j];
    assert Places(run[i], n) <= 1;
    if run[i].freed[k] == n {
      CountTwo(run[i].freed, j, k, Is(n));
    }
  }

  /** When a purge has finished and no adder holds a node, every allocation has been freed. */
  lemma PurgeLeavesNothing(threads: nat, hz: nat, run: seq<State>, i: nat, t: nat)
    requires IsRun(threads, hz, run) && i < |run|
    requires t < threads && |run[i].threads| == threads && run[i].threads[t].PurgeDone?
    requires forall u :: 0 <= u < threads ==> !Holding(run[i].threads[u])
    ensures run[i].list == [] && forall n: nat :: n < run[i].nodes <==> n in run[i].freed
  {
    InvAlways(threads, hz, run, i);
    assert LoopInv(run[i], run[i].threads[t]);
    forall n: nat ensures n < run[i].nodes <==> n in run[i].freed {
      ExactlyOnePlace(threads, hz, run, i, n);
    }
  }

  // ---------- mutual exclusion and the printed snapshot ----------

  lemma WriterExcludesAll(threads: nat, hz: nat, run: seq<State>, i: nat, t: nat, u: nat)
    requires IsRun(threads, hz, run) && i < |run|
    requires t < |run[i].threads| && u < |run[i].threads| && t != u && HoldsWrite(run[i].threads[t])
    ensures !HoldsWrite(run[i].threads[u]) && !HoldsRead(run[i].threads[u])
  {
    InvAlways(threads, hz, run, i);
  }

  /** What `task_info_print_list` has emitted when its loop ends is the list as it stands then. */
  lemma PrintsTheList(threads: nat, hz: nat, run: seq<State>, i: nat, t: nat)
    requires IsRun(threads, hz, run) && i < |run|
    requires t < |run[i].threads| && run[i].threads[t].PrintDone?
    ensures var out, list := run[i].threads[t].out, run[i].list;
            && out == Printed(Infos(list)) && |out| == |list|
            && forall k :: 0 <= k < |list| ==> out[k].0 == list[k].info.pid && out[k].1 == Jiffies(list[k].at)
  {
    InvAlways(threads, hz, run, i);
    assert LoopInv(run[i], run[i].threads[t]);
  }

  lemma ReadFreezes(s: State, a: Action, t: nat)
    requires Inv(s) && Enabled(s, a) && t < |s.threads| && HoldsRead(s.threads[t])
    ensures Apply(s, a).list == s.list && Apply(s, a).freed == s.freed
  {
    hide Apply;
    assert t in s.readers;
    if Apply(s, a).list != s.list || Apply(s, a).freed != s.freed {
      OnlyWriterChanges(s, a);
    }
  }

  /** While a thread stays inside its read section nothing in the list changes. */
  lemma {:induction false} FrozenWhileRead(threads: nat, hz: nat, run: seq<State>, i: nat, j: nat, t: nat)
    requires IsRun(threads, hz, run) && i <= j < |run|
    requires forall k :: i <= k <= j ==> t < |run[k].threads| && HoldsRead(run[k].threads[t])
    ensures run[i].list == run[j].list && run[i].freed == run[j].freed
  {
    hide IsRun, Inv, Enabled, Apply, HoldsRead;
    if i < j {
      FrozenWhileRead(threads, hz, run, i, j - 1, t);
      InvAlways(threads, hz, run, j - 1);
      var a := ActionAt(threads, hz, run, j - 1);
      ReadFreezes(run[j - 1], a, t);
    }
  }

  lemma ActionAt(threads: nat, hz: nat, run: seq<State>, i: nat) returns (a: Action)
    requires IsRun(threads, hz, run) && i + 1 < |run|
    ensures Enabled(run[i], a) && run[i + 1] == Apply(run[i], a)
  {
    assert Next(run[i], run[i + 1]);
    a :| Enabled(run[i], a) && run[i + 1] == Apply(run[i], a);
  }

  /** The lock never wedges: while any call is in progress, some thread can step. */
  lemma NeverStuck(threads: nat, hz: nat, run: seq<State>, i: nat, t: nat)
    requires IsRun(threads, hz, run) && i < |run|
    requires t < |run[i].threads| && run[i].threads[t] != Idle
    ensures exists u :: 0 <= u < |run[i].threads| && Runnable(run[i], u)
  {
    InvAlways(threads, hz, run, i);
    var s := run[i];
    if s.writer.Thread? {
      assert Runnable(s, s.writer.t);
    } else if r :| r in s.readers {
      assert Runnable(s, r);
    } else {
      assert Runnable(s, t);
    }
  }

  // ---------- expiry ----------

  /** The test as documented: strictly older than three seconds and hit fewer than five times. */
  predicate TrulyExpired(x: Info, at: nat, now: nat, hz: nat)
    requires at <= now
  {
    now - at > 3 * hz && x.count < 5
  }

  /**
   The 64-bit test errs in one way only: it overlooks an under-referenced entry whose
   age, past 2^64, has wrapped back to at most three seconds.
   */
  lemma WrappedTestExact(x: Info, at: nat, now: nat, hz: nat)
    requires at <= now && x.timestamp == Jiffies(at)
    ensures (Expired(x, now, hz) <==> TrulyExpired(x, at, now, hz))
       <==> (x.count >= 5 || now - at <= 3 * hz || (now - at) % 0x1_0000_0000_0000_0000 > 3 * hz)
    ensures now - at < 0x1_0000_0000_0000_0000 ==> (Expired(x, now, hz) <==> TrulyExpired(x, at, now, hz))
  {
    WrappedAge(now, at);
    var age := now - at;
    assert age % TWO64 <= age;
    assert age < TWO64 ==> age % TWO64 == age;
  }

  /** An under-referenced entry exactly 2^64 jiffies old is long expired, and the test does not see it. */
  lemma WrappedTestFails()
    ensures var x := Fresh(7, 0);
            var now := 0x1_0000_0000_0000_0000;
            x.timestamp == Jiffies(0) && TrulyExpired(x, 0, now, 1) && !Expired(x, now, 1)
  {
  }

  /** On every run each linked timestamp is the wrapped image of a clock value not in the future. */
  lemma TimestampsPast(threads: nat, hz: nat, run: seq<State>, i: nat, k: nat)
    requires IsRun(threads, hz, run) && i < |run| && k < |run[i].list|
    ensures var e := run[i].list[k];
            && e.at <= run[i].now && e.info.timestamp == Jiffies(e.at)
            && (run[i].now - e.at < TWO64 ==>
                  (Expired(e.info, run[i].now, hz) <==> TrulyExpired(e.info, e.at, run[i].now, hz)))
  {
    InvAlways(threads, hz, run, i);
    var e := run[i].list[k];
    WrappedTestExact(e.info, e.at, run[i].now, hz);
  }

  /**
   When a sweep ends, with the clock free to advance during its loop: the list is an
   order-preserving selection of the list it started from, every under-referenced
   entry expired at the start is gone, and every entry gone is expired at the end.
   */
  lemma SweepIsComplete(threads: nat, hz: nat, run: seq<State>, i: nat, t: nat)
    requires IsRun(threads, hz, run) && i < |run|
    requires t < |run[i].threads| && run[i].threads[t].SweepDone?
    requires forall k :: 0 <= k < |run[i].threads[t].start| ==> run[i].now - run[i].threads[t].start[k].at < TWO64
    ensures var SweepDone(start, since, times) := run[i].threads[t];
            && since <= run[i].now && |times| == |start|
            && var mask := Verdicts(start, times, hz);
            && PicksExactly(run[i].list, start, mask, Marked(mask, |mask|))
            && forall k :: 0 <= k < |start| ==>
                 && start[k].at <= since
                 && (TrulyExpired(start[k].info, start[k].at, since, hz) ==> !mask[k])
                 && (!mask[k] ==> TrulyExpired(start[k].info, start[k].at, run[i].now, hz))
  {
    InvAlways(threads, hz, run, i);
    assert LoopInv(run[i], run[i].threads[t]);
    var SweepDone(start, since, times) := run[i].threads[t];
    var mask := Verdicts(start, times, hz);
    KeepPicks(start, mask);
    VisitHere(start, mask, |mask|);
    forall k | 0 <= k < |start|
      ensures (TrulyExpired(start[k].info, start[k].at, since, hz) ==> !mask[k])
           && (!mask[k] ==> TrulyExpired(start[k].info, start[k].at, run[i].now, hz))
    {
      WrappedTestExact(start[k].info, start[k].at, times[k], hz);
    }
  }

  /** The machine's sweep leaves what the sweep of `TaskInfo` (and so the heap method) leaves. */
  lemma SweepMatchesSpec(threads: nat, hz: nat, run: seq<State>, i: nat, t: nat)
    requires IsRun(threads, hz, run) && i < |run|
    requires t < |run[i].threads| && run[i].threads[t].SweepDone?
    ensures var SweepDone(start, _, times) := run[i].threads[t];
            |times| == |start| && Infos(run[i].list) == TaskInfo.Sweep(Infos(start), times, hz)
  {
    hide Inv;
    InvAlways(threads, hz, run, i);
    SweepLeaves(run[i], t);
  }

  lemma SweepLeaves(s: State, t: nat)
    requires Inv(s) && t < |s.threads| && s.threads[t].SweepDone?
    ensures var SweepDone(start, _, times) := s.threads[t];
            |times| == |start| && Infos(s.list) == TaskInfo.Sweep(Infos(start), times, s.hz)
  {
    hide Expired;
    assert LoopInv(s, s.threads[t]);
    var SweepDone(start, since, times) := s.threads[t];
    var mask := Verdicts(start, times, s.hz);
    VisitHere(start, mask, |mask|);
    assert mask == SweepMask(Infos(start), times, s.hz);
    InfosOfKept(start, mask, |start|);
  }

  lemma {:induction false} InfosOfKept(es: seq<Entry>, mask: seq<bool>, i: nat)
    requires i <= |es| == |mask|
    ensures Infos(KeepTo(es, mask, i)) == KeepTo(Infos(es), mask, i)
  {
    if i > 0 {
      InfosOfKept(es, mask, i - 1);
    }
  }

  // ---------- lookups, hits and duplicates ----------

  /** `task_info_find_pid` returns the most recently linked of the live nodes with that pid. */
  lemma FindReturnsNewest(threads: nat, hz: nat, run: seq<State>, i: nat, pid: int)
    requires IsRun(threads, hz, run) && i < |run|
    ensures var list := run[i].list; var k := Find(Infos(list), pid);
            && (k == |list| <==> forall j :: 0 <= j < |list| ==> list[j].info.pid != pid)
            && (k < |list| ==> list[k].info.pid == pid)
            && (k < |list| ==> forall j :: 0 <= j < |list| && j != k && list[j].info.pid == pid ==>
                                 list[j].serial < list[k].serial)
  {
    InvAlways(threads, hz, run, i);
    var list := run[i].list;
    var k := Find(Infos(list), pid);
    assert forall j :: 0 <= j < k ==> list[j].info.pid == Infos(list)[j].pid != pid;
  }

  /** The entry a lookup refreshes is the one `task_info_find_pid` names. */
  lemma HitsTheFound(s: State, a: Action)
    requires Inv(s) && Enabled(s, a) && EffectOf(s, a).HitAt?
    ensures var k := EffectOf(s, a).i; k < |s.list| && k == Find(Infos(s.list), s.list[k].info.pid)
    ensures var k := EffectOf(s, a).i; Apply(s, a).list == s.list[k := Hit(s.list[k], s.now)]
  {
    assert LoopInv(s, s.threads[a.t]);
    var k := EffectOf(s, a).i;
    FindUnique(Infos(s.list), s.list[k].info.pid, k);
  }

  /** A linked entry stays as it is, is refreshed by a hit, or is freed. */
  lemma EntryFate(s: State, a: Action, k: nat)
    requires Inv(s) && Enabled(s, a) && k < |s.list|
    ensures var s' := Apply(s, a); var e := s.list[k];
            match EffectOf(s, a)
            case HitAt(i) => if i == k then Hit(e, s.now) in s'.list else e in s'.list
            case DroppedAt(i) => if i == k then e.node in s'.freed else e in s'.list
            case _ => e in s'.list
  {
    hide Inv;
    var s', e := Apply(s, a), s.list[k];
    Effects(s, a);
    match EffectOf(s, a)
    case HitAt(i) => assert s'.list[k] == if i == k then Hit(e, s.now) else e;
    case DroppedAt(i) =>
      if i == k {
        assert s'.freed[|s.freed|] == e.node;
      } else {
        assert s'.list[if k < i then k else k - 1] == e;
      }
    case Linked(_) => assert s'.list[k + 1] == e;
    case Nothing =>
  }

  lemma FreedStays(s: State, a: Action, n: nat)
    requires Enabled(s, a) && n in s.freed
    ensures n in Apply(s, a).freed
  {
    Effects(s, a);
  }

  /** Some entry linked later than e carries the same pid. */
  ghost predicate Shadowed(s: State, e: Entry) {
    exists k :: 0 <= k < |s.list| && s.list[k].info.pid == e.info.pid && s.list[k].serial > e.serial
  }

  lemma ShadowedStep(s: State, a: Action, e: Entry)
    requires Inv(s) && Enabled(s, a) && e in s.list && Shadowed(s, e)
    ensures e in Apply(s, a).list || e.node in Apply(s, a).freed
  {
    var k :| 0 <= k < |s.list| && s.list[k] == e;
    EntryFate(s, a, k);
    var front :| 0 <= front < |s.list| && s.list[front].info.pid == e.info.pid && s.list[front].serial > e.serial;
    assert front < k;
    assert s.list[front].info.pid == Infos(s.list)[front].pid;
    if EffectOf(s, a).HitAt? {
      HitsTheFound(s, a);
    }
  }

  /** A duplicate behind a newer node keeps its timestamp and count until it is unlinked. */
  lemma {:induction false} ShadowedIsFrozen(threads: nat, hz: nat, run: seq<State>, i: nat, j: nat, e: Entry)
    requires IsRun(threads, hz, run) && i <= j < |run| && e in run[i].list
    requires forall k :: i <= k < j ==> Shadowed(run[k], e)
    ensures e in run[j].list || e.node in run[j].freed
  {
    hide IsRun, Inv, Enabled, Apply, Shadowed;
    if i < j {
      ShadowedIsFrozen(threads, hz, run, i, j - 1, e);
      InvAlways(threads, hz, run, j - 1);
      var a := ActionAt(threads, hz, run, j - 1);
      if e in run[j - 1].list {
        assert Shadowed(run[j - 1], e);
        ShadowedStep(run[j - 1], a, e);
      } else {
        FreedStays(run[j - 1], a, e.node);
      }
    }
  }

  /** A step in which a lookup finds node n. */
  ghost predicate LookupFinds(s: State, s': State, n: nat) {
    exists t :: 0 <= t < |s.threads| && FindsBy(s, s', t, n)
  }

  ghost predicate FindsBy(s: State, s': State, t: nat, n: nat)
    requires t < |s.threads|
  {
    && Runnable(s, t) && s' == Step(s, t) && s.threads[t].AddScan?
    && var AddScan(pid, i) := s.threads[t];
       i < |s.list| && s.list[i].info.pid == pid && s.list[i].node == n
  }

  /** How many of the first i steps of a run are lookups that find node n. */
  ghost function LookupsOf(run: seq<State>, i: nat, n: nat): nat
    requires i < |run|
  {
    if i == 0 then 0 else LookupsOf(run, i - 1, n) + One(LookupFinds(run[i - 1], run[i], n))
  }

  lemma EffectUnique(s: State, s': State, e: Effect, e': Effect)
    requires Effected(s, s', e) && Effected(s, s', e') && e.HitAt?
    ensures e == e'
  {
    hide Touch;
    assert s'.list[e.i] != s.list[e.i];
  }

  /** Whatever action made the step, it found node n exactly if its effect is a hit on n. */
  lemma FindIsHit(s: State, a: Action, n: nat)
    requires Enabled(s, a)
    ensures var effect := EffectOf(s, a);
            LookupFinds(s, Apply(s, a), n) <==> effect.HitAt? && effect.i < |s.list| && s.list[effect.i].node == n
  {
    hide Step, Effected, Expired;
    var s', effect := Apply(s, a), EffectOf(s, a);
    Effects(s, a);
    if t :| 0 <= t < |s.threads| && FindsBy(s, s', t, n) {
      Effects(s, Go(t));
      EffectUnique(s, s', EffectOf(s, Go(t)), effect);
    }
    if effect.HitAt? && effect.i < |s.list| && s.list[effect.i].node == n {
      assert FindsBy(s, s', a.t, n);
    }
  }

  lemma NodesDistinct(s: State, i: nat, j: nat)
    requires Inv(s) && i < j < |s.list|
    ensures s.list[i].node != s.list[j].node
  {
    var n := s.list[i].node;
    assert Places(s, n) <= 1;
    if s.list[j].node == n {
      CountTwo(s.list, i, j, NodeIs(n));
    }
  }

  /** Every hit field agrees with the lookups counted from outside. */
  ghost predicate HitsCounted(s: State, found: nat -> nat) {
    && (forall k :: 0 <= k < |s.list| ==> s.list[k].hits == found(s.list[k].node))
    && (forall t :: 0 <= t < |s.threads| && Holding(s.threads[t]) ==> found(s.threads[t].e.node) == 0)
    && (forall n: nat :: n >= s.nodes ==> found(n) == 0)
  }

  lemma ListedHits(s: State, a: Action, found: nat -> nat, found': nat -> nat)
    requires Inv(s) && Enabled(s, a) && HitsCounted(s, found)
    requires forall n: nat :: found'(n) == found(n) +
               One(EffectOf(s, a).HitAt? && EffectOf(s, a).i < |s.list| && s.list[EffectOf(s, a).i].node == n)
    ensures forall k :: 0 <= k < |Apply(s, a).list| ==>
              Apply(s, a).list[k].hits == found'(Apply(s, a).list[k].node)
  {
    hide Inv, Touch;
    var s' := Apply(s, a);
    HeldHitsZero(s);
    Effects(s, a);
    hide Apply, EffectOf, Enabled;
    forall k | 0 <= k < |s'.list| ensures s'.list[k].hits == found'(s'.list[k].node) {
      match EffectOf(s, a)
      case Nothing =>
      case HitAt(i) =>
        if k < i {
          NodesDistinct(s, k, i);
        } else if k > i {
          NodesDistinct(s, i, k);
        }
      case Linked(e) =>
        if k > 0 {
          assert s'.list[k] == s.list[k - 1];
        }
      case DroppedAt(i) => assert s'.list[k] == s.list[if k < i then k else k + 1];
    }
  }

  lemma HeldHitsZero(s: State)
    requires Inv(s)
    ensures forall t :: 0 <= t < |s.threads| && Holding(s.threads[t]) ==> s.threads[t].e.hits == 0
  {
  }

  /** A node that is held or not yet allocated is not linked, so no lookup finds it. */
  lemma UnlinkedNotFound(s: State, n: nat, i: nat)
    requires Inv(s) && (IsHeld(s, n) || n >= s.nodes) && i < |s.list|
    ensures s.list[i].node != n
  {
    PlacesMean(s, n);
    assert Places(s, n) <= 1;
    assert n >= s.nodes ==> Places(s, n) == 0;
  }

  lemma OwnOrigin(s: State, t: nat)
    requires t < |s.threads| && Runnable(s, t) && Holding(Step(s, t).threads[t])
    ensures var n := Step(s, t).threads[t].e.node;
            n == s.nodes || (Holding(s.threads[t]) && s.threads[t].e.node == n)
  {
    hide Expired, Touch, Fresh;
    match s.threads[t]
    case AddAlloc(_) =>
    case AddHeld(_) =>
    case AddScan(_, _) =>
    case SweepScan(_, _, _, _) =>
    case _ =>
  }

  lemma HeldOrigin(s: State, a: Action, t: nat)
    requires Enabled(s, a) && t < |Apply(s, a).threads| && Holding(Apply(s, a).threads[t])
    ensures var n := Apply(s, a).threads[t].e.node; n == s.nodes || IsHeld(s, n)
    ensures Apply(s, a).nodes >= s.nodes
  {
    hide Step;
    OwnThread(s, a);
    Effects(s, a);
    if a.Go? && t == a.t {
      OwnOrigin(s, t);
    } else if !a.Tick? && t == a.t {
      EnteringHoldsNone(a.op);
    }
  }

  lemma EnteringHoldsNone(op: Op)
    ensures !Holding(Entering(op))
  {
  }

  lemma HitsStep(s: State, a: Action, found: nat -> nat, found': nat -> nat)
    requires Inv(s) && Enabled(s, a) && HitsCounted(s, found)
    requires forall n: nat :: found'(n) == found(n) + One(LookupFinds(s, Apply(s, a), n))
    ensures HitsCounted(Apply(s, a), found')
  {
    hide Inv, LookupFinds, Apply, EffectOf, Enabled;
    var s' := Apply(s, a);
    forall n: nat
      ensures found'(n) == found(n) +
        One(EffectOf(s, a).HitAt? && EffectOf(s, a).i < |s.list| && s.list[EffectOf(s, a).i].node == n)
    {
      FindIsHit(s, a, n);
    }
    ListedHits(s, a, found, found');
    forall n: nat | IsHeld(s, n) || n >= s.nodes ensures found'(n) == found(n) == 0 {
      if EffectOf(s, a).HitAt? && EffectOf(s, a).i < |s.list| {
        UnlinkedNotFound(s, n, EffectOf(s, a).i);
      }
    }
    Effects(s, a);
    forall t | 0 <= t < |s'.threads| && Holding(s'.threads[t]) ensures found'(s'.threads[t].e.node) == 0 {
      HeldOrigin(s, a, t);
    }
  }

  lemma HitsStart(threads: nat, hz: nat, run: seq<State>)
    requires IsRun(threads, hz, run)
    ensures HitsCounted(run[0], n => LookupsOf(run, 0, n))
  {
  }

  lemma {:induction false} HitsAlways(threads: nat, hz: nat, run: seq<State>, i: nat)
    requires IsRun(threads, hz, run) && i < |run|
    ensures HitsCounted(run[i], n => LookupsOf(run, i, n))
  {
    hide IsRun, Inv, Enabled, Apply, LookupFinds, HitsCounted;
    if i == 0 {
      HitsStart(threads, hz, run);
    } else {
      HitsAlways(threads, hz, run, i - 1);
      InvAlways(threads, hz, run, i - 1);
      var a := ActionAt(threads, hz, run, i - 1);
      HitsStep(run[i - 1], a, n => LookupsOf(run, i - 1, n), n => LookupsOf(run, i, n));
    }
  }

  /**
   The stored count is, on 32 bits, the number of lookups of the run that found this
   node; all of them come after its allocation, since nobody finds a node before.
   */
  lemma CountIsHits(threads: nat, hz: nat, run: seq<State>, i: nat, k: nat)
    requires IsRun(threads, hz, run) && i < |run| && k < |run[i].list|
    ensures run[i].list[k].hits == LookupsOf(run, i, run[i].list[k].node)
    ensures run[i].list[k].info.count == Counter32(LookupsOf(run, i, run[i].list[k].node))
    ensures forall n: nat :: n >= run[i].nodes ==> LookupsOf(run, i, n) == 0
  {
    hide IsRun, LookupsOf, Counter32, Inv;
    InvAlways(threads, hz, run, i);
    HitsAlways(threads, hz, run, i);
    ListedCount(run[i], k);
    var found := n => LookupsOf(run, i, n);
    assert run[i].list[k].hits == found(run[i].list[k].node);
    forall n: nat | n >= run[i].nodes ensures LookupsOf(run, i, n) == 0 {
      assert found(n) == 0;
    }
  }

  lemma ListedCount(s: State, k: nat)
    requires Inv(s) && k < |s.list|
    ensures s.list[k].info.count == Counter32(s.list[k].hits)
  {
  }

  /** An entry escapes every sweep exactly when its hits, on 32 bits, read as five or more. */
  lemma ProtectedExactly(hits: nat)
    ensures Counter32(hits) >= 5 <==> 5 <= hits % 0x1_0000_0000 < 0x8000_0000
    ensures 5 <= hits < 0x8000_0000 ==> Counter32(hits) >= 5
    ensures Counter32(0x8000_0000) < 5
  {
  }

  ghost predicate LinkedWithHits(s: State, n: nat, least: nat) {
    exists k :: 0 <= k < |s.list| && s.list[k].node == n && s.list[k].hits >= least
  }

  ghost predicate AnyPurge(s: State) {
    exists t :: 0 <= t < |s.threads| && s.threads[t].PurgeScan?
  }

  lemma ProtectedStep(s: State, a: Action, n: nat)
    requires Inv(s) && Enabled(s, a) && !AnyPurge(s)
    requires LinkedWithHits(s, n, 5)
    requires forall k :: 0 <= k < |s.list| && s.list[k].node == n ==> s.list[k].hits < TWO31
    ensures LinkedWithHits(Apply(s, a), n, 5)
  {
    var k :| 0 <= k < |s.list| && s.list[k].node == n && s.list[k].hits >= 5;
    var e := s.list[k];
    EntryFate(s, a, k);
    ProtectedExactly(e.hits);
    assert e.info.count >= MAX_COUNT;
    var s' := Apply(s, a);
    assert EffectOf(s, a) != DroppedAt(k);
    var e' := if EffectOf(s, a) == HitAt(k) then Hit(e, s.now) else e;
    assert e' in s'.list;
    var k' :| 0 <= k' < |s'.list| && s'.list[k'] == e';
    assert s'.list[k'].node == n && s'.list[k'].hits >= 5;
  }

  /** A node hit five times survives every sweep while its hits stay below 2^31 and nobody purges. */
  lemma {:induction false} FiveHitsSurvive(threads: nat, hz: nat, run: seq<State>, i: nat, j: nat, n: nat)
    requires IsRun(threads, hz, run) && i <= j < |run|
    requires LinkedWithHits(run[i], n, 5)
    requires forall k :: i <= k < j ==> !AnyPurge(run[k])
    requires forall k :: i <= k < j ==>
      forall m :: 0 <= m < |run[k].list| && run[k].list[m].node == n ==> run[k].list[m].hits < 0x8000_0000
    ensures LinkedWithHits(run[j], n, 5)
  {
    hide IsRun, Inv, Enabled, Apply, LinkedWithHits, AnyPurge;
    if i < j {
      FiveHitsSurvive(threads, hz, run, i, j - 1, n);
      InvAlways(threads, hz, run, j - 1);
      var a := ActionAt(threads, hz, run, j - 1);
      assert !AnyPurge(run[j - 1]);
      ProtectedStep(run[j - 1], a, n);
    }
  }
}
