/**
 The critical sections of the list machine are atomic: in the order in which they
 unlock, the sections of a run are a run of one thread, and they leave the same list.
 */
module SyncAtomic {
  import opened Words
  import opened Masks
  import opened TaskInfo
  import opened SyncMachine
  import opened SyncInvariants
  import opened SyncTheorems

  /** A completed critical section with what it was given and what it returned. */
  datatype Section =
    | DidHit(pid: int, at: nat)          // the first one of an add: found and refreshed
    | DidMiss(pid: int)                  // the first one of an add: not found
    | DidLink(x: Info)                   // the second one of an add
    | DidPrint(out: seq<(int, u64)>)
    | DidSweep(times: seq<nat>)          // one clock reading for each entry
    | DidPurge

  // ---------- one thread alone ----------

  /** The section, run alone on the entries xs, ends as recorded. */
  ghost predicate Ends(xs: seq<Info>, c: Section) {
    match c
    case DidHit(pid, _) => Find(xs, pid) < |xs|
    case DidMiss(pid) => Find(xs, pid) == |xs|
    case DidLink(_) => true
    case DidPrint(out) => out == Printed(xs)
    case DidSweep(times) => |times| == |xs|
    case DidPurge => true
  }

  /** The entries it leaves. */
  ghost function Leaves(xs: seq<Info>, c: Section, hz: nat): seq<Info>
    requires Ends(xs, c)
  {
    match c
    case DidHit(pid, at) => var k := Find(xs, pid); xs[k := Touch(xs[k], at)]
    case DidMiss(_) => xs
    case DidLink(x) => [x] + xs
    case DidPrint(_) => xs
    case DidSweep(times) => TaskInfo.Sweep(xs, times, hz)
    case DidPurge => []
  }

  /** One after the other from the empty list, every section ends as recorded. */
  ghost predicate Sequential(cs: seq<Section>, hz: nat)
    decreases |cs|, 0
  {
    if cs == [] then true
    else Sequential(cs[..|cs| - 1], hz) && Ends(Replay(cs[..|cs| - 1], hz), cs[|cs| - 1])
  }

  /** The entries that the last of them leaves. */
  ghost function Replay(cs: seq<Section>, hz: nat): seq<Info>
    requires Sequential(cs, hz)
    decreases |cs|, 1
  {
    if cs == [] then [] else Leaves(Replay(cs[..|cs| - 1], hz), cs[|cs| - 1], hz)
  }

  lemma SequentialNext(cs: seq<Section>, c: Section, hz: nat)
    requires Sequential(cs, hz) && Ends(Replay(cs, hz), c)
    ensures Sequential(cs + [c], hz) && Replay(cs + [c], hz) == Leaves(Replay(cs, hz), c, hz)
  {
    hide Ends, Leaves;
    assert (cs + [c])[..|cs|] == cs;
  }

  // ---------- the sections of a run ----------

  predicate Ending(pc: Pc) {
    pc.AddHit? || pc.AddMiss? || pc.AddDone? || pc.PrintDone? || pc.SweepDone? || pc.PurgeDone?
  }

  function SectionOf(pc: Pc): Section
    requires Ending(pc)
  {
    match pc
    case AddHit(pid, at) => DidHit(pid, at)
    case AddMiss(pid) => DidMiss(pid)
    case AddDone(linked) => DidLink(linked)
    case PrintDone(out) => DidPrint(out)
    case SweepDone(_, _, times) => DidSweep(times)
    case PurgeDone(_, _) => DidPurge
  }

  /** Thread t holds the lock in s and not in s'. */
  predicate Unlocks(s: State, s': State, t: nat) {
    (s.writer == Thread(t) && s'.writer != Thread(t)) || (t in s.readers && t !in s'.readers)
  }

  /** The section that a step completes, if it gives up the lock. */
  ghost function Completed(s: State, s': State): seq<Section> {
    if t: nat :| t < |s.threads| && Unlocks(s, s', t) && Ending(s.threads[t]) then [SectionOf(s.threads[t])] else []
  }

  /** The sections completed in the first i steps, in the order in which they unlocked. */
  ghost function Log(run: seq<State>, i: nat): seq<Section>
    requires i < |run|
  {
    if i == 0 then [] else Log(run, i - 1) + Completed(run[i - 1], run[i])
  }

  /** A thread gives up the lock exactly in the step that completes its section. */
  lemma UnlockEnds(s: State, a: Action, t: nat)
    requires Inv(s) && Enabled(s, a) && t < |s.threads|
    ensures Unlocks(s, Apply(s, a), t) <==> a == Go(t) && Ending(s.threads[t])
  {
    hide Step, Expired, EntriesInv, LoopsInv, OwnershipInv, CopiesInv;
    if a.Go? {
      LockMoves(s, a.t);
      EndingUnlocks(s, a.t);
    }
  }

  lemma EndingUnlocks(s: State, t: nat)
    requires t < |s.threads| && Runnable(s, t)
    ensures var pc, pc' := s.threads[t], Step(s, t).threads[t];
            && (Ending(pc) <==> (HoldsWrite(pc) || HoldsRead(pc)) && !HoldsWrite(pc') && !HoldsRead(pc'))
            && (Ending(pc) ==> Step(s, t).list == s.list)
  {
    hide Expired, Touch;
  }

  lemma CompletedIs(s: State, a: Action)
    requires Inv(s) && Enabled(s, a)
    ensures Completed(s, Apply(s, a)) ==
              if a.Go? && Ending(s.threads[a.t]) then [SectionOf(s.threads[a.t])] else []
  {
    hide Inv, Apply, Ending, Unlocks, SectionOf;
    var s' := Apply(s, a);
    forall t: nat | t < |s.threads| ensures Unlocks(s, s', t) <==> a == Go(t) && Ending(s.threads[t]) {
      UnlockEnds(s, a, t);
    }
    if a.Go? && Ending(s.threads[a.t]) {
      assert Unlocks(s, s', a.t);
    }
  }

  // ---------- in between ----------

  /** The list `now` under a writer at pc that found xs when it locked. */
  ghost predicate Midway(xs: seq<Info>, pc: Pc, now: seq<Info>) {
    match pc
    case AddHit(pid, at) => var k := Find(xs, pid); k < |xs| && now == xs[k := Touch(xs[k], at)]
    case AddDone(linked) => now == [linked] + xs
    case SweepScan(_, start, _, _) => xs == Infos(start)
    case SweepDone(start, _, _) => xs == Infos(start)
    case PurgeScan(start, _) => xs == Infos(start)
    case PurgeDone(start, _) => xs == Infos(start)
    case _ => now == xs
  }

  /** Without a writer the list is xs; under a writer, it is what the writer has made of xs. */
  ghost predicate Explains(xs: seq<Info>, s: State) {
    match s.writer
    case Nobody => Infos(s.list) == xs
    case Thread(t) => t < |s.threads| && Midway(xs, s.threads[t], Infos(s.list))
  }

  /** Whoever unlocks ends as if alone, and leaves what it would have left alone. */
  lemma EndsAlone(s: State, t: nat, xs: seq<Info>)
    requires Inv(s) && t < |s.threads| && Ending(s.threads[t]) && Explains(xs, s)
    ensures var c := SectionOf(s.threads[t]); Ends(xs, c) && Leaves(xs, c, s.hz) == Infos(s.list)
  {
    hide OwnershipInv, CopiesInv, EntriesInv, Sweeping, Purging, Expired, Touch;
    assert LoopInv(s, s.threads[t]);
    match s.threads[t]
    case AddHit(_, _) =>
    case AddMiss(pid) => FindUnique(xs, pid, |xs|);
    case AddDone(_) =>
    case PrintDone(_) =>
    case SweepDone(_, _, _) => SweepLeaves(s, t);
    case PurgeDone(_, _) =>
  }

  /** A step inside a write section keeps what the writer has made of xs. */
  lemma WriterStep(s: State, t: nat, xs: seq<Info>)
    requires t < |s.threads| && Runnable(s, t) && HoldsWrite(s.threads[t]) && !Ending(s.threads[t])
    requires LoopInv(s, s.threads[t]) && Midway(xs, s.threads[t], Infos(s.list))
    ensures Midway(xs, Step(s, t).threads[t], Infos(Step(s, t).list))
  {
    hide Sweeping, Purging, Expired, Touch;
    match s.threads[t]
    case AddScan(pid, i) =>
      if i < |s.list| && xs[i].pid == pid {
        FindUnique(xs, pid, i);
      }
    case AddLink(e) => assert Infos(Step(s, t).list) == [e.info] + xs;
    case SweepScan(_, _, _, _) =>
    case PurgeScan(_, _) =>
  }

  lemma GoInside(s: State, t: nat, xs: seq<Info>)
    requires Inv(s) && t < |s.threads| && Runnable(s, t) && !Ending(s.threads[t]) && Explains(xs, s)
    ensures Explains(xs, Step(s, t))
  {
    hide EntriesInv, OwnershipInv, CopiesInv, LoopInv, Expired, Touch;
    assert LoopInv(s, s.threads[t]);
    if HoldsWrite(s.threads[t]) {
      WriterStep(s, t, xs);
    } else {
      var pc := s.threads[t];
      assert !pc.AddScan?;
    }
  }

  lemma CallExplains(s: State, a: Action, xs: seq<Info>)
    requires Inv(s) && Enabled(s, a) && !a.Go? && Explains(xs, s)
    ensures Explains(xs, Apply(s, a))
  {
    hide EntriesInv, LoopsInv, OwnershipInv, CopiesInv, Midway;
  }

  lemma EndingFrees(s: State, t: nat)
    requires Inv(s) && t < |s.threads| && Runnable(s, t) && Ending(s.threads[t])
    ensures Step(s, t).writer == Nobody && Step(s, t).list == s.list
  {
    hide EntriesInv, LoopsInv, OwnershipInv, CopiesInv, Expired, Touch;
  }

  /** Every step keeps the explanation, a completed section moving it on. */
  lemma ExplainsStep(s: State, a: Action, xs: seq<Info>)
    requires Inv(s) && Enabled(s, a) && Explains(xs, s)
    ensures var cs := Completed(s, Apply(s, a));
            if cs == [] then Explains(xs, Apply(s, a))
            else |cs| == 1 && Ends(xs, cs[0]) && Explains(Leaves(xs, cs[0], s.hz), Apply(s, a))
  {
    hide Inv, Step, Completed, Ends, Leaves;
    CompletedIs(s, a);
    if !a.Go? {
      CallExplains(s, a, xs);
    } else if Ending(s.threads[a.t]) {
      EndsAlone(s, a.t, xs);
      EndingFrees(s, a.t);
    } else {
      GoInside(s, a.t, xs);
    }
  }

  lemma {:induction false} ExplainedAlways(threads: nat, hz: nat, run: seq<State>, i: nat)
    requires IsRun(threads, hz, run) && i < |run|
    ensures Sequential(Log(run, i), hz) && Explains(Replay(Log(run, i), hz), run[i])
  {
    hide Inv, Enabled, Apply, Explains, Completed, Ends, Leaves;
    if i == 0 {
      StartExplained(threads, hz, run);
    } else {
      ExplainedAlways(threads, hz, run, i - 1);
      InvAlways(threads, hz, run, i - 1);
      var a := ActionAt(threads, hz, run, i - 1);
      var cs, more := Log(run, i - 1), Completed(run[i - 1], run[i]);
      ExplainsStep(run[i - 1], a, Replay(cs, hz));
      if more == [] {
        assert Log(run, i) == cs;
      } else {
        assert more == [more[0]];
        SequentialNext(cs, more[0], hz);
      }
    }
  }

  lemma StartExplained(threads: nat, hz: nat, run: seq<State>)
    requires IsRun(threads, hz, run)
    ensures Sequential(Log(run, 0), hz) && Explains(Replay(Log(run, 0), hz), run[0])
  {
  }

  /**
   On every run of any number of threads: the critical sections completed so far, in the
   order in which they unlocked, are a run of one thread with the same lookups, the same
   printed lists and the same sweeps, and whenever no writer is inside a section the list
   is the one that this run leaves.
   */
  lemma SectionsAreAtomic(threads: nat, hz: nat, run: seq<State>, i: nat)
    requires IsRun(threads, hz, run) && i < |run|
    ensures Sequential(Log(run, i), hz)
    ensures run[i].writer == Nobody ==> Infos(run[i].list) == Replay(Log(run, i), hz)
  {
    hide IsRun, Sequential, Replay, Log;
    ExplainedAlways(threads, hz, run, i);
  }

  /** Every unlock of the run is in the log: none is left out and nothing else is in it. */
  lemma LogIsUnlocks(threads: nat, hz: nat, run: seq<State>, i: nat)
    requires IsRun(threads, hz, run) && i + 1 < |run|
    ensures var s, s' := run[i], run[i + 1];
            && (forall t :: 0 <= t < |s.threads| && Unlocks(s, s', t) ==>
                  Ending(s.threads[t]) && Log(run, i + 1) == Log(run, i) + [SectionOf(s.threads[t])])
            && ((forall t :: 0 <= t < |s.threads| ==> !Unlocks(s, s', t)) ==> Log(run, i + 1) == Log(run, i))
  {
    hide Inv, Enabled, Apply, Unlocks, Ending, SectionOf, IsRun, Completed;
    InvAlways(threads, hz, run, i);
    var a := ActionAt(threads, hz, run, i);
    var s, s' := run[i], run[i + 1];
    CompletedIs(s, a);
    forall t | 0 <= t < |s.threads| ensures Unlocks(s, s', t) <==> a == Go(t) && Ending(s.threads[t]) {
      UnlockEnds(s, a, t);
    }
    if a.Go? {
      GoHasThread(s, a);
    }
    assert Log(run, i) + [] == Log(run, i);
  }

  lemma GoHasThread(s: State, a: Action)
    requires Enabled(s, a) && a.Go?
    ensures a.t < |s.threads|
  {
  }

  // ---------- purges ----------

  predicate InPurge(pc: Pc) {
    pc.PurgeScan? || pc.PurgeDone?
  }

  /** A purge remembers the list and the frees it found when it locked. */
  ghost predicate Remembers(pc: Pc, pc': Pc, s: State) {
    InPurge(pc') ==>
      if pc == PurgeWant then pc'.start == s.list && pc'.before == s.freed
      else InPurge(pc) && pc'.start == pc.start && pc'.before == pc.before
  }

  lemma PurgeOwn(s: State, t: nat)
    requires t < |s.threads| && Runnable(s, t)
    ensures Remembers(s.threads[t], Step(s, t).threads[t], s)
  {
    hide Expired, Touch, Fresh;
    match s.threads[t]
    case AddScan(_, _) =>
    case SweepScan(_, _, _, _) =>
    case PrintScan(_, _) =>
    case PurgeScan(_, _) =>
    case _ =>
  }

  lemma PurgeStays(s: State, a: Action, t: nat)
    requires Enabled(s, a) && t < |s.threads|
    ensures |Apply(s, a).threads| == |s.threads| && Remembers(s.threads[t], Apply(s, a).threads[t], s)
  {
    hide Step;
    OwnThread(s, a);
    if a == Go(t) {
      PurgeOwn(s, t);
    }
  }

  lemma {:induction false} PurgeSince(threads: nat, hz: nat, run: seq<State>, i: nat, j: nat, t: nat)
    requires IsRun(threads, hz, run) && i < j < |run|
    requires t < |run[i].threads| && run[i].threads[t] == PurgeWant
    requires forall k :: i < k <= j ==> t < |run[k].threads| && InPurge(run[k].threads[t])
    ensures InPurge(run[j].threads[t])
    ensures run[j].threads[t].start == run[i].list && run[j].threads[t].before == run[i].freed
  {
    hide IsRun, Enabled, Apply;
    if i < j - 1 {
      PurgeSince(threads, hz, run, i, j - 1, t);
    }
    assert InPurge(run[j].threads[t]);
    var a := ActionAt(threads, hz, run, j - 1);
    PurgeStays(run[j - 1], a, t);
  }

  /**
   Between the step that takes the lock for a purge and the end of its loop, whatever the
   other threads do, exactly the nodes linked when it locked are freed, in list order.
   */
  lemma PurgeFreesWhatItFound(threads: nat, hz: nat, run: seq<State>, i: nat, j: nat, t: nat)
    requires IsRun(threads, hz, run) && i < j < |run|
    requires t < |run[i].threads| && run[i].threads[t] == PurgeWant
    requires forall k :: i < k <= j ==> t < |run[k].threads| && InPurge(run[k].threads[t])
    requires run[j].threads[t].PurgeDone?
    ensures run[j].list == [] && run[j].freed == run[i].freed + Nodes(run[i].list)
  {
    hide IsRun;
    PurgeSince(threads, hz, run, i, j, t);
    InvAlways(threads, hz, run, j);
    assert LoopInv(run[j], run[j].threads[t]);
    assert run[i].list[..|run[i].list|] == run[i].list;
  }
}
