/** What every step of the list machine keeps. */
module SyncInvariants {
  import opened Words
  import opened Masks
  import opened Counting
  import opened TaskInfo
  import opened SyncMachine

  // ---------- what a step does to the list ----------

  datatype Effect = Nothing | HitAt(i: nat) | Linked(e: Entry) | DroppedAt(i: nat)

  function EffectOf(s: State, a: Action): Effect
    requires Enabled(s, a)
  {
    if !a.Go? then Nothing
    else
      match s.threads[a.t]
      case AddScan(pid, i) => if i < |s.list| && s.list[i].info.pid == pid then HitAt(i) else Nothing
      case AddLink(e) => Linked(e.(serial := s.links))
      case SweepScan(i, _, _, _) =>
        if i < |s.list| && Expired(s.list[i].info, s.now, s.hz) then DroppedAt(i) else Nothing
      case PurgeScan(_, _) => if s.list != [] then DroppedAt(0) else Nothing
      case _ => Nothing
  }

  ghost predicate Effected(s: State, s': State, effect: Effect) {
    match effect
    case Nothing => s'.list == s.list && s'.freed == s.freed && s'.links == s.links
    case HitAt(i) =>
      && i < |s.list| && s'.list == s.list[i := Hit(s.list[i], s.now)]
      && s'.freed == s.freed && s'.links == s.links
    case Linked(e) =>
      && s'.list == [e] + s.list && e.serial == s.links
      && s'.freed == s.freed && s'.links == s.links + 1
    case DroppedAt(i) =>
      && i < |s.list| && s'.list == s.list[..i] + s.list[i + 1..]
      && s'.freed == s.freed + [s.list[i].node] && s'.links == s.links
  }

  lemma Effects(s: State, a: Action)
    requires Enabled(s, a)
    ensures Effected(s, Apply(s, a), EffectOf(s, a))
    ensures s.now <= Apply(s, a).now && s.nodes <= Apply(s, a).nodes
    ensures EffectOf(s, a).Linked? ==>
              a.Go? && s.threads[a.t].AddLink? && EffectOf(s, a).e == s.threads[a.t].e.(serial := s.links)
    ensures EffectOf(s, a).HitAt? ==> Apply(s, a).now == s.now
  {
    hide Step;
    if a.Go? {
      if Quiet(s.threads[a.t]) {
        QuietStep(s, a.t);
      } else {
        LoudStep(s, a.t);
      }
    }
  }

  /** Steps that never touch the list. */
  predicate Quiet(pc: Pc) {
    !pc.AddScan? && !pc.AddLink? && !pc.SweepScan? && !pc.PurgeScan?
  }

  lemma QuietStep(s: State, t: nat)
    requires t < |s.threads| && Runnable(s, t) && Quiet(s.threads[t])
    ensures EffectOf(s, Go(t)) == Nothing && Effected(s, Step(s, t), Nothing)
    ensures Step(s, t).now == s.now && Step(s, t).nodes >= s.nodes
  {
    hide Expired, Touch, Fresh;
  }

  lemma LoudStep(s: State, t: nat)
    requires t < |s.threads| && Runnable(s, t) && !Quiet(s.threads[t])
    ensures Effected(s, Step(s, t), EffectOf(s, Go(t)))
    ensures Step(s, t).now == s.now && Step(s, t).nodes == s.nodes
    ensures EffectOf(s, Go(t)).Linked? ==>
              s.threads[t].AddLink? && EffectOf(s, Go(t)).e == s.threads[t].e.(serial := s.links)
  {
    hide Expired, Touch;
  }

  /** A step changes the pc of no thread but its own. */
  lemma OwnThread(s: State, a: Action)
    requires Enabled(s, a)
    ensures |Apply(s, a).threads| == |s.threads| && Apply(s, a).hz == s.hz
    ensures a.Tick? ==> Apply(s, a).threads == s.threads
    ensures !a.Tick? ==> Apply(s, a).threads == s.threads[a.t := Apply(s, a).threads[a.t]]
  {
  }

  // ---------- the lock ----------

  ghost predicate LockInv(s: State) {
    && (forall t :: 0 <= t < |s.threads| ==> (HoldsWrite(s.threads[t]) <==> s.writer == Thread(t)))
    && (forall t :: 0 <= t < |s.threads| ==> (HoldsRead(s.threads[t]) <==> t in s.readers))
    && (forall t :: t in s.readers ==> t < |s.threads|)
    && (s.writer.Thread? ==> s.readers == {} && s.writer.t < |s.threads|)
  }

  /** How a step moves the lock, given where its thread stood and stands. */
  lemma LockMoves(s: State, t: nat)
    requires t < |s.threads| && Runnable(s, t)
    ensures var s' := Step(s, t); var pc, pc' := s.threads[t], s'.threads[t];
            && !(HoldsWrite(pc) && HoldsRead(pc)) && !(HoldsWrite(pc') && HoldsRead(pc'))
            && !(HoldsWrite(pc) && HoldsRead(pc')) && !(HoldsRead(pc) && HoldsWrite(pc'))
            && s'.writer == (if HoldsWrite(pc') == HoldsWrite(pc) then s.writer
                             else if HoldsWrite(pc') then Thread(t) else Nobody)
            && s'.readers == (if HoldsRead(pc') == HoldsRead(pc) then s.readers
                              else if HoldsRead(pc') then s.readers + {t} else s.readers - {t})
            && (HoldsWrite(pc') && !HoldsWrite(pc) ==> s.writer == Nobody && s.readers == {})
            && (HoldsRead(pc') && !HoldsRead(pc) ==> s.writer == Nobody)
  {
  }

  lemma LockStep(s: State, a: Action)
    requires LockInv(s) && Enabled(s, a)
    ensures LockInv(Apply(s, a))
  {
    hide Step, HoldsWrite, HoldsRead;
    OwnThread(s, a);
    if a.Go? {
      LockMoves(s, a.t);
    } else if a.Call? {
      EnteringHoldsNothing(a.op);
    }
  }

  lemma EnteringHoldsNothing(op: Op)
    ensures !HoldsWrite(Entering(op)) && !HoldsRead(Entering(op)) && !HoldsWrite(Idle) && !HoldsRead(Idle)
  {
  }

  /** Only the holder of the write lock links, unlinks or changes a node. */
  lemma OnlyWriterChanges(s: State, a: Action)
    requires LockInv(s) && Enabled(s, a)
    requires Apply(s, a).list != s.list || Apply(s, a).freed != s.freed
    ensures a.Go? && s.writer == Thread(a.t)
  {
  }

  // ---------- the entries ----------

  ghost predicate EntryOk(e: Entry, s: State) {
    && e.node < s.nodes
    && e.at <= s.now
    && e.info.timestamp == Jiffies(e.at)
    && e.info.count == Counter32(e.hits)
  }

  ghost predicate NewestFirst(list: seq<Entry>) {
    forall i, j :: 0 <= i < j < |list| ==> list[j].serial < list[i].serial
  }

  ghost predicate EntriesInv(s: State) {
    && (forall i :: 0 <= i < |s.list| ==> EntryOk(s.list[i], s) && s.list[i].serial < s.links)
    && NewestFirst(s.list)
    && forall t :: 0 <= t < |s.threads| && Holding(s.threads[t]) ==>
        EntryOk(s.threads[t].e, s) && s.threads[t].e.hits == 0
  }

  /** Between the allocation and `list_add`. */
  predicate Holding(pc: Pc) {
    pc.AddHeld? || pc.AddLink?
  }

  lemma ListedStep(s: State, s': State, effect: Effect)
    requires EntriesInv(s) && Effected(s, s', effect)
    requires s.now <= s'.now && s.nodes <= s'.nodes
    requires effect.Linked? ==> EntryOk(effect.e, s)
    requires effect.HitAt? ==> s'.now == s.now
    ensures forall i :: 0 <= i < |s'.list| ==> EntryOk(s'.list[i], s') && s'.list[i].serial < s'.links
    ensures NewestFirst(s'.list)
  {
    hide Jiffies, Counter32, Inc32;
    if effect.HitAt? {
      CounterStep(s.list[effect.i].hits);
    }
  }

  lemma HeldOwn(s: State, t: nat)
    requires EntriesInv(s) && t < |s.threads| && Runnable(s, t) && Holding(Step(s, t).threads[t])
    ensures var s' := Step(s, t); EntryOk(s'.threads[t].e, s') && s'.threads[t].e.hits == 0
  {
    hide Jiffies, Counter32;
    CounterStep(0);
  }

  lemma HeldStep(s: State, a: Action)
    requires EntriesInv(s) && Enabled(s, a)
    ensures var s' := Apply(s, a);
            forall t :: 0 <= t < |s'.threads| && Holding(s'.threads[t]) ==>
              EntryOk(s'.threads[t].e, s') && s'.threads[t].e.hits == 0
  {
    hide Step, Jiffies, Counter32;
    OwnThread(s, a);
    Effects(s, a);
    if a.Go? && Holding(Step(s, a.t).threads[a.t]) {
      HeldOwn(s, a.t);
    }
  }

  lemma EntriesStep(s: State, a: Action)
    requires EntriesInv(s) && Enabled(s, a)
    ensures EntriesInv(Apply(s, a))
  {
    hide Apply, Jiffies, Counter32;
    Effects(s, a);
    ListedStep(s, Apply(s, a), EffectOf(s, a));
    HeldStep(s, a);
  }

  // ---------- what a loop under the lock knows ----------

  function Infos(list: seq<Entry>): (r: seq<Info>)
    ensures |r| == |list|
    ensures forall i :: 0 <= i < |list| ==> r[i] == list[i].info
  {
    seq(|list|, i requires 0 <= i < |list| => list[i].info)
  }

  ghost predicate NoneBefore(list: seq<Entry>, pid: int, i: nat) {
    i <= |list| && forall j :: 0 <= j < i ==> list[j].info.pid != pid
  }

  /** The entries tested so far, each at its own clock reading: true where the sweep keeps it. */
  function Verdicts(start: seq<Entry>, times: seq<nat>, hz: nat): (mask: seq<bool>)
    requires |times| <= |start|
    ensures |mask| == |times|
    ensures forall i :: 0 <= i < |times| ==> mask[i] == !Expired(start[i].info, times[i], hz)
  {
    seq(|times|, i requires 0 <= i < |times| => !Expired(start[i].info, times[i], hz))
  }

  ghost predicate Rising(since: nat, times: seq<nat>, now: nat) {
    && since <= now
    && (forall i :: 0 <= i < |times| ==> since <= times[i] <= now)
    && (forall i, j :: 0 <= i < j < |times| ==> times[i] <= times[j])
  }

  ghost predicate Sweeping(s: State, i: nat, start: seq<Entry>, since: nat, times: seq<nat>) {
    && |times| <= |start|
    && Rising(since, times, s.now)
    && var mask := Verdicts(start, times, s.hz);
       && i == Cursor(start, mask, |mask|)
       && s.list == Pending(start, mask, |mask|)
       && forall k :: 0 <= k < |start| ==> start[k].at <= since && start[k].info.timestamp == Jiffies(start[k].at)
  }

  function Nodes(list: seq<Entry>): (r: seq<nat>)
    ensures |r| == |list|
  {
    seq(|list|, i requires 0 <= i < |list| => list[i].node)
  }

  /** A purge has freed a first part of the list it found, in order, and the rest is still linked. */
  ghost predicate Purging(s: State, start: seq<Entry>, before: seq<nat>) {
    && |s.list| <= |start|
    && var k := |start| - |s.list|;
       s.list == start[k..] && s.freed == before + Nodes(start[..k])
  }

  lemma PurgeNext(s: State, t: nat)
    requires t < |s.threads| && s.threads[t].PurgeScan? && LoopInv(s, s.threads[t]) && Runnable(s, t)
    ensures LoopInv(Step(s, t), Step(s, t).threads[t])
  {
    hide Expired;
    var start, k := s.threads[t].start, |s.threads[t].start| - |s.list|;
    if s.list != [] {
      assert Nodes(start[..k + 1]) == Nodes(start[..k]) + [start[k].node];
    }
  }

  ghost predicate LoopInv(s: State, pc: Pc) {
    match pc
    case AddScan(pid, i) => NoneBefore(s.list, pid, i)
    case AddMiss(pid) => NoneBefore(s.list, pid, |s.list|)
    case PrintScan(i, out) => i <= |s.list| && out == Printed(Infos(s.list))[..i]
    case PrintDone(out) => out == Printed(Infos(s.list))
    case SweepScan(i, start, since, times) => Sweeping(s, i, start, since, times)
    case SweepDone(start, since, times) => |times| == |start| && Sweeping(s, |s.list|, start, since, times)
    case PurgeScan(start, before) => Purging(s, start, before)
    case PurgeDone(start, before) => s.list == [] && Purging(s, start, before)
    case _ => true
  }

  ghost predicate LoopsInv(s: State) {
    forall t :: 0 <= t < |s.threads| ==> LoopInv(s, s.threads[t])
  }

  /** A thread that holds no lock knows nothing of the list; one that holds it sees no change by others. */
  lemma LoopFrame(s: State, a: Action, u: nat)
    requires LockInv(s) && LoopsInv(s) && Enabled(s, a)
    requires u < |s.threads| && (a.Tick? || a.t != u)
    ensures LoopInv(Apply(s, a), s.threads[u])
  {
    assert LoopInv(s, s.threads[u]);
    if Apply(s, a).list != s.list {
      OnlyWriterChanges(s, a);
      assert !HoldsWrite(s.threads[u]) && !HoldsRead(s.threads[u]);
    }
  }

  lemma VerdictsNext(start: seq<Entry>, times: seq<nat>, now: nat, hz: nat)
    requires |times| < |start|
    ensures Verdicts(start, times + [now], hz) == Verdicts(start, times, hz) + [!Expired(start[|times|].info, now, hz)]
  {
    hide Expired;
  }

  lemma SweepNext(s: State, t: nat)
    requires t < |s.threads| && s.threads[t].SweepScan? && LoopInv(s, s.threads[t])
    requires Runnable(s, t)
    ensures LoopInv(Step(s, t), Step(s, t).threads[t])
  {
    hide Expired, Jiffies, Pending, Cursor, Verdicts;
    var SweepScan(i, start, since, times) := s.threads[t];
    var mask := Verdicts(start, times, s.hz);
    VisitHere(start, mask, |mask|);
    if i < |s.list| {
      VerdictsNext(start, times, s.now, s.hz);
      VisitGrow(start, mask, !Expired(start[|times|].info, s.now, s.hz));
    }
  }

  lemma PrintNext(s: State, t: nat)
    requires t < |s.threads| && HoldsRead(s.threads[t]) && LoopInv(s, s.threads[t]) && Runnable(s, t)
    ensures LoopInv(Step(s, t), Step(s, t).threads[t])
  {
    hide Expired;
    var all := Printed(Infos(s.list));
    if s.threads[t].PrintScan? {
      var i := s.threads[t].i;
      if i < |s.list| {
        assert all[..i + 1] == all[..i] + [all[i]];
      } else {
        assert all[..i] == all;
      }
    }
  }

  lemma SweepStart(s: State, t: nat)
    requires EntriesInv(s) && t < |s.threads| && s.threads[t].SweepWant? && Runnable(s, t)
    ensures LoopInv(Step(s, t), Step(s, t).threads[t])
  {
    hide Expired, Jiffies, Counter32;
    VisitStart(s.list, []);
  }

  lemma LoopOwn(s: State, t: nat)
    requires EntriesInv(s) && t < |s.threads| && Runnable(s, t) && LoopInv(s, s.threads[t])
    ensures LoopInv(Step(s, t), Step(s, t).threads[t])
  {
    hide Expired, EntriesInv, Sweeping, Infos, Printed;
    match s.threads[t]
    case SweepWant => SweepStart(s, t);
    case SweepScan(_, _, _, _) => SweepNext(s, t);
    case PurgeScan(_, _) => PurgeNext(s, t);
    case PrintScan(_, _) => PrintNext(s, t);
    case PrintWant =>
      assert Printed(Infos(s.list))[..0] == [];
    case _ =>
  }

  lemma LoopStep(s: State, a: Action)
    requires LockInv(s) && EntriesInv(s) && LoopsInv(s) && Enabled(s, a)
    ensures LoopsInv(Apply(s, a))
  {
    hide LockInv, EntriesInv, LoopInv, Step;
    var s' := Apply(s, a);
    OwnThread(s, a);
    forall u | 0 <= u < |s'.threads| ensures LoopInv(s', s'.threads[u]) {
      assert LoopInv(s, s.threads[u]);
      if a.Tick? || a.t != u {
        LoopFrame(s, a, u);
      } else if a.Go? {
        LoopOwn(s, u);
      } else {
        LoopEntering(s', a.op);
      }
    }
  }

  lemma LoopEntering(s: State, op: Op)
    ensures LoopInv(s, Entering(op))
  {
  }

  // ---------- ownership ----------

  function NodeIs(n: nat): Entry -> bool {
    (e: Entry) => e.node == n
  }

  function Owns(n: nat): Pc -> bool {
    (pc: Pc) => Holding(pc) && pc.e.node == n
  }

  function Is(n: nat): nat -> bool {
    (m: nat) => m == n
  }

  /** How often node n is linked, held by an adder and freed. */
  function Places(s: State, n: nat): nat {
    Count(s.list, NodeIs(n)) + Count(s.threads, Owns(n)) + Count(s.freed, Is(n))
  }

  ghost predicate OwnershipInv(s: State) {
    forall n: nat :: Places(s, n) == if n < s.nodes then 1 else 0
  }

  lemma OwnerQuiet(s: State, t: nat, n: nat)
    requires t < |s.threads| && Runnable(s, t) && Quiet(s.threads[t])
    ensures One(Owns(n)(Step(s, t).threads[t]))
         == One(Owns(n)(s.threads[t])) + One(s.threads[t].AddAlloc? && n == s.nodes)
  {
    hide Expired, Touch, Fresh;
  }

  lemma OwnerLoud(s: State, t: nat, n: nat)
    requires t < |s.threads| && Runnable(s, t) && !Quiet(s.threads[t])
    ensures var effect := EffectOf(s, Go(t));
            One(Owns(n)(Step(s, t).threads[t])) + One(effect.Linked? && effect.e.node == n)
              == One(Owns(n)(s.threads[t]))
  {
    hide Expired, Touch;
  }

  /** An adder starts owning at its allocation and stops at its `list_add`. */
  lemma OwnerMoves(s: State, a: Action, n: nat)
    requires Enabled(s, a) && !a.Tick?
    ensures One(Owns(n)(Apply(s, a).threads[a.t])) + One(EffectOf(s, a).Linked? && EffectOf(s, a).e.node == n)
         == One(Owns(n)(s.threads[a.t])) + One(a.Go? && s.threads[a.t].AddAlloc? && n == s.nodes)
  {
    hide Step;
    if a.Call? {
    } else if Quiet(s.threads[a.t]) {
      QuietStep(s, a.t);
      OwnerQuiet(s, a.t, n);
    } else {
      OwnerLoud(s, a.t, n);
    }
  }

  lemma ListPlaces(s: State, s': State, effect: Effect, n: nat)
    requires Effected(s, s', effect)
    ensures Count(s'.list, NodeIs(n)) + Count(s'.freed, Is(n))
         == Count(s.list, NodeIs(n)) + Count(s.freed, Is(n)) + One(effect.Linked? && effect.e.node == n)
  {
    match effect
    case Nothing =>
    case HitAt(i) => CountUpdate(s.list, i, Hit(s.list[i], s.now), NodeIs(n));
    case Linked(e) => CountConcat([e], s.list, NodeIs(n));
    case DroppedAt(i) =>
      CountRemove(s.list, i, NodeIs(n));
      CountConcat(s.freed, [s.list[i].node], Is(n));
  }

  lemma PlacesStep(s: State, a: Action, n: nat)
    requires Enabled(s, a)
    ensures Places(Apply(s, a), n) == Places(s, n) + One(a.Go? && s.threads[a.t].AddAlloc? && n == s.nodes)
  {
    hide Apply, EffectOf;
    OwnThread(s, a);
    Effects(s, a);
    ListPlaces(s, Apply(s, a), EffectOf(s, a), n);
    if !a.Tick? {
      CountUpdate(s.threads, a.t, Apply(s, a).threads[a.t], Owns(n));
      OwnerMoves(s, a, n);
    }
  }

  lemma AllocationsGrow(s: State, a: Action)
    requires Enabled(s, a)
    ensures Apply(s, a).nodes == s.nodes + One(a.Go? && s.threads[a.t].AddAlloc?)
  {
    hide Expired, Touch;
  }

  lemma OwnershipStep(s: State, a: Action)
    requires OwnershipInv(s) && Enabled(s, a)
    ensures OwnershipInv(Apply(s, a))
  {
    hide Apply, Places;
    forall n: nat ensures Places(Apply(s, a), n) == if n < Apply(s, a).nodes then 1 else 0 {
      assert Places(s, n) == if n < s.nodes then 1 else 0;
      PlacesStep(s, a, n);
      AllocationsGrow(s, a);
    }
  }

  // ---------- duplicates ----------

  function PidIs(pid: int): Entry -> bool {
    (e: Entry) => e.info.pid == pid
  }

  /** Between the failed lookup of pid and its `list_add`. */
  function InFlight(pid: int): Pc -> bool {
    (pc: Pc) =>
      match pc
      case AddMiss(p) => p == pid
      case AddAlloc(p) => p == pid
      case AddHeld(e) => e.info.pid == pid
      case AddLink(e) => e.info.pid == pid
      case _ => false
  }

  function Copies(s: State, pid: int): nat {
    Count(s.list, PidIs(pid)) + Count(s.threads, InFlight(pid))
  }

  ghost predicate CopiesInv(s: State) {
    forall pid :: Copies(s, pid) <= |s.threads|
  }

  lemma FlightQuiet(s: State, t: nat, pid: int)
    requires t < |s.threads| && Runnable(s, t) && Quiet(s.threads[t])
    ensures InFlight(pid)(Step(s, t).threads[t]) == InFlight(pid)(s.threads[t])
  {
    hide Expired, Touch;
  }

  /** A failed lookup puts its pid in flight, and there is no copy of it in the list then. */
  lemma FlightLoud(s: State, t: nat, pid: int)
    requires t < |s.threads| && Runnable(s, t) && !Quiet(s.threads[t]) && LoopInv(s, s.threads[t])
    ensures var before, after := InFlight(pid)(s.threads[t]), InFlight(pid)(Step(s, t).threads[t]);
            var effect := EffectOf(s, Go(t));
            && (effect.Linked? && effect.e.info.pid == pid ==> before && !after)
            && (after && !before ==> effect == Nothing && forall k :: 0 <= k < |s.list| ==> s.list[k].info.pid != pid)
  {
    hide Expired, Touch, Sweeping, Infos, Printed;
  }

  lemma FlightMoves(s: State, a: Action, pid: int)
    requires LoopsInv(s) && Enabled(s, a) && !a.Tick?
    ensures var before, after := InFlight(pid)(s.threads[a.t]), InFlight(pid)(Apply(s, a).threads[a.t]);
            var linked := EffectOf(s, a).Linked? && EffectOf(s, a).e.info.pid == pid;
            && (linked ==> before && !after)
            && (after && !before ==> Count(s.list, PidIs(pid)) == 0 && !linked)
  {
    hide Step, LoopInv;
    if a.Call? {
    } else if Quiet(s.threads[a.t]) {
      QuietStep(s, a.t);
      FlightQuiet(s, a.t, pid);
    } else {
      assert LoopInv(s, s.threads[a.t]);
      FlightLoud(s, a.t, pid);
      CountNone(s.list, PidIs(pid));
    }
  }

  lemma ListCopies(s: State, s': State, effect: Effect, pid: int)
    requires Effected(s, s', effect)
    ensures Count(s'.list, PidIs(pid)) <= Count(s.list, PidIs(pid)) + One(effect.Linked? && effect.e.info.pid == pid)
  {
    match effect
    case Nothing =>
    case HitAt(i) => CountUpdate(s.list, i, Hit(s.list[i], s.now), PidIs(pid));
    case Linked(e) => CountConcat([e], s.list, PidIs(pid));
    case DroppedAt(i) => CountRemove(s.list, i, PidIs(pid));
  }

  lemma CopiesStepPid(s: State, a: Action, pid: int)
    requires LoopsInv(s) && CopiesInv(s) && Enabled(s, a)
    ensures Copies(Apply(s, a), pid) <= |s.threads|
  {
    hide Apply, EffectOf, LoopsInv;
    assert Copies(s, pid) <= |s.threads|;
    OwnThread(s, a);
    Effects(s, a);
    ListCopies(s, Apply(s, a), EffectOf(s, a), pid);
    if !a.Tick? {
      CountUpdate(s.threads, a.t, Apply(s, a).threads[a.t], InFlight(pid));
      FlightMoves(s, a, pid);
    }
  }

  lemma CopiesStep(s: State, a: Action)
    requires LoopsInv(s) && CopiesInv(s) && Enabled(s, a)
    ensures CopiesInv(Apply(s, a))
  {
    hide Apply, Copies;
    OwnThread(s, a);
    forall pid ensures Copies(Apply(s, a), pid) <= |Apply(s, a).threads| {
      CopiesStepPid(s, a, pid);
    }
  }

  // ---------- all of it ----------

  ghost predicate Inv(s: State) {
    LockInv(s) && EntriesInv(s) && LoopsInv(s) && OwnershipInv(s) && CopiesInv(s)
  }

  lemma InvInit(threads: nat, hz: nat, now: nat)
    ensures Inv(Init(threads, hz, now))
  {
    hide Count;
    var s := Init(threads, hz, now);
    forall n: nat ensures Places(s, n) == 0 {
      CountNone(s.list, NodeIs(n));
      CountNone(s.freed, Is(n));
      CountNone(s.threads, Owns(n));
    }
    forall pid ensures Copies(s, pid) == 0 {
      CountNone(s.list, PidIs(pid));
      CountNone(s.threads, InFlight(pid));
    }
  }

  lemma InvStep(s: State, a: Action)
    requires Inv(s) && Enabled(s, a)
    ensures Inv(Apply(s, a))
    ensures |Apply(s, a).threads| == |s.threads| && Apply(s, a).hz == s.hz
  {
    hide LockInv, EntriesInv, LoopsInv, OwnershipInv, CopiesInv;
    LockStep(s, a);
    EntriesStep(s, a);
    LoopStep(s, a);
    OwnershipStep(s, a);
    CopiesStep(s, a);
  }

  lemma {:induction false} InvAlways(threads: nat, hz: nat, run: seq<State>, i: nat)
    requires IsRun(threads, hz, run) && i < |run|
    ensures Inv(run[i]) && |run[i].threads| == threads && run[i].hz == hz
  {
    hide Inv, Enabled, Apply;
    if i == 0 {
      var now: nat :| run[0] == Init(threads, hz, now);
      InvInit(threads, hz, now);
    } else {
      InvAlways(threads, hz, run, i - 1);
      assert Next(run[i - 1], run[i - 1 + 1]);
      var a :| Enabled(run[i - 1], a) && run[i] == Apply(run[i - 1], a);
      InvStep(run[i - 1], a);
    }
  }
}
