/**
 `timer.c` on the heap, one call at a time: the ioctls, the handler's scan of the monitor
 list and the teardown, with the task references that the list holds.
 */
module TimerDevice {
  import opened Masks
  import opened KernelList

  datatype Flag = FlagNone | FlagSet | FlagAlloc | FlagMonitor

  datatype Cmd = TimerSet | TimerCancel | TimerAlloc | TimerMonitor | TimerOther

  datatype Result = Ok | ESRCH | ENOMEM

  /** Dead tasks stay dead: `dead[i]` is who is dead when entry i is examined. */
  ghost predicate Rising(dead: seq<set<nat>>) {
    forall i, j :: 0 <= i <= j < |dead| ==> dead[i] <= dead[j]
  }

  /** Which monitored tasks a scan keeps: those alive when their turn comes. */
  function AliveMask(xs: seq<nat>, dead: seq<set<nat>>): (mask: seq<bool>)
    requires |dead| == |xs|
    ensures |mask| == |xs|
  {
    seq(|xs|, i requires 0 <= i < |xs| => xs[i] !in dead[i])
  }

  lemma AliveMaskAt(xs: seq<nat>, dead: seq<set<nat>>, i: nat)
    requires |dead| == |xs| && i < |xs|
    ensures AliveMask(xs, dead)[i] == (xs[i] !in dead[i])
  {
  }

  /** Every task dead at the start of a scan is dropped, and every dropped task is dead at its end. */
  lemma ScanVerdicts(xs: seq<nat>, dead: seq<set<nat>>, i: nat)
    requires |dead| == |xs| && i < |xs| && Rising(dead)
    ensures xs[i] in dead[0] ==> !AliveMask(xs, dead)[i]
    ensures !AliveMask(xs, dead)[i] ==> xs[i] in dead[|dead| - 1]
  {
    AliveMaskAt(xs, dead, i);
    assert dead[0] <= dead[i] <= dead[|dead| - 1];
  }

  /** One reference for each monitor node. */
  ghost function RefsOf(ns: seq<Node<nat>>): multiset<nat>
    reads ns`entry
  {
    multiset(Entries(ns))
  }

  lemma RefsNone(ns: seq<Node<nat>>)
    requires |ns| == 0
    ensures RefsOf(ns) == multiset{}
  {
  }

  lemma VerdictAt(ns: seq<Node<nat>>, dead: seq<set<nat>>, i: nat)
    requires |dead| == |ns| && i < |ns|
    ensures AliveMask(Entries(ns), dead)[i] == (ns[i].entry !in dead[i])
  {
    EntryAt(ns, i);
    AliveMaskAt(Entries(ns), dead, i);
  }

  lemma RefsHas(ns: seq<Node<nat>>, k: nat)
    requires k < |ns|
    ensures ns[k].entry in RefsOf(ns)
  {
    EntryAt(ns, k);
    assert Entries(ns)[k] in Entries(ns);
  }

  lemma RefsWithout(ns: seq<Node<nat>>, k: nat)
    requires k < |ns|
    ensures ns[k].entry in RefsOf(ns) && RefsOf(Without(ns, k)) == RefsOf(ns) - multiset{ns[k].entry}
  {
    EntriesAt(ns);
    EntriesAt(Without(ns, k));
    assert Entries(Without(ns, k)) == Without(Entries(ns), k);
    WithoutCounts(Entries(ns), k);
  }

  lemma RefsWith(ns: seq<Node<nat>>, n: Node<nat>)
    ensures RefsOf([n] + ns) == RefsOf(ns) + multiset{n.entry}
  {
    EntriesWith(n, ns);
  }

  class TimerDev {
    var flag: Flag
    var armed: bool            // the timer is pending
    var work: bool             // the work item is pending
    const list: List<nat>
    // the kernel's tasks as the driver sees them
    var pids: map<int, nat>    // which task a pid finds
    var held: multiset<nat>    // the references the driver holds

    ghost predicate Valid()
      reads this, list, list.head, list.nodes
    {
      list.Valid()
    }

    /** With no ioctl in flight the driver holds one reference for each monitor node. */
    ghost predicate Counted()
      reads this, list, list.nodes
    {
      held == RefsOf(list.nodes)
    }

    constructor (pids: map<int, nat>)
      ensures Valid() && Counted() && flag == FlagNone && !armed && !work && this.pids == pids && fresh(list)
    {
      flag, armed, work := FlagNone, false, false;
      list := new List(0);
      this.pids, held := pids, multiset{};
    }

    /** Reading a task is allowed only under a reference. */
    predicate IsDead(t: nat, dead: set<nat>)
      requires t in held
      reads this`held
    {
      t in dead
    }

    /** `get_proc`: a reference is taken only on the path that returns a node. */
    method GetProc(pid: int, memory: bool) returns (r: Result, p: Node?<nat>)
      modifies this`held
      ensures r == Ok <==> pid in pids && memory
      ensures r == ESRCH <==> pid !in pids
      ensures r == Ok ==> p != null && fresh(p) && p.entry == pids[pid] && held == old(held) + multiset{pids[pid]}
      ensures r != Ok ==> p == null && held == old(held)
    {
      if pid !in pids {
        return ESRCH, null;
      }
      if !memory {
        return ENOMEM, null;
      }
      held := held + multiset{pids[pid]};
      p := new Node(pids[pid]);
      r := Ok;
    }

    method Arm(to: Flag)
      modifies this`flag, this`armed
      ensures flag == to && armed
    {
      flag := to;
      armed := true;
    }

    method Cancel()
      modifies this`armed
      ensures !armed
    {
      armed := false;
    }

    /** The monitor ioctl: a failing one changes nothing and holds nothing. */
    method Monitor(pid: int, memory: bool) returns (r: Result)
      requires Valid() && Counted()
      modifies this`flag, this`armed, this`held, list`nodes, list.Ring()`next, list.Ring()`prev
      ensures Valid() && Counted()
      ensures r == Ok <==> pid in pids && memory
      ensures r == Ok ==> armed && flag == FlagMonitor && list.Contents() == [pids[pid]] + old(list.Contents())
      ensures r != Ok ==> armed == old(armed) && flag == old(flag) && list.nodes == old(list.nodes) && held == old(held)
    {
      hide Distinct, Linked, RefsOf, Entries;
      var p;
      r, p := GetProc(pid, memory);
      if r == Ok {
        list.ListAdd(p);
        RefsWith(old(list.nodes), p);
        EntriesWith(p, old(list.nodes));
        Arm(FlagMonitor);
      }
    }

    method TimerIoctl(cmd: Cmd, arg: int, memory: bool) returns (r: Result)
      requires Valid() && Counted()
      modifies this`flag, this`armed, this`held, list`nodes, list.Ring()`next, list.Ring()`prev
      ensures Valid() && Counted()
      ensures r == Ok <==> (cmd == TimerMonitor ==> arg in pids && memory)
      ensures cmd == TimerCancel ==> !armed && flag == old(flag)
      ensures cmd == TimerOther ==> armed == old(armed) && flag == old(flag)
      ensures r == Ok && cmd != TimerCancel && cmd != TimerOther ==>
                armed && flag == match cmd case TimerSet => FlagSet case TimerAlloc => FlagAlloc case _ => FlagMonitor
      ensures list.Contents() == if cmd == TimerMonitor && r == Ok then [pids[arg]] + old(list.Contents())
                                 else old(list.Contents())
      ensures r != Ok ==> armed == old(armed) && flag == old(flag) && held == old(held)
    {
      hide Distinct, Linked, RefsOf, Entries;
      r := Ok;
      match cmd
      case TimerSet => Arm(FlagSet);
      case TimerCancel => Cancel();
      case TimerAlloc => Arm(FlagAlloc);
      case TimerMonitor => r := Monitor(arg, memory);
      case TimerOther =>
    }

    /** `put_task_struct`, `list_del` and `kfree` of one monitor node. */
    method DropProc(p: Node<nat>, ghost k: nat)
      requires Valid() && Counted()
      requires k < |list.nodes| && list.nodes[k] == p
      modifies this`held, list`nodes, list`freed, list.Ring()`next, list.Ring()`prev
      ensures Valid() && Counted() && |list.nodes| == old(|list.nodes|) - 1
      ensures list.At(k) == old(list.At(k + 1))
      ensures list.nodes == Without(old(list.nodes), k)
      ensures forall n :: n in list.nodes <==> n in old(list.nodes) && n != p
      ensures list.freed == old(list.freed) + {p}
      ensures held == old(held) - multiset{p.entry}
    {
      hide Distinct, Linked, Without, RefsOf;
      RefsWithout(list.nodes, k);
      assert list.EntryOf(p) in held;
      held := held - multiset{list.EntryOf(p)};
      label before:
      list.Drop(p, k);
      assert held == old@before(RefsOf(Without(list.nodes, k))) == RefsOf(list.nodes);
    }

    /** One iteration of the scan: drop the node if its task is dead. */
    method Examine(p: Node<nat>, ghost k: nat, dead: set<nat>) returns (alive: bool)
      requires Valid() && Counted()
      requires k < |list.nodes| && list.nodes[k] == p
      modifies this`held, list`nodes, list`freed, list.Ring()`next, list.Ring()`prev
      ensures Valid() && Counted() && alive == (p.entry !in dead)
      ensures alive ==> list.nodes == old(list.nodes) && list.freed == old(list.freed)
      ensures !alive ==> |list.nodes| == old(|list.nodes|) - 1 && list.nodes == Without(old(list.nodes), k)
      ensures !alive ==> list.At(k) == old(list.At(k + 1)) && list.freed == old(list.freed) + {p}
      ensures !alive ==> forall n :: n in list.nodes <==> n in old(list.nodes) && n != p
    {
      hide Distinct, Linked, Without, RefsOf;
      RefsHas(list.nodes, k);
      alive := !IsDead(list.EntryOf(p), dead);
      if !alive {
        DropProc(p, k);
      }
    }

    /**
     The timer fires and `timer_handler` dispatches on the flag.  In the monitor case,
     dead[i] are the tasks that are dead when entry i is examined.
     */
    method TimerHandler(dead: seq<set<nat>>)
      requires Valid() && Counted() && |dead| == |list.nodes|
      modifies this`armed, this`work, this`held
      modifies list`nodes, list`freed, list.Ring()`next, list.Ring()`prev
      ensures Valid() && Counted() && !armed
      ensures work == (old(work) || flag == FlagAlloc)
      ensures flag != FlagMonitor ==>
                list.nodes == old(list.nodes) && list.freed == old(list.freed) && held == old(held)
      ensures flag == FlagMonitor ==>
                list.nodes == Keep(old(list.nodes), AliveMask(old(list.Contents()), dead))
                && forall n :: n in list.freed <==> n in old(list.freed) || (n in old(list.nodes) && n !in list.nodes)
    {
      hide Distinct, Linked, RefsOf, Entries, AliveMask, KeepTo;
      armed := false;
      match flag
      case FlagSet =>
      case FlagAlloc => work := true;
      case FlagMonitor => Scan(dead);
      case FlagNone =>
    }

    /** The scan under the device lock; each removed node gives back exactly one reference. */
    method Scan(dead: seq<set<nat>>)
      requires Valid() && Counted() && |dead| == |list.nodes|
      modifies this`held, list`nodes, list`freed, list.Ring()`next, list.Ring()`prev
      ensures Valid() && Counted()
      ensures list.nodes == Keep(old(list.nodes), AliveMask(old(list.Contents()), dead))
      ensures forall n :: n in list.freed <==> n in old(list.freed) || (n in old(list.nodes) && n !in list.nodes)
    {
      hide Distinct, Linked, Pending, Cursor, KeepTo, Without, Entries, AliveMask, RefsOf, List.At;
      ghost var was := list.nodes;
      ghost var mask := AliveMask(list.Contents(), dead);
      ghost var k := 0;
      VisitStart(was, mask);
      list.LinkAt(-1);
      list.AtHead(0);
      var process: Node<nat> := list.NextOf(list.head);
      if list.nodes != [] {
        list.LinkAt(0);
      }
      var number := list.NextOf(process);
      var i := 0;
      while process != list.head
        invariant list.Valid() && i <= |was|
        invariant held == RefsOf(list.nodes)
        invariant list.nodes == Pending(was, mask, i) && |list.nodes| == k + |was| - i
        invariant k == Cursor(was, mask, i)
        invariant process == list.At(k) && (process == list.head <==> i == |was|)
        invariant i < |was| ==> process == list.nodes[k]
        invariant i < |was| ==> number == list.At(k + 1)
        invariant forall n :: n in list.nodes ==> n in was
        invariant forall n :: n in list.freed <==> n in old(list.freed) || (n in was && n !in list.nodes)
        decreases |was| - i
      {
        VisitHere(was, mask, i);
        VisitNext(was, mask, i);
        VerdictAt(was, dead, i);
        var alive := Examine(process, k, dead[i]);
        if alive {
          k := k + 1;
        }
        i := i + 1;
        list.AtHead(k);
        if i < |was| {
          list.LinkAt(k);
        }
        process := number;
        number := list.NextOf(process);
      }
      VisitHere(was, mask, i);
    }

    /** `deferred_exit` once no handler and no ioctl is running: nothing stays armed, linked or held. */
    method DeferredExit()
      requires Valid() && Counted()
      modifies this`armed, this`work, this`held, list`nodes, list`freed, list.Ring()`next, list.Ring()`prev
      ensures Valid() && !armed && !work && list.nodes == [] && held == multiset{}
      ensures forall n :: n in list.freed <==> n in old(list.freed) || n in old(list.nodes)
    {
      armed := false;
      work := false;
      DropAll();
    }

    /** Its loop: every node still linked is unlinked and freed, and its reference given back. */
    method DropAll()
      requires Valid() && Counted()
      modifies this`held, list`nodes, list`freed, list.Ring()`next, list.Ring()`prev
      ensures Valid() && list.nodes == [] && held == multiset{}
      ensures forall n :: n in list.freed <==> n in old(list.freed) || n in old(list.nodes)
    {
      hide Distinct, Linked, Pending, NoneOf, Without, RefsOf, Entries, List.At;
      ghost var was, mask := list.nodes, NoneOf(|list.nodes|);
      ghost var i := 0;
      VisitStart(was, mask);
      list.LinkAt(-1);
      list.AtHead(0);
      var proc: Node<nat> := list.NextOf(list.head);
      if list.nodes != [] {
        list.LinkAt(0);
      }
      var n := list.NextOf(proc);
      while proc != list.head
        invariant list.Valid() && i <= |was|
        invariant held == RefsOf(list.nodes)
        invariant list.nodes == Pending(was, mask, i) && |list.nodes| == |was| - i
        invariant proc == list.At(0) && (proc == list.head <==> i == |was|)
        invariant i < |was| ==> proc == list.nodes[0]
        invariant i < |was| ==> n == list.At(1)
        invariant forall m :: m in list.nodes ==> m in was
        invariant forall m :: m in list.freed <==> m in old(list.freed) || (m in was && m !in list.nodes)
        decreases |was| - i
      {
        DropFirst(was, i);
        DropProc(proc, 0);
        i := i + 1;
        list.AtHead(0);
        if i < |was| {
          list.LinkAt(0);
        }
        proc := n;
        n := list.NextOf(proc);
      }
      RefsNone(list.nodes);
    }
  }
}
