/**
 The bodies of `list-sync.c` on the heap: what each critical section does to the
 linked nodes while no other thread runs.  Clock readings come in as parameters,
 one for each evaluation of `jiffies`.
 */
module ListSync {
  import opened Words
  import opened Masks
  import opened KernelList
  import opened TaskInfo

  /** Taking entries out of the marked nodes, or marked entries out of the nodes, is the same. */
  lemma {:induction false} EntriesOfKept<T(0)>(ns: seq<Node<T>>, mask: seq<bool>, i: nat)
    requires i <= |ns| == |mask|
    ensures forall n :: n in KeepTo(ns, mask, i) ==> n in ns
    ensures Entries(KeepTo(ns, mask, i)) == KeepTo(Entries(ns), mask, i)
  {
    EntriesAt(ns);
    if i > 0 {
      EntriesOfKept(ns, mask, i - 1);
      EntriesAt(KeepTo(ns, mask, i - 1));
      EntriesAt(KeepTo(ns, mask, i));
    }
  }

  method FindPid(l: List<Info>, pid: int) returns (r: Node?<Info>)
    requires l.Valid()
    ensures r == null <==> Find(l.Contents(), pid) == |l.nodes|
    ensures r != null ==> r == l.nodes[Find(l.Contents(), pid)]
  {
    l.LinkAt(-1);
    EntriesAt(l.nodes);
    var p: Node<Info> := l.NextOf(l.head);
    ghost var i := 0;
    while p != l.head
      invariant i <= |l.nodes| && p == l.At(i)
      invariant forall j :: 0 <= j < i ==> l.Contents()[j].pid != pid
      decreases |l.nodes| - i
    {
      l.LinkAt(i);
      if l.EntryOf(p).pid == pid {
        FindUnique(l.Contents(), pid, i);
        return p;
      }
      p := l.NextOf(p);
      i := i + 1;
    }
    assert i == |l.nodes|;
    FindUnique(l.Contents(), pid, i);
    return null;
  }

  /** First critical section of `task_info_add_to_list`: look the pid up and refresh it. */
  method Lookup(l: List<Info>, pid: int, clock: nat) returns (hit: bool)
    requires l.Valid()
    modifies l.Ring()`entry
    ensures l.Valid() && l.nodes == old(l.nodes) && l.freed == old(l.freed)
    ensures hit <==> exists x :: x in old(l.Contents()) && x.pid == pid
    ensures var xs := old(l.Contents()); var i := Find(xs, pid);
            l.Contents() == if hit then xs[i := Touch(xs[i], clock)] else xs
  {
    hide Linked, Touch;
    ghost var xs := l.Contents();
    ghost var i := Find(xs, pid);
    EntriesAt(l.nodes);
    var ti := FindPid(l, pid);
    hit := ti != null;
    if ti != null {
      assert xs[i] in xs;
      l.SetEntry(ti, Touch(l.EntryOf(ti), clock));
      DistinctWithout(l.nodes, i);
      EntriesAt(l.nodes);
    }
  }

  method Alloc(pid: int, clock: nat) returns (ti: Node<Info>)
    ensures fresh(ti) && ti.entry == Fresh(pid, clock)
  {
    ti := new Node(Fresh(pid, clock));
  }

  /** Second critical section of `task_info_add_to_list`. */
  method Link(l: List<Info>, ti: Node<Info>)
    requires l.Valid() && ti !in l.Ring() && ti !in l.freed
    modifies l`nodes, l.Ring()`next, l.Ring()`prev, ti`next, ti`prev
    ensures l.Valid() && l.freed == old(l.freed) && l.nodes == [ti] + old(l.nodes)
    ensures l.Contents() == [ti.entry] + old(l.Contents())
  {
    l.ListAdd(ti);
    EntriesWith(ti, old(l.nodes));
  }

  /** The whole of `task_info_add_to_list` when no other thread gets between its two sections. */
  method AddToList(l: List<Info>, pid: int, clock: nat, allocClock: nat)
    requires l.Valid()
    modifies l`nodes, l.Ring()`next, l.Ring()`prev, l.Ring()`entry
    ensures l.Valid() && l.freed == old(l.freed)
    ensures var xs := old(l.Contents()); var i := Find(xs, pid);
            l.Contents() == if i < |xs| then xs[i := Touch(xs[i], clock)] else [Fresh(pid, allocClock)] + xs
    ensures Find(l.Contents(), pid) < |l.nodes|
  {
    ghost var xs := l.Contents();
    var hit := Lookup(l, pid, clock);
    if hit {
      ghost var i := Find(xs, pid);
      assert l.Contents()[i].pid == pid;
      return;
    }
    var ti := Alloc(pid, allocClock);
    Link(l, ti);
    assert l.Contents()[0].pid == pid;
  }

  method PrintList(l: List<Info>) returns (out: seq<(int, u64)>)
    requires l.Valid()
    ensures out == Printed(l.Contents()) && |out| == |l.nodes|
    ensures forall k :: 0 <= k < |out| ==> out[k].0 == l.Contents()[k].pid && out[k].1 == l.Contents()[k].timestamp
  {
    out := [];
    l.LinkAt(-1);
    EntriesAt(l.nodes);
    var p: Node<Info> := l.NextOf(l.head);
    while p != l.head
      invariant |out| <= |l.nodes| && p == l.At(|out|)
      invariant out == Printed(l.Contents())[..|out|]
      decreases |l.nodes| - |out|
    {
      l.LinkAt(|out|);
      var ti := l.EntryOf(p);
      out := out + [(ti.pid, ti.timestamp)];
      p := l.NextOf(p);
    }
  }

  /**
   `task_info_remove_expired`: the surviving nodes are exactly those whose own test
   failed, in their old order; the others are freed, and no freed node is touched.
   */
  method RemoveExpired(l: List<Info>, times: seq<nat>, hz: nat)
    requires l.Valid() && |times| == |l.nodes|
    modifies l`nodes, l`freed, l.Ring()`next, l.Ring()`prev
    ensures l.Valid()
    ensures var mask := SweepMask(old(l.Contents()), times, hz);
            && l.nodes == Keep(old(l.nodes), mask)
            && forall n :: n in l.freed <==> n in old(l.freed) || (n in old(l.nodes) && n !in l.nodes)
    ensures l.Contents() == Sweep(old(l.Contents()), times, hz)
  {
    hide Distinct, Linked, Pending, Cursor, KeepTo, Without, Entries, SweepMask, Expired;
    ghost var was, xs := l.nodes, l.Contents();
    ghost var mask := SweepMask(xs, times, hz);
    ghost var k := 0;
    VisitStart(was, mask);
    l.LinkAt(-1);
    var p: Node<Info> := l.NextOf(l.head);
    if l.nodes != [] {
      l.LinkAt(0);
    }
    var q := l.NextOf(p);
    var i := 0;
    while p != l.head
      invariant l.Valid() && i <= |was|
      invariant l.nodes == Pending(was, mask, i) && |l.nodes| == k + |was| - i
      invariant k == Cursor(was, mask, i)
      invariant p == l.At(k)
      invariant i < |was| ==> q == l.At(k + 1)
      invariant forall n :: n in l.nodes ==> n in was
      invariant forall n :: n in l.freed <==> n in old(l.freed) || (n in was && n !in l.nodes)
      decreases |was| - i
    {
      VisitHere(was, mask, i);
      VisitNext(was, mask, i);
      EntryAt(was, i);
      SweepMaskAt(xs, times, hz, i);
      var ti := l.EntryOf(p);
      if Expired(ti, times[i], hz) {
        l.Drop(p, k);
      } else {
        k := k + 1;
      }
      i := i + 1;
      if i < |was| {
        l.LinkAt(k);
      }
      p := q;
      q := l.NextOf(p);
    }
    VisitHere(was, mask, i);
    EntriesOfKept(was, mask, i);
  }

  /** `task_info_purge_list`: the ring is empty afterwards and every node it held is freed. */
  method PurgeList(l: List<Info>)
    requires l.Valid()
    modifies l`nodes, l`freed, l.Ring()`next, l.Ring()`prev
    ensures l.Valid() && l.nodes == []
    ensures l.head.next == l.head && l.head.prev == l.head
    ensures forall n :: n in l.freed <==> n in old(l.freed) || n in old(l.nodes)
  {
    hide Distinct, Linked, Pending, NoneOf, Without;
    ghost var was, mask := l.nodes, NoneOf(|l.nodes|);
    ghost var i := 0;
    VisitStart(was, mask);
    l.LinkAt(-1);
    var p: Node<Info> := l.NextOf(l.head);
    if l.nodes != [] {
      l.LinkAt(0);
    }
    var q := l.NextOf(p);
    while p != l.head
      invariant l.Valid() && i <= |was|
      invariant l.nodes == Pending(was, mask, i) && |l.nodes| == |was| - i
      invariant p == l.At(0)
      invariant i < |was| ==> q == l.At(1)
      invariant forall n :: n in l.nodes ==> n in was
      invariant forall n :: n in l.freed <==> n in old(l.freed) || (n in was && n !in l.nodes)
      decreases |was| - i
    {
      DropFirst(was, i);
      l.Drop(p, 0);
      i := i + 1;
      if i < |was| {
        l.LinkAt(0);
      }
      p := q;
      q := l.NextOf(p);
    }
    l.LinkAt(-1);
  }
}
