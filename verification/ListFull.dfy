/**
 `list-full.c`: the same kind of list without a lock, where every add links a new node
 and a sweep looks at one pid only.
 */
module ListFull {
  import opened Words
  import opened Masks
  import opened KernelList
  import opened TaskInfo
  import ListSync

  /**
   `task_info_add_for_current`: link a new node, whatever is in the list already.  The
   counter is incremented from the value `raw` that the allocation happened to hold.
   */
  method AddForCurrent(l: List<Info>, pid: int, clock: nat, raw: i32, memory: bool)
    requires l.Valid()
    modifies l`nodes, l.Ring()`next, l.Ring()`prev
    ensures l.Valid() && l.freed == old(l.freed)
    ensures l.Contents() == if memory then [Info(pid, Jiffies(clock), Inc32(raw))] + old(l.Contents())
                            else old(l.Contents())
  {
    if !memory {
      return;
    }
    var t := new Node(Info(pid, Jiffies(clock), Inc32(raw)));
    ListSync.Link(l, t);
  }

  /** `task_info_remove_expired(pid)`: drop exactly the expired nodes of this pid. */
  method RemoveExpired(l: List<Info>, pid: int, times: seq<nat>, hz: nat)
    requires l.Valid() && |times| == |l.nodes|
    modifies l`nodes, l`freed, l.Ring()`next, l.Ring()`prev
    ensures l.Valid()
    ensures var mask := PidMask(old(l.Contents()), pid, times, hz);
            && l.nodes == Keep(old(l.nodes), mask)
            && forall n :: n in l.freed <==> n in old(l.freed) || (n in old(l.nodes) && n !in l.nodes)
    ensures l.Contents() == SweepPid(old(l.Contents()), pid, times, hz)
  {
    hide Distinct, Linked, Pending, Cursor, KeepTo, Without, Entries, PidMask, Expired;
    ghost var was, xs := l.nodes, l.Contents();
    ghost var mask := PidMask(xs, pid, times, hz);
    ghost var k := 0;
    VisitStart(was, mask);
    l.LinkAt(-1);
    var curr: Node<Info> := l.NextOf(l.head);
    if l.nodes != [] {
      l.LinkAt(0);
    }
    var tmp := l.NextOf(curr);
    var i := 0;
    while curr != l.head
      invariant l.Valid() && i <= |was|
      invariant l.nodes == Pending(was, mask, i) && |l.nodes| == k + |was| - i
      invariant k == Cursor(was, mask, i)
      invariant curr == l.At(k)
      invariant i < |was| ==> tmp == l.At(k + 1)
      invariant forall n :: n in l.nodes ==> n in was
      invariant forall n :: n in l.freed <==> n in old(l.freed) || (n in was && n !in l.nodes)
      decreases |was| - i
    {
      VisitHere(was, mask, i);
      VisitNext(was, mask, i);
      EntryAt(was, i);
      PidMaskAt(xs, pid, times, hz, i);
      var tsk := l.EntryOf(curr);
      if tsk.pid == pid && Expired(tsk, times[i], hz) {
        l.Drop(curr, k);
      } else {
        k := k + 1;
      }
      i := i + 1;
      if i < |was| {
        l.LinkAt(k);
      }
      curr := tmp;
      tmp := l.NextOf(curr);
    }
    VisitHere(was, mask, i);
    ListSync.EntriesOfKept(was, mask, i);
  }

  // ---------- many one-pid sweeps against one global sweep ----------

  function Still(clock: nat, n: nat): (times: seq<nat>)
    ensures |times| == n
  {
    seq(n, _ => clock)
  }

  /** One-pid sweeps in the order of `pids`, all at the same clock. */
  function SweepPids(xs: seq<Info>, pids: seq<int>, clock: nat, hz: nat): seq<Info>
    decreases |pids|
  {
    if pids == [] then xs
    else SweepPids(SweepPid(xs, pids[0], Still(clock, |xs|), hz), pids[1..], clock, hz)
  }

  function Filter(xs: seq<Info>, p: Info -> bool): (r: seq<Info>)
  {
    if xs == [] then [] else Filter(xs[..|xs| - 1], p) + if p(xs[|xs| - 1]) then [xs[|xs| - 1]] else []
  }

  lemma {:induction false} KeepIsFilter(xs: seq<Info>, mask: seq<bool>, p: Info -> bool, i: nat)
    requires i <= |xs| == |mask|
    requires forall j :: 0 <= j < |xs| ==> mask[j] == p(xs[j])
    ensures KeepTo(xs, mask, i) == Filter(xs[..i], p)
  {
    if i > 0 {
      KeepIsFilter(xs, mask, p, i - 1);
      assert xs[..i][..i - 1] == xs[..i - 1];
    }
  }

  lemma {:induction false} FilterTwice(xs: seq<Info>, p: Info -> bool, q: Info -> bool, both: Info -> bool)
    requires forall x :: x in xs ==> both(x) == (p(x) && q(x))
    ensures Filter(Filter(xs, p), q) == Filter(xs, both)
  {
    if xs != [] {
      var n := |xs| - 1;
      FilterTwice(xs[..n], p, q, both);
      var f := Filter(xs[..n], p);
      assert xs[n] in xs;
      if p(xs[n]) {
        assert (f + [xs[n]])[..|f|] == f;
      } else {
        assert Filter(xs, p) == f;
      }
    }
  }

  lemma {:induction false} FilterSame(xs: seq<Info>, p: Info -> bool, q: Info -> bool)
    requires forall x :: x in xs ==> p(x) == q(x)
    ensures Filter(xs, p) == Filter(xs, q)
  {
    if xs != [] {
      FilterSame(xs[..|xs| - 1], p, q);
      assert xs[|xs| - 1] in xs;
    }
  }

  /** The entries that sweeps of the given pids leave. */
  function Outlives(pids: seq<int>, clock: nat, hz: nat): Info -> bool {
    (x: Info) => !(x.pid in pids && Expired(x, clock, hz))
  }

  lemma SweepPidFilters(xs: seq<Info>, pid: int, clock: nat, hz: nat)
    ensures SweepPid(xs, pid, Still(clock, |xs|), hz) == Filter(xs, Outlives([pid], clock, hz))
  {
    hide Expired;
    var times := Still(clock, |xs|);
    KeepIsFilter(xs, PidMask(xs, pid, times, hz), Outlives([pid], clock, hz), |xs|);
    assert xs[..|xs|] == xs;
  }

  lemma {:induction false} SweepPidsFilter(xs: seq<Info>, pids: seq<int>, clock: nat, hz: nat)
    ensures SweepPids(xs, pids, clock, hz) == Filter(xs, Outlives(pids, clock, hz))
    decreases |pids|
  {
    hide Expired, SweepPid;
    if pids == [] {
      KeepEverything(xs, clock, hz);
    } else {
      SweepPidFilters(xs, pids[0], clock, hz);
      SweepPidsFilter(SweepPid(xs, pids[0], Still(clock, |xs|), hz), pids[1..], clock, hz);
      assert pids == [pids[0]] + pids[1..];
      FilterTwice(xs, Outlives([pids[0]], clock, hz), Outlives(pids[1..], clock, hz), Outlives(pids, clock, hz));
    }
  }

  lemma {:induction false} KeepEverything(xs: seq<Info>, clock: nat, hz: nat)
    ensures Filter(xs, Outlives([], clock, hz)) == xs
  {
    if xs != [] {
      KeepEverything(xs[..|xs| - 1], clock, hz);
    }
  }

  /**
   At a fixed clock, one-pid sweeps over any pids that cover the list, in any order
   and with repeats, leave the list of one global sweep.
   */
  lemma PidSweepsAreGlobal(xs: seq<Info>, pids: seq<int>, clock: nat, hz: nat)
    requires forall x :: x in xs ==> x.pid in pids
    ensures SweepPids(xs, pids, clock, hz) == Sweep(xs, Still(clock, |xs|), hz)
  {
    hide Expired;
    SweepPidsFilter(xs, pids, clock, hz);
    SweepFilters(xs, clock, hz);
    FilterSame(xs, Outlives(pids, clock, hz), Unexpired(clock, hz));
  }

  function Unexpired(clock: nat, hz: nat): Info -> bool {
    (x: Info) => !Expired(x, clock, hz)
  }

  lemma SweepFilters(xs: seq<Info>, clock: nat, hz: nat)
    ensures Sweep(xs, Still(clock, |xs|), hz) == Filter(xs, Unexpired(clock, hz))
  {
    hide Expired;
    KeepIsFilter(xs, SweepMask(xs, Still(clock, |xs|), hz), Unexpired(clock, hz), |xs|);
    assert xs[..|xs|] == xs;
  }

  /** Covering is needed: an expired entry whose pid no sweep names stays, and a global sweep drops it. */
  lemma UncoveredStays(xs: seq<Info>, pids: seq<int>, clock: nat, hz: nat, x: Info)
    requires x in xs && x.pid !in pids && Expired(x, clock, hz)
    ensures x in SweepPids(xs, pids, clock, hz) && x !in Sweep(xs, Still(clock, |xs|), hz)
  {
    hide Expired;
    SweepPidsFilter(xs, pids, clock, hz);
    FilterMember(xs, Outlives(pids, clock, hz), x);
    KeepMember(xs, SweepMask(xs, Still(clock, |xs|), hz), x);
  }

  /** The two agree exactly when every expired entry is named. */
  lemma PidSweepsAreGlobalExactly(xs: seq<Info>, pids: seq<int>, clock: nat, hz: nat)
    ensures SweepPids(xs, pids, clock, hz) == Sweep(xs, Still(clock, |xs|), hz)
       <==> forall x :: x in xs && Expired(x, clock, hz) ==> x.pid in pids
  {
    hide Expired, SweepPids, Sweep;
    if forall x :: x in xs && Expired(x, clock, hz) ==> x.pid in pids {
      SweepPidsFilter(xs, pids, clock, hz);
      SweepFilters(xs, clock, hz);
      FilterSame(xs, Outlives(pids, clock, hz), Unexpired(clock, hz));
    } else {
      var x :| x in xs && Expired(x, clock, hz) && x.pid !in pids;
      UncoveredStays(xs, pids, clock, hz, x);
    }
  }

  lemma {:induction false} FilterMember(xs: seq<Info>, p: Info -> bool, x: Info)
    ensures x in Filter(xs, p) <==> x in xs && p(x)
  {
    if xs != [] {
      FilterMember(xs[..|xs| - 1], p, x);
      assert xs == xs[..|xs| - 1] + [xs[|xs| - 1]];
    }
  }
}
