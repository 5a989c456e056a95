/**
 The kernel's circular doubly linked list: a sentinel `head`, the primitives
 `list_add` and `list_del`, and `kfree`.  Every access to a node goes through a
 member that demands the node has not been freed.
 */
module KernelList {
  import opened Masks

  class Node<T(0)> {
    var entry: T
    var next: Node?<T>
    var prev: Node?<T>

    constructor (entry: T)
      ensures this.entry == entry
    {
      this.entry := entry;
    }
  }

  /** `next` and `prev` are mutually inverse along c. */
  ghost predicate Linked<T(0)>(c: seq<Node<T>>)
    reads c
  {
    && (forall i {:trigger c[i].next} :: 0 <= i < |c| - 1 ==> c[i].next == c[i + 1])
    && (forall i {:trigger c[i].prev} :: 0 < i < |c| ==> c[i].prev == c[i - 1])
  }

  /** No element occurs twice. */
  ghost predicate Distinct<T>(s: seq<T>) {
    forall x :: x in s ==> multiset(s)[x] == 1
  }

  lemma WithoutCounts<T>(s: seq<T>, k: nat)
    requires k < |s|
    ensures multiset(s) == multiset(Without(s, k)) + multiset{s[k]}
  {
    assert s == s[..k] + [s[k]] + s[k + 1..];
  }

  lemma DistinctWithout<T>(s: seq<T>, k: nat)
    requires Distinct(s) && k < |s|
    ensures Distinct(Without(s, k)) && s[k] !in Without(s, k)
    ensures forall x :: x in Without(s, k) ==> x in s
    ensures forall j :: 0 <= j < |s| && j != k ==> s[j] != s[k]
  {
    WithoutCounts(s, k);
    assert s[k] in s;
    forall x | x in Without(s, k) ensures x in s && x != s[k] && multiset(Without(s, k))[x] == 1 {
      assert x in multiset(Without(s, k)) && x in multiset(s);
    }
    forall j | 0 <= j < |s| && j != k ensures s[j] != s[k] {
      assert s[j] == Without(s, k)[if j < k then j else j - 1];
      assert s[j] in multiset(Without(s, k));
    }
  }

  lemma WithoutMembers<T>(s: seq<T>, k: nat)
    requires Distinct(s) && k < |s|
    ensures forall x :: x in Without(s, k) <==> x in s && x != s[k]
  {
    DistinctWithout(s, k);
    WithoutCounts(s, k);
    forall x | x in s && x != s[k] ensures x in Without(s, k) {
      assert x in multiset(s) && x in multiset(Without(s, k));
    }
  }

  /** Bridging the gap at position k leaves the rest of the cycle linked. */
  lemma LinkedWithout<T(0)>(c: seq<Node<T>>, k: nat)
    requires 0 < k < |c| - 1
    requires forall i {:trigger c[i].next} :: 0 <= i < |c| - 1 && i != k && i != k - 1 ==> c[i].next == c[i + 1]
    requires forall i {:trigger c[i].prev} :: 0 < i < |c| && i != k && i != k + 1 ==> c[i].prev == c[i - 1]
    requires c[k - 1].next == c[k + 1] && c[k + 1].prev == c[k - 1]
    ensures Linked(Without(c, k))
  {
  }

  lemma LinkedWith<T(0)>(c: seq<Node<T>>, n: Node<T>)
    requires |c| >= 2
    requires forall i {:trigger c[i].next} :: 1 <= i < |c| - 1 ==> c[i].next == c[i + 1]
    requires forall i {:trigger c[i].prev} :: 2 <= i < |c| ==> c[i].prev == c[i - 1]
    requires c[0].next == n && n.next == c[1] && n.prev == c[0] && c[1].prev == n
    ensures Linked([c[0], n] + c[1..])
  {
  }

  lemma DistinctWith<T>(s: seq<T>, x: T)
    requires Distinct(s) && x !in s
    ensures Distinct([x] + s)
  {
    assert x !in multiset(s);
    forall y | y in [x] + s ensures multiset([x] + s)[y] == 1 {
      assert y == x || y in s;
    }
  }

  lemma CycleWithout<T>(h: T, s: seq<T>, k: nat)
    requires k < |s|
    ensures [h] + Without(s, k) + [h] == Without([h] + s + [h], k + 1)
  {
  }

  /** The entries of the first i nodes. */
  ghost function EntriesTo<T(0)>(s: seq<Node<T>>, i: nat): (r: seq<T>)
    requires i <= |s|
    reads s`entry
    ensures |r| == i
  {
    if i == 0 then [] else EntriesTo(s, i - 1) + [s[i - 1].entry]
  }

  ghost function Entries<T(0)>(s: seq<Node<T>>): (r: seq<T>)
    reads s`entry
    ensures |r| == |s|
  {
    EntriesTo(s, |s|)
  }

  lemma {:induction false} EntriesToAt<T(0)>(s: seq<Node<T>>, i: nat)
    requires i <= |s|
    ensures forall j :: 0 <= j < i ==> EntriesTo(s, i)[j] == s[j].entry
  {
    if i > 0 {
      EntriesToAt(s, i - 1);
    }
  }

  lemma EntriesAt<T(0)>(s: seq<Node<T>>)
    ensures forall j :: 0 <= j < |s| ==> Entries(s)[j] == s[j].entry
  {
    EntriesToAt(s, |s|);
  }

  lemma EntriesWith<T(0)>(n: Node<T>, s: seq<Node<T>>)
    ensures Entries([n] + s) == [n.entry] + Entries(s)
  {
    EntriesAt(s);
    EntriesAt([n] + s);
  }

  lemma EntryAt<T(0)>(s: seq<Node<T>>, j: nat)
    requires j < |s|
    ensures Entries(s)[j] == s[j].entry
  {
    EntriesAt(s);
  }

  class List<T(0)> {
    const head: Node<T>
    ghost var nodes: seq<Node<T>>
    ghost var freed: set<Node<T>>

    ghost predicate Valid()
      reads this, head, nodes
    {
      && Distinct(nodes)
      && head !in nodes
      && head !in freed
      && (forall n :: n in nodes ==> n !in freed)
      && Linked([head] + nodes + [head])
    }

    /** The sentinel and the linked nodes. */
    ghost function Ring(): set<Node<T>>
      reads this
    {
      {head} + set n | n in nodes
    }

    ghost function Contents(): seq<T>
      reads this`nodes, nodes`entry
    {
      Entries(nodes)
    }

    /** The node a forward walk stands at after i steps; the walk ends back at the sentinel. */
    ghost function At(i: nat): Node<T>
      requires i <= |nodes|
      reads this
    {
      if i < |nodes| then nodes[i] else head
    }

    lemma AtHead(i: nat)
      requires Valid() && i <= |nodes|
      ensures At(i) == head <==> i == |nodes|
      ensures i < |nodes| ==> At(i) == nodes[i]
    {
    }

    /** Position i of the walk leads to position i + 1; position -1 is the sentinel. */
    lemma LinkAt(i: int)
      requires Valid() && -1 <= i < |nodes|
      ensures (if i < 0 then head else nodes[i]).next == At(i + 1)
      ensures At(i + 1).prev == if i < 0 then head else nodes[i]
    {
      var c := [head] + nodes + [head];
      assert c[i + 1] == (if i < 0 then head else nodes[i]) && c[i + 2] == At(i + 1);
    }

    /** `INIT_LIST_HEAD` on a fresh sentinel. */
    constructor (default: T)
      ensures Valid() && nodes == [] && freed == {} && fresh(head)
    {
      var h := new Node<T>(default);
      h.next := h;
      h.prev := h;
      head := h;
      nodes := [];
      freed := {};
    }

    function NextOf(p: Node<T>): Node?<T>
      requires p !in freed
      reads this`freed, p`next
    {
      p.next
    }

    function PrevOf(p: Node<T>): Node?<T>
      requires p !in freed
      reads this`freed, p`prev
    {
      p.prev
    }

    function EntryOf(p: Node<T>): T
      requires p !in freed
      reads this`freed, p`entry
    {
      p.entry
    }

    method SetEntry(p: Node<T>, x: T)
      requires p !in freed
      modifies p`entry
      ensures p.entry == x
      ensures old(Valid()) ==> Valid()
    {
      p.entry := x;
    }

    /** `list_add`: link a node right behind the head. */
    method ListAdd(node: Node<T>)
      requires Valid()
      requires node !in Ring() && node !in freed
      modifies this`nodes, Ring()`next, Ring()`prev, node`next, node`prev
      ensures Valid()
      ensures nodes == [node] + old(nodes)
    {
      hide Distinct;
      ghost var c := [head] + nodes + [head];
      LinkAt(-1);
      DistinctWith(nodes, node);
      if nodes != [] {
        DistinctWithout(nodes, 0);
      }
      var next := NextOf(head);
      assert next !in freed && next == c[1];
      next.prev := node;
      node.next := next;
      node.prev := head;
      head.next := node;
      LinkedWith(c, node);
      nodes := [node] + nodes;
      assert [head] + nodes + [head] == [head, node] + c[1..];
    }

    /** `list_del`: unlink a node and poison its links. */
    method ListDel(p: Node<T>, ghost k: nat)
      requires Valid()
      requires k < |nodes| && nodes[k] == p
      modifies this`nodes, Ring()`next, Ring()`prev
      ensures Valid()
      ensures nodes == Without(old(nodes), k)
      ensures p.next == null && p.prev == null && p !in nodes
    {
      hide Distinct, Without;
      ghost var c := [head] + nodes + [head];
      assert c[k + 1] == p;
      DistinctWithout(nodes, k);
      if k > 0 {
        DistinctWithout(nodes, k - 1);
      }
      if k + 1 < |nodes| {
        DistinctWithout(nodes, k + 1);
      }
      var prev, next := PrevOf(p), NextOf(p);
      assert prev !in freed && next !in freed;
      next.prev := prev;
      prev.next := next;
      p.next := null;
      p.prev := null;
      nodes := Without(nodes, k);
      LinkedWithout(c, k + 1);
      CycleWithout(head, old(nodes), k);
    }

    /** `kfree`: the node must be live and no longer linked. */
    method Kfree(p: Node<T>)
      requires p !in Ring() && p !in freed
      modifies this`freed
      ensures freed == old(freed) + {p}
    {
      freed := freed + {p};
    }

    /** `list_del` followed by `kfree` of the entry around it. */
    method Drop(p: Node<T>, ghost k: nat)
      requires Valid()
      requires k < |nodes| && nodes[k] == p
      modifies this`nodes, this`freed, Ring()`next, Ring()`prev
      ensures Valid() && |nodes| == old(|nodes|) - 1 && At(k) == old(At(k + 1))
      ensures nodes == Without(old(nodes), k)
      ensures forall n :: n in nodes <==> n in old(nodes) && n != p
      ensures freed == old(freed) + {p}
    {
      WithoutMembers(nodes, k);
      ListDel(p, k);
      Kfree(p);
    }
  }
}
