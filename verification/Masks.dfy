/** Selecting the elements of a sequence that a mask marks, in order. */
module Masks {

  /** The marked elements among the first i. */
  function KeepTo<T>(xs: seq<T>, mask: seq<bool>, i: nat): (r: seq<T>)
    requires i <= |xs| && i <= |mask|
    ensures |r| <= i
  {
    if i == 0 then []
    else if mask[i - 1] then KeepTo(xs, mask, i - 1) + [xs[i - 1]]
    else KeepTo(xs, mask, i - 1)
  }

  lemma KeepNext<T>(xs: seq<T>, mask: seq<bool>, i: nat)
    requires i < |xs| && i < |mask|
    ensures KeepTo(xs, mask, i + 1) == if mask[i] then KeepTo(xs, mask, i) + [xs[i]] else KeepTo(xs, mask, i)
  {
  }

  function Keep<T>(xs: seq<T>, mask: seq<bool>): seq<T>
    requires |xs| == |mask|
  {
    KeepTo(xs, mask, |xs|)
  }

  /** The marked positions below i, in increasing order. */
  function Marked(mask: seq<bool>, i: nat): seq<nat>
    requires i <= |mask|
  {
    if i == 0 then [] else Marked(mask, i - 1) + if mask[i - 1] then [i - 1] else []
  }

  /** `r` consists of exactly the marked elements of `xs`, in order, at positions `at`. */
  ghost predicate PicksExactly<T>(r: seq<T>, xs: seq<T>, mask: seq<bool>, at: seq<nat>)
    requires |xs| == |mask|
  {
    && |at| == |r|
    && (forall j :: 0 <= j < |at| ==> at[j] < |xs| && mask[at[j]] && r[j] == xs[at[j]])
    && (forall j, k :: 0 <= j < k < |at| ==> at[j] < at[k])
    && (forall i :: 0 <= i < |xs| && mask[i] ==> i in at)
  }

  lemma {:induction false} KeepToPicks<T>(xs: seq<T>, mask: seq<bool>, n: nat)
    requires n <= |xs| && n <= |mask|
    ensures var r, at := KeepTo(xs, mask, n), Marked(mask, n);
            && |at| == |r|
            && (forall j :: 0 <= j < |at| ==> at[j] < n && mask[at[j]] && r[j] == xs[at[j]])
            && (forall j, k :: 0 <= j < k < |at| ==> at[j] < at[k])
            && (forall i :: 0 <= i < n && mask[i] ==> i in at)
  {
    if n > 0 {
      KeepToPicks(xs, mask, n - 1);
    }
  }

  lemma KeepPicks<T>(xs: seq<T>, mask: seq<bool>)
    requires |xs| == |mask|
    ensures PicksExactly(Keep(xs, mask), xs, mask, Marked(mask, |mask|))
  {
    KeepToPicks(xs, mask, |xs|);
  }

  lemma {:induction false} KeepToMember<T>(xs: seq<T>, mask: seq<bool>, n: nat, x: T)
    requires n <= |xs| && n <= |mask|
    ensures x in KeepTo(xs, mask, n) <==> exists i :: 0 <= i < n && mask[i] && xs[i] == x
  {
    if n > 0 {
      KeepToMember(xs, mask, n - 1, x);
      if i :| 0 <= i < n && mask[i] && xs[i] == x {
        assert i == n - 1 || i < n - 1;
      }
    }
  }

  lemma KeepMember<T>(xs: seq<T>, mask: seq<bool>, x: T)
    requires |xs| == |mask|
    ensures x in Keep(xs, mask) <==> exists i :: 0 <= i < |xs| && mask[i] && xs[i] == x
  {
    KeepToMember(xs, mask, |xs|, x);
  }

  /** What is kept of the first i elements depends on them alone. */
  lemma {:induction false} KeepToPrefix<T>(xs: seq<T>, ys: seq<T>, mask: seq<bool>, mask': seq<bool>, i: nat)
    requires i <= |xs| && i <= |mask| && i <= |ys| && i <= |mask'|
    requires forall j :: 0 <= j < i ==> xs[j] == ys[j] && mask[j] == mask'[j]
    ensures KeepTo(xs, mask, i) == KeepTo(ys, mask', i)
  {
    if i > 0 {
      KeepToPrefix(xs, ys, mask, mask', i - 1);
    }
  }

  // ---------- a walk that drops the unmarked elements, when it has examined i of them ----------

  function Without<T>(s: seq<T>, k: nat): seq<T>
    requires k < |s|
  {
    s[..k] + s[k + 1..]
  }

  /** What is left of xs: the kept ones of the examined elements, then the rest. */
  function Pending<T>(xs: seq<T>, mask: seq<bool>, i: nat): seq<T>
    requires i <= |xs| && i <= |mask|
  {
    KeepTo(xs, mask, i) + xs[i..]
  }

  /** The position in what is left at which the walk stands. */
  function Cursor<T>(xs: seq<T>, mask: seq<bool>, i: nat): nat
    requires i <= |xs| && i <= |mask|
  {
    |KeepTo(xs, mask, i)|
  }

  lemma VisitStart<T>(xs: seq<T>, mask: seq<bool>)
    ensures Pending(xs, mask, 0) == xs && Cursor(xs, mask, 0) == 0
  {
  }

  lemma VisitHere<T>(xs: seq<T>, mask: seq<bool>, i: nat)
    requires i <= |xs| && i <= |mask|
    ensures Cursor(xs, mask, i) <= i && |Pending(xs, mask, i)| - Cursor(xs, mask, i) == |xs| - i
    ensures i < |xs| ==> Pending(xs, mask, i)[Cursor(xs, mask, i)] == xs[i] && xs[i] in xs
    ensures i == |xs| == |mask| ==> Pending(xs, mask, i) == Keep(xs, mask)
  {
  }

  /** Keeping an element moves the walk on; dropping it removes it at the cursor. */
  lemma VisitNext<T>(xs: seq<T>, mask: seq<bool>, i: nat)
    requires i < |xs| && i < |mask|
    ensures var left, k := Pending(xs, mask, i), Cursor(xs, mask, i);
            && k < |left|
            && Pending(xs, mask, i + 1) == (if mask[i] then left else Without(left, k))
            && Cursor(xs, mask, i + 1) == (if mask[i] then k + 1 else k)
  {
    hide KeepTo;
    KeepNext(xs, mask, i);
    assert xs[i..] == [xs[i]] + xs[i + 1..];
  }

  /** The same for a mask that grows with the walk. */
  lemma VisitGrow<T>(xs: seq<T>, mask: seq<bool>, keep: bool)
    requires |mask| < |xs|
    ensures var left, k, mask' := Pending(xs, mask, |mask|), Cursor(xs, mask, |mask|), mask + [keep];
            && k < |left|
            && Pending(xs, mask', |mask'|) == (if keep then left else Without(left, k))
            && Cursor(xs, mask', |mask'|) == (if keep then k + 1 else k)
  {
    KeepToPrefix(xs, xs, mask, mask + [keep], |mask|);
    VisitNext(xs, mask + [keep], |mask|);
  }

  function NoneOf(n: nat): (mask: seq<bool>)
    ensures |mask| == n
  {
    seq(n, _ => false)
  }

  /** A walk that drops everything stands at the front and in the end leaves nothing. */
  lemma {:induction false} VisitNone<T>(xs: seq<T>, i: nat)
    requires i <= |xs|
    ensures Cursor(xs, NoneOf(|xs|), i) == 0 && |Pending(xs, NoneOf(|xs|), i)| == |xs| - i
  {
    if i > 0 {
      VisitNone(xs, i - 1);
    }
  }

  /** It drops the first of what is left each time. */
  lemma DropFirst<T>(xs: seq<T>, i: nat)
    requires i < |xs|
    ensures var left := Pending(xs, NoneOf(|xs|), i);
            |left| > 0 && left[0] == xs[i] && xs[i] in xs && Pending(xs, NoneOf(|xs|), i + 1) == Without(left, 0)
  {
    hide Pending, Cursor, KeepTo, Without;
    VisitHere(xs, NoneOf(|xs|), i);
    VisitNext(xs, NoneOf(|xs|), i);
    VisitNone(xs, i);
  }
}
