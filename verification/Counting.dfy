/** Counting the elements of a sequence that satisfy a predicate. */
module Counting {

  function Count<T>(xs: seq<T>, f: T -> bool): (n: nat)
    ensures n <= |xs|
  {
    if xs == [] then 0 else (if f(xs[0]) then 1 else 0) + Count(xs[1..], f)
  }

  function One(b: bool): nat {
    if b then 1 else 0
  }

  lemma {:induction false} CountConcat<T>(a: seq<T>, b: seq<T>, f: T -> bool)
    ensures Count(a + b, f) == Count(a, f) + Count(b, f)
  {
    if a == [] {
      assert a + b == b;
    } else {
      assert (a + b)[1..] == a[1..] + b;
      CountConcat(a[1..], b, f);
    }
  }

  lemma Around<T>(xs: seq<T>, i: nat)
    requires i < |xs|
    ensures xs == xs[..i] + [xs[i]] + xs[i + 1..]
  {
  }

  lemma CountAround<T>(a: seq<T>, x: T, b: seq<T>, f: T -> bool)
    ensures Count(a + [x] + b, f) == Count(a, f) + One(f(x)) + Count(b, f)
  {
    CountConcat(a + [x], b, f);
    CountConcat(a, [x], f);
  }

  lemma CountUpdate<T>(xs: seq<T>, i: nat, x: T, f: T -> bool)
    requires i < |xs|
    ensures Count(xs[i := x], f) == Count(xs, f) - One(f(xs[i])) + One(f(x))
  {
    Around(xs, i);
    CountAround(xs[..i], xs[i], xs[i + 1..], f);
    CountAround(xs[..i], x, xs[i + 1..], f);
    assert xs[i := x] == xs[..i] + [x] + xs[i + 1..];
  }

  lemma CountRemove<T>(xs: seq<T>, i: nat, f: T -> bool)
    requires i < |xs|
    ensures Count(xs[..i] + xs[i + 1..], f) == Count(xs, f) - One(f(xs[i]))
  {
    Around(xs, i);
    CountAround(xs[..i], xs[i], xs[i + 1..], f);
    CountConcat(xs[..i], xs[i + 1..], f);
  }

  lemma {:induction false} CountNone<T>(xs: seq<T>, f: T -> bool)
    ensures Count(xs, f) == 0 <==> forall i :: 0 <= i < |xs| ==> !f(xs[i])
  {
    if xs != [] {
      CountNone(xs[1..], f);
      assert forall i :: 0 <= i < |xs[1..]| ==> xs[1..][i] == xs[i + 1];
      if forall i :: 0 <= i < |xs[1..]| ==> !f(xs[1..][i]) {
        assert forall i :: 0 < i < |xs| ==> xs[i] == xs[1..][i - 1];
      }
    }
  }

  lemma {:induction false} CountAll<T>(xs: seq<T>, f: T -> bool)
    requires forall i :: 0 <= i < |xs| ==> f(xs[i])
    ensures Count(xs, f) == |xs|
  {
    if xs != [] {
      CountAll(xs[1..], f);
    }
  }

  /** Two different positions that satisfy f are two in the count. */
  lemma CountTwo<T>(xs: seq<T>, i: nat, j: nat, f: T -> bool)
    requires i < j < |xs| && f(xs[i]) && f(xs[j])
    ensures Count(xs, f) >= 2
  {
    Around(xs, j);
    CountAround(xs[..j], xs[j], xs[j + 1..], f);
    CountNone(xs[..j], f);
    assert xs[..j][i] == xs[i];
  }
}
