/** Sums over sequences, used to count who holds what. */
module Counting {

  /** The sum of `g(x, f)` over the elements of `xs`. */
  ghost function Total<T(!new)>(xs: seq<T>, g: (T, nat) -> nat, f: nat): nat {
    if xs == [] then 0 else g(xs[0], f) + Total(xs[1..], g, f)
  }

  lemma {:induction false} TotalConcat<T(!new)>(xs: seq<T>, ys: seq<T>, g: (T, nat) -> nat, f: nat)
    ensures Total(xs + ys, g, f) == Total(xs, g, f) + Total(ys, g, f)
  {
    if xs == [] {
      assert xs + ys == ys;
    } else {
      assert (xs + ys)[1..] == xs[1..] + ys;
      TotalConcat(xs[1..], ys, g, f);
    }
  }

  lemma TotalOne<T(!new)>(x: T, g: (T, nat) -> nat, f: nat)
    ensures Total([x], g, f) == g(x, f)
  {
    assert [x][1..] == [];
  }

  lemma TotalPush<T(!new)>(xs: seq<T>, x: T, g: (T, nat) -> nat, f: nat)
    ensures Total(xs + [x], g, f) == Total(xs, g, f) + g(x, f)
  {
    TotalConcat(xs, [x], g, f);
    TotalOne(x, g, f);
  }

  /** One element and the rest. */
  lemma TotalSplit<T(!new)>(xs: seq<T>, i: nat, g: (T, nat) -> nat, f: nat)
    requires i < |xs|
    ensures Total(xs, g, f) == Total(xs[..i], g, f) + g(xs[i], f) + Total(xs[i + 1..], g, f)
  {
    assert xs == xs[..i] + ([xs[i]] + xs[i + 1..]);
    TotalConcat(xs[..i], [xs[i]] + xs[i + 1..], g, f);
    TotalConcat([xs[i]], xs[i + 1..], g, f);
    TotalOne(xs[i], g, f);
  }

  lemma TotalUpdate<T(!new)>(xs: seq<T>, i: nat, x: T, g: (T, nat) -> nat, f: nat)
    requires i < |xs|
    ensures Total(xs[i := x], g, f) + g(xs[i], f) == Total(xs, g, f) + g(x, f)
  {
    TotalSplit(xs, i, g, f);
    TotalSplit(xs[i := x], i, g, f);
    assert xs[i := x][..i] == xs[..i] && xs[i := x][i + 1..] == xs[i + 1..];
  }

  function Without<T>(xs: seq<T>, i: nat): seq<T>
    requires i < |xs|
  {
    xs[..i] + xs[i + 1..]
  }

  lemma TotalWithout<T(!new)>(xs: seq<T>, i: nat, g: (T, nat) -> nat, f: nat)
    requires i < |xs|
    ensures Total(Without(xs, i), g, f) + g(xs[i], f) == Total(xs, g, f)
  {
    TotalSplit(xs, i, g, f);
    TotalConcat(xs[..i], xs[i + 1..], g, f);
  }

  /** Two positions add up to at most the sum. */
  lemma TotalTwo<T(!new)>(xs: seq<T>, i: nat, j: nat, g: (T, nat) -> nat, f: nat)
    requires i < j < |xs|
    ensures g(xs[i], f) + g(xs[j], f) <= Total(xs, g, f)
  {
    TotalSplit(xs, i, g, f);
    assert xs[i + 1..][j - i - 1] == xs[j];
    TotalSplit(xs[i + 1..], j - i - 1, g, f);
  }

  /** The sum is zero exactly when every term is. */
  lemma {:induction false} TotalZero<T(!new)>(xs: seq<T>, g: (T, nat) -> nat, f: nat)
    ensures Total(xs, g, f) == 0 <==> forall i :: 0 <= i < |xs| ==> g(xs[i], f) == 0
  {
    if xs != [] {
      TotalZero(xs[1..], g, f);
      assert forall i :: 0 < i < |xs| ==> xs[i] == xs[1..][i - 1];
      assert (forall i :: 0 <= i < |xs| ==> g(xs[i], f) == 0) ==> forall i :: 0 <= i < |xs[1..]| ==> g(xs[1..][i], f) == 0 by {
        assert forall i :: 0 <= i < |xs[1..]| ==> xs[1..][i] == xs[i + 1];
      }
    }
  }
}
