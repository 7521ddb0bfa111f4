/**
 What several components share: optional values, fixed-width unsigned arithmetic, and sums.
 */
module Basics {

  datatype Option<T> = None | Some(value: T)

  // ---------------------------------------------------------------- unsigned arithmetic

  /** Number of values of a uint32_t and of a 64-bit size_t. */
  const U32 := 0x1_0000_0000
  const SIZE_T := 0x1_0000_0000_0000_0000

  function Wrap32(x: int): nat {
    x % U32
  }

  function Wrap64(x: int): nat {
    x % SIZE_T
  }

  lemma Scale(a: nat, b: nat, n: nat)
    requires a <= b
    ensures a * n <= b * n && n * a <= n * b
  {
  }

  // ---------------------------------------------------------------- sums

  ghost function Sum(w: seq<nat>): nat {
    if w == [] then 0 else Sum(w[..|w| - 1]) + w[|w| - 1]
  }

  lemma {:induction false} SumUpdate(w: seq<nat>, i: nat, x: nat)
    requires i < |w|
    ensures Sum(w[i := x]) + w[i] == Sum(w) + x
    decreases |w|
  {
    var k := |w| - 1;
    if i < k {
      SumUpdate(w[..k], i, x);
      assert w[i := x][..k] == w[..k][i := x];
    } else {
      assert w[i := x][..k] == w[..k];
    }
  }

  lemma SumAppend(w: seq<nat>, x: nat)
    ensures Sum(w + [x]) == Sum(w) + x
  {
    assert (w + [x])[..|w|] == w;
  }

  lemma {:induction false} SumZero(w: seq<nat>, i: nat)
    requires i < |w| && Sum(w) == 0
    ensures w[i] == 0
    decreases |w|
  {
    if i < |w| - 1 { SumZero(w[..|w| - 1], i); }
  }

  /** A sum whose terms do not grow, and of which one shrinks, shrinks. */
  lemma {:induction false} SumShrinks(w: seq<nat>, w1: seq<nat>, i: nat)
    requires |w| == |w1| && i < |w| && w1[i] < w[i] && forall j :: 0 <= j < |w| ==> w1[j] <= w[j]
    ensures Sum(w1) < Sum(w)
    decreases |w|
  {
    var k := |w| - 1;
    if i < k { SumShrinks(w[..k], w1[..k], i); } else { SumMonotone(w[..k], w1[..k]); }
  }

  lemma {:induction false} SumMonotone(w: seq<nat>, w1: seq<nat>)
    requires |w| == |w1| && forall j :: 0 <= j < |w| ==> w1[j] <= w[j]
    ensures Sum(w1) <= Sum(w)
    decreases |w|
  {
    var k := |w| - 1;
    if w != [] { SumMonotone(w[..k], w1[..k]); }
  }

  lemma {:induction false} SumBound(w: seq<nat>, x: nat)
    requires forall j :: 0 <= j < |w| ==> w[j] <= x
    ensures Sum(w) <= |w| * x
    decreases |w|
  {
    var k := |w| - 1;
    if w != [] {
      SumBound(w[..k], x);
      assert |w| * x == k * x + x;
    }
  }
}
