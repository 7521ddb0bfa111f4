/**
 Linear ids of an offset box of any rank, dimension 0 fastest, computed by a Horner evaluation
 in 64-bit arithmetic.
 */
module LinearId {
  import opened Basics
  import opened IndexSpace

  function Product(r: Id): nat {
    if r == [] then 1 else r[0] * Product(r[1..])
  }

  /** The mixed-radix value of v over r. */
  function Linear(r: Id, v: Id): nat
    requires |v| == |r|
  {
    if r == [] then 0 else v[0] + r[0] * Linear(r[1..], v[1..])
  }

  /** The k-th id of the box. */
  function Unlinear(r: Id, k: nat): (v: Id)
    requires k < Product(r)
    ensures |v| == |r|
    decreases |r|
  {
    if r == [] then [] else
      DivBelow(k, r[0], Product(r[1..]));
      [k % r[0]] + Unlinear(r[1..], k / r[0])
  }

  lemma {:induction false} LinearBelowSize(r: Id, v: Id)
    requires InBox(v, r)
    ensures Linear(r, v) < Product(r)
  {
    if r != [] {
      TailInBox(r, v);
      var tail, size := Linear(r[1..], v[1..]), Product(r[1..]);
      LinearBelowSize(r[1..], v[1..]);
      Scale(tail + 1, size, r[0]);
      assert r[0] * (tail + 1) == r[0] * tail + r[0];
    }
  }

  lemma TailInBox(r: Id, v: Id)
    requires r != [] && InBox(v, r)
    ensures InBox(v[1..], r[1..])
  {
    forall d | 0 <= d < |r| - 1 ensures v[1..][d] < r[1..][d] { assert v[d + 1] < r[d + 1]; }
  }

  lemma {:induction false} UnlinearOfLinear(r: Id, v: Id)
    requires InBox(v, r)
    ensures Linear(r, v) < Product(r) && Unlinear(r, Linear(r, v)) == v
  {
    LinearBelowSize(r, v);
    if r != [] {
      TailInBox(r, v);
      UnlinearOfLinear(r[1..], v[1..]);
      DivModUnique(Linear(r, v), r[0], Linear(r[1..], v[1..]), v[0]);
    }
  }

  lemma {:induction false} LinearOfUnlinear(r: Id, k: nat)
    requires k < Product(r)
    ensures InBox(Unlinear(r, k), r) && Linear(r, Unlinear(r, k)) == k
    decreases |r|
  {
    if r != [] {
      DivBelow(k, r[0], Product(r[1..]));
      LinearOfUnlinear(r[1..], k / r[0]);
      ConsInBox(r, k % r[0], Unlinear(r[1..], k / r[0]));
      assert Unlinear(r, k)[1..] == Unlinear(r[1..], k / r[0]);
    }
  }

  lemma ConsInBox(r: Id, x: nat, v: Id)
    requires r != [] && x < r[0] && InBox(v, r[1..])
    ensures InBox([x] + v, r)
  {
    forall d | 0 < d < |r| ensures ([x] + v)[d] < r[d] { assert v[d - 1] < r[1..][d - 1]; }
  }

  /** One step in dimension d is worth the product of the ranges before it, so dimension 0 is
      the fastest. */
  lemma {:induction false} DimensionZeroIsFastest(r: Id, v: Id, d: nat)
    requires |v| == |r| && d < |r|
    ensures Linear(r, v[d := v[d] + 1]) == Linear(r, v) + Product(r[..d])
    ensures d == 0 ==> Linear(r, v[d := v[d] + 1]) == Linear(r, v) + 1
    decreases |r|
  {
    var v1 := v[d := v[d] + 1];
    if d == 0 {
      assert v1[1..] == v[1..];
      assert r[..0] == [];
    } else {
      assert v1[1..] == v[1..][d - 1 := v[1..][d - 1] + 1];
      DimensionZeroIsFastest(r[1..], v[1..], d - 1);
      var rest, p := Linear(r[1..], v[1..]), Product(r[1..][..d - 1]);
      assert r[..d][1..] == r[1..][..d - 1] && Product(r[..d]) == r[0] * p;
      assert r[0] * (rest + p) == r[0] * rest + r[0] * p;
    }
  }

  lemma {:induction false} OriginIsZero(r: Id)
    ensures Linear(r, seq(|r|, _ => 0)) == 0
    decreases |r|
  {
    if r != [] {
      OriginIsZero(r[1..]);
      assert seq(|r|, _ => 0)[1..] == seq(|r| - 1, _ => 0);
    }
  }

  // ---------------------------------------------------------------- the loop

  function Minus(id: Id, offset: Id): Id
    requires |id| == |offset| && forall d :: 0 <= d < |id| ==> offset[d] <= id[d]
  {
    seq(|id|, d requires 0 <= d < |id| => id[d] - offset[d])
  }

  ghost predicate InOffsetBox(id: Id, offset: Id, range: Id) {
    && |id| == |offset| == |range|
    && forall d :: 0 <= d < |range| ==> offset[d] <= id[d] < offset[d] + range[d]
  }

  /** Equal up to multiples of the word means equal once wrapped. */
  lemma WrapShift(x: int, q: int)
    ensures Wrap64(x + SIZE_T * q) == Wrap64(x)
  {
    var a, b := (x + SIZE_T * q) / SIZE_T, x / SIZE_T;
    assert SIZE_T * (a - q - b) == Wrap64(x) - Wrap64(x + SIZE_T * q);
  }

  /** The wrapping operations of one step add up to one wrapping at the end. */
  lemma HornerStep(acc: nat, n: nat, x: nat, off: nat)
    ensures Wrap64(Wrap64(Wrap64(Wrap64(acc) * n) + x) - off) == Wrap64(acc * n + x - off)
  {
    var q := acc / SIZE_T;
    var p := Wrap64(acc) * n;
    assert acc * n == p + SIZE_T * (q * n) by {
      assert acc == Wrap64(acc) + SIZE_T * q;
      Distribute(Wrap64(acc), SIZE_T * q, n);
    }
    WrapShift(p + x - off, q * n);
    var s := Wrap64(p) + x;
    assert s == p + x + SIZE_T * (-(p / SIZE_T));
    WrapShift(p + x, -(p / SIZE_T));
    assert Wrap64(s) - off == p + x - off + SIZE_T * (-((p + x) / SIZE_T));
    WrapShift(p + x - off, -((p + x) / SIZE_T));
  }

  lemma Distribute(a: int, b: int, n: int)
    ensures (a + b) * n == a * n + b * n
  {
  }

  /** linear_id. The result is right up to the word size, whatever overflows or underflows in
      between, and exact when the box has at most 2^64 ids. */
  method ComputeLinearId(range: Id, id: Id, offset: Id) returns (linear: nat)
    requires InOffsetBox(id, offset, range)
    ensures linear == Wrap64(Linear(range, Minus(id, offset)))
    ensures Product(range) <= SIZE_T ==> linear == Linear(range, Minus(id, offset))
  {
    ghost var v := Minus(id, offset);
    linear := 0;
    var i := |range|;
    while i > 0
      invariant 0 <= i <= |range|
      invariant linear == Wrap64(Linear(range[i..], v[i..]))
    {
      i := i - 1;
      assert range[i..][1..] == range[i + 1..] && v[i..][1..] == v[i + 1..];
      HornerStep(Linear(range[i + 1..], v[i + 1..]), range[i], id[i], offset[i]);
      linear := Wrap64(Wrap64(Wrap64(linear * range[i]) + id[i]) - offset[i]);
    }
    assert range[0..] == range && v[0..] == v;
    LinearBelowSize(range, v);
  }

  function Plus(v: Id, offset: Id): Id
    requires |v| == |offset|
  {
    seq(|v|, d requires 0 <= d < |v| => v[d] + offset[d])
  }

  /** Linear ids are one-to-one from an offset box onto 0..size-1: Unlinear undoes them, and
      every number below the size is the linear id of an id of the box. */
  lemma LinearIdIsBijection(r: Id, offset: Id, id: Id, k: nat)
    requires InOffsetBox(id, offset, r)
    ensures Linear(r, Minus(id, offset)) < Product(r)
    ensures Plus(Unlinear(r, Linear(r, Minus(id, offset))), offset) == id
    ensures k < Product(r) ==>
              var w := Unlinear(r, k);
              InOffsetBox(Plus(w, offset), offset, r) && Linear(r, Minus(Plus(w, offset), offset)) == k
  {
    hide Product, Linear, Unlinear;
    var v := Minus(id, offset);
    UnlinearOfLinear(r, v);
    assert Plus(v, offset) == id;
    if k < Product(r) {
      LinearOfUnlinear(r, k);
      var w := Unlinear(r, k);
      assert InOffsetBox(Plus(w, offset), offset, r);
      assert Minus(Plus(w, offset), offset) == w;
    }
  }
}
