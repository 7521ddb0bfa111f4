/**
 Enumeration of an index space of any rank by the recursive loop nest over its range.
 */
module IndexSpace {

  type Id = seq<nat>

  ghost predicate InBox(v: Id, r: Id) {
    |v| == |r| && forall d :: 0 <= d < |r| ==> v[d] < r[d]
  }

  // ---------------------------------------------------------------- the loop nest

  /** Ids visited by the loops over r inside the outer indices `prefix`. */
  ghost function Nest(prefix: Id, r: Id): seq<Id>
    decreases |r|, 1
  {
    if r == [] then [prefix] else NestTo(prefix, r, r[0])
  }

  /** Ids visited by the first k iterations of the outermost loop. */
  ghost function NestTo(prefix: Id, r: Id, k: nat): seq<Id>
    requires r != []
    decreases |r|, 0, k
  {
    if k == 0 then [] else NestTo(prefix, r, k - 1) + Nest(prefix + [k - 1], r[1..])
  }

  class Counter {
    /** The ids the kernel was called with, in order. */
    var calls: seq<Id>

    constructor ()
      ensures calls == []
    {
      calls := [];
    }

    /** parallel_for_iterate: sets the indices in place, from the outermost loop inwards. */
    method Iterate(level: nat, r: Id, index: array<nat>)
      requires level <= |r| == index.Length
      modifies this, index
      ensures calls == old(calls) + Nest(old(index[..])[..|r| - level], r[|r| - level..])
      ensures index[..|r| - level] == old(index[..|r| - level])
      decreases level
    {
      var at := |r| - level;
      ghost var prefix := index[..at];
      if level == 0 {
        assert r[at..] == [] && index[..] == prefix;
        calls := calls + [index[..]];
        return;
      }
      var i := 0;
      while i < r[at]
        invariant 0 <= i <= r[at]
        invariant index[..at] == prefix
        invariant calls == old(calls) + NestTo(prefix, r[at..], i)
      {
        index[at] := i;
        assert index[..at + 1] == prefix + [i] && r[at..][1..] == r[at + 1..];
        ghost var before := index[..];
        Iterate(level - 1, r, index);
        assert before[..at + 1] == prefix + [i];
        assert index[..at] == index[..at + 1][..at];
        i := i + 1;
      }
    }
  }

  // ---------------------------------------------------------------- what the nest visits

  ghost predicate Extends(v: Id, prefix: Id, r: Id) {
    |v| == |prefix| + |r| && v[..|prefix|] == prefix && InBox(v[|prefix|..], r)
  }

  lemma {:induction false} NestVisitsBox(prefix: Id, r: Id, v: Id)
    ensures v in Nest(prefix, r) <==> Extends(v, prefix, r)
    decreases |r|, 1
  {
    var p := |prefix|;
    if r == [] {
      if |v| == p { assert v[..p] == v && v[p..] == []; }
    } else {
      NestToVisits(prefix, r, r[0], v);
    }
  }

  lemma {:induction false} NestToVisits(prefix: Id, r: Id, k: nat, v: Id)
    requires r != [] && k <= r[0]
    ensures v in NestTo(prefix, r, k) <==> Extends(v, prefix, r) && v[|prefix|] < k
    decreases |r|, 0, k
  {
    if k > 0 {
      NestToVisits(prefix, r, k - 1, v);
      NestVisitsBox(prefix + [k - 1], r[1..], v);
      ExtendsByOne(prefix, r, k - 1, v);
    }
  }

  lemma ExtendsByOne(prefix: Id, r: Id, a: nat, v: Id)
    requires r != [] && a < r[0]
    ensures Extends(v, prefix + [a], r[1..]) <==> Extends(v, prefix, r) && v[|prefix|] == a
  {
    var p := |prefix|;
    if |v| == p + |r| {
      assert v[..p + 1] == v[..p] + [v[p]];
      assert v[p..] == [v[p]] + v[p + 1..];
      assert |prefix + [a]| == p + 1;
      if v[..p + 1] == prefix + [a] {
        assert v[..p] == v[..p + 1][..p] == prefix;
        assert v[p] == v[..p + 1][p] == a;
      }
      if InBox(v[p..], r) {
        forall d | 0 <= d < |r| - 1 ensures v[p + 1..][d] < r[1..][d] { assert v[p..][d + 1] < r[d + 1]; }
      }
      if InBox(v[p + 1..], r[1..]) && v[p] == a {
        forall d | 0 <= d < |r| ensures v[p..][d] < r[d] { if d > 0 { assert v[p + 1..][d - 1] < r[1..][d - 1]; } }
      }
    }
  }

  /** Lexicographic order, dimension 0 first. */
  ghost predicate LexLess(v: Id, w: Id) {
    |v| == |w| && exists d :: 0 <= d < |v| && v[..d] == w[..d] && v[d] < w[d]
  }

  ghost predicate Increasing(ids: seq<Id>) {
    forall i, j :: 0 <= i < j < |ids| ==> LexLess(ids[i], ids[j])
  }

  lemma {:induction false} NestIncreases(prefix: Id, r: Id)
    ensures Increasing(Nest(prefix, r))
    decreases |r|, 1
  {
    if r != [] { NestToIncreases(prefix, r, r[0]); }
  }

  lemma {:induction false} NestToIncreases(prefix: Id, r: Id, k: nat)
    requires r != [] && k <= r[0]
    ensures Increasing(NestTo(prefix, r, k))
    decreases |r|, 0, k
  {
    if k > 0 {
      var a, b := NestTo(prefix, r, k - 1), Nest(prefix + [k - 1], r[1..]);
      NestToIncreases(prefix, r, k - 1);
      NestIncreases(prefix + [k - 1], r[1..]);
      forall i, j | 0 <= i < |a| && 0 <= j < |b| ensures LexLess(a[i], b[j]) {
        NestToVisits(prefix, r, k - 1, a[i]);
        NestVisitsBox(prefix + [k - 1], r[1..], b[j]);
        ExtendsByOne(prefix, r, k - 1, b[j]);
        assert a[i][..|prefix|] == b[j][..|prefix|] && a[i][|prefix|] < b[j][|prefix|];
      }
    }
  }

  /** The loop nest calls the kernel exactly once per id of the range, in lexicographic
      order. */
  lemma NestEnumeratesRange(r: Id)
    ensures forall v: Id :: v in Nest([], r) <==> InBox(v, r)
    ensures Increasing(Nest([], r))
  {
    forall v: Id ensures v in Nest([], r) <==> InBox(v, r) {
      NestVisitsBox([], r, v);
      assert v[0..] == v;
    }
    NestIncreases([], r);
  }

  // ---------------------------------------------------------------- division

  lemma DivModUnique(x: nat, l: nat, g: nat, i: nat)
    requires l > 0 && i < l && x == i + l * g
    ensures x / l == g && x % l == i
  {
    var q := x / l;
    assert l * (q - g) == i - x % l;
    assert q - g >= 1 ==> l * (q - g) >= l;
    assert g - q >= 1 ==> l * (g - q) >= l;
  }

  lemma DivBelow(k: nat, a: nat, b: nat)
    requires k < a * b
    ensures a > 0 && k / a < b
  {
    assert a > 0;
    var q := k / a;
    assert q >= b ==> a * q >= a * b;
  }
}
