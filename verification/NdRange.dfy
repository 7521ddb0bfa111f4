/**
 parallel_for over an nd_range: loops over the work-groups, and inside each over its
 work-items, with the global id put together from both.
 */
module NdRange {
  import opened Basics
  import opened IndexSpace

  predicate Positive(r: Id) {
    forall d :: 0 <= d < |r| ==> r[d] > 0
  }

  ghost predicate AllRank(ids: seq<Id>, n: nat) {
    forall k :: 0 <= k < |ids| ==> |ids[k]| == n
  }

  /** Work-groups in a dimension, rounded up in size_t arithmetic. */
  function GroupsOf(g: nat, l: nat): nat
    requires l > 0
  {
    Wrap64(Wrap64(g + l) - 1) / l
  }

  function GroupRange(global: Id, local: Id): Id
    requires |global| == |local| && Positive(local)
  {
    seq(|global|, d requires 0 <= d < |global| => GroupsOf(global[d], local[d]))
  }

  /** The box that the work-groups cover. */
  function Rounded(global: Id, local: Id): Id
    requires |global| == |local| && Positive(local)
  {
    seq(|global|, d requires 0 <= d < |global| => GroupsOf(global[d], local[d]) * local[d])
  }

  function GlobalId(group: Id, item: Id, local: Id): (v: Id)
    requires |group| == |item| == |local|
    ensures |v| == |local|
  {
    seq(|local|, d requires 0 <= d < |local| => item[d] + local[d] * group[d])
  }

  /** get_group. */
  function GroupOf(v: Id, local: Id): Id
    requires |v| == |local| && Positive(local)
  {
    seq(|local|, d requires 0 <= d < |local| => v[d] / local[d])
  }

  /** The local id that the constructor from a global id computes. */
  function ItemOf(v: Id, local: Id): Id
    requires |v| == |local| && Positive(local)
  {
    seq(|local|, d requires 0 <= d < |local| => v[d] % local[d])
  }

  datatype NdItem = NdItem(global: Id, item: Id)

  /** Calls of one work-group. */
  ghost function GroupCalls(group: Id, local: Id, items: seq<Id>): (c: seq<NdItem>)
    requires |group| == |local| && AllRank(items, |local|)
    ensures |c| == |items|
  {
    seq(|items|, k requires 0 <= k < |items| => NdItem(GlobalId(group, items[k], local), items[k]))
  }

  /** Calls of the work-groups, one after another. */
  ghost function NdCalls(groups: seq<Id>, local: Id): seq<NdItem>
    requires AllRank(groups, |local|)
    decreases |groups|
  {
    if groups == [] then [] else
      NestRank([], local);
      NdCalls(groups[..|groups| - 1], local) + GroupCalls(groups[|groups| - 1], local, Nest([], local))
  }

  lemma NestRank(prefix: Id, r: Id)
    ensures AllRank(Nest(prefix, r), |prefix| + |r|)
  {
    forall k | 0 <= k < |Nest(prefix, r)| ensures |Nest(prefix, r)[k]| == |prefix| + |r| {
      NestVisitsBox(prefix, r, Nest(prefix, r)[k]);
    }
  }

  lemma NestToRank(prefix: Id, r: Id, k: nat)
    requires r != [] && k <= r[0]
    ensures AllRank(NestTo(prefix, r, k), |prefix| + |r|)
  {
    forall i | 0 <= i < |NestTo(prefix, r, k)| ensures |NestTo(prefix, r, k)[i]| == |prefix| + |r| {
      NestToVisits(prefix, r, k, NestTo(prefix, r, k)[i]);
    }
  }

  lemma {:induction false} NdCallsAppend(a: seq<Id>, b: seq<Id>, local: Id)
    requires AllRank(a, |local|) && AllRank(b, |local|)
    ensures AllRank(a + b, |local|) && NdCalls(a + b, local) == NdCalls(a, local) + NdCalls(b, local)
    decreases |b|
  {
    if b == [] {
      assert a + b == a;
    } else {
      var n := |b| - 1;
      var last := GroupCalls(b[n], local, (NestRank([], local); Nest([], local)));
      NdCallsAppend(a, b[..n], local);
      assert (a + b)[..|a + b| - 1] == a + b[..n];
      calc {
        NdCalls(a + b, local);
        NdCalls(a + b[..n], local) + last;
        NdCalls(a, local) + NdCalls(b[..n], local) + last;
        NdCalls(a, local) + (NdCalls(b[..n], local) + last);
      }
    }
  }

  lemma OneGroup(group: Id, local: Id)
    requires |group| == |local|
    ensures AllRank(Nest([], local), |local|) && NdCalls([group], local) == GroupCalls(group, local, Nest([], local))
  {
    NestRank([], local);
    var none: seq<Id> := [];
    assert [group][..0] == none;
  }

  /** Before the first and after the last iteration of the outermost work-group loop. */
  lemma NestSteps(prefix: Id, rest: Id, local: Id)
    requires |prefix| + |rest| == |local|
    ensures rest == [] ==> Nest(prefix, rest) == [prefix]
    ensures rest != [] ==> Nest(prefix, rest) == NestTo(prefix, rest, rest[0])
    ensures rest != [] ==> AllRank(NestTo(prefix, rest, 0), |local|) && NdCalls(NestTo(prefix, rest, 0), local) == []
  {
  }

  /** One more iteration of the outermost work-group loop. */
  lemma NdCallsNext(prefix: Id, rest: Id, i: nat, local: Id)
    requires rest != [] && i < rest[0] && |prefix| + |rest| == |local|
    ensures AllRank(NestTo(prefix, rest, i), |local|) && AllRank(NestTo(prefix, rest, i + 1), |local|)
    ensures AllRank(Nest(prefix + [i], rest[1..]), |local|)
    ensures NdCalls(NestTo(prefix, rest, i + 1), local)
         == NdCalls(NestTo(prefix, rest, i), local) + NdCalls(Nest(prefix + [i], rest[1..]), local)
  {
    NestToRank(prefix, rest, i);
    NestRank(prefix + [i], rest[1..]);
    NdCallsAppend(NestTo(prefix, rest, i), Nest(prefix + [i], rest[1..]), local);
  }

  // ---------------------------------------------------------------- the loops

  class Launcher {
    var calls: seq<NdItem>

    constructor ()
      ensures calls == []
    {
      calls := [];
    }

    /** The loops over the work-items of the current group. */
    method IterateItems(level: nat, local: Id, group: array<nat>, item: array<nat>)
      requires level <= |local| == group.Length == item.Length && group != item
      modifies this, item
      ensures item[..|local| - level] == old(item[..|local| - level])
      ensures AllRank(Nest(old(item[..])[..|local| - level], local[|local| - level..]), |local|)
      ensures calls == old(calls) + GroupCalls(group[..], local,
                Nest(old(item[..])[..|local| - level], local[|local| - level..]))
      decreases level
    {
      var at := |local| - level;
      ghost var prefix, rest := item[..at], local[at..];
      NestRank(prefix, rest);
      if level == 0 {
        assert item[..] == prefix;
        calls := calls + [NdItem(GlobalId(group[..], item[..], local), item[..])];
        return;
      }
      var i := 0;
      NestToRank(prefix, rest, 0);
      while i < local[at]
        invariant 0 <= i <= local[at]
        invariant item[..at] == prefix
        invariant AllRank(NestTo(prefix, rest, i), |local|)
        invariant calls == old(calls) + GroupCalls(group[..], local, NestTo(prefix, rest, i))
      {
        item[at] := i;
        assert item[..at + 1] == prefix + [i] && rest[1..] == local[at + 1..];
        ghost var before := item[..];
        IterateItems(level - 1, local, group, item);
        assert before[..at + 1] == prefix + [i];
        assert item[..at] == item[..at + 1][..at];
        NestToRank(prefix, rest, i + 1);
        i := i + 1;
      }
    }

    /** All the work-items of the current group. */
    method IterateInGroup(local: Id, group: array<nat>, item: array<nat>)
      requires |local| == group.Length == item.Length && group != item
      modifies this, item
      ensures calls == old(calls) + NdCalls([group[..]], local)
    {
      assert item[..][..0] == [] && local[0..] == local;
      IterateItems(|local|, local, group, item);
      OneGroup(group[..], local);
    }

    /** The loops over the work-groups. */
    method IterateGroups(level: nat, groups: Id, local: Id, group: array<nat>, item: array<nat>)
      requires level <= |groups| == |local| == group.Length == item.Length && group != item
      modifies this, group, item
      ensures group[..|local| - level] == old(group[..|local| - level])
      ensures AllRank(Nest(old(group[..])[..|local| - level], groups[|local| - level..]), |local|)
      ensures calls == old(calls) + NdCalls(Nest(old(group[..])[..|local| - level], groups[|local| - level..]), local)
      decreases level
    {
      hide NdCalls, Nest, NestTo;
      var at := |local| - level;
      ghost var prefix, rest := group[..at], groups[at..];
      NestRank(prefix, rest);
      NestSteps(prefix, rest, local);
      if level == 0 {
        assert group[..] == prefix && rest == [];
        IterateInGroup(local, group, item);
        return;
      }
      var i := 0;
      while i < groups[at]
        invariant 0 <= i <= groups[at]
        invariant group[..at] == prefix
        invariant AllRank(NestTo(prefix, rest, i), |local|)
        invariant calls == old(calls) + NdCalls(NestTo(prefix, rest, i), local)
      {
        group[at] := i;
        assert group[..at + 1] == prefix + [i] && rest[1..] == groups[at + 1..];
        ghost var before := group[..];
        IterateGroups(level - 1, groups, local, group, item);
        assert before[..at + 1] == prefix + [i];
        assert group[..at] == group[..at + 1][..at];
        NdCallsNext(prefix, rest, i, local);
        i := i + 1;
      }
    }

    method ParallelFor(global: Id, local: Id)
      requires |global| == |local| && Positive(local)
      modifies this
      ensures AllRank(Nest([], GroupRange(global, local)), |local|)
      ensures calls == old(calls) + NdCalls(Nest([], GroupRange(global, local)), local)
    {
      var group, item := new nat[|local|], new nat[|local|];
      var groups := GroupRange(global, local);
      assert group[..][..0] == [] && groups[0..] == groups;
      if |local| == 0 {
        assert groups == [];
      }
      IterateGroups(|local|, groups, local, group, item);
    }
  }

  // ---------------------------------------------------------------- each id once

  /** Group and local id can be read back from the global id, as get_group does. */
  lemma GlobalIdDecomposes(group: Id, item: Id, local: Id)
    requires |group| == |local| && Positive(local) && InBox(item, local)
    ensures GroupOf(GlobalId(group, item, local), local) == group && ItemOf(GlobalId(group, item, local), local) == item
  {
    var v := GlobalId(group, item, local);
    forall d | 0 <= d < |local| ensures v[d] / local[d] == group[d] && v[d] % local[d] == item[d] {
      DivModUnique(v[d], local[d], group[d], item[d]);
    }
  }

  lemma GroupBound(v: nat, l: nat, g: nat)
    requires l > 0
    ensures v < g * l <==> v / l < g
  {
    if v / l < g { assert (v / l + 1) * l <= g * l; } else { assert g * l <= v / l * l; }
  }

  /** An id of the rounded-up box lies in one of the groups. */
  lemma RoundedBoxIsGroups(global: Id, local: Id, v: Id)
    requires |global| == |local| == |v| && Positive(local)
    ensures InBox(v, Rounded(global, local)) <==> InBox(GroupOf(v, local), GroupRange(global, local))
    ensures InBox(ItemOf(v, local), local) && GlobalId(GroupOf(v, local), ItemOf(v, local), local) == v
  {
    hide Wrap64, GroupsOf;
    var r, gr, g, i := Rounded(global, local), GroupRange(global, local), GroupOf(v, local), ItemOf(v, local);
    forall d | 0 <= d < |v| ensures v[d] < r[d] <==> g[d] < gr[d] {
      GroupBound(v[d], local[d], gr[d]);
    }
    forall d | 0 <= d < |v| ensures GlobalId(g, i, local)[d] == v[d] {
      Recompose(v[d], local[d]);
    }
  }

  lemma Recompose(x: nat, l: nat)
    requires l > 0
    ensures x % l + l * (x / l) == x
  {
  }

  lemma {:induction false} NdCallsLength(groups: seq<Id>, local: Id)
    requires AllRank(groups, |local|)
    ensures |NdCalls(groups, local)| == |groups| * |Nest([], local)|
    decreases |groups|
  {
    if groups != [] {
      var n := |groups| - 1;
      NdCallsLength(groups[..n], local);
      NestRank([], local);
      assert |groups| * |Nest([], local)| == n * |Nest([], local)| + |Nest([], local)|;
    }
  }

  lemma Offset(g: nat, i: nat, p: nat, n: nat)
    requires g <= n && i < p
    ensures g < n ==> g * p + i < n * p
    ensures (g * p + i) / p == g && (g * p + i) % p == i
  {
    if g < n { Scale(g + 1, n, p); assert (g + 1) * p == g * p + p; }
    DivModUnique(g * p + i, p, g, i);
  }

  /** The calls of group g come after those of the groups before it. */
  lemma {:induction false} CallOfGroup(groups: seq<Id>, local: Id, g: nat, i: nat)
    requires AllRank(groups, |local|) && g < |groups| && i < |Nest([], local)|
    ensures var calls, items := NdCalls(groups, local), Nest([], local); var k := g * |items| + i;
            k < |calls| && |items[i]| == |local| && calls[k] == NdItem(GlobalId(groups[g], items[i], local), items[i])
    decreases |groups|
  {
    var n, items := |groups| - 1, Nest([], local);
    NestRank([], local);
    hide Nest, GlobalId;
    NdCallsLength(groups[..n], local);
    Offset(g, i, |items|, n);
    if g < n { CallOfGroup(groups[..n], local, g, i); }
  }

  lemma PlaceOfCall(k: nat, p: nat, n: nat)
    requires k < n * p
    ensures p > 0 && k / p < n && k % p < p && (k / p) * p + k % p == k
  {
    assert n * p == p * n;
    DivBelow(k, p, n);
    Recompose(k, p);
  }

  /** Call k is made for item k % p of group k / p, where p is the number of items of a group,
      and its ids are those of that group and that item. */
  lemma CallsMatch(groups: seq<Id>, local: Id, k: nat)
    requires AllRank(groups, |local|) && Positive(local) && k < |NdCalls(groups, local)|
    ensures var c, items := NdCalls(groups, local)[k], Nest([], local);
            && items != [] && k / |items| < |groups|
            && c.item == items[k % |items|] && |c.global| == |local|
            && ItemOf(c.global, local) == c.item && GroupOf(c.global, local) == groups[k / |items|]
  {
    var items := Nest([], local);
    hide Nest, NdCalls, GroupOf, ItemOf, GlobalId;
    NdCallsLength(groups, local);
    PlaceOfCall(k, |items|, |groups|);
    var g, i := k / |items|, k % |items|;
    CallOfGroup(groups, local, g, i);
    assert InBox(items[i], local) by { NestEnumeratesRange(local); }
    GlobalIdDecomposes(groups[g], items[i], local);
  }

  /** In every dimension of every call. */
  lemma CallIds(groups: seq<Id>, local: Id, k: nat, d: nat)
    requires AllRank(groups, |local|) && Positive(local) && k < |NdCalls(groups, local)| && d < |local|
    ensures var c, items := NdCalls(groups, local)[k], Nest([], local);
            && items != [] && k / |items| < |groups| && |c.item| == |c.global| == |local| && local[d] > 0
            && c.item[d] == c.global[d] % local[d] && groups[k / |items|][d] == c.global[d] / local[d]
  {
    CallsMatch(groups, local, k);
    hide NdCalls, Nest;
  }

  lemma CallInSomeGroup(groups: seq<Id>, local: Id, k: nat)
    requires AllRank(groups, |local|) && Positive(local) && k < |NdCalls(groups, local)|
    ensures var c := NdCalls(groups, local)[k];
            |c.global| == |local| && c.item == ItemOf(c.global, local) && GroupOf(c.global, local) in groups
  {
    hide NdCalls, Nest, GroupOf, ItemOf;
    CallsMatch(groups, local, k);
  }

  lemma {:induction false} GlobalsDistinct(groups: seq<Id>, local: Id, i: nat, j: nat)
    requires AllRank(groups, |local|) && Positive(local) && Increasing(groups)
    requires i < j < |NdCalls(groups, local)|
    ensures NdCalls(groups, local)[i].global != NdCalls(groups, local)[j].global
    decreases |groups|
  {
    var n, calls := |groups| - 1, NdCalls(groups, local);
    var before := NdCalls(groups[..n], local);
    NestRank([], local);
    NestEnumeratesRange(local);
    if j < |before| {
      GlobalsDistinct(groups[..n], local, i, j);
    } else {
      var nest := Nest([], local);
      GlobalIdDecomposes(groups[n], nest[j - |before|], local);
      if i < |before| {
        CallInSomeGroup(groups[..n], local, i);
        forall k | 0 <= k < n ensures groups[..n][k] != groups[n] {
          assert LexLess(groups[k], groups[n]);
        }
      } else {
        GlobalIdDecomposes(groups[n], nest[i - |before|], local);
        assert LexLess(nest[i - |before|], nest[j - |before|]);
      }
    }
  }

  lemma {:induction false} EveryGlobalCalled(groups: seq<Id>, local: Id, v: Id) returns (k: nat)
    requires AllRank(groups, |local|) && Positive(local) && |v| == |local| && GroupOf(v, local) in groups
    ensures k < |NdCalls(groups, local)| && NdCalls(groups, local)[k].global == v
    decreases |groups|
  {
    var n := |groups| - 1;
    var before := NdCalls(groups[..n], local);
    if GroupOf(v, local) in groups[..n] {
      k := EveryGlobalCalled(groups[..n], local, v);
    } else {
      assert GroupOf(v, local) == groups[n];
      NestRank([], local);
      NestEnumeratesRange(local);
      RoundedBoxIsGroups(v, local, v);
      var item := ItemOf(v, local);
      assert item in Nest([], local);
      var i :| 0 <= i < |Nest([], local)| && Nest([], local)[i] == item;
      k := |before| + i;
    }
  }

  ghost predicate Called(calls: seq<NdItem>, v: Id) {
    exists k :: 0 <= k < |calls| && calls[k].global == v
  }

  /** The nd_range loops visit exactly the rounded-up box, each id once, with matching local
      and group ids. */
  lemma NdRangeVisitsOnce(global: Id, local: Id)
    requires |global| == |local| && Positive(local)
    ensures AllRank(Nest([], GroupRange(global, local)), |local|)
    ensures var calls := NdCalls(Nest([], GroupRange(global, local)), local);
            && (forall v: Id :: Called(calls, v) <==> InBox(v, Rounded(global, local)))
            && (forall k :: 0 <= k < |calls| ==>
                |calls[k].global| == |local| && calls[k].item == ItemOf(calls[k].global, local))
            && (forall i, j :: 0 <= i < j < |calls| ==> calls[i].global != calls[j].global)
  {
    var gr := GroupRange(global, local);
    var groups := Nest([], gr);
    NestRank([], gr);
    NestEnumeratesRange(gr);
    var calls := NdCalls(groups, local);
    forall k | 0 <= k < |calls|
      ensures |calls[k].global| == |local| && calls[k].item == ItemOf(calls[k].global, local)
      ensures InBox(calls[k].global, Rounded(global, local))
    {
      CallInSomeGroup(groups, local, k);
      RoundedBoxIsGroups(global, local, calls[k].global);
    }
    forall v: Id | InBox(v, Rounded(global, local)) ensures Called(calls, v) {
      RoundedBoxIsGroups(global, local, v);
      var k := EveryGlobalCalled(groups, local, v);
    }
    forall i, j | 0 <= i < j < |calls| ensures calls[i].global != calls[j].global {
      GlobalsDistinct(groups, local, i, j);
    }
  }

  // ---------------------------------------------------------------- the size of the box

  ghost predicate Words(r: Id) {
    forall d :: 0 <= d < |r| ==> r[d] < SIZE_T
  }

  lemma SumMinusOne(g: nat, l: nat)
    requires g < SIZE_T && 0 < l < SIZE_T
    ensures Wrap64(Wrap64(g + l) - 1) == if g + l <= SIZE_T then g + l - 1 else g + l - 1 - SIZE_T
  {
  }

  lemma RoundedDown(x: nat, l: nat)
    requires l > 0
    ensures x / l * l <= x < x / l * l + l
  {
  }

  /** The number of groups is the global size over the local size, rounded up, exactly when
      their sum does not exceed 2^64. */
  lemma GroupsAreRightIff(g: nat, l: nat)
    requires g < SIZE_T && 0 < l < SIZE_T
    ensures g <= GroupsOf(g, l) * l < g + l <==> g + l <= SIZE_T
    ensures g + l > SIZE_T ==> GroupsOf(g, l) * l < g
  {
    SumMinusOne(g, l);
    hide Wrap64;
    var x := if g + l <= SIZE_T then g + l - 1 else g + l - 1 - SIZE_T;
    RoundedDown(x, l);
  }

  /** One work-item too many, and no group is left. */
  lemma LargestRangeHasNoGroup()
    ensures GroupRange([SIZE_T - 1], [2]) == [0]
  {
    SumMinusOne(SIZE_T - 1, 2);
  }

  /** The groups cover the global range exactly when no sum of sizes exceeds 2^64. */
  lemma CoversGlobalIff(global: Id, local: Id)
    requires |global| == |local| && Positive(local) && Words(global) && Words(local)
    ensures (forall d :: 0 <= d < |local| ==> global[d] <= Rounded(global, local)[d]) <==>
            forall d :: 0 <= d < |local| ==> global[d] + local[d] <= SIZE_T
  {
    hide GroupsOf;
    var r := Rounded(global, local);
    forall d | 0 <= d < |local| ensures global[d] <= r[d] <==> global[d] + local[d] <= SIZE_T {
      GroupsAreRightIff(global[d], local[d]);
    }
  }

  /** The visited box is the global range exactly when, besides, the local sizes divide the
      global ones. */
  lemma RoundedIsGlobalIff(global: Id, local: Id)
    requires |global| == |local| && Positive(local) && Words(global) && Words(local)
    ensures Rounded(global, local) == global <==>
            forall d :: 0 <= d < |local| ==> global[d] % local[d] == 0 && global[d] + local[d] <= SIZE_T
  {
    hide GroupsOf;
    var r := Rounded(global, local);
    forall d | 0 <= d < |local|
      ensures r[d] == global[d] <==> global[d] % local[d] == 0 && global[d] + local[d] <= SIZE_T
    {
      RoundingExact(global[d], local[d]);
    }
  }

  lemma RoundingExact(g: nat, l: nat)
    requires g < SIZE_T && 0 < l < SIZE_T
    ensures GroupsOf(g, l) * l == g <==> g % l == 0 && g + l <= SIZE_T
  {
    GroupsAreRightIff(g, l);
    hide GroupsOf;
    var n := GroupsOf(g, l);
    if g + l <= SIZE_T { MultipleBetween(g, l, n); }
  }

  /** A multiple of l that is less than l above g. */
  lemma MultipleBetween(g: nat, l: nat, n: nat)
    requires l > 0 && g <= n * l < g + l
    ensures n * l == g <==> g % l == 0
  {
    var over := n * l - g;
    if over == 0 {
      DivModUnique(g, l, n, 0);
    } else {
      assert l * (n - 1) == n * l - l;
      DivModUnique(g, l, n - 1, l - over);
    }
  }
}
