/**
 What every run of malloc, realloc and free keeps, whatever the order of the requests.
 */
module HeapRuns {
  import opened Basics
  import opened HeapModel
  import opened HeapMemory

  datatype Request = MallocReq(n: nat) | ReallocReq(p: nat, n: nat) | FreeReq(p: nat)

  /** Sizes are 32-bit, and realloc and free are given a live allocation. */
  ghost predicate Legal(h: Heap, q: Request)
    requires h.Shape()
  {
    match q
    case MallocReq(n) => n < U32
    case ReallocReq(p, n) => p in Table(h) && n < U32
    case FreeReq(p) => p in Table(h)
  }

  ghost function Serve(h: Heap, q: Request): Result
    requires Ok(h) && Legal(h, q)
  {
    match q
    case MallocReq(n) => Malloc(h, n)
    case ReallocReq(p, n) =>
      AlignUpIs(n);
      ReallocPtr(h, p, AlignUp(n))
    case FreeReq(p) => Result(Free(h, p), None)
  }

  lemma ServeKeepsOk(h: Heap, q: Request)
    requires Ok(h) && Legal(h, q)
    ensures Ok(Serve(h, q).heap) && SameEnds(h, Serve(h, q).heap)
  {
    match q
    case MallocReq(n) => MallocKeepsOk(h, n);
    case ReallocReq(p, n) => IndexIs(h, p); AlignUpIs(n); ReallocKeepsOk(h, IndexOf(h, p, 0), AlignUp(n));
    case FreeReq(p) => IndexIs(h, p); FreeSpec(h, IndexOf(h, p, 0));
  }

  ghost predicate LegalRun(h: Heap, qs: seq<Request>)
    requires Ok(h)
    decreases |qs|
  {
    qs == [] || (Legal(h, qs[0]) && (ServeKeepsOk(h, qs[0]); LegalRun(Serve(h, qs[0]).heap, qs[1..])))
  }

  ghost function Run(h: Heap, qs: seq<Request>): Heap
    requires Ok(h) && LegalRun(h, qs)
    decreases |qs|
  {
    if qs == [] then h else
      ServeKeepsOk(h, qs[0]);
      Run(Serve(h, qs[0]).heap, qs[1..])
  }

  lemma {:induction false} RunKeepsOk(h: Heap, qs: seq<Request>)
    requires Ok(h) && LegalRun(h, qs)
    ensures Ok(Run(h, qs)) && SameEnds(h, Run(h, qs))
    decreases |qs|
  {
    if qs != [] {
      ServeKeepsOk(h, qs[0]);
      RunKeepsOk(Serve(h, qs[0]).heap, qs[1..]);
    }
  }

  // ---------------------------------------------------------------- layout

  ghost function SizesTo(h: Heap, k: nat): int
    requires h.Shape() && k <= |h.used|
    decreases k
  {
    if k == 0 then 0 else SizesTo(h, k - 1) + HEADER + h.Size(k - 1)
  }

  lemma {:induction false} SizesTelescope(h: Heap, k: nat)
    requires h.Shape() && k <= |h.used|
    ensures h.cuts[0] + SizesTo(h, k) == h.cuts[k]
    decreases k
  {
    if k > 0 { SizesTelescope(h, k - 1); }
  }

  lemma AllocationInside(h: Heap, p: nat)
    requires h.Wf() && p in Table(h)
    ensures p % ALIGN == 0 && Table(h)[p] % ALIGN == 0
    ensures h.cuts[0] + HEADER <= p && 0 <= Table(h)[p] && p + Table(h)[p] <= h.cuts[|h.used|]
  {
    IndexIs(h, p);
    var i := IndexOf(h, p, 0);
    assert AlignedAt(h.cuts, i) && AlignedAt(h.cuts, i + 1);
    assert Gap(h.cuts, 0, i) && Gap(h.cuts, i, i + 1) && Gap(h.cuts, i + 1, |h.used|);
  }

  lemma AllocationMissesHeader(h: Heap, p: nat, i: nat)
    requires h.Wf() && p in Table(h) && i < |h.used|
    ensures h.cuts[i] + HEADER <= p || p + Table(h)[p] <= h.cuts[i]
  {
    IndexIs(h, p);
    var j := IndexOf(h, p, 0);
    assert Gap(h.cuts, i, j) && Gap(h.cuts, j + 1, i);
  }

  lemma AllocationsDisjoint(h: Heap, p: nat, q: nat)
    requires h.Wf() && p in Table(h) && q in Table(h) && p < q
    ensures p + Table(h)[p] + HEADER <= q
  {
    IndexIs(h, p);
    IndexIs(h, q);
    var i, j := IndexOf(h, p, 0), IndexOf(h, q, 0);
    assert Gap(h.cuts, j, i) && Gap(h.cuts, i + 1, j);
  }

  ghost predicate WellPlaced(h: Heap, p: nat, start: nat, end: nat)
    requires h.Shape()
  {
    p in Table(h) ==>
      && p % ALIGN == 0 && Table(h)[p] % ALIGN == 0
      && start + HEADER <= p && 0 <= Table(h)[p] && p + Table(h)[p] <= end
  }

  ghost predicate Apart(h: Heap, p: nat, q: nat)
    requires h.Shape()
  {
    p in Table(h) && q in Table(h) && p < q ==> p + Table(h)[p] + HEADER <= q
  }

  ghost predicate ClearOfHeader(h: Heap, p: nat, i: nat)
    requires h.Shape()
  {
    p in Table(h) && i < |h.used| ==> h.cuts[i] + HEADER <= p || p + Table(h)[p] <= h.cuts[i]
  }

  /** After any run from a fresh heap, headers and sizes add up to the heap size; every
      allocation is 4-aligned, lies inside the heap and is disjoint, header included, from
      every other allocation and from every block header. */
  lemma AnyRunTilesTheHeap(start: nat, end: nat, qs: seq<Request>)
    requires Ok(Init(start, end)) && LegalRun(Init(start, end), qs)
    ensures var h := Run(Init(start, end), qs);
            && Ok(h) && start + SizesTo(h, |h.used|) == end
            && (forall p: nat :: WellPlaced(h, p, start, end))
            && (forall p: nat, q: nat :: Apart(h, p, q))
            && (forall p: nat, i: nat :: ClearOfHeader(h, p, i))
  {
    RunKeepsOk(Init(start, end), qs);
    TilesTheHeap(Run(Init(start, end), qs));
  }

  lemma TilesTheHeap(h: Heap)
    requires Ok(h)
    ensures var start, end := h.cuts[0], h.cuts[|h.used|];
            && start + SizesTo(h, |h.used|) == end
            && (forall p: nat :: WellPlaced(h, p, start, end))
            && (forall p: nat, q: nat :: Apart(h, p, q))
            && (forall p: nat, i: nat :: ClearOfHeader(h, p, i))
  {
    SizesTelescope(h, |h.used|);
    forall p: nat ensures WellPlaced(h, p, h.cuts[0], h.cuts[|h.used|]) {
      if p in Table(h) { AllocationInside(h, p); }
    }
    forall p: nat, q: nat ensures Apart(h, p, q) {
      if p in Table(h) && q in Table(h) && p < q { AllocationsDisjoint(h, p, q); }
    }
    forall p: nat, i: nat ensures ClearOfHeader(h, p, i) {
      if p in Table(h) && i < |h.used| { AllocationMissesHeader(h, p, i); }
    }
  }

  // ---------------------------------------------------------------- freeing everything

  lemma NothingLiveIsFresh(h: Heap)
    requires Ok(h) && Table(h) == map[]
    ensures h == Init(h.cuts[0], h.cuts[|h.used|])
  {
    assert PairAt(h.used, 0);
    BlockInTable(h, 0);
    if |h.used| > 1 { BlockInTable(h, 1); }
  }

  ghost predicate Distinct(ps: seq<nat>) {
    forall i, j :: 0 <= i < j < |ps| ==> ps[i] != ps[j]
  }

  ghost function FreeEach(h: Heap, ps: seq<nat>): Heap
    requires Ok(h) && Distinct(ps) && forall p :: p in ps ==> p in Table(h)
    decreases |ps|
  {
    if ps == [] then h else
      ServeKeepsOk(h, FreeReq(ps[0]));
      FreeRemoves(h, ps[0]);
      FreeEach(Serve(h, FreeReq(ps[0])).heap, ps[1..])
  }

  lemma FreeRemoves(h: Heap, p: nat)
    requires Ok(h) && p in Table(h)
    ensures Serve(h, FreeReq(p)).heap.Shape() && Table(Serve(h, FreeReq(p)).heap) == Table(h) - {p}
  {
    IndexIs(h, p);
    FreeSpec(h, IndexOf(h, p, 0));
  }

  /** Freeing all live allocations, in any order, gives back the initial heap. */
  lemma {:induction false} FreeEverything(h: Heap, ps: seq<nat>)
    requires Ok(h) && Distinct(ps) && Table(h).Keys == set p | p in ps
    ensures FreeEach(h, ps) == Init(h.cuts[0], h.cuts[|h.used|])
    decreases |ps|
  {
    if ps == [] {
      assert Table(h) == map[];
      NothingLiveIsFresh(h);
    } else {
      var h1 := Serve(h, FreeReq(ps[0])).heap;
      ServeKeepsOk(h, FreeReq(ps[0]));
      FreeRemoves(h, ps[0]);
      assert Table(h1).Keys == set p | p in ps[1..];
      FreeEverything(h1, ps[1..]);
    }
  }

  // ---------------------------------------------------------------- honouring the request

  /** A granted request got at least the bytes asked for if and only if rounding it up to
      a multiple of 4 does not wrap around 2^32. */
  lemma MallocHonoursRequestIff(h: Heap, n: nat)
    requires Ok(h) && n < U32 && Malloc(h, n).ptr.Some?
    ensures var r := Malloc(h, n);
            r.heap.Shape() && r.ptr.value in Table(r.heap) && (Table(r.heap)[r.ptr.value] >= n <==> n <= U32 - ALIGN)
  {
    MallocSpec(h, n);
    AlignUpIs(n);
  }

  /** The largest 32-bit request is granted, with no byte at all, on a fresh heap. */
  lemma HugeRequestGetsNothing()
    ensures Ok(Init(4096, 8192)) &&
            Malloc(Init(4096, 8192), U32 - 1) == Result(Heap([4096, 4104, 8192], [true, false]), Some(4104))
  {
    var h := Init(4096, 8192);
    assert h.Fits(0, 0);
    assert forall i: int, j: int :: Gap(h.cuts, i, j);
    assert forall i: int :: AlignedAt(h.cuts, i);
  }

  function Min(a: int, b: int): int {
    if a <= b then a else b
  }

  /** The same for realloc. */
  lemma ReallocHonoursRequestIff(h: Heap, p: nat, n: nat)
    requires Ok(h) && p in Table(h) && n < U32
    ensures AlignUp(n) % ALIGN == 0
    ensures var r := ReallocPtr(h, p, AlignUp(n));
            r.ptr.Some? ==> && r.heap.Shape() && r.ptr.value in Table(r.heap)
                            && (Table(r.heap)[r.ptr.value] >= n <==> n <= U32 - ALIGN)
  {
    hide Table, IndexOf, Realloc;
    AlignUpIs(n);
    IndexIs(h, p);
    var r := ReallocPtr(h, p, AlignUp(n));
    ReallocSpec(h, IndexOf(h, p, 0), AlignUp(n));
    ReallocKeepsOk(h, IndexOf(h, p, 0), AlignUp(n));
    if r.ptr.Some? { AllocationInside(r.heap, r.ptr.value); }
  }

  /** The block at p, with the free block behind it, is too small to be split. */
  ghost predicate TooSmallToSplit(h: Heap, p: nat)
    requires Ok(h) && p in Table(h)
  {
    IndexIs(h, p);
    GrowKeepsOk(h, IndexOf(h, p, 0), 0);
    Grow(h, IndexOf(h, p, 0), 0).Size(IndexOf(h, p, 0)) < HEADER + MIN_ALLOC
  }

  /** A granted realloc has room for the first min(old, requested) bytes if and only if
      rounding the request up does not wrap, or there was nothing to keep, or the block could
      not be split. */
  lemma ReallocKeepsBytesIff(h: Heap, p: nat, n: nat)
    requires Ok(h) && p in Table(h) && n < U32
    ensures AlignUp(n) % ALIGN == 0
    ensures var r := ReallocPtr(h, p, AlignUp(n));
            r.ptr.Some? ==> && r.heap.Shape() && r.ptr.value in Table(r.heap)
                            && (Table(r.heap)[r.ptr.value] >= Min(Table(h)[p], n) <==>
                                n <= U32 - ALIGN || Table(h)[p] == 0 || TooSmallToSplit(h, p))
  {
    hide Table, IndexOf, Grow, Trim, MoveOut;
    AlignUpIs(n);
    IndexIs(h, p);
    var i, m := IndexOf(h, p, 0), AlignUp(n);
    var r := ReallocPtr(h, p, m);
    AllocationInside(h, p);
    ReallocHonoursRequestIff(h, p, n);
    ReallocSpec(h, i, m);
    GrowKeepsOk(h, i, m);
    GrownTable(h, i, m);
    if Grow(h, i, m).Size(i) > m { ShrinkSpec(h, i, m); }
  }

  /** A live block of 64 bytes is shrunk to nothing by the largest 32-bit request, and the
      header of the free block behind it lands on its data. */
  lemma HugeReallocDropsData(m: Memory)
    ensures var h := Heap([4096, 4168, 8192], [true, false]);
            && Ok(h) && h.Size(0) == 64
            && Realloc(h, 0, AlignUp(U32 - 1)) == Result(Heap([4096, 4104, 8192], [true, false]), Some(4104))
    ensures Represents(m, Heap([4096, 4104, 8192], [true, false])) ==> 4104 in m && m[4104] == 4096
  {
    LiveBlockOf64();
    var h, h2 := Heap([4096, 4168, 8192], [true, false]), Heap([4096, 4104, 8192], [true, false]);
    if Represents(m, h2) { assert HeaderAt(m, h2, 1); }
    hide Ok, Represents;
    var h1 := Heap([4096, 8192], [true]);
    assert MergeNext(h, 0) == h1;
    assert Trim(h1, 0, 0) == h2;
  }

  lemma LiveBlockOf64()
    ensures Ok(Heap([4096, 4168, 8192], [true, false])) && Ok(Heap([4096, 8192], [true]))
  {
    var h, h1 := Heap([4096, 4168, 8192], [true, false]), Heap([4096, 8192], [true]);
    assert forall i: int, j: int :: Gap(h.cuts, i, j) && Gap(h1.cuts, i, j);
    assert forall i: int :: AlignedAt(h.cuts, i) && AlignedAt(h1.cuts, i);
    assert forall i: int :: PairAt(h.used, i) && PairAt(h1.used, i);
  }
}
