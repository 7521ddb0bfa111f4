/**
 The block list of the device heap allocator. Every address is a tile offset. The list is
 kept as the cut points of the heap: block i has its header at cuts[i] and ends at
 cuts[i + 1], so the last cut is the end of the heap.
 */
module HeapModel {
  import opened Basics

  const TILE_SIZE := 0x8000
  const HEADER := 8
  const MIN_ALLOC := 8
  const ALIGN := 4

  /** align_up on a uint32_t: the sum wraps around before it is rounded down. */
  function AlignUp(v: nat): nat
    requires v < U32
  {
    var x := Wrap32(v + (ALIGN - 1));
    x - x % ALIGN
  }

  // The invariants below quantify over these small predicates, so that each instance is
  // named where a proof needs it.

  predicate Gap(c: seq<nat>, i: int, j: int) {
    0 <= i < j < |c| ==> c[i] + HEADER <= c[j]
  }

  predicate AlignedAt(c: seq<nat>, i: int) {
    0 <= i < |c| ==> c[i] % ALIGN == 0
  }

  predicate PairAt(u: seq<bool>, i: int) {
    0 <= i < |u| - 1 ==> u[i] || u[i + 1]
  }

  ghost predicate NoFreePair(u: seq<bool>) {
    forall i: int :: PairAt(u, i)
  }

  /** One block: offset and size of its allocation, and whether it is in use. */
  datatype Block = Blk(ptr: nat, size: int, used: bool)

  datatype Heap = Heap(cuts: seq<nat>, used: seq<bool>)
  {
    /** The blocks follow each other without gap, each with room for its header. */
    ghost predicate Shape() {
      && 0 < |used| && |cuts| == |used| + 1
      && (forall i: int, j: int :: Gap(cuts, i, j))
    }

    ghost predicate Wf() {
      && Shape()
      && 0 < cuts[0] && cuts[|used|] <= TILE_SIZE
      && (forall i: int :: AlignedAt(cuts, i))
    }

    /** No two neighbouring blocks are both free. */
    ghost predicate Coalesced() {
      NoFreePair(used)
    }

    function Size(i: nat): int
      requires i < |used| && |cuts| == |used| + 1
    {
      cuts[i + 1] - cuts[i] - HEADER
    }

    predicate Fits(i: nat, n: nat)
      requires i < |used| && |cuts| == |used| + 1
    {
      !used[i] && Size(i) >= n
    }

    function Block(i: nat): Block
      requires i < |used| && |cuts| == |used| + 1
    {
      Blk(cuts[i] + HEADER, Size(i), used[i])
    }

    ghost predicate LiveAt(i: nat, p: nat, s: int) {
      i < |used| && |cuts| == |used| + 1 && Block(i) == Blk(p, s, true)
    }

    /** s bytes at offset p are allocated. */
    ghost predicate Live(p: nat, s: int) {
      exists i: nat :: LiveAt(i, p, s)
    }
  }

  function Init(start: nat, end: nat): Heap {
    Heap([start, end], [false])
  }

  // ---------------------------------------------------------------- operations

  predicate Splitable(size: int, n: nat) {
    size >= n + HEADER + MIN_ALLOC
  }

  function Split(h: Heap, i: nat, n: nat): Heap
    requires h.Shape() && i < |h.used| && h.Size(i) >= n + HEADER
  {
    Heap(h.cuts[..i + 1] + [h.cuts[i] + HEADER + n] + h.cuts[i + 1..],
         h.used[..i + 1] + [false] + h.used[i + 1..])
  }

  function Trim(h: Heap, i: nat, n: nat): Heap
    requires h.Wf() && i < |h.used|
  {
    if Splitable(h.Size(i), n) then Split(h, i, n) else h
  }

  function SetUsed(h: Heap, i: nat, b: bool): Heap
    requires i < |h.used|
  {
    h.(used := h.used[i := b])
  }

  function MergeNext(h: Heap, i: nat): Heap
    requires i < |h.used| && |h.cuts| == |h.used| + 1
  {
    if i + 1 < |h.used| && !h.used[i + 1]
    then Heap(h.cuts[..i + 1] + h.cuts[i + 2..], h.used[..i + 1] + h.used[i + 2..])
    else h
  }

  /** First block from i on that fits, or the number of blocks. */
  function FirstFit(h: Heap, n: nat, i: nat): (k: nat)
    requires h.Wf() && i <= |h.used|
    ensures i <= k <= |h.used|
    ensures k < |h.used| ==> h.Fits(k, n)
    ensures forall j :: i <= j < k ==> !h.Fits(j, n)
    decreases |h.used| - i
  {
    if i == |h.used| || h.Fits(i, n) then i else FirstFit(h, n, i + 1)
  }

  datatype Result = Result(heap: Heap, ptr: Option<nat>)

  /** try_malloc of n bytes, already rounded up. */
  function AllocAligned(h: Heap, n: nat): Result
    requires h.Wf()
  {
    var i := FirstFit(h, n, 0);
    if i == |h.used| then Result(h, None)
    else Result(SetUsed(Trim(h, i, n), i, true), Some(h.cuts[i] + HEADER))
  }

  function Malloc(h: Heap, n: nat): Result
    requires h.Wf() && n < U32
  {
    AllocAligned(h, AlignUp(n))
  }

  function FreeAt(h: Heap, i: nat): Heap
    requires h.Wf() && i < |h.used|
  {
    var h1 := MergeNext(SetUsed(h, i, false), i);
    if i > 0 && !h1.used[i - 1] then MergeNext(h1, i - 1) else h1
  }

  /** The block at i after realloc took the free block behind it, if that reaches n bytes. */
  function Grow(h: Heap, i: nat, n: nat): Heap
    requires h.Wf() && i < |h.used|
  {
    if i + 1 < |h.used| && !h.used[i + 1] && h.Size(i) + h.Size(i + 1) + HEADER >= n then MergeNext(h, i) else h
  }

  /** Block whose allocation starts at p, from i on, or the number of blocks. */
  function IndexOf(h: Heap, p: nat, i: nat): (k: nat)
    requires h.Shape() && i <= |h.used|
    ensures i <= k <= |h.used|
    ensures k < |h.used| ==> h.cuts[k] + HEADER == p
    ensures forall j :: i <= j < k ==> h.cuts[j] + HEADER != p
    decreases |h.used| - i
  {
    if i == |h.used| || h.cuts[i] + HEADER == p then i else IndexOf(h, p, i + 1)
  }

  /** The fall-back of realloc: allocate anew, then free the old block. */
  function MoveOut(h: Heap, i: nat, n: nat): Result
    requires Ok(h) && i < |h.used| && h.used[i] && n < U32
  {
    var r := Malloc(h, n);
    if r.ptr.None? then Result(h, None)
    else
      OldBlockSurvives(h, n, i);
      Result(FreeAt(r.heap, IndexOf(r.heap, h.cuts[i] + HEADER, 0)), r.ptr)
  }

  /** try_realloc to n bytes, already rounded up. */
  function Realloc(h: Heap, i: nat, n: nat): Result
    requires Ok(h) && i < |h.used| && h.used[i] && n < U32 && n % ALIGN == 0
  {
    GrowKeepsOk(h, i, n);
    var h1 := Grow(h, i, n);
    if h1.Size(i) > n then Result(Trim(h1, i, n), Some(h.cuts[i] + HEADER)) else MoveOut(h1, i, n)
  }

  ghost predicate Ok(h: Heap) {
    h.Wf() && h.Coalesced()
  }

  // ---------------------------------------------------------------- well-formedness

  lemma SplitAt(h: Heap, i: nat, n: nat, j: nat)
    requires h.Shape() && i < |h.used| && h.Size(i) >= n + HEADER && j <= |h.used| + 1
    ensures |Split(h, i, n).cuts| == |h.cuts| + 1
    ensures Split(h, i, n).cuts[j] == if j <= i then h.cuts[j]
                                      else if j == i + 1 then h.cuts[i] + HEADER + n
                                      else h.cuts[j - 1]
  {
  }

  lemma SplitKeepsWf(h: Heap, i: nat, n: nat)
    requires h.Wf() && i < |h.used| && n % ALIGN == 0 && h.Size(i) >= n + HEADER
    ensures Split(h, i, n).Wf()
    ensures Split(h, i, n).cuts[0] == h.cuts[0] && Split(h, i, n).cuts[|h.used| + 1] == h.cuts[|h.used|]
  {
    var c := Split(h, i, n).cuts;
    hide Gap, AlignedAt;
    forall j: int ensures AlignedAt(c, j) { SplitAligned(h, i, n, j); }
    forall j: int, k: int ensures Gap(c, j, k) { SplitGap(h, i, n, j, k); }
  }

  lemma SplitAligned(h: Heap, i: nat, n: nat, j: int)
    requires h.Wf() && i < |h.used| && n % ALIGN == 0 && h.Size(i) >= n + HEADER
    ensures AlignedAt(Split(h, i, n).cuts, j)
  {
    if 0 <= j < |h.cuts| + 1 { SplitAt(h, i, n, j); }
    assert AlignedAt(h.cuts, j) && AlignedAt(h.cuts, i) && AlignedAt(h.cuts, j - 1);
    hide Split;
    assert (h.cuts[i] + HEADER + n) % ALIGN == 0;
  }

  lemma SplitGap(h: Heap, i: nat, n: nat, j: int, k: int)
    requires h.Wf() && i < |h.used| && h.Size(i) >= n + HEADER
    ensures Gap(Split(h, i, n).cuts, j, k)
  {
    if 0 <= j < k < |h.cuts| + 1 { SplitAt(h, i, n, j); SplitAt(h, i, n, k); }
    assert Gap(h.cuts, j, k) && Gap(h.cuts, j, k - 1) && Gap(h.cuts, j - 1, k - 1);
    assert Gap(h.cuts, j, i) && Gap(h.cuts, i, k - 1) && Gap(h.cuts, i + 1, k - 1);
  }

  lemma MergeKeepsWf(h: Heap, i: nat)
    requires h.Wf() && i < |h.used|
    ensures MergeNext(h, i).Wf() && MergeNext(h, i).cuts[0] == h.cuts[0]
    ensures MergeNext(h, i).cuts[|MergeNext(h, i).used|] == h.cuts[|h.used|]
  {
    if i + 1 < |h.used| && !h.used[i + 1] {
      var c := MergeNext(h, i).cuts;
      forall j: int ensures AlignedAt(c, j) {
        assert AlignedAt(h.cuts, j) && AlignedAt(h.cuts, j + 1);
      }
      forall j: int, k: int ensures Gap(c, j, k) {
        assert Gap(h.cuts, j, k) && Gap(h.cuts, j, k + 1) && Gap(h.cuts, j + 1, k + 1);
      }
    }
  }

  lemma AlignUpIs(v: nat)
    requires v < U32
    ensures AlignUp(v) % ALIGN == 0
    ensures v <= U32 - ALIGN ==> v <= AlignUp(v) < v + ALIGN
    ensures v > U32 - ALIGN ==> AlignUp(v) == 0
  {
  }

  // ---------------------------------------------------------------- allocation table

  lemma Uniqueness(h: Heap, i: nat, j: nat)
    requires h.Shape() && i <= |h.used| && j <= |h.used| && h.cuts[i] == h.cuts[j]
    ensures i == j
  {
    assert Gap(h.cuts, i, j) && Gap(h.cuts, j, i);
  }

  lemma SplitBlock(h: Heap, i: nat, n: nat, j: nat)
    requires h.Shape() && i < |h.used| && h.Size(i) >= n + HEADER && j <= |h.used|
    ensures var h1 := Split(h, i, n);
            && |h1.used| == |h.used| + 1 && |h1.cuts| == |h.cuts| + 1
            && h1.Block(j) == if j < i then h.Block(j)
                              else if j == i then Blk(h.cuts[i] + HEADER, n, h.used[i])
                              else if j == i + 1 then
                                Blk(h.cuts[i] + HEADER + n + HEADER, h.Size(i) - n - HEADER, false)
                              else h.Block(j - 1)
  {
    SplitAt(h, i, n, j);
    SplitAt(h, i, n, j + 1);
  }

  lemma MergeBlock(h: Heap, i: nat, j: nat)
    requires h.Shape() && i + 1 < |h.used| && !h.used[i + 1] && j < |h.used| - 1
    ensures var h1 := MergeNext(h, i);
            && |h1.used| == |h.used| - 1 && |h1.cuts| == |h.cuts| - 1
            && h1.Block(j) == if j < i then h.Block(j)
                              else if j == i then Blk(h.cuts[i] + HEADER, h.Size(i) + HEADER + h.Size(i + 1), h.used[i])
                              else h.Block(j + 1)
  {
  }

  /** `fine` is `coarse` with block i cut in two, the second part free. */
  ghost predicate CutInTwo(coarse: Heap, fine: Heap, i: nat) {
    && coarse.Shape() && fine.Shape() && i < |coarse.used| && |fine.used| == |coarse.used| + 1
    && (forall j: nat :: j < i ==> fine.Block(j) == coarse.Block(j))
    && (forall j: nat :: i < j < |coarse.used| ==> fine.Block(j + 1) == coarse.Block(j))
    && fine.Block(i).ptr == coarse.Block(i).ptr
    && !fine.used[i + 1]
  }

  lemma CutLive(coarse: Heap, fine: Heap, i: nat, p: nat, s: int)
    requires CutInTwo(coarse, fine, i)
    ensures p != coarse.cuts[i] + HEADER ==> (fine.Live(p, s) <==> coarse.Live(p, s))
    ensures p == coarse.cuts[i] + HEADER ==>
              (fine.Live(p, s) <==> fine.LiveAt(i, p, s)) && (coarse.Live(p, s) <==> coarse.LiveAt(i, p, s))
  {
    if fine.Live(p, s) {
      var j: nat :| fine.LiveAt(j, p, s);
      if p == coarse.cuts[i] + HEADER { Uniqueness(fine, i, j); }
      assert j < i ==> coarse.LiveAt(j, p, s);
      assert j > i ==> fine.Block(j - 1 + 1) == coarse.Block(j - 1) && coarse.LiveAt(j - 1, p, s);
    }
    if coarse.Live(p, s) {
      var j: nat :| coarse.LiveAt(j, p, s);
      if p == coarse.cuts[i] + HEADER { Uniqueness(coarse, i, j); }
      assert j < i ==> fine.LiveAt(j, p, s);
      assert j > i ==> fine.LiveAt(j + 1, p, s);
    }
  }

  lemma SplitLive(h: Heap, i: nat, n: nat, p: nat, s: int)
    requires h.Shape() && i < |h.used| && h.Size(i) >= n + HEADER && Split(h, i, n).Shape()
    ensures Split(h, i, n).Live(p, s) <==> if p == h.cuts[i] + HEADER then h.used[i] && s == n else h.Live(p, s)
  {
    forall j: nat | j <= |h.used| { SplitBlock(h, i, n, j); }
    SplitBlock(h, i, n, i);
    CutLive(h, Split(h, i, n), i, p, s);
  }

  lemma MergeLive(h: Heap, i: nat, p: nat, s: int)
    requires h.Shape() && i + 1 < |h.used| && !h.used[i + 1] && MergeNext(h, i).Shape()
    ensures MergeNext(h, i).Live(p, s) <==>
            if p == h.cuts[i] + HEADER then h.used[i] && s == h.Size(i) + HEADER + h.Size(i + 1) else h.Live(p, s)
  {
    forall j: nat | j < |h.used| - 1 { MergeBlock(h, i, j); }
    MergeBlock(h, i, i);
    CutLive(MergeNext(h, i), h, i, p, s);
  }

  lemma SetUsedLive(h: Heap, i: nat, b: bool, p: nat, s: int)
    requires h.Shape() && i < |h.used|
    ensures SetUsed(h, i, b).Shape()
    ensures SetUsed(h, i, b).Live(p, s) <==> if p == h.cuts[i] + HEADER then b && s == h.Size(i) else h.Live(p, s)
  {
    var h1 := SetUsed(h, i, b);
    if h1.Live(p, s) {
      var j: nat :| h1.LiveAt(j, p, s);
      if p == h.cuts[i] + HEADER { Uniqueness(h, i, j); }
      assert j == i || h.LiveAt(j, p, s);
    }
    if h.Live(p, s) {
      var j: nat :| h.LiveAt(j, p, s);
      if p == h.cuts[i] + HEADER { Uniqueness(h, i, j); }
      assert j == i || h1.LiveAt(j, p, s);
    }
    assert h1.LiveAt(i, h.cuts[i] + HEADER, h.Size(i)) <==> b;
  }

  /** Offset and size of every allocation among the first k blocks. */
  ghost function TableTo(h: Heap, k: nat): map<nat, int>
    requires h.Shape() && k <= |h.used|
    decreases k
  {
    if k == 0 then map[]
    else if h.used[k - 1] then TableTo(h, k - 1)[h.Block(k - 1).ptr := h.Block(k - 1).size]
    else TableTo(h, k - 1)
  }

  ghost function Table(h: Heap): map<nat, int>
    requires h.Shape()
  {
    TableTo(h, |h.used|)
  }

  lemma {:induction false} TableToIs(h: Heap, k: nat, p: nat, s: int)
    requires h.Shape() && k <= |h.used|
    ensures p in TableTo(h, k) && TableTo(h, k)[p] == s <==> exists i: nat :: i < k && h.LiveAt(i, p, s)
    decreases k
  {
    if k > 0 {
      TableToIs(h, k - 1, p, s);
      if h.LiveAt(k - 1, p, s) {
        assert k - 1 < k;
      } else if p == h.Block(k - 1).ptr && h.used[k - 1] {
        forall i: nat | i < k ensures !h.LiveAt(i, p, s) {
          if h.LiveAt(i, p, s) { Uniqueness(h, i, k - 1); }
        }
      }
    }
  }

  lemma TableIs(h: Heap, p: nat, s: int)
    requires h.Shape()
    ensures p in Table(h) && Table(h)[p] == s <==> h.Live(p, s)
  {
    TableToIs(h, |h.used|, p, s);
    if h.Live(p, s) {
      var i: nat :| h.LiveAt(i, p, s);
      assert i < |h.used|;
    }
  }

  /** Tables that agree as relations are equal. */
  lemma TableExtensionality(h: Heap, m: map<nat, int>)
    requires h.Shape()
    requires forall p: nat, s: int :: h.Live(p, s) <==> p in m && m[p] == s
    ensures Table(h) == m
  {
    forall p: nat | p in m ensures p in Table(h) && Table(h)[p] == m[p] {
      TableIs(h, p, m[p]);
      assert h.Live(p, m[p]);
    }
    forall p: nat | p in Table(h) ensures p in m {
      TableIs(h, p, Table(h)[p]);
    }
  }

  lemma BlockInTable(h: Heap, i: nat)
    requires h.Shape() && i < |h.used|
    ensures var p := h.cuts[i] + HEADER;
            if h.used[i] then p in Table(h) && Table(h)[p] == h.Size(i) else p !in Table(h)
  {
    var p := h.cuts[i] + HEADER;
    if h.used[i] {
      assert h.LiveAt(i, p, h.Size(i));
      TableIs(h, p, h.Size(i));
    } else if p in Table(h) {
      TableIs(h, p, Table(h)[p]);
      var j: nat :| h.LiveAt(j, p, Table(h)[p]);
      Uniqueness(h, i, j);
    }
  }

  lemma SplitTable(h: Heap, i: nat, n: nat)
    requires h.Shape() && i < |h.used| && h.Size(i) >= n + HEADER && Split(h, i, n).Shape()
    ensures Table(Split(h, i, n)) == if h.used[i] then Table(h)[h.cuts[i] + HEADER := n] else Table(h)
  {
    BlockInTable(h, i);
    var m := if h.used[i] then Table(h)[h.cuts[i] + HEADER := n] else Table(h);
    forall p: nat, s: int ensures Split(h, i, n).Live(p, s) <==> p in m && m[p] == s {
      SplitLive(h, i, n, p, s);
      TableIs(h, p, s);
    }
    TableExtensionality(Split(h, i, n), m);
  }

  lemma MergeTable(h: Heap, i: nat)
    requires h.Shape() && i + 1 < |h.used| && !h.used[i + 1] && MergeNext(h, i).Shape()
    ensures Table(MergeNext(h, i)) ==
            if h.used[i] then Table(h)[h.cuts[i] + HEADER := h.Size(i) + HEADER + h.Size(i + 1)] else Table(h)
  {
    BlockInTable(h, i);
    var m := if h.used[i] then Table(h)[h.cuts[i] + HEADER := h.Size(i) + HEADER + h.Size(i + 1)] else Table(h);
    forall p: nat, s: int ensures MergeNext(h, i).Live(p, s) <==> p in m && m[p] == s {
      MergeLive(h, i, p, s);
      TableIs(h, p, s);
    }
    TableExtensionality(MergeNext(h, i), m);
  }

  lemma SetUsedTable(h: Heap, i: nat, b: bool)
    requires h.Shape() && i < |h.used|
    ensures SetUsed(h, i, b).Shape()
    ensures Table(SetUsed(h, i, b)) ==
            if b then Table(h)[h.cuts[i] + HEADER := h.Size(i)] else Table(h) - {h.cuts[i] + HEADER}
  {
    var m := if b then Table(h)[h.cuts[i] + HEADER := h.Size(i)] else Table(h) - {h.cuts[i] + HEADER};
    forall p: nat, s: int ensures SetUsed(h, i, b).Live(p, s) <==> p in m && m[p] == s {
      SetUsedLive(h, i, b, p, s);
      TableIs(h, p, s);
    }
    TableExtensionality(SetUsed(h, i, b), m);
  }

  ghost predicate SameEnds(h: Heap, h1: Heap)
    requires h.Shape() && h1.Shape()
  {
    h1.cuts[0] == h.cuts[0] && h1.cuts[|h1.used|] == h.cuts[|h.used|]
  }

  // ---------------------------------------------------------------- malloc

  /** Size of the allocation made from a free block of `size` bytes. */
  function Granted(size: int, n: nat): int {
    if Splitable(size, n) then n else size
  }

  lemma TakeSpec(h: Heap, i: nat, n: nat)
    requires Ok(h) && i < |h.used| && h.Fits(i, n) && n % ALIGN == 0
    ensures var h1 := SetUsed(Trim(h, i, n), i, true);
            && Ok(h1) && SameEnds(h, h1)
            && Table(h1) == Table(h)[h.cuts[i] + HEADER := Granted(h.Size(i), n)]
  {
    var u := h.used[i := true];
    UseKeepsPairs(h.used, i);
    if Splitable(h.Size(i), n) {
      SplitKeepsWf(h, i, n);
      SplitBlock(h, i, n, i);
      SplitTable(h, i, n);
      assert PairAt(h.used, i);
      InsertFreeKeepsPairs(u, i);
      assert SetUsed(Split(h, i, n), i, true).used == u[..i + 1] + [false] + u[i + 1..];
    }
    SetUsedTable(Trim(h, i, n), i, true);
  }

  lemma MallocKeepsOk(h: Heap, n: nat)
    requires Ok(h) && n < U32
    ensures Ok(Malloc(h, n).heap) && SameEnds(h, Malloc(h, n).heap)
  {
    AlignUpIs(n);
    var i := FirstFit(h, AlignUp(n), 0);
    if i < |h.used| {
      TakeSpec(h, i, AlignUp(n));
    }
  }

  /** Bytes between the header of block i and the next header. */
  function Room(h: Heap, i: nat): int
    requires i + 1 < |h.cuts|
  {
    var end: int := h.cuts[i + 1];
    end - h.cuts[i] - 8
  }

  /** First fit: the request fails exactly when no free block has the rounded-up size;
      otherwise one new allocation appears, no other changes, and at most 15 bytes are
      handed out in excess. */
  lemma MallocSpec(h: Heap, n: nat)
    requires Ok(h) && n < U32
    ensures var r, m := Malloc(h, n), AlignUp(n);
            && r.heap.Shape()
            && (r.ptr.None? <==> forall i: nat :: i < |h.used| && !h.used[i] ==> Room(h, i) < m)
            && (r.ptr.None? ==> r.heap == h)
            && (r.ptr.Some? ==>
                  && r.ptr.value !in Table(h)
                  && r.ptr.value in Table(r.heap) && m <= Table(r.heap)[r.ptr.value] < m + HEADER + MIN_ALLOC
                  && Table(r.heap) == Table(h)[r.ptr.value := Table(r.heap)[r.ptr.value]])
  {
    AlignUpIs(n);
    var m := AlignUp(n);
    assert forall i: nat :: i < |h.used| ==> h.Fits(i, m) == (!h.used[i] && Room(h, i) >= m);
    var i := FirstFit(h, m, 0);
    if i < |h.used| {
      BlockInTable(h, i);
      TakeSpec(h, i, m);
    }
  }

  lemma MallocIsFirstFit(h: Heap, n: nat, i: nat)
    requires Ok(h) && n < U32 && i < |h.used| && !h.used[i] && Room(h, i) >= AlignUp(n)
    requires forall j: nat :: j < i && !h.used[j] ==> Room(h, j) < AlignUp(n)
    ensures var r, m, p := Malloc(h, n), AlignUp(n), h.cuts[i] + 8;
            && r.ptr == Some(p) && r.heap.Shape()
            && Table(r.heap) == Table(h)[p := if Room(h, i) >= m + 16 then m else Room(h, i)]
  {
    AlignUpIs(n);
    assert h.Fits(i, AlignUp(n));
    forall j: nat | j < i ensures !h.Fits(j, AlignUp(n)) { assert !h.used[j] ==> Room(h, j) < AlignUp(n); }
    assert FirstFit(h, AlignUp(n), 0) == i;
    TakeSpec(h, i, AlignUp(n));
  }

  lemma IndexIs(h: Heap, p: nat)
    requires h.Shape() && p in Table(h)
    ensures var i := IndexOf(h, p, 0);
            i < |h.used| && h.used[i] && h.cuts[i] + HEADER == p && h.Size(i) == Table(h)[p]
  {
    TableIs(h, p, Table(h)[p]);
    var i: nat :| h.LiveAt(i, p, Table(h)[p]);
    Uniqueness(h, i, IndexOf(h, p, 0));
  }

  // ---------------------------------------------------------------- free

  lemma MergeSpec(h: Heap, i: nat)
    requires h.Wf() && i < |h.used|
    ensures var h1 := MergeNext(h, i);
            && h1.Wf() && SameEnds(h, h1) && i < |h1.used|
            && h1.cuts[..i + 1] == h.cuts[..i + 1] && h1.used[..i + 1] == h.used[..i + 1]
            && h.Size(i) <= h1.Size(i)
            && Table(h1) == if h.used[i] then Table(h)[h.cuts[i] + HEADER := h1.Size(i)] else Table(h)
  {
    hide Table;
    MergeKeepsWf(h, i);
    BlockInTable(h, i);
    if i + 1 < |h.used| && !h.used[i + 1] {
      assert Gap(h.cuts, i + 1, i + 2);
      MergeBlock(h, i, i);
      MergeTable(h, i);
    }
  }

  lemma UseKeepsPairs(u: seq<bool>, i: nat)
    requires NoFreePair(u) && i < |u|
    ensures NoFreePair(u[i := true])
  {
    var v := u[i := true];
    forall j: int ensures PairAt(v, j) {
      assert PairAt(u, j);
    }
  }

  lemma DropFreeKeepsPairs(u: seq<bool>, i: nat)
    requires NoFreePair(u) && i + 1 < |u| && u[i]
    ensures NoFreePair(u[..i + 1] + u[i + 2..])
  {
    var v := u[..i + 1] + u[i + 2..];
    forall j: int ensures PairAt(v, j) {
      assert PairAt(u, j) && PairAt(u, j + 1);
    }
  }

  lemma InsertFreeKeepsPairs(u: seq<bool>, i: nat)
    requires NoFreePair(u) && i < |u| && u[i] && (i + 1 < |u| ==> u[i + 1])
    ensures NoFreePair(u[..i + 1] + [false] + u[i + 1..])
  {
    var v := u[..i + 1] + [false] + u[i + 1..];
    forall j: int ensures PairAt(v, j) {
      assert PairAt(u, j) && PairAt(u, j - 1);
    }
  }

  lemma JoinAroundFree(u: seq<bool>, a: nat, b: nat)
    requires NoFreePair(u) && a <= b <= |u| && (a > 0 ==> u[a - 1]) && (b < |u| ==> u[b])
    ensures NoFreePair(u[..a] + [false] + u[b..])
  {
    var v := u[..a] + [false] + u[b..];
    forall j: int ensures PairAt(v, j) {
      assert PairAt(u, j) && PairAt(u, j - a - 1 + b);
    }
  }

  lemma DropBehind(u: seq<bool>, i: nat)
    requires i + 1 < |u|
    ensures (u[i := false])[..i + 1] + (u[i := false])[i + 2..] == u[..i] + [false] + u[i + 2..]
  {
  }

  lemma DropBefore(l: seq<bool>, r: seq<bool>)
    requires l != [] && !l[|l| - 1]
    ensures (l + [false] + r)[..|l|] + (l + [false] + r)[|l| + 1..] == l[..|l| - 1] + [false] + r
  {
  }

  lemma FreedFlags(h: Heap, i: nat)
    requires h.Wf() && i < |h.used|
    ensures var u := h.used;
            var a := if i > 0 && !u[i - 1] then i - 1 else i;
            var b := if i + 1 < |u| && !u[i + 1] then i + 2 else i + 1;
            FreeAt(h, i).used == u[..a] + [false] + u[b..]
  {
    var u := h.used;
    var b := if i + 1 < |u| && !u[i + 1] then i + 2 else i + 1;
    var h1 := MergeNext(SetUsed(h, i, false), i);
    assert h1.used == u[..i] + [false] + u[b..] by {
      if b == i + 2 { DropBehind(u, i); }
    }
    if i > 0 && !u[i - 1] {
      DropBefore(u[..i], u[b..]);
      assert u[..i][..i - 1] == u[..i - 1];
      assert FreeAt(h, i).used == h1.used[..i] + h1.used[i + 1..];
    }
  }

  lemma FreeCoalesces(h: Heap, i: nat)
    requires h.Wf() && h.Coalesced() && i < |h.used| && h.used[i]
    ensures FreeAt(h, i).Coalesced()
  {
    var u := h.used;
    var a := if i > 0 && !u[i - 1] then i - 1 else i;
    var b := if i + 1 < |u| && !u[i + 1] then i + 2 else i + 1;
    FreedFlags(h, i);
    hide FreeAt, Heap.Shape, AlignedAt;
    assert PairAt(u, i - 2) && PairAt(u, i + 1);
    hide NoFreePair;
    assert NoFreePair(u[..a] + [false] + u[b..]) by { JoinAroundFree(u, a, b); }
  }

  /** Freeing removes exactly one allocation and leaves no two free neighbours. */
  lemma FreeSpec(h: Heap, i: nat)
    requires Ok(h) && i < |h.used| && h.used[i]
    ensures var h1 := FreeAt(h, i);
            Ok(h1) && SameEnds(h, h1) && Table(h1) == Table(h) - {h.cuts[i] + HEADER}
  {
    FreeCoalesces(h, i);
    var h0 := SetUsed(h, i, false);
    SetUsedTable(h, i, false);
    MergeSpec(h0, i);
    var h1 := MergeNext(h0, i);
    if i > 0 && !h1.used[i - 1] {
      MergeSpec(h1, i - 1);
    }
  }

  ghost function Free(h: Heap, p: nat): Heap
    requires h.Wf() && p in Table(h)
  {
    IndexIs(h, p);
    FreeAt(h, IndexOf(h, p, 0))
  }

  // ---------------------------------------------------------------- realloc

  lemma GrowKeepsOk(h: Heap, i: nat, n: nat)
    requires Ok(h) && i < |h.used| && h.used[i]
    ensures var h1 := Grow(h, i, n);
            Ok(h1) && SameEnds(h, h1) && i < |h1.used| && h1.used[i] && h1.cuts[i] == h.cuts[i]
  {
    MergeSpec(h, i);
    if i + 1 < |h.used| { DropFreeKeepsPairs(h.used, i); }
  }

  lemma GrowSpec(h: Heap, i: nat, n: nat)
    requires Ok(h) && i < |h.used| && h.used[i]
    ensures var h1 := Grow(h, i, n);
            && h1.Shape() && i < |h1.used|
            && h.Size(i) <= h1.Size(i) && Table(h1) == Table(h)[h.cuts[i] + HEADER := h1.Size(i)]
  {
    BlockInTable(h, i);
    MergeSpec(h, i);
  }

  /** A block that realloc shrinks is followed by an allocated one. */
  lemma GrownIsBounded(h: Heap, i: nat, n: nat)
    requires Ok(h) && i < |h.used| && h.used[i]
    requires Grow(h, i, n).Shape() && i + 1 < |Grow(h, i, n).used| && Grow(h, i, n).Size(i) > n
    ensures Grow(h, i, n).used[i + 1]
  {
    assert PairAt(h.used, i + 1) && Gap(h.cuts, i + 1, i + 2);
  }

  lemma TrimSpec(h: Heap, i: nat, n: nat)
    requires Ok(h) && i < |h.used| && h.used[i] && n % ALIGN == 0 && h.Size(i) > n
    requires i + 1 < |h.used| ==> h.used[i + 1]
    ensures var h1 := Trim(h, i, n);
            Ok(h1) && SameEnds(h, h1) && Table(h1) == Table(h)[h.cuts[i] + HEADER := Granted(h.Size(i), n)]
  {
    BlockInTable(h, i);
    if Splitable(h.Size(i), n) {
      SplitKeepsWf(h, i, n);
      SplitTable(h, i, n);
      InsertFreeKeepsPairs(h.used, i);
    }
  }

  // Facts about tables, kept apart from the heaps they come from.

  lemma TradeInPlace(t: map<nat, int>, t1: map<nat, int>, t2: map<nat, int>, p: nat)
    requires p in t1 && t1 == t[p := t1[p]] && p in t2 && t2 == t1[p := t2[p]]
    ensures t2 == (t - {p})[p := t2[p]]
  {
  }

  lemma TradeForNew(t: map<nat, int>, t1: map<nat, int>, t2: map<nat, int>, p: nat, q: nat)
    requires p in t && q !in t && q in t1 && t1 == t[q := t1[q]] && t2 == t1 - {p}
    ensures q in t2 && t2[q] == t1[q] && t2 == (t - {p})[q := t2[q]]
  {
  }

  /** The allocation at p, of the given size, was traded for one of n bytes and less than a
      header and a minimal block more; or it was kept, no smaller, since it has at most n. */
  ghost predicate Traded(t: map<nat, int>, t1: map<nat, int>, ptr: Option<nat>, p: nat, size: int, n: nat) {
    var q := if ptr.Some? then ptr.value else p;
    && q in t1 && t1 == (t - {p})[q := t1[q]]
    && (ptr.None? ==> size <= t1[q] <= n)
    && (ptr.Some? ==> n <= t1[q] < n + HEADER + MIN_ALLOC && (q == p || q !in t))
  }

  lemma TradedAfterGrowth(t: map<nat, int>, t1: map<nat, int>, t2: map<nat, int>, ptr: Option<nat>, p: nat, size: int,
          n: nat)
    requires p in t && p in t1 && t1 == t[p := t1[p]] && t[p] <= t1[p] && Traded(t1, t2, ptr, p, t1[p], n)
    ensures Traded(t, t2, ptr, p, t[p], n)
  {
    assert t1 - {p} == t - {p};
  }

  lemma MoveOutKeepsOk(h: Heap, i: nat, n: nat)
    requires Ok(h) && i < |h.used| && h.used[i] && n < U32
    ensures Ok(MoveOut(h, i, n).heap) && SameEnds(h, MoveOut(h, i, n).heap)
  {
    hide Malloc, FreeAt, Table, IndexOf;
    var r := Malloc(h, n);
    MallocKeepsOk(h, n);
    if r.ptr.Some? {
      OldBlockSurvives(h, n, i);
      FreeSpec(r.heap, IndexOf(r.heap, h.cuts[i] + HEADER, 0));
    }
  }

  lemma MoveOutSpec(h: Heap, i: nat, n: nat)
    requires Ok(h) && i < |h.used| && h.used[i] && n < U32 && n % ALIGN == 0 && h.Size(i) <= n
    ensures var r := MoveOut(h, i, n);
            r.heap.Shape() && Traded(Table(h), Table(r.heap), r.ptr, h.cuts[i] + HEADER, h.Size(i), n)
  {
    hide Malloc, FreeAt, Table, IndexOf;
    var r, p := Malloc(h, n), h.cuts[i] + HEADER;
    BlockInTable(h, i);
    if r.ptr.Some? {
      OldBlockSurvives(h, n, i);
      var k := IndexOf(r.heap, p, 0);
      MallocKeepsOk(h, n);
      FreeSpec(r.heap, k);
      MallocSpec(h, n);
      AlignUpIs(n);
      TradeForNew(Table(h), Table(r.heap), Table(FreeAt(r.heap, k)), p, r.ptr.value);
    } else {
      TradeInPlace(Table(h), Table(h), Table(h), p);
    }
  }

  lemma ShrinkSpec(h: Heap, i: nat, n: nat)
    requires Ok(h) && i < |h.used| && h.used[i] && n % ALIGN == 0
    requires Ok(Grow(h, i, n)) && i < |Grow(h, i, n).used| && Grow(h, i, n).Size(i) > n
    ensures var h1 := Trim(Grow(h, i, n), i, n);
            && Ok(h1) && SameEnds(h, h1)
            && Traded(Table(h), Table(h1), Some(h.cuts[i] + HEADER), h.cuts[i] + HEADER, h.Size(i), n)
            && Table(h1)[h.cuts[i] + HEADER] == Granted(Grow(h, i, n).Size(i), n)
  {
    hide Grow, Trim, Table;
    GrowKeepsOk(h, i, n);
    GrowSpec(h, i, n);
    var h1 := Grow(h, i, n);
    if i + 1 < |h1.used| { GrownIsBounded(h, i, n); }
    TrimSpec(h1, i, n);
    TradeInPlace(Table(h), Table(h1), Table(Trim(h1, i, n)), h.cuts[i] + HEADER);
  }

  lemma ReallocKeepsOk(h: Heap, i: nat, n: nat)
    requires Ok(h) && i < |h.used| && h.used[i] && n < U32 && n % ALIGN == 0
    ensures Ok(Realloc(h, i, n).heap) && SameEnds(h, Realloc(h, i, n).heap)
  {
    hide Grow, Trim, MoveOut, Table;
    GrowKeepsOk(h, i, n);
    if Grow(h, i, n).Size(i) > n { ShrinkSpec(h, i, n); } else { MoveOutKeepsOk(Grow(h, i, n), i, n); }
  }

  /** Realloc touches no other allocation. Granted, it trades the old allocation for one
      of the rounded-up size or little more; refused, it keeps the old one, no smaller. */
  lemma ReallocSpec(h: Heap, i: nat, n: nat)
    requires Ok(h) && i < |h.used| && h.used[i] && n < U32 && n % ALIGN == 0
    ensures var r := Realloc(h, i, n);
            r.heap.Shape() && Traded(Table(h), Table(r.heap), r.ptr, h.cuts[i] + HEADER, h.Size(i), n)
  {
    hide Grow, Trim, MoveOut, Table;
    GrowKeepsOk(h, i, n);
    var h1 := Grow(h, i, n);
    if h1.Size(i) > n {
      ShrinkSpec(h, i, n);
    } else {
      var r := MoveOut(h1, i, n);
      MoveOutSpec(h1, i, n);
      GrownTable(h, i, n);
      TradedAfterGrowth(Table(h), Table(h1), Table(r.heap), r.ptr, h.cuts[i] + HEADER, h.Size(i), n);
    }
  }

  /** Bytes that block i has together with a free block behind it. */
  function Reach(h: Heap, i: nat): int
    requires i < |h.used| && |h.cuts| == |h.used| + 1
  {
    Room(h, i) + if i + 1 < |h.used| && !h.used[i + 1] then 8 + Room(h, i + 1) else 0
  }

  lemma GrowReaches(h: Heap, i: nat, n: nat)
    requires Ok(h) && i < |h.used| && h.used[i]
    ensures var h1 := Grow(h, i, n);
            && h1.Shape() && i < |h1.used|
            && h1.Size(i) == (if Reach(h, i) >= n then Reach(h, i) else Room(h, i)) && Room(h, i) <= Reach(h, i)
  {
    GrowKeepsOk(h, i, n);
    assert Gap(h.cuts, i + 1, i + 2);
  }

  /** What is free after growing was free before, apart from the block taken. */
  lemma GrowKeepsFree(h: Heap, i: nat, n: nat)
    requires Ok(h) && i < |h.used| && h.used[i] && Reach(h, i) <= n
    ensures var h1 := Grow(h, i, n);
            && h1.Shape() && |h1.cuts| == |h1.used| + 1
            && ((forall j: nat :: j < |h1.used| && !h1.used[j] ==> Room(h1, j) < n) <==>
                (forall j: nat :: j < |h.used| && !h.used[j] ==> Room(h, j) < n))
  {
    GrowKeepsOk(h, i, n);
    var h1 := Grow(h, i, n);
    if h1 != h {
      assert Room(h, i + 1) < n by { assert Gap(h.cuts, i, i + 1); }
      forall j: nat | j < |h1.used|
        ensures h1.used[j] == h.used[if j <= i then j else j + 1]
        ensures j != i ==> Room(h1, j) == Room(h, if j <= i then j else j + 1)
      {
        MergeBlock(h, i, j);
      }
      forall j: nat | j < |h.used| && !h.used[j] && j != i + 1
        ensures exists k: nat :: k < |h1.used| && !h1.used[k] && Room(h1, k) == Room(h, j)
      {
        var k := if j <= i then j else j - 1;
        assert !h1.used[k] && Room(h1, k) == Room(h, j);
      }
    }
  }

  /** Realloc stays in place exactly when the block, with a free block behind it, has more than
      n bytes; then the granted size follows from these bytes alone. */
  lemma ReallocInPlaceIff(h: Heap, i: nat, n: nat)
    requires Ok(h) && i < |h.used| && h.used[i] && n < U32 && n % ALIGN == 0
    ensures var r, p := Realloc(h, i, n), h.cuts[i] + 8;
            && (r.ptr == Some(p) <==> Reach(h, i) > n)
            && (Reach(h, i) > n ==>
                  && r.heap.Shape() && p in Table(r.heap)
                  && Table(r.heap)[p] == if Reach(h, i) >= n + 16 then n else Reach(h, i))
  {
    hide Grow, Trim, MoveOut, Table;
    GrowReaches(h, i, n);
    GrowKeepsOk(h, i, n);
    if Reach(h, i) > n {
      ShrinkSpec(h, i, n);
    } else {
      GrownTable(h, i, n);
      MovedElsewhere(Grow(h, i, n), i, n);
    }
  }

  lemma MovedElsewhere(h: Heap, i: nat, n: nat)
    requires Ok(h) && i < |h.used| && h.used[i] && n < U32
    ensures MoveOut(h, i, n).ptr != Some(h.cuts[i] + HEADER)
  {
    hide FreeAt, IndexOf, Table;
    MallocSpec(h, n);
    BlockInTable(h, i);
  }

  /** Realloc fails exactly when the block, with a free block behind it, has no more than n
      bytes, and no free block has n. An exact fit in place is not enough, but then the block
      has taken the free block behind it although realloc failed. */
  lemma ReallocFailsIff(h: Heap, i: nat, n: nat)
    requires Ok(h) && i < |h.used| && h.used[i] && n < U32 && n % ALIGN == 0
    ensures Realloc(h, i, n).ptr.None? <==>
            Reach(h, i) <= n && forall j: nat :: j < |h.used| && !h.used[j] ==> Room(h, j) < n
    ensures Realloc(h, i, n).ptr.None? ==>
              var h1 := Realloc(h, i, n).heap;
              && h1.Shape() && (Reach(h, i) < n ==> Table(h1) == Table(h))
              && (Reach(h, i) == n ==> Table(h1) == Table(h)[h.cuts[i] + 8 := n])
  {
    hide Grow, Trim, Malloc, FreeAt, IndexOf, Table;
    GrowReaches(h, i, n);
    GrownTable(h, i, n);
    GrowKeepsOk(h, i, n);
    if Reach(h, i) <= n {
      GrowKeepsFree(h, i, n);
      MallocSpec(Grow(h, i, n), n);
      AlignUpIs(n);
    }
  }

  lemma GrownTable(h: Heap, i: nat, n: nat)
    requires Ok(h) && i < |h.used| && h.used[i]
    ensures var h1, p := Grow(h, i, n), h.cuts[i] + HEADER;
            && h1.Shape() && i < |h1.used|
            && p in Table(h) && Table(h)[p] == h.Size(i) && p in Table(h1) && Table(h1)[p] == h1.Size(i)
            && Table(h)[p] <= Table(h1)[p] && Table(h1) == Table(h)[p := Table(h1)[p]]
  {
    BlockInTable(h, i);
    GrowSpec(h, i, n);
  }

  lemma OldBlockSurvives(h: Heap, n: nat, i: nat)
    requires Ok(h) && n < U32 && i < |h.used| && h.used[i] && Malloc(h, n).ptr.Some?
    ensures var h1, p := Malloc(h, n).heap, h.cuts[i] + HEADER;
            && h1.Wf()
            && var j := IndexOf(h1, p, 0);
               j < |h1.used| && h1.used[j] && h1.cuts[j] + HEADER == p && h1.Size(j) == h.Size(i)
  {
    MallocKeepsOk(h, n);
    MallocSpec(h, n);
    BlockInTable(h, i);
    IndexIs(Malloc(h, n).heap, h.cuts[i] + HEADER);
  }

  ghost function ReallocPtr(h: Heap, p: nat, n: nat): Result
    requires Ok(h) && p in Table(h) && n < U32 && n % ALIGN == 0
  {
    IndexIs(h, p);
    Realloc(h, IndexOf(h, p, 0), n)
  }
}
