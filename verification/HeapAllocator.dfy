/**
 The device allocator, which rewrites header fields in place, and the host allocator,
 which works on loaded and stored copies of the headers, on the same tile memory. Both are
 proved against the block-list operations of HeapModel. Offset 0 is the null pointer.
 */
module HeapAllocator {
  import opened Basics
  import opened HeapModel
  import opened HeapMemory
  import HeapRuns

  function Ptr(r: Result): nat {
    if r.ptr.None? then 0 else r.ptr.value
  }

  /** Block i is in use and its is_host_allocated bit is clear. */
  ghost predicate Leaks(m: Memory, h: Heap, i: nat) {
    && h.Shape() && i < |h.used| && h.used[i]
    && h.cuts[i] + 4 in m && m[h.cuts[i] + 4] < 0x8000_0000
  }

  class Tile {
    const start: nat
    var mem: Memory
    ghost var heap: Heap

    /** The memory holds the block list, which may have free neighbours for a moment. */
    ghost predicate Consistent()
      reads this
    {
      heap.Wf() && Represents(mem, heap) && mem.Keys == Words() && heap.cuts[0] == start
    }

    ghost predicate Valid()
      reads this
    {
      Consistent() && heap.Coalesced()
    }

    /** init_allocator, on memory of any content; the heap bounds come from the offset
        table, which aligns them. */
    constructor (m: Memory, start: nat, size: nat)
      requires m.Keys == Words() && 0 < start && start % ALIGN == 0 && size % ALIGN == 0
      requires 1 + MIN_ALLOC < size && start + size <= TILE_SIZE
      ensures Valid() && heap == Init(start, start + size)
      ensures start + 4 in mem && mem[start + 4] >= 0x8000_0000
    {
      this.start := start;
      heap := Init(start, start + size);
      var f := Fields(size - HEADER, false, true, true);
      mem := m[start := 0][start + 4 := Pack(f)];
      HostBit(f);
      FreshHeap(m[start := 0][start + 4 := Pack(f)], m, start, size, f);
    }

    /** The header that splits block i lies on words of the tile. */
    lemma NewHeaderWords(i: nat, n: nat)
      requires heap.Wf() && i < |heap.used| && n % ALIGN == 0 && heap.Size(i) >= n + HEADER
      ensures heap.cuts[i] + HEADER + n in Words() && heap.cuts[i] + HEADER + n + 4 in Words()
      ensures heap.cuts[i] + HEADER + n < U32
    {
      assert AlignedAt(heap.cuts, i) && Gap(heap.cuts, i + 1, |heap.used|);
      IsWord(heap.cuts[i] + HEADER + n);
      IsWord(heap.cuts[i] + HEADER + n + 4);
    }

    method Load(a: nat) returns (f: Fields)
      requires a + 4 in mem
      ensures f.size < SIZE_BITS && mem[a + 4] == Pack(f)
    {
      f := Unpack(mem[a + 4]);
    }

    /** The header of block i, as the list says it is. */
    method LoadBlock(a: nat, ghost i: nat) returns (f: Fields)
      requires Represents(mem, heap) && i < |heap.used| && a == heap.cuts[i]
      ensures a in mem && a + 4 in mem && f.size < SIZE_BITS && mem[a + 4] == Pack(f)
      ensures f.size == heap.Size(i) && f.inUse == heap.used[i] && f.isLast == (i == |heap.used| - 1)
    {
      assert HeaderAt(mem, heap, i);
      f := Load(a);
      HeldIsPacked(f, heap.Size(i), heap.used[i], i == |heap.used| - 1);
    }

    // -------------------------------------------------------------- device, in place

    method CorrectNext(a: nat, ghost f: Fields)
      requires a < U32 && a + 4 in mem && f.size < SIZE_BITS && mem[a + 4] == Pack(f)
      requires !f.isLast ==> a + HEADER + f.size in mem
      modifies this`mem
      ensures mem == if f.isLast then old(mem) else old(mem)[a + HEADER + f.size := a]
    {
      var g := Load(a);
      PackInjective(f, g);
      if !g.isLast {
        mem := mem[a + HEADER + g.size := a];
      }
    }

    method SplitInPlace(bh: nat, n: nat, ghost i: nat)
      requires Consistent() && i < |heap.used| && bh == heap.cuts[i] && n % ALIGN == 0 && heap.Size(i) >= n + HEADER
      modifies this
      ensures Consistent() && heap == Split(old(heap), i, n)
      ensures PayloadsKept(old(mem), mem, heap) && FlagsKept(old(mem), mem, old(heap))
    {
      hide Pack, Holds, Words, Split, SetUsed, PayloadsKept, Represents, FlagsKept;
      ghost var h, m := heap, mem;
      var newNext := bh + HEADER + n;
      HeadersInMemory(m, h, i);
      NewHeaderWords(i, n);
      var f := LoadBlock(bh, i);
      HostBit(f);
      // The new header is written over whatever the memory held there.
      var g := Load(newNext);
      g := g.(size := f.size - n - HEADER, inUse := false, isLast := f.isLast);
      mem := mem[newNext + 4 := Pack(g)];
      mem := mem[newNext := bh];
      CorrectNext(newNext, g);
      f := f.(size := n, isLast := false);
      mem := mem[bh + 4 := Pack(f)];
      assert mem == SplitStores(m, bh, n, f, g);
      SplitStoresAreRight(m, h, i, n, f, g);
      SplitKeepsFlags(m, h, i, n, f, g);
      SplitKeepsFlag(h, i, n);
      heap := Split(h, i, n);
    }

    method TryMergeNext(bh: nat, ghost i: nat)
      requires Consistent() && i < |heap.used| && bh == heap.cuts[i]
      modifies this
      ensures Consistent() && heap == MergeNext(old(heap), i)
      ensures PayloadsKept(old(mem), mem, old(heap))
    {
      hide Pack, Holds, Words, Table, PayloadsKept, Represents;
      ghost var h, h1, m := heap, MergeNext(heap, i), mem;
      NothingChanged(m, h);
      var f := LoadBlock(bh, i);
      if f.isLast {
        return;
      }
      var next := bh + HEADER + f.size;
      var g := LoadBlock(next, i + 1);
      if g.inUse {
        return;
      }
      f := f.(size := f.size + HEADER + g.size, isLast := g.isLast);
      MergeStoresAreRight(m, h, i, f);
      if !f.isLast { HeadersInMemory(m, h, i + 2); }
      mem := mem[bh + 4 := Pack(f)];
      CorrectNext(bh, f);
      assert mem == MergeStores(m, bh, f);
      heap := h1;
    }

    method SetInUse(bh: nat, b: bool, ghost i: nat)
      requires Consistent() && i < |heap.used| && bh == heap.cuts[i]
      modifies this
      ensures Consistent() && heap == SetUsed(old(heap), i, b)
      ensures PayloadsKept(old(mem), mem, old(heap)) && TopBitsKept(old(mem), mem)
    {
      ghost var m := mem;
      var f := LoadBlock(bh, i);
      mem := mem[bh + 4 := Pack(f.(inUse := b))];
      PackedHolds(f.(inUse := b));
      HostBit(f);
      HostBit(f.(inUse := b));
      SetUsedRepresents(m, mem, heap, i, b);
      FlagKeepsPayloads(m, mem, heap, i);
      heap := SetUsed(heap, i, b);
    }

    /** Device try_malloc; it leaves is_host_allocated of every block as it was. */
    method TryMalloc(size: nat) returns (ptr: nat)
      requires Valid() && size < U32
      modifies this
      ensures Valid() && heap == Malloc(old(heap), size).heap && ptr == Ptr(Malloc(old(heap), size))
      ensures OthersKept(old(mem), mem, old(heap), 0)
      ensures FlagsKept(old(mem), mem, old(heap))
    {
      var n := AlignUp(size);
      AlignUpIs(size);
      var bh := start;
      ghost var i := 0;
      ghost var h, m := heap, mem;
      FlagsUnchanged(m, h);
      while bh != 0
        invariant heap == h && mem == m && i <= |h.used|
        invariant if bh == 0 then i == |h.used| else i < |h.used| && bh == h.cuts[i]
        invariant FirstFit(h, n, i) == FirstFit(h, n, 0)
        decreases |h.used| - i
      {
        var f := LoadBlock(bh, i);
        if f.size >= n && !f.inUse {
          if Splitable(f.size, n) {
            SplitInPlace(bh, n, i);
          }
          MarkTaken(bh, i, n, size, h, m);
          return bh + HEADER;
        }
        bh := if f.isLast then 0 else bh + HEADER + f.size;
        i := i + 1;
        assert Gap(h.cuts, 0, i);
      }
      PayloadsAreOthers(m, mem, h, 0);
      return 0;
    }

    /** The end of try_malloc on block i, trimmed if it was worth it. */
    method MarkTaken(bh: nat, ghost i: nat, ghost n: nat, ghost size: nat, ghost h: Heap, ghost m: Memory)
      requires Ok(h) && size < U32 && n == AlignUp(size) && i < |h.used| && h.Fits(i, n) && i == FirstFit(h, n, 0)
      requires Consistent() && heap == Trim(h, i, n) && i < |heap.used| && bh == heap.cuts[i] == h.cuts[i]
      requires PayloadsKept(m, mem, heap) && FlagsKept(m, mem, h)
      modifies this
      ensures Valid() && heap == Malloc(h, size).heap && Malloc(h, size).ptr == Some(bh + HEADER)
      ensures OthersKept(m, mem, h, 0) && FlagsKept(m, mem, h)
    {
      hide Trim, Table, IndexOf;
      ghost var m1 := mem;
      SetInUse(bh, true, i);
      MallocKeepsOk(h, size);
      MallocSpec(h, size);
      PayloadsTwice(m, m1, mem, Trim(h, i, n), heap);
      PayloadsAreOthers(m, mem, heap, 0);
      OthersThrough(m, mem, h, heap, 0);
    }

    /** Device free. */
    method Free(p: nat)
      requires Valid() && p in Table(heap)
      modifies this
      ensures Valid() && heap == HeapModel.Free(old(heap), p)
      ensures OthersKept(old(mem), mem, old(heap), p)
    {
      hide Table, IndexOf, MergeNext, Pack, Holds;
      ghost var i := IndexOf(heap, p, 0);
      ghost var h, m := heap, mem;
      IndexIs(h, p);
      FreeSpec(h, i);
      SetUsedTable(h, i, false);
      var bh := p - HEADER;
      SetInUse(bh, false, i);
      PayloadsAreOthers(m, mem, h, p);
      ghost var h1, m1 := heap, mem;
      MergeSpec(h1, i);
      TryMergeNext(bh, i);
      PayloadsAreOthers(m1, mem, h1, p);
      KeptTwice(m, m1, mem, h, h1, p);
      ghost var h2, m2 := heap, mem;
      assert HeaderAt(mem, heap, i) && (i > 0 ==> Gap(heap.cuts, 0, i - 1));
      var prev := mem[bh];
      if prev != 0 {
        var g := LoadBlock(prev, i - 1);
        if !g.inUse {
          TryMergeNext(prev, i - 1);
          PayloadsAreOthers(m2, mem, h2, p);
          KeptTwice(m, m2, mem, h, h2, p);
        }
      }
    }

    /** A client writing into its own allocation. */
    method UserStore(p: nat, off: nat, w: Word)
      requires Valid() && p in Table(heap) && off < Table(heap)[p] && off % 4 == 0
      modifies this`mem
      ensures Valid() && OthersKept(old(mem), mem, heap, p) && p + off in mem && mem[p + off] == w
    {
      ghost var m := mem;
      HeapRuns.AllocationInside(heap, p);
      IsWord(p + off);
      mem := mem[p + off := w];
      CopyKeeps(m, mem, heap, p, Table(heap)[p]);
    }

    /** The walk of assert_no_leak. */
    method HasLeak() returns (leak: bool)
      requires Valid()
      ensures leak <==> exists i: nat :: Leaks(mem, heap, i)
    {
      hide Pack, Holds, Words;
      leak := false;
      var bh := start;
      ghost var i := 0;
      while bh != 0
        invariant i <= |heap.used|
        invariant if bh == 0 then i == |heap.used| else i < |heap.used| && bh == heap.cuts[i]
        invariant leak <==> exists j: nat :: j < i && Leaks(mem, heap, j)
        decreases |heap.used| - i
      {
        var f := LoadBlock(bh, i);
        HostBit(f);
        if f.inUse && !f.host {
          assert Leaks(mem, heap, i);
          leak := true;
        }
        bh := if f.isLast then 0 else bh + HEADER + f.size;
        i := i + 1;
        assert Gap(heap.cuts, 0, i);
      }
    }

    // -------------------------------------------------------------- host, on copies

    /** Host split: stores the new header, but only changes the caller's copy of the old. */
    method HostSplit(bhAddr: nat, bh: Fields, n: nat) returns (copy: Fields)
      requires bh.size < SIZE_BITS && bh.size >= n + HEADER && bhAddr + HEADER + n < U32
      requires !bh.isLast ==> bhAddr + HEADER + bh.size in mem && bhAddr + HEADER + bh.size + 4 in mem
      modifies this`mem
      ensures copy == bh.(size := n, isLast := false)
      ensures var g := Fields(bh.size - n - HEADER, false, bh.isLast, true);
              forall f: Fields :: f.size < SIZE_BITS ==>
                mem[bhAddr + 4 := Pack(f)] == SplitStores(old(mem), bhAddr, n, f, g)
      ensures bhAddr in old(mem) ==> bhAddr in mem && mem[bhAddr] == old(mem[bhAddr])
    {
      hide Pack;
      var newNextAddr := bhAddr + HEADER + n;
      var newNext := Fields(bh.size - n - HEADER, false, bh.isLast, true);
      mem := mem[newNextAddr + 4 := Pack(newNext)][newNextAddr := bhAddr];
      if !newNext.isLast {
        var oldNextAddr := bhAddr + HEADER + bh.size;
        var oldNext := Load(oldNextAddr);
        mem := mem[oldNextAddr := newNextAddr][oldNextAddr + 4 := Pack(oldNext)];
      }
      copy := bh.(size := n, isLast := false);
    }

    /** Host try_malloc. */
    method HostTryMalloc(size: nat) returns (ptr: nat)
      requires Valid() && size < U32
      modifies this
      ensures Valid() && heap == Malloc(old(heap), size).heap && ptr == Ptr(Malloc(old(heap), size))
      ensures OthersKept(old(mem), mem, old(heap), 0)
      ensures ptr != 0 ==> ptr - 4 in mem && mem[ptr - 4] >= 0x8000_0000
    {
      var n := AlignUp(size);
      AlignUpIs(size);
      var bhAddr := start;
      ghost var i := 0;
      ghost var h, m := heap, mem;
      var more := true;
      while more
        invariant heap == h && mem == m && i <= |h.used| && more == (i < |h.used|)
        invariant more ==> bhAddr == h.cuts[i]
        invariant FirstFit(h, n, i) == FirstFit(h, n, 0)
        decreases |h.used| - i
      {
        var bh := LoadBlock(bhAddr, i);
        if bh.size >= n && !bh.inUse {
          HostTake(bhAddr, bh, n, size, i);
          return bhAddr + HEADER;
        }
        bhAddr := bhAddr + HEADER + bh.size;
        more := !bh.isLast;
        i := i + 1;
      }
      PayloadsAreOthers(m, mem, h, 0);
      return 0;
    }

    /** The body of the host loop once a block fits. */
    method HostTake(bhAddr: nat, loaded: Fields, n: nat, ghost size: nat, ghost i: nat)
      requires Valid() && size < U32 && n == AlignUp(size) && i < |heap.used| && i == FirstFit(heap, n, 0) &&
               bhAddr == heap.cuts[i]
      requires loaded.size == heap.Size(i) && !loaded.inUse && loaded.isLast == (i == |heap.used| - 1)
      modifies this
      ensures Valid() && heap == Malloc(old(heap), size).heap && Malloc(old(heap), size).ptr == Some(bhAddr + HEADER)
      ensures OthersKept(old(mem), mem, old(heap), 0) && bhAddr + 4 in mem && mem[bhAddr + 4] >= 0x8000_0000
    {
      hide Pack, Holds, Table, Split, Malloc, SetUsed, PayloadsKept, Represents, Words, OthersKept, FirstFit,
          AlignUp, SplitStores;
      ghost var h, m := heap, mem;
      HeadersInMemory(m, h, i);
      var bh := loaded;
      var prev := mem[bhAddr];
      if Splitable(bh.size, n) {
        bh := HostSplit(bhAddr, bh, n);
      }
      bh := bh.(inUse := true, host := true);
      HostBit(bh);
      assert mem[bhAddr := prev] == mem;
      mem := mem[bhAddr := prev][bhAddr + 4 := Pack(bh)];
      if Splitable(loaded.size, n) {
        assert mem == SplitStores(m, bhAddr, n, bh, Fields(loaded.size - n - HEADER, false, loaded.isLast, true));
        HostSplitStored(m, h, i, n, bh, size);
      } else {
        assert mem == m[bhAddr + 4 := Pack(bh)];
        HostWholeStored(m, h, i, n, bh, size);
      }
      heap := Malloc(h, size).heap;
    }

    /** memcpy between two places that do not overlap, word by word. */
    method CopyWords(dst: nat, src: nat, len: nat)
      requires mem.Keys == Words() && dst % 4 == 0 && src % 4 == 0 && len % 4 == 0
      requires dst + len <= TILE_SIZE && src + len <= TILE_SIZE && (dst + len <= src || src + len <= dst)
      modifies this`mem
      ensures OnlyWithin(old(mem), mem, dst, dst + len) && Moved(old(mem), mem, src, dst, len)
    {
      hide Words, OnlyWithin, Moved;
      var k := 0;
      CopyNone(mem, src, dst);
      while k < len
        invariant 0 <= k <= len && k % 4 == 0
        invariant OnlyWithin(old(mem), mem, dst, dst + k) && Moved(old(mem), mem, src, dst, k)
      {
        IsWord(src + k);
        IsWord(dst + k);
        CopyOne(old(mem), mem, src, dst, k, len);
        mem := mem[dst + k := mem[src + k]];
        k := k + 4;
      }
    }

    /** The fall-back of device try_realloc on block i at p, of the given size. */
    method MoveBlock(p: nat, size: nat, n: nat, ghost i: nat) returns (q: nat)
      requires Valid() && i < |heap.used| && heap.used[i] && p == heap.cuts[i] + HEADER && size == heap.Size(i) <= n
      requires n < U32 && n % ALIGN == 0
      modifies this
      ensures Valid() && heap == MoveOut(old(heap), i, n).heap && q == Ptr(MoveOut(old(heap), i, n))
      ensures OthersKept(old(mem), mem, old(heap), p)
      ensures if q == 0 then Kept(old(mem), mem, p, p + size) else Moved(old(mem), mem, p, q, size)
    {
      hide Table, Malloc, IndexOf, FreeAt, Represents, Words, OthersKept, Kept, Moved, OnlyWithin;
      ghost var h, m := heap, mem;
      BlockInTable(h, i);
      MallocSpec(h, n);
      AlignUpIs(n);
      if Malloc(h, n).ptr.Some? { IndexPositive(Malloc(h, n).heap, Malloc(h, n).ptr.value); }
      q := TryMalloc(n);
      ghost var h1, m1 := heap, mem;
      if q == 0 {
        OthersThrough(m, m1, h, h, p);
        OneKept(m, m1, h, 0, p);
        return 0;
      }
      OldBlockSurvives(h, n, i);
      HeapRuns.AllocationInside(h1, p);
      HeapRuns.AllocationInside(h1, q);
      if p < q { HeapRuns.AllocationsDisjoint(h1, p, q); } else { HeapRuns.AllocationsDisjoint(h1, q, p); }
      CopyWords(q, p, size);
      ghost var m2 := mem;
      CopyKeeps(m1, m2, h1, q, size);
      Free(p);
      KeptThrice(m, m1, m2, mem, h, h1, p, q);
      OneKept(m, m1, h, 0, p);
      OneKept(m2, mem, h1, p, q);
      KeptThenMoved(m, m1, m2, p, q, size, size);
      MovedThenKept(m, m2, mem, p, q, size, Table(h1)[q]);
    }

    /** Take the free block behind block i if that gives n bytes. */
    method GrowInPlace(bh: nat, n: nat, ghost i: nat)
      requires Valid() && i < |heap.used| && heap.used[i] && bh == heap.cuts[i]
      modifies this
      ensures Valid() && heap == Grow(old(heap), i, n)
      ensures PayloadsKept(old(mem), mem, old(heap))
    {
      hide Pack, Holds;
      GrowKeepsOk(heap, i, n);
      var f := LoadBlock(bh, i);
      if !f.isLast {
        var g := LoadBlock(bh + HEADER + f.size, i + 1);
        if !g.inUse && f.size + g.size + HEADER >= n {
          TryMergeNext(bh, i);
        }
      }
    }

    /** Device try_realloc. */
    method TryRealloc(p: nat, newSize: nat) returns (q: nat)
      requires Valid() && p in Table(heap) && newSize < U32
      modifies this
      ensures Valid() && AlignUp(newSize) % ALIGN == 0
      ensures heap == ReallocPtr(old(heap), p, AlignUp(newSize)).heap &&
              q == Ptr(ReallocPtr(old(heap), p, AlignUp(newSize)))
      ensures OthersKept(old(mem), mem, old(heap), p)
      ensures var size := Table(old(heap))[p];
              if q == 0 then Kept(old(mem), mem, p, p + size)
              else q in Table(heap) && Moved(old(mem), mem, p, q, HeapRuns.Min(size, Table(heap)[q]))
      ensures q != 0 && newSize <= U32 - ALIGN ==>
                Table(heap)[q] >= newSize && Moved(old(mem), mem, p, q, HeapRuns.Min(Table(old(heap))[p], newSize))
    {
      hide Table, IndexOf, Grow, Trim, MoveOut, Split;
      var n := AlignUp(newSize);
      AlignUpIs(newSize);
      ghost var h, m, i := heap, mem, IndexOf(heap, p, 0);
      IndexIs(h, p);
      GrowKeepsOk(h, i, n);
      GrownTable(h, i, n);
      ReallocKeepsOk(h, i, n);
      ReallocSpec(h, i, n);
      var bh := p - HEADER;
      GrowInPlace(bh, n, i);
      ghost var h1, m1 := heap, mem;
      PayloadsAreOthers(m, m1, h, p);
      ghost var size := h.Size(i);
      assert Kept(m, m1, p, p + size);
      var f := LoadBlock(bh, i);
      hide Represents, Words, OthersKept, PayloadsKept, Kept, Moved, Heap.Shape;
      if f.size > n {
        ShrinkSpec(h, i, n);
        ShrinkInPlace(bh, n, f.size, i);
        KeptTwice(m, m1, mem, h, h1, p);
        q := p;
        KeptIsMoved(m, m1, mem, p, size, Granted(f.size, n));
      } else {
        q := MoveBlock(p, f.size, n, i);
        KeptTwice(m, m1, mem, h, h1, p);
        if q == 0 { KeptOn(m, m1, mem, p, size, f.size); } else { KeptThenMoved(m, m1, mem, p, q, size, f.size); }
      }
      if q != 0 { MovedLess(m, mem, p, q, HeapRuns.Min(size, Table(heap)[q])); }
    }

    method ShrinkInPlace(bh: nat, n: nat, size: nat, ghost i: nat)
      requires Valid() && i < |heap.used| && bh == heap.cuts[i] && n % ALIGN == 0 && size == heap.Size(i) > n
      requires Ok(Trim(heap, i, n))
      modifies this
      ensures Valid() && heap == Trim(old(heap), i, n)
      ensures OthersKept(old(mem), mem, old(heap), bh + HEADER) &&
              Kept(old(mem), mem, bh + HEADER, bh + HEADER + Granted(size, n))
    {
      ghost var h, m := heap, mem;
      if Splitable(size, n) {
        SplitInPlace(bh, n, i);
        SplitBlock(h, i, n, i);
        SplitKeepsOthers(m, mem, h, heap, i, n);
        assert Kept(m, mem, heap.cuts[i] + HEADER, heap.cuts[i + 1]);
      }
    }
  }

  lemma FreshHeap(m1: Memory, m: Memory, start: nat, size: nat, f: Fields)
    requires m.Keys == Words() && 0 < start && start % ALIGN == 0 && size % ALIGN == 0
    requires 1 + MIN_ALLOC < size && start + size <= TILE_SIZE
    requires f == Fields(size - HEADER, false, true, true) && m1 == m[start := 0][start + 4 := Pack(f)]
    ensures Ok(Init(start, start + size)) && Represents(m1, Init(start, start + size)) && m1.Keys == Words()
  {
    var h := Init(start, start + size);
    assert forall i: int, j: int :: Gap(h.cuts, i, j);
    assert forall i: int :: AlignedAt(h.cuts, i);
    assert forall i: int :: PairAt(h.used, i);
    IsWord(start);
    IsWord(start + 4);
    PackedHolds(f);
    assert forall i: int :: HeaderAt(m1, h, i);
  }

  lemma FlagsUnchanged(m: Memory, h: Heap)
    requires Represents(m, h)
    ensures FlagsKept(m, m, h)
  {
    hide Holds;
    forall j: nat | j < |h.used| ensures SameTopBit(m, m, h.cuts[j] + 4) {
      assert HeaderAt(m, h, j);
    }
  }

  lemma LeakInTable(m: Memory, h: Heap, p: nat)
    requires h.Shape() && p in Table(h) && p - 4 in m && m[p - 4] < 0x8000_0000
    ensures exists i: nat :: Leaks(m, h, i)
  {
    IndexIs(h, p);
    assert Leaks(m, h, IndexOf(h, p, 0));
  }

  /** After a malloc that kept the flags, the leaks are those from before, and the new block if
      its flag was clear. */
  lemma LeaksAfterMalloc(m: Memory, m1: Memory, h: Heap, size: nat)
    requires Ok(h) && size < U32 && Represents(m, h) && FlagsKept(m, m1, h)
    ensures var r := Malloc(h, size);
            && (r.ptr.Some? ==> r.ptr.value - 4 in m)
            && ((exists i: nat :: Leaks(m1, r.heap, i)) <==>
                (exists i: nat :: Leaks(m, h, i)) || (r.ptr.Some? && m[r.ptr.value - 4] < 0x8000_0000))
  {
    hide Table, IndexOf, Represents, Trim;
    var r := Malloc(h, size);
    MallocSpec(h, size);
    if r.ptr.Some? {
      var k := FirstFit(h, AlignUp(size), 0);
      assert SameTopBit(m, m1, h.cuts[k] + 4);
      if m[r.ptr.value - 4] < 0x8000_0000 { LeakInTable(m1, r.heap, r.ptr.value); }
    }
    forall i: nat | Leaks(m, h, i) ensures exists j: nat :: Leaks(m1, r.heap, j) {
      BlockInTable(h, i);
      assert SameTopBit(m, m1, h.cuts[i] + 4);
      LeakInTable(m1, r.heap, h.cuts[i] + HEADER);
    }
    forall i: nat | Leaks(m1, r.heap, i) && Some(r.heap.cuts[i] + HEADER) != r.ptr
      ensures exists j: nat :: Leaks(m, h, j)
    {
      BlockInTable(r.heap, i);
      var p := r.heap.cuts[i] + HEADER;
      IndexIs(h, p);
      assert SameTopBit(m, m1, h.cuts[IndexOf(h, p, 0)] + 4);
      LeakInTable(m, h, p);
    }
  }

  /** The leak check sees a block that the device allocates, and nobody frees, if and only if
      the word of its header had the top bit clear before: try_malloc does not clear it. */
  method NewLeakIsSeenIff(t: Tile, size: nat) returns (p: nat, leak: bool)
    requires t.Valid() && size < U32 && forall i: nat :: !Leaks(t.mem, t.heap, i)
    modifies t
    ensures t.Valid() && t.heap == Malloc(old(t.heap), size).heap && p == Ptr(Malloc(old(t.heap), size))
    ensures leak <==> p != 0 && p - 4 in old(t.mem) && old(t.mem)[p - 4] < 0x8000_0000
  {
    ghost var h, m := t.heap, t.mem;
    p := t.TryMalloc(size);
    LeaksAfterMalloc(m, t.mem, h, size);
    leak := t.HasLeak();
  }

  /** So it does not see what the device allocates first, whatever the memory held:
      init_allocator sets is_host_allocated. */
  method FirstLeakIsNotSeen(m: Memory, start: nat, size: nat, request: nat) returns (p: nat, leak: bool)
    requires m.Keys == Words() && 0 < start && start % ALIGN == 0 && size % ALIGN == 0
    requires 1 + MIN_ALLOC < size && start + size <= TILE_SIZE && request <= size - HEADER
    ensures p == start + HEADER && !leak
  {
    hide Pack, Holds, Words, Table;
    var t := new Tile(m, start, size);
    AlignUpIs(request);
    assert t.heap.Fits(0, AlignUp(request));
    p, leak := NewLeakIsSeenIff(t, request);
  }

  /** Two tiles with the same block list, one served by the host and one by the device,
      answer alike and keep the same block list. */
  method HostAgreesWithDevice(host: Tile, device: Tile, size: nat) returns (p: nat, q: nat)
    requires host != device && host.Valid() && device.Valid() && host.heap == device.heap && size < U32
    modifies host, device
    ensures p == q && host.Valid() && device.Valid() && host.heap == device.heap
  {
    p := host.HostTryMalloc(size);
    q := device.TryMalloc(size);
  }

  lemma NothingChanged(m: Memory, h: Heap)
    requires h.Shape()
    ensures PayloadsKept(m, m, h)
  {
  }

  lemma HeadersInMemory(m: Memory, h: Heap, i: nat)
    requires h.Wf() && Represents(m, h) && i < |h.used|
    ensures h.cuts[i] in m && h.cuts[i] + 4 in m && h.cuts[i + 1] <= TILE_SIZE
    ensures i + 1 < |h.used| ==> h.cuts[i + 1] in m && h.cuts[i + 1] + 4 in m
  {
    hide Holds;
    assert HeaderAt(m, h, i) && HeaderAt(m, h, i + 1) && Gap(h.cuts, i + 1, |h.used|);
  }

  /** The heap that try_malloc leaves when it takes block i. */
  lemma TakenHeap(m: Memory, m1: Memory, h: Heap, i: nat, n: nat, size: nat)
    requires Ok(h) && size < U32 && n == AlignUp(size) && i < |h.used| && i == FirstFit(h, n, 0)
    requires var h1 := SetUsed(Trim(h, i, n), i, true); h1.Wf() && PayloadsKept(m, m1, h1)
    ensures var r := Malloc(h, size);
            && r == Result(SetUsed(Trim(h, i, n), i, true), Some(h.cuts[i] + HEADER))
            && Ok(r.heap) && r.heap.cuts[0] == h.cuts[0] && OthersKept(m, m1, h, 0)
  {
    hide Table, IndexOf, Trim, SetUsed;
    MallocKeepsOk(h, size);
    MallocSpec(h, size);
    PayloadsAreOthers(m, m1, Malloc(h, size).heap, 0);
    OthersThrough(m, m1, h, Malloc(h, size).heap, 0);
  }

  lemma HostSplitStored(m: Memory, h: Heap, i: nat, n: nat, f: Fields, size: nat)
    requires Ok(h) && Represents(m, h) && m.Keys == Words()
    requires size < U32 && n == AlignUp(size) && i < |h.used| && i == FirstFit(h, n, 0) && Splitable(h.Size(i), n)
    requires f.size == n && f.inUse && !f.isLast && n < SIZE_BITS && h.Size(i) < SIZE_BITS &&
             h.cuts[i] + HEADER + n < U32
    ensures var g := Fields(h.Size(i) - n - HEADER, false, i == |h.used| - 1, true);
            var m1, r := SplitStores(m, h.cuts[i], n, f, g), Malloc(h, size);
            && r.ptr == Some(h.cuts[i] + HEADER) && Ok(r.heap) && r.heap.cuts[0] == h.cuts[0]
            && Represents(m1, r.heap) && m1.Keys == Words() && OthersKept(m, m1, h, 0)
  {
    hide Table, Pack, Holds, SetUsed, Split, Words, PayloadsKept, Represents;
    AlignUpIs(size);
    var g := Fields(h.Size(i) - n - HEADER, false, i == |h.used| - 1, true);
    SplitStoresAreRight(m, h, i, n, f, g);
    TakenHeap(m, SplitStores(m, h.cuts[i], n, f, g), h, i, n, size);
  }

  lemma HostWholeStored(m: Memory, h: Heap, i: nat, n: nat, f: Fields, size: nat)
    requires Ok(h) && Represents(m, h) && m.Keys == Words()
    requires size < U32 && n == AlignUp(size) && i < |h.used| && i == FirstFit(h, n, 0) && !Splitable(h.Size(i), n)
    requires f.size == h.Size(i) < SIZE_BITS && f.inUse && f.isLast == (i == |h.used| - 1)
    ensures var m1, r := m[h.cuts[i] + 4 := Pack(f)], Malloc(h, size);
            && r.ptr == Some(h.cuts[i] + HEADER) && Ok(r.heap) && r.heap.cuts[0] == h.cuts[0]
            && Represents(m1, r.heap) && m1.Keys == Words() && OthersKept(m, m1, h, 0)
  {
    hide Table, Pack, Holds, Words;
    var m1 := m[h.cuts[i] + 4 := Pack(f)];
    HeadersInMemory(m, h, i);
    PackedHolds(f);
    SetUsedRepresents(m, m1, h, i, true);
    FlagKeepsPayloads(m, m1, h, i);
    PayloadsTwice(m, m1, m1, h, SetUsed(h, i, true));
    TakenHeap(m, m1, h, i, n, size);
  }

  lemma SplitKeepsOthers(m: Memory, m1: Memory, h: Heap, h1: Heap, i: nat, n: nat)
    requires h.Wf() && i < |h.used| && h.Size(i) >= n + HEADER && n % ALIGN == 0
    requires h1.Shape() && h1 == Split(h, i, n) && PayloadsKept(m, m1, h1)
    ensures OthersKept(m, m1, h, h.cuts[i] + HEADER)
  {
    hide Table, Split, Kept;
    SplitTable(h, i, n);
    PayloadsAreOthers(m, m1, h1, 0);
    OthersThrough(m, m1, h, h1, h.cuts[i] + HEADER);
  }

  lemma CopyKeeps(m: Memory, m1: Memory, h: Heap, q: nat, len: nat)
    requires h.Wf() && Represents(m, h) && q in Table(h) && len <= Table(h)[q] && OnlyWithin(m, m1, q, q + len)
    ensures m1.Keys == m.Keys && Represents(m1, h) && OthersKept(m, m1, h, q)
  {
    IndexIs(h, q);
    WriteInsideKeeps(m, m1, h, IndexOf(h, q, 0));
  }

  lemma KeptThrice(m: Memory, m1: Memory, m2: Memory, m3: Memory, h: Heap, h1: Heap, p: nat, q: nat)
    requires h.Shape() && h1.Shape() && OthersKept(m, m1, h, 0) && OthersKept(m1, m2, h1, q) &&
             OthersKept(m2, m3, h1, p)
    requires q in Table(h1) && q !in Table(h) && Table(h1) == Table(h)[q := Table(h1)[q]]
    ensures OthersKept(m, m3, h, p)
  {
    hide Table;
    forall r | r in Table(h) && r != p ensures Kept(m, m3, r, r + Table(h)[r]) {
      IndexPositive(h, r);
      assert r in Table(h1) && Table(h1)[r] == Table(h)[r];
      assert Kept(m, m1, r, r + Table(h)[r]) && Kept(m1, m2, r, r + Table(h)[r]) && Kept(m2, m3, r, r + Table(h)[r]);
    }
  }

  lemma PayloadsTwice(m: Memory, m1: Memory, m2: Memory, h: Heap, h1: Heap)
    requires h.Shape() && h1.Shape() && h1.cuts == h.cuts && PayloadsKept(m, m1, h) && PayloadsKept(m1, m2, h)
    ensures PayloadsKept(m, m2, h1)
  {
    forall j: nat | j < |h1.used| ensures Kept(m, m2, h1.cuts[j] + HEADER, h1.cuts[j + 1]) {
      assert Kept(m, m1, h.cuts[j] + HEADER, h.cuts[j + 1]) && Kept(m1, m2, h.cuts[j] + HEADER, h.cuts[j + 1]);
    }
  }

  lemma CopyNone(m: Memory, src: nat, dst: nat)
    ensures OnlyWithin(m, m, dst, dst) && Moved(m, m, src, dst, 0)
  {
  }

  /** One more word of a copy between two places that do not overlap. */
  lemma CopyOne(m: Memory, m1: Memory, src: nat, dst: nat, k: nat, len: nat)
    requires m.Keys == Words() && OnlyWithin(m, m1, dst, dst + k) && Moved(m, m1, src, dst, k)
    requires src % 4 == 0 && k % 4 == 0 && k + 4 <= len && src + k in Words() && dst + k in Words()
    requires dst + len <= src || src + len <= dst
    ensures src + k in m1
    ensures var m2 := m1[dst + k := m1[src + k]];
            m2.Keys == Words() && OnlyWithin(m, m2, dst, dst + k + 4) && Moved(m, m2, src, dst, k + 4)
  {
    hide Words;
    var m2 := m1[dst + k := m1[src + k]];
    assert m2.Keys == m1.Keys;
    forall a: nat | src <= a < src + k + 4 && a in m ensures a - src + dst in m2 && m2[a - src + dst] == m[a] {
      NextWord(a, src + k);
    }
  }

  // What is kept, then kept or moved, in the words of the moves.

  lemma KeptIsMoved(m: Memory, m1: Memory, m2: Memory, p: nat, size: int, granted: int)
    requires Kept(m, m1, p, p + size) && Kept(m1, m2, p, p + granted)
    ensures Moved(m, m2, p, p, HeapRuns.Min(size, granted))
  {
  }

  lemma KeptOn(m: Memory, m1: Memory, m2: Memory, p: nat, size: int, size1: int)
    requires Kept(m, m1, p, p + size) && Kept(m1, m2, p, p + size1) && size <= size1
    ensures Kept(m, m2, p, p + size)
  {
  }

  lemma KeptThenMoved(m: Memory, m1: Memory, m2: Memory, p: nat, q: nat, size: int, size1: int)
    requires Kept(m, m1, p, p + size) && Moved(m1, m2, p, q, size1) && size <= size1
    ensures Moved(m, m2, p, q, size)
  {
  }

  lemma MovedThenKept(m: Memory, m1: Memory, m2: Memory, p: nat, q: nat, size: int, size1: int)
    requires Moved(m, m1, p, q, size) && Kept(m1, m2, q, q + size1) && size <= size1
    ensures Moved(m, m2, p, q, size)
  {
  }

  lemma OneKept(m: Memory, m1: Memory, h: Heap, p: nat, q: nat)
    requires h.Shape() && OthersKept(m, m1, h, p) && q in Table(h) && q != p
    ensures Kept(m, m1, q, q + Table(h)[q])
  {
  }

  lemma MovedLess(m: Memory, m1: Memory, p: nat, q: nat, len: int)
    requires Moved(m, m1, p, q, len)
    ensures forall less: int :: less <= len ==> Moved(m, m1, p, q, less)
  {
  }
}
