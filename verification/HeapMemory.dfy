/**
 How a block list lies in tile memory: 32-bit words addressed by their byte offset, with
 an 8-byte header (previous block, then size and three flags in one word) before every
 allocation. The lemmas say which word updates carry out an operation on the block list.
 */
module HeapMemory {
  import opened Basics
  import opened HeapModel

  type Word = w: int | 0 <= w < U32

  type Memory = map<nat, Word>

  const SIZE_BITS := 0x2000_0000

  /** The bit-fields of the second header word, from the least significant bit up. */
  datatype Fields = Fields(size: nat, inUse: bool, isLast: bool, host: bool)

  function Pack(f: Fields): Word
    requires f.size < SIZE_BITS
  {
    f.size
    + (if f.inUse then 0x2000_0000 else 0)
    + (if f.isLast then 0x4000_0000 else 0)
    + (if f.host then 0x8000_0000 else 0)
  }

  function Unpack(w: Word): (f: Fields)
    ensures f.size < SIZE_BITS && Pack(f) == w
  {
    Fields(w % 0x2000_0000, w / 0x2000_0000 % 2 == 1, w / 0x4000_0000 % 2 == 1, w / 0x8000_0000 == 1)
  }

  lemma PackInjective(f: Fields, g: Fields)
    requires f.size < SIZE_BITS && g.size < SIZE_BITS && Pack(f) == Pack(g)
    ensures f == g
  {
  }

  /** The size in the low 29 bits, then in_use, is_last and is_host_allocated. */
  lemma HeaderWords()
    ensures Pack(Fields(64, true, false, false)) == 0x2000_0040
    ensures Pack(Fields(64, false, true, false)) == 0x4000_0040
    ensures Pack(Fields(0x1FFF_FFFC, false, false, true)) == 0x9FFF_FFFC
  {
  }

  /** is_host_allocated is the top bit. */
  lemma HostBit(f: Fields)
    requires f.size < SIZE_BITS
    ensures Pack(f) >= 0x8000_0000 <==> f.host
  {
  }

  /** The top bit of the word at a is the same in m1. */
  ghost predicate SameTopBit(m: Memory, m1: Memory, a: nat) {
    a in m && a in m1 && (m1[a] >= 0x8000_0000 <==> m[a] >= 0x8000_0000)
  }

  ghost predicate TopBitsKept(m: Memory, m1: Memory) {
    forall a :: a in m ==> SameTopBit(m, m1, a)
  }

  /** Every block of h has the is_host_allocated it had. */
  ghost predicate FlagsKept(m: Memory, m1: Memory, h: Heap)
    requires |h.cuts| == |h.used| + 1
  {
    forall j: nat :: j < |h.used| ==> SameTopBit(m, m1, h.cuts[j] + 4)
  }

  /** The word holds these fields; whether the host allocated the block is left open. */
  ghost predicate Holds(w: Word, size: int, used: bool, last: bool) {
    0 <= size < SIZE_BITS && (w == Pack(Fields(size, used, last, false)) || w == Pack(Fields(size, used, last, true)))
  }

  lemma PackedHolds(f: Fields)
    requires f.size < SIZE_BITS
    ensures Holds(Pack(f), f.size, f.inUse, f.isLast)
  {
  }

  lemma HeldIsPacked(f: Fields, size: int, used: bool, last: bool)
    requires f.size < SIZE_BITS && Holds(Pack(f), size, used, last)
    ensures f.size == size && f.inUse == used && f.isLast == last
  {
    PackInjective(f, Fields(size, used, last, f.host));
  }

  ghost predicate HeaderAt(m: Memory, h: Heap, i: int)
    requires h.Shape()
  {
    0 <= i < |h.used| ==>
      && h.cuts[i] in m && m[h.cuts[i]] == (if i == 0 then 0 else h.cuts[i - 1])
      && h.cuts[i] + 4 in m && Holds(m[h.cuts[i] + 4], h.Size(i), h.used[i], i == |h.used| - 1)
  }

  ghost predicate Represents(m: Memory, h: Heap) {
    h.Shape() && forall i: int :: HeaderAt(m, h, i)
  }

  /** In memory, the last block and no other has is_last; next and prev undo each other. */
  lemma LinksAreInverse(m: Memory, h: Heap, i: nat)
    requires Represents(m, h) && i < |h.used|
    ensures h.cuts[i] in m && h.cuts[i] + 4 in m
    ensures var b, f := h.cuts[i], Unpack(m[h.cuts[i] + 4]);
            && (f.isLast <==> i == |h.used| - 1) && f.inUse == h.used[i]
            && (!f.isLast ==> b + HEADER + f.size == h.cuts[i + 1] && h.cuts[i + 1] in m && m[h.cuts[i + 1]] == b)
            && (f.isLast ==> b + HEADER + f.size == h.cuts[|h.used|])
    ensures var b := h.cuts[i]; var p := m[b];
            if i == 0 then p == 0
            else p == h.cuts[i - 1] && p + 4 in m && p + HEADER + Unpack(m[p + 4]).size == b
  {
    hide Unpack, Pack, Holds;
    assert HeaderAt(m, h, i) && HeaderAt(m, h, i + 1) && HeaderAt(m, h, i - 1);
    HeldIsPacked(Unpack(m[h.cuts[i] + 4]), h.Size(i), h.used[i], i == |h.used| - 1);
    if i > 0 {
      HeldIsPacked(Unpack(m[h.cuts[i - 1] + 4]), h.Size(i - 1), h.used[i - 1], false);
    }
  }

  /** The words in memory leave no choice of block list. */
  lemma MemoryDeterminesBlocks(m: Memory, h: Heap, h1: Heap)
    requires Represents(m, h) && Represents(m, h1) && h.cuts[0] == h1.cuts[0]
    ensures h == h1
  {
    if |h.used| <= |h1.used| {
      SamePrefix(m, h, h1, |h.used|);
      assert h.cuts == h1.cuts[..|h.cuts|];
    } else {
      SamePrefix(m, h1, h, |h1.used|);
    }
    assert |h.used| == |h1.used|;
    assert h.cuts == h1.cuts && h.used == h1.used;
  }

  lemma {:induction false} SamePrefix(m: Memory, h: Heap, h1: Heap, n: nat)
    requires Represents(m, h) && Represents(m, h1) && h.cuts[0] == h1.cuts[0] && n <= |h.used| <= |h1.used|
    ensures h.cuts[..n + 1] == h1.cuts[..n + 1] && h.used[..n] == h1.used[..n]
    ensures n == |h.used| ==> |h1.used| == n
  {
    if n > 0 {
      SamePrefix(m, h, h1, n - 1);
      assert h.cuts[n - 1] == h.cuts[..n][n - 1] == h1.cuts[..n][n - 1];
      LinksAreInverse(m, h, n - 1);
      LinksAreInverse(m, h1, n - 1);
    }
  }

  ghost predicate SameExcept(m: Memory, m1: Memory, w: set<nat>) {
    m1.Keys == m.Keys && forall a :: a in m && a !in w ==> m1[a] == m[a]
  }

  /** `fine` is `coarse` with one more cut after cut i; only the flags of block i and of the
      new block are left open. */
  ghost predicate OneMoreCut(coarse: Heap, fine: Heap, i: nat) {
    && coarse.Shape() && fine.Shape() && i < |coarse.used| && |fine.used| == |coarse.used| + 1
    && (forall j: int :: CutMaps(coarse, fine, i, j))
  }

  ghost predicate CutMaps(coarse: Heap, fine: Heap, i: nat, j: int)
    requires coarse.Shape() && fine.Shape() && |fine.used| == |coarse.used| + 1
  {
    && (0 <= j <= i && j < |coarse.cuts| ==> fine.cuts[j] == coarse.cuts[j])
    && (i < j < |coarse.cuts| ==> fine.cuts[j + 1] == coarse.cuts[j])
    && (0 <= j < i && j < |coarse.used| ==> fine.used[j] == coarse.used[j])
    && (i < j < |coarse.used| ==> fine.used[j + 1] == coarse.used[j])
  }

  /** Words changed when block i is cut in two or made whole again. */
  ghost function CutWords(coarse: Heap, fine: Heap, i: nat): set<nat>
    requires OneMoreCut(coarse, fine, i)
  {
    {coarse.cuts[i] + 4, fine.cuts[i + 1], fine.cuts[i + 1] + 4, coarse.cuts[i + 1]}
  }

  lemma CutOutside(coarse: Heap, fine: Heap, i: nat, j: nat)
    requires OneMoreCut(coarse, fine, i) && j < |coarse.used| && j != i
    ensures coarse.cuts[j] + 4 !in CutWords(coarse, fine, i)
    ensures j != i + 1 ==> coarse.cuts[j] !in CutWords(coarse, fine, i)
  {
    assert CutMaps(coarse, fine, i, j) && CutMaps(coarse, fine, i, i) && CutMaps(coarse, fine, i, i + 1);
    assert Gap(fine.cuts, j, i) && Gap(fine.cuts, j, i + 1) && Gap(fine.cuts, j, i + 2);
    assert Gap(fine.cuts, i, j + 1) && Gap(fine.cuts, i + 1, j + 1) && Gap(fine.cuts, i + 2, j + 1);
  }

  lemma SplitRepresents(m: Memory, m1: Memory, h: Heap, h1: Heap, i: nat)
    requires Represents(m, h) && OneMoreCut(h, h1, i) && SameExcept(m, m1, CutWords(h, h1, i)) && !h1.used[i + 1]
    requires h1.cuts[i + 1] in m1 && m1[h1.cuts[i + 1]] == h.cuts[i]
    requires h1.cuts[i + 1] + 4 in m1 && Holds(m1[h1.cuts[i + 1] + 4], h1.Size(i + 1), false, i == |h.used| - 1)
    requires h.cuts[i] + 4 in m1 && Holds(m1[h.cuts[i] + 4], h1.Size(i), h1.used[i], false)
    requires i + 1 < |h.used| ==> h.cuts[i + 1] in m1 && m1[h.cuts[i + 1]] == h1.cuts[i + 1]
    ensures Represents(m1, h1)
  {
    hide Holds;
    assert CutMaps(h, h1, i, i);
    forall j: int ensures HeaderAt(m1, h1, j) {
      if 0 <= j < |h1.used| {
        var k := if j <= i then j else j - 1;
        assert HeaderAt(m, h, k);
        assert CutMaps(h, h1, i, k) && CutMaps(h, h1, i, k - 1) && CutMaps(h, h1, i, k + 1);
        if k != i { CutOutside(h, h1, i, k); }
        assert Gap(h1.cuts, i, i + 1) && Gap(h1.cuts, i + 1, i + 2);
      }
    }
  }

  lemma MergeRepresents(m: Memory, m1: Memory, h: Heap, h1: Heap, i: nat)
    requires Represents(m, h) && OneMoreCut(h1, h, i) && SameExcept(m, m1, CutWords(h1, h, i))
    requires h.cuts[i] + 4 in m1 && Holds(m1[h.cuts[i] + 4], h1.Size(i), h1.used[i], i == |h1.used| - 1)
    requires i + 1 < |h1.used| ==> h1.cuts[i + 1] in m1 && m1[h1.cuts[i + 1]] == h.cuts[i]
    ensures Represents(m1, h1)
  {
    hide Holds;
    assert CutMaps(h1, h, i, i);
    forall j: int ensures HeaderAt(m1, h1, j) {
      if 0 <= j < |h1.used| {
        assert HeaderAt(m, h, if j <= i then j else j + 1);
        assert CutMaps(h1, h, i, j) && CutMaps(h1, h, i, j - 1) && CutMaps(h1, h, i, j + 1);
        if j != i { CutOutside(h1, h, i, j); }
        assert Gap(h.cuts, i, i + 1) && Gap(h.cuts, i + 1, i + 2);
      }
    }
  }

  lemma SetUsedRepresents(m: Memory, m1: Memory, h: Heap, i: nat, b: bool)
    requires Represents(m, h) && i < |h.used| && SameExcept(m, m1, {h.cuts[i] + 4})
    requires h.cuts[i] + 4 in m1 && Holds(m1[h.cuts[i] + 4], h.Size(i), b, i == |h.used| - 1)
    ensures Represents(m1, SetUsed(h, i, b))
  {
    hide Holds;
    var h1 := SetUsed(h, i, b);
    assert h1.Shape();
    forall j: int ensures HeaderAt(m1, h1, j) {
      assert HeaderAt(m, h, j) && Gap(h.cuts, i, j) && Gap(h.cuts, j, i);
    }
  }

  lemma SplitIsCut(h: Heap, i: nat, n: nat, b: bool)
    requires h.Shape() && i < |h.used| && h.Size(i) >= n + HEADER && Split(h, i, n).Shape()
    ensures OneMoreCut(h, SetUsed(Split(h, i, n), i, b), i)
  {
    var h1 := SetUsed(Split(h, i, n), i, b);
    forall j: int ensures CutMaps(h, h1, i, j) {
    }
  }

  lemma MergeIsCut(h: Heap, i: nat)
    requires h.Shape() && i + 1 < |h.used| && !h.used[i + 1] && MergeNext(h, i).Shape()
    ensures OneMoreCut(MergeNext(h, i), h, i)
  {
    var h1 := MergeNext(h, i);
    forall j: int ensures CutMaps(h1, h, i, j) {
    }
  }

  // ---------------------------------------------------------------- data of the allocations

  ghost function Words(): set<nat> {
    set a: nat | a < TILE_SIZE && a % 4 == 0
  }

  lemma IsWord(a: nat)
    requires a < TILE_SIZE && a % 4 == 0
    ensures a in Words()
  {
  }

  lemma NextWord(a: nat, b: nat)
    requires a in Words() && b % 4 == 0 && a < b + 4
    ensures a <= b
  {
  }

  ghost predicate Kept(m: Memory, m1: Memory, lo: int, hi: int) {
    forall a :: lo <= a < hi && a in m ==> a in m1 && m1[a] == m[a]
  }

  /** The bytes of every allocation of h, except the one at p, are the same in m1. */
  ghost predicate OthersKept(m: Memory, m1: Memory, h: Heap, p: nat)
    requires h.Shape()
  {
    forall q :: q in Table(h) && q != p ==> Kept(m, m1, q, q + Table(h)[q])
  }

  /** Every changed word is a header word of the finer heap. */
  lemma CutKeepsPayload(m: Memory, m1: Memory, coarse: Heap, fine: Heap, i: nat, j: nat)
    requires OneMoreCut(coarse, fine, i) && SameExcept(m, m1, CutWords(coarse, fine, i)) && j < |fine.used|
    ensures Kept(m, m1, fine.cuts[j] + HEADER, fine.cuts[j + 1])
  {
    assert CutMaps(coarse, fine, i, i) && CutMaps(coarse, fine, i, i + 1);
    assert Gap(fine.cuts, j + 1, i) && Gap(fine.cuts, j + 1, i + 1) && Gap(fine.cuts, j + 1, i + 2);
    assert Gap(fine.cuts, i, j) && Gap(fine.cuts, i + 1, j) && Gap(fine.cuts, i + 2, j);
  }

  /** No word between two headers of h changed. */
  ghost predicate PayloadsKept(m: Memory, m1: Memory, h: Heap)
    requires h.Shape()
  {
    forall j: nat :: j < |h.used| ==> Kept(m, m1, h.cuts[j] + HEADER, h.cuts[j + 1])
  }

  lemma CutKeepsPayloads(m: Memory, m1: Memory, coarse: Heap, fine: Heap, i: nat)
    requires OneMoreCut(coarse, fine, i) && SameExcept(m, m1, CutWords(coarse, fine, i))
    ensures PayloadsKept(m, m1, fine)
  {
    forall j: nat | j < |fine.used| ensures Kept(m, m1, fine.cuts[j] + HEADER, fine.cuts[j + 1]) {
      CutKeepsPayload(m, m1, coarse, fine, i, j);
    }
  }

  lemma FlagKeepsPayloads(m: Memory, m1: Memory, h: Heap, i: nat)
    requires h.Shape() && i < |h.used| && SameExcept(m, m1, {h.cuts[i] + 4})
    ensures PayloadsKept(m, m1, h)
  {
    forall j: nat | j < |h.used| ensures Kept(m, m1, h.cuts[j] + HEADER, h.cuts[j + 1]) {
      assert Gap(h.cuts, j + 1, i) && Gap(h.cuts, i, j);
    }
  }

  lemma PayloadsAreOthers(m: Memory, m1: Memory, h: Heap, p: nat)
    requires h.Shape() && PayloadsKept(m, m1, h)
    ensures OthersKept(m, m1, h, p)
  {
    forall q | q in Table(h) && q != p ensures Kept(m, m1, q, q + Table(h)[q]) {
      IndexIs(h, q);
    }
  }

  lemma KeptTwice(m: Memory, m1: Memory, m2: Memory, h: Heap, h1: Heap, p: nat)
    requires h.Shape() && h1.Shape() && OthersKept(m, m1, h, p) && OthersKept(m1, m2, h1, p)
    requires forall q :: q in Table(h) && q != p ==> q in Table(h1) && Table(h1)[q] == Table(h)[q]
    ensures OthersKept(m, m2, h, p)
  {
    hide Table;
    forall q | q in Table(h) && q != p ensures Kept(m, m2, q, q + Table(h)[q]) {
      assert Kept(m, m1, q, q + Table(h)[q]) && Kept(m1, m2, q, q + Table(h)[q]);
    }
  }

  lemma OthersThrough(m: Memory, m1: Memory, h: Heap, h1: Heap, p: nat)
    requires h.Shape() && h1.Shape() && OthersKept(m, m1, h1, 0)
    requires forall q :: q in Table(h) && q != p ==> q in Table(h1) && Table(h1)[q] == Table(h)[q]
    ensures OthersKept(m, m1, h, p)
  {
    hide Table;
    forall q | q in Table(h) && q != p ensures Kept(m, m1, q, q + Table(h)[q]) {
      IndexPositive(h1, q);
    }
  }

  lemma IndexPositive(h: Heap, p: nat)
    requires h.Shape() && p in Table(h)
    ensures p > 0
  {
    IndexIs(h, p);
  }

  /** The len bytes at p in m are now the len bytes at q in m1. */
  ghost predicate Moved(m: Memory, m1: Memory, p: nat, q: nat, len: int) {
    forall a :: p <= a < p + len && a in m ==> a - p + q in m1 && m1[a - p + q] == m[a]
  }

  /** Only words from lo up to hi changed. */
  ghost predicate OnlyWithin(m: Memory, m1: Memory, lo: int, hi: int) {
    m1.Keys == m.Keys && forall a :: a in m && !(lo <= a < hi) ==> m1[a] == m[a]
  }

  /** Writing inside one allocation disturbs no header and no other allocation. */
  lemma WriteInsideKeeps(m: Memory, m1: Memory, h: Heap, i: nat)
    requires h.Wf() && Represents(m, h) && i < |h.used| && OnlyWithin(m, m1, h.cuts[i] + HEADER, h.cuts[i + 1])
    ensures Represents(m1, h) && OthersKept(m, m1, h, h.cuts[i] + HEADER)
  {
    hide Holds;
    forall j: int ensures HeaderAt(m1, h, j) {
      assert HeaderAt(m, h, j) && Gap(h.cuts, j, i) && Gap(h.cuts, i + 1, j);
    }
    forall q | q in Table(h) && q != h.cuts[i] + HEADER ensures Kept(m, m1, q, q + Table(h)[q]) {
      IndexIs(h, q);
      var j := IndexOf(h, q, 0);
      assert Gap(h.cuts, i + 1, j) && Gap(h.cuts, j + 1, i);
    }
  }

  // ---------------------------------------------------------------- the stores of an operation

  /** The stores of split: the new header, the back link behind it, then the old header. */
  function SplitStores(m: Memory, bh: nat, n: nat, f: Fields, g: Fields): Memory
    requires bh + HEADER + n < U32 && f.size < SIZE_BITS && g.size < SIZE_BITS
  {
    var x := bh + HEADER + n;
    var m1 := m[x + 4 := Pack(g)][x := bh];
    var m2 := if g.isLast then m1 else m1[x + HEADER + g.size := x];
    m2[bh + 4 := Pack(f)]
  }

  lemma SplitStoresAreRight(m: Memory, h: Heap, i: nat, n: nat, f: Fields, g: Fields)
    requires h.Wf() && Represents(m, h) && m.Keys == Words() && i < |h.used| && n % ALIGN == 0 &&
             h.Size(i) >= n + HEADER
    requires f.size == n && !f.isLast
    requires g.size == h.Size(i) - n - HEADER && !g.inUse && g.isLast == (i == |h.used| - 1)
    ensures f.size < SIZE_BITS && g.size < SIZE_BITS && h.cuts[i] + HEADER + n < U32
    ensures var m1, h1 := SplitStores(m, h.cuts[i], n, f, g), SetUsed(Split(h, i, n), i, f.inUse);
            && h1.Wf() && Represents(m1, h1) && h1.cuts[0] == h.cuts[0]
            && m1.Keys == m.Keys && PayloadsKept(m, m1, h1)
  {
    var h1 := SetUsed(Split(h, i, n), i, f.inUse);
    SplitKeepsWf(h, i, n);
    SplitIsCut(h, i, n, f.inUse);
    SplitBlock(h, i, n, i);
    SplitBlock(h, i, n, i + 1);
    SplitLands(m, h, h1, i, n, f, g);
    CutKeepsPayloads(m, SplitStores(m, h.cuts[i], n, f, g), h, h1, i);
  }

  lemma SplitKeepsFlags(m: Memory, h: Heap, i: nat, n: nat, f: Fields, g: Fields)
    requires h.Wf() && Represents(m, h) && i < |h.used| && h.Size(i) >= n + HEADER
    requires g.size == h.Size(i) - n - HEADER < SIZE_BITS && f.size < SIZE_BITS && h.cuts[i] + HEADER + n < U32
    requires h.cuts[i] + 4 in m && (f.host <==> m[h.cuts[i] + 4] >= 0x8000_0000)
    ensures FlagsKept(m, SplitStores(m, h.cuts[i], n, f, g), h)
  {
    hide Pack, Holds;
    HostBit(f);
    forall j: nat | j < |h.used| ensures SameTopBit(m, SplitStores(m, h.cuts[i], n, f, g), h.cuts[j] + 4) {
      assert HeaderAt(m, h, j) && Gap(h.cuts, j, i) && Gap(h.cuts, i, j);
      assert Gap(h.cuts, i + 1, j) && Gap(h.cuts, j, i + 1);
    }
  }

  lemma SplitKeepsFlag(h: Heap, i: nat, n: nat)
    requires h.Shape() && i < |h.used| && h.Size(i) >= n + HEADER
    ensures SetUsed(Split(h, i, n), i, h.used[i]) == Split(h, i, n)
  {
    SplitBlock(h, i, n, i);
  }

  lemma SplitLands(m: Memory, h: Heap, h1: Heap, i: nat, n: nat, f: Fields, g: Fields)
    requires h.Wf() && Represents(m, h) && m.Keys == Words() && i < |h.used| && n % ALIGN == 0
    requires h1.Wf() && OneMoreCut(h, h1, i) && h1.cuts[i + 1] == h.cuts[i] + HEADER + n && h1.used[i] == f.inUse &&
             !h1.used[i + 1]
    requires f.size == n && !f.isLast && g.size == h1.Size(i + 1) && !g.inUse && g.isLast == (i == |h.used| - 1)
    ensures f.size < SIZE_BITS && g.size < SIZE_BITS && h.cuts[i] + HEADER + n < U32
    ensures var m1 := SplitStores(m, h.cuts[i], n, f, g);
            Represents(m1, h1) && SameExcept(m, m1, CutWords(h, h1, i))
  {
    hide Words, Pack, Holds;
    var x := h1.cuts[i + 1];
    assert CutMaps(h, h1, i, i) && CutMaps(h, h1, i, i + 1);
    assert Gap(h1.cuts, i, i + 1) && Gap(h1.cuts, i + 1, i + 2) && Gap(h1.cuts, i + 2, |h1.used|) && Gap(h1.cuts, 0, i);
    assert AlignedAt(h1.cuts, i + 1);
    IsWord(x);
    IsWord(x + 4);
    PackedHolds(f);
    PackedHolds(g);
    assert HeaderAt(m, h, i) && HeaderAt(m, h, i + 1);
    var m1 := SplitStores(m, h.cuts[i], n, f, g);
    assert m1[x] == h.cuts[i] && m1[x + 4] == Pack(g) && m1[h.cuts[i] + 4] == Pack(f);
    assert SameExcept(m, m1, CutWords(h, h1, i));
    SplitRepresents(m, m1, h, h1, i);
  }

  /** The stores of try_merge_next: the wider header, then the back link behind it. */
  function MergeStores(m: Memory, bh: nat, f: Fields): Memory
    requires bh < U32 && f.size < SIZE_BITS
  {
    var m1 := m[bh + 4 := Pack(f)];
    if f.isLast then m1 else m1[bh + HEADER + f.size := bh]
  }

  lemma MergeStoresAreRight(m: Memory, h: Heap, i: nat, f: Fields)
    requires h.Wf() && Represents(m, h) && i + 1 < |h.used| && !h.used[i + 1]
    requires f.size == h.Size(i) + HEADER + h.Size(i + 1) && f.inUse == h.used[i] && f.isLast == (i + 1 == |h.used| - 1)
    ensures f.size < SIZE_BITS && h.cuts[i] < U32
    ensures var m1, h1 := MergeStores(m, h.cuts[i], f), MergeNext(h, i);
            && h1.Wf() && Represents(m1, h1) && h1.cuts[0] == h.cuts[0]
            && m1.Keys == m.Keys && PayloadsKept(m, m1, h)
  {
    MergeKeepsWf(h, i);
    MergeIsCut(h, i);
    MergeBlock(h, i, i);
    MergeLands(m, h, MergeNext(h, i), i, f);
    CutKeepsPayloads(m, MergeStores(m, h.cuts[i], f), MergeNext(h, i), h, i);
  }

  lemma MergeLands(m: Memory, h: Heap, h1: Heap, i: nat, f: Fields)
    requires h.Wf() && Represents(m, h) && h1.Wf() && OneMoreCut(h1, h, i) && h1.used[i] == f.inUse
    requires f.size == h1.Size(i) && f.isLast == (i == |h1.used| - 1)
    ensures f.size < SIZE_BITS && h.cuts[i] < U32
    ensures var m1 := MergeStores(m, h.cuts[i], f);
            Represents(m1, h1) && SameExcept(m, m1, CutWords(h1, h, i))
  {
    hide Pack, Holds;
    assert CutMaps(h1, h, i, i) && CutMaps(h1, h, i, i + 1);
    assert Gap(h1.cuts, i, i + 1) && Gap(h1.cuts, i + 1, |h1.used|);
    assert HeaderAt(m, h, i) && HeaderAt(m, h, i + 2);
    var m1 := MergeStores(m, h.cuts[i], f);
    PackedHolds(f);
    assert m1[h.cuts[i] + 4] == Pack(f);
    MergeRepresents(m, m1, h, h1, i);
  }
}
