/**
 Objects of any size sent over a stream or cascade connection whose transfers have a fixed
 size: whole blocks, then one last block padded with zeros.
 */
module Stream {
  import opened Basics

  type Byte = x: int | 0 <= x < 256 witness 0
  type Block = seq<Byte>

  // ---------------------------------------------------------------- the encoding

  function Zeros(n: nat): (z: Block)
    ensures |z| == n && forall i :: 0 <= i < n ==> z[i] == 0
  {
    seq(n, _ => 0)
  }

  /** Blocks that carry an object. */
  function Blocks(bytes: seq<Byte>, f: nat): seq<Block>
    requires f > 0
    decreases |bytes|
  {
    if |bytes| == 0 then []
    else if |bytes| < f then [bytes + Zeros(f - |bytes|)]
    else [bytes[..f]] + Blocks(bytes[f..], f)
  }

  /** Transfers needed for an object of this size. */
  function BlockCount(size: nat, f: nat): nat
    requires f > 0
  {
    if size == 0 then 0 else if size < f then 1 else 1 + BlockCount(size - f, f)
  }

  ghost predicate AllOfSize(blocks: seq<Block>, f: nat) {
    forall k :: 0 <= k < |blocks| ==> |blocks[k]| == f
  }

  /** The object of a given size at the front of a stream. */
  function Unblocks(blocks: seq<Block>, size: nat, f: nat): (bytes: seq<Byte>)
    requires f > 0 && AllOfSize(blocks, f) && BlockCount(size, f) <= |blocks|
    ensures |bytes| == size
    decreases size
  {
    if size == 0 then []
    else if size < f then blocks[0][..size]
    else blocks[0] + Unblocks(blocks[1..], size - f, f)
  }

  lemma {:induction false} BlocksHaveSize(bytes: seq<Byte>, f: nat)
    requires f > 0
    ensures AllOfSize(Blocks(bytes, f), f) && |Blocks(bytes, f)| == BlockCount(|bytes|, f)
    decreases |bytes|
  {
    if |bytes| >= f { BlocksHaveSize(bytes[f..], f); }
  }

  /** Block k carries the bytes from k f on; behind the end of the object it is filled up with
      zeros. */
  lemma BlockIs(bytes: seq<Byte>, f: nat, k: nat, i: nat)
    requires f > 0 && k < |Blocks(bytes, f)| && i < f
    ensures |Blocks(bytes, f)[k]| == f
    ensures Blocks(bytes, f)[k][i] == if k * f + i < |bytes| then bytes[k * f + i] else 0
  {
    BlockFrom(bytes, f, k, k * f, i);
  }

  lemma {:induction false} BlockFrom(bytes: seq<Byte>, f: nat, k: nat, at: nat, i: nat)
    requires f > 0 && k < |Blocks(bytes, f)| && i < f && at == k * f
    ensures |Blocks(bytes, f)[k]| == f
    ensures Blocks(bytes, f)[k][i] == if at + i < |bytes| then bytes[at + i] else 0
    decreases |bytes|
  {
    if k > 0 {
      PreviousBlock(k, f, at);
      BlockFrom(bytes[f..], f, k - 1, at - f, i);
      assert Blocks(bytes, f)[k] == Blocks(bytes[f..], f)[k - 1];
    } else {
      assert at == 0;
    }
  }

  lemma PreviousBlock(k: nat, f: nat, at: nat)
    requires k > 0 && at == k * f
    ensures at - f == (k - 1) * f && at >= f
  {
  }

  /** BlockCount is the size divided by the block size, rounded up. */
  lemma {:induction false} BlockCountIsTight(size: nat, f: nat)
    requires f > 0
    ensures size <= BlockCount(size, f) * f < size + f
  {
    if size >= f { BlockCountIsTight(size - f, f); }
  }

  lemma {:induction false} ObjectRoundTrip(bytes: seq<Byte>, rest: seq<Block>, f: nat)
    requires f > 0 && AllOfSize(rest, f)
    ensures AllOfSize(Blocks(bytes, f) + rest, f) && |Blocks(bytes, f)| == BlockCount(|bytes|, f)
    ensures Unblocks(Blocks(bytes, f) + rest, |bytes|, f) == bytes
    decreases |bytes|
  {
    BlocksHaveSize(bytes, f);
    if |bytes| >= f {
      ObjectRoundTrip(bytes[f..], rest, f);
      assert (Blocks(bytes, f) + rest)[1..] == Blocks(bytes[f..], f) + rest;
    }
  }

  // ---------------------------------------------------------------- many objects

  /** Blocks of objects sent one after another. */
  function Encode(objects: seq<seq<Byte>>, f: nat): seq<Block>
    requires f > 0
  {
    if objects == [] then [] else Blocks(objects[0], f) + Encode(objects[1..], f)
  }

  function TotalCount(sizes: seq<nat>, f: nat): nat
    requires f > 0
  {
    if sizes == [] then 0 else BlockCount(sizes[0], f) + TotalCount(sizes[1..], f)
  }

  /** Objects received, each read with the size its type has. */
  function Decode(blocks: seq<Block>, sizes: seq<nat>, f: nat): seq<seq<Byte>>
    requires f > 0 && AllOfSize(blocks, f) && TotalCount(sizes, f) <= |blocks|
    decreases |sizes|
  {
    if sizes == [] then []
    else [Unblocks(blocks, sizes[0], f)] + Decode(blocks[BlockCount(sizes[0], f)..], sizes[1..], f)
  }

  function Sizes(objects: seq<seq<Byte>>): seq<nat> {
    seq(|objects|, k requires 0 <= k < |objects| => |objects[k]|)
  }

  /** Reading back the same sizes recovers every object and consumes exactly the blocks
      written, whatever follows them in the stream. */
  lemma {:induction false} StreamRoundTrip(objects: seq<seq<Byte>>, rest: seq<Block>, f: nat)
    requires f > 0 && AllOfSize(rest, f)
    ensures AllOfSize(Encode(objects, f) + rest, f) && |Encode(objects, f)| == TotalCount(Sizes(objects), f)
    ensures Decode(Encode(objects, f) + rest, Sizes(objects), f) == objects
    decreases |objects|
  {
    if objects != [] {
      var tail := Encode(objects[1..], f) + rest;
      StreamRoundTrip(objects[1..], rest, f);
      ObjectRoundTrip(objects[0], tail, f);
      assert Sizes(objects)[1..] == Sizes(objects[1..]);
      assert Encode(objects, f) + rest == Blocks(objects[0], f) + tail;
      assert (Blocks(objects[0], f) + tail)[BlockCount(|objects[0]|, f)..] == tail;
    }
  }

  // ---------------------------------------------------------------- the loops

  /** A connection between two tiles: a FIFO of blocks. */
  class Channel {
    const f: nat
    var blocks: seq<Block>

    ghost predicate Valid()
      reads this
    {
      0 < f < U32 && AllOfSize(blocks, f)
    }

    constructor (f: nat)
      requires 0 < f < U32
      ensures Valid() && this.f == f && blocks == []
    {
      this.f := f;
      blocks := [];
    }

    /** One write of the fixed size. */
    method Put(block: Block)
      requires Valid() && |block| == f
      modifies this
      ensures Valid() && blocks == old(blocks) + [block]
    {
      blocks := blocks + [block];
    }

    /** One read of the fixed size, once a block has arrived. */
    method Take() returns (block: Block)
      requires Valid() && blocks != []
      modifies this
      ensures Valid() && [block] + blocks == old(blocks) && |block| == f
    {
      block := blocks[0];
      blocks := blocks[1..];
    }

    /** stream_write: any number of bytes, in fixed-size writes. Not `inside` is where the
        source goes on with bytes behind the object; the model stops there. */
    method WriteObject(src: array<Byte>, at: nat, size: nat) returns (inside: bool)
      requires Valid() && at + size <= src.Length && size < U32
      modifies this
      ensures Valid() && (inside <==> GuardIsRight(size, f))
      ensures inside ==> blocks == old(blocks) + Blocks(src[at..at + size], f)
    {
      hide GuardIsRight, Wrap32, AtBlock;
      ghost var bytes := src[at..at + size];
      var idx := 0;
      GuardMeans(idx, size, f);
      assert bytes[0..] == bytes;
      while Wrap32(idx + f) <= size
        invariant idx <= size && AtBlock(idx, f)
        invariant Valid() && blocks + Blocks(bytes[idx..], f) == old(blocks) + Blocks(bytes, f)
        decreases size - idx
      {
        GuardMeans(idx, size, f);
        if idx + f > size {
          return false;
        }
        assert bytes[idx..][..f] == src[at + idx..at + idx + f];
        assert bytes[idx..][f..] == bytes[idx + f..];
        Put(src[at + idx..at + idx + f]);
        NextBlock(idx, f);
        idx := idx + f;
      }
      GuardMeans(idx, size, f);
      if idx < size {
        var buffer := src[at + idx..at + size] + Zeros(f - (size - idx));
        assert bytes[idx..] == src[at + idx..at + size];
        Put(buffer);
      }
      inside := true;
    }

    /** stream_read: fills exactly the object, through a buffer for the last partial block. */
    method ReadObject(dst: array<Byte>, at: nat, size: nat) returns (inside: bool)
      requires Valid() && at + size <= dst.Length && size < U32
      requires BlockCount(size, f) <= |blocks|
      modifies this, dst
      ensures Valid() && (inside <==> GuardIsRight(size, f))
      ensures inside ==> blocks == old(blocks)[BlockCount(size, f)..]
      ensures inside ==> dst[..] == Patched(old(dst[..]), at, Unblocks(old(blocks), size, f))
      ensures dst[..at] == old(dst[..at]) && dst[at + size..] == old(dst[at + size..])
    {
      hide GuardIsRight, Wrap32, AtBlock, Unblocks, BlockCount, ReadSoFar, Patched;
      ghost var was, got := dst[..], [];
      var idx := 0;
      GuardMeans(idx, size, f);
      ReadNothing(blocks, size, f);
      StoreNothing(was, at);
      while Wrap32(idx + f) <= size
        invariant |got| == idx <= size && AtBlock(idx, f)
        invariant Valid() && ReadSoFar(old(blocks), blocks, got, size, f)
        invariant dst[..] == Patched(was, at, got)
        decreases size - idx
      {
        GuardMeans(idx, size, f);
        if idx + f > size {
          PatchedKeeps(was, at, got, size, dst[..]);
          return false;
        }
        ReadNext(old(blocks), blocks, got, size, f);
        var block := Take();
        StoreNext(was, at, got, block);
        Store(dst, at + idx, block);
        got := got + block;
        NextBlock(idx, f);
        idx := idx + f;
      }
      GuardMeans(idx, size, f);
      if idx < size {
        ReadNext(old(blocks), blocks, got, size, f);
        var buffer := Take();
        StoreNext(was, at, got, buffer[..size - idx]);
        Store(dst, at + idx, buffer[..size - idx]);
        got := got + buffer[..size - idx];
      }
      ReadAll(old(blocks), blocks, got, size, f);
      PatchedKeeps(was, at, got, size, dst[..]);
      inside := true;
    }
  }

  /** After `got` bytes, the rest of the object is at the front of `blocks`. */
  ghost predicate ReadSoFar(start: seq<Block>, blocks: seq<Block>, got: seq<Byte>, size: nat, f: nat)
    requires f > 0 && AllOfSize(start, f) && AllOfSize(blocks, f)
  {
    && |got| <= size && BlockCount(size, f) <= |start| && BlockCount(size - |got|, f) <= |blocks|
    && start[BlockCount(size, f)..] == blocks[BlockCount(size - |got|, f)..]
    && got + Unblocks(blocks, size - |got|, f) == Unblocks(start, size, f)
  }

  lemma ReadNothing(start: seq<Block>, size: nat, f: nat)
    requires f > 0 && AllOfSize(start, f) && BlockCount(size, f) <= |start|
    ensures ReadSoFar(start, start, [], size, f)
  {
    hide Unblocks, BlockCount;
    assert [] + Unblocks(start, size, f) == Unblocks(start, size, f);
  }

  lemma ReadNext(start: seq<Block>, blocks: seq<Block>, got: seq<Byte>, size: nat, f: nat)
    requires f > 0 && AllOfSize(start, f) && AllOfSize(blocks, f)
    requires ReadSoFar(start, blocks, got, size, f) && |got| < size
    ensures blocks != []
    ensures var n := if size - |got| < f then size - |got| else f;
            ReadSoFar(start, blocks[1..], got + blocks[0][..n], size, f) && (n == f ==> blocks[0][..n] == blocks[0])
  {
    if size - |got| >= f {
      var more := Unblocks(blocks[1..], size - |got| - f, f);
      assert got + (blocks[0] + more) == got + blocks[0] + more;
    }
  }

  lemma ReadAll(start: seq<Block>, blocks: seq<Block>, got: seq<Byte>, size: nat, f: nat)
    requires f > 0 && AllOfSize(start, f) && AllOfSize(blocks, f)
    requires ReadSoFar(start, blocks, got, size, f) && |got| == size
    ensures BlockCount(size, f) <= |start| && blocks == start[BlockCount(size, f)..] && got == Unblocks(start, size, f)
  {
  }

  /** `bytes` written over part of s, and nothing else changed. */
  ghost function Patched(s: seq<Byte>, at: nat, bytes: seq<Byte>): (p: seq<Byte>)
    requires at + |bytes| <= |s|
    ensures |p| == |s|
  {
    s[..at] + bytes + s[at + |bytes|..]
  }

  /** memcpy into part of an array. */
  method Store(dst: array<Byte>, at: nat, bytes: seq<Byte>)
    requires at + |bytes| <= dst.Length
    modifies dst
    ensures dst[..] == Patched(old(dst[..]), at, bytes)
  {
    forall k | 0 <= k < |bytes| { dst[at + k] := bytes[k]; }
  }

  lemma PatchedKeeps(was: seq<Byte>, at: nat, got: seq<Byte>, size: nat, now: seq<Byte>)
    requires |got| <= size && at + size <= |was| && now == Patched(was, at, got)
    ensures |now| == |was| && now[..at] == was[..at] && now[at + size..] == was[at + size..]
  {
  }

  lemma StoreNothing(was: seq<Byte>, at: nat)
    requires at <= |was|
    ensures Patched(was, at, []) == was
  {
  }

  lemma StoreNext(was: seq<Byte>, at: nat, got: seq<Byte>, more: seq<Byte>)
    requires at + |got| + |more| <= |was|
    ensures Patched(Patched(was, at, got), at + |got|, more) == Patched(was, at, got + more)
  {
    var s, i := Patched(was, at, got), at + |got|;
    assert s[..i] == was[..at] + got;
    assert s[i + |more|..] == was[i + |more|..];
  }

  // ---------------------------------------------------------------- the 32-bit loop guard

  /** The blocks that cover the object end below the unsigned limit. */
  predicate GuardIsRight(size: nat, f: nat)
    requires f > 0
  {
    size / f * f + f < U32
  }

  lemma StartsInside(q: nat, size: nat, f: nat)
    requires f > 0
    ensures q * f <= size <==> q <= size / f
  {
    var n := size / f;
    if q <= n {
      Scale(q, n, f);
    } else {
      Scale(n + 1, q, f);
      assert (n + 1) * f == n * f + f;
    }
  }

  /** The block at q is the last that starts within the object. */
  lemma LastBlock(q: nat, size: nat, f: nat)
    requires f > 0
    ensures q * f <= size < q * f + f <==> q == size / f
    ensures q * f <= size ==> q * f <= size / f * f
  {
    StartsInside(q, size, f);
    StartsInside(q + 1, size, f);
    assert (q + 1) * f == q * f + f;
    if q <= size / f { Scale(q, size / f, f); }
  }

  ghost predicate AtBlock(idx: nat, f: nat)
    requires f > 0
  {
    idx % f == 0
  }

  lemma NextBlock(idx: nat, f: nat)
    requires f > 0 && AtBlock(idx, f)
    ensures AtBlock(idx + f, f)
  {
    var q := idx / f;
    LastBlock(q + 1, idx + f, f);
    assert (q + 1) * f == q * f + f;
  }

  /** At the start of a block within the object, the guard lets the block through if it fits,
      and otherwise exactly when the blocks reach the unsigned limit. */
  lemma GuardMeans(idx: nat, size: nat, f: nat)
    requires 0 < f < U32 && idx <= size < U32
    ensures AtBlock(0, f)
    ensures idx + f <= size ==> Wrap32(idx + f) <= size
    ensures AtBlock(idx, f) && idx + f > size ==> (Wrap32(idx + f) <= size <==> !GuardIsRight(size, f))
  {
    if AtBlock(idx, f) && idx + f > size { LastFits(idx, size, f); }
    hide GuardIsRight, AtBlock;
    assert AtBlock(0, f) by { FirstBlock(f); }
  }

  lemma FirstBlock(f: nat)
    requires f > 0
    ensures AtBlock(0, f)
  {
  }

  lemma LastFits(idx: nat, size: nat, f: nat)
    requires f > 0 && AtBlock(idx, f) && idx <= size < idx + f
    ensures GuardIsRight(size, f) <==> idx + f < U32
  {
    LastBlock(idx / f, size, f);
  }

  /** Without that, and only then, the guard admits a block that does not fit in the rest of
      the object. */
  lemma GuardOverrunsIff(size: nat, f: nat)
    requires 0 < f < U32 && size < U32
    ensures (exists q: nat :: q * f <= size < q * f + f && Wrap32(q * f + f) <= size) <==> !GuardIsRight(size, f)
  {
    var n := size / f;
    forall q: nat ensures q * f <= size < q * f + f <==> q == n { LastBlock(q, size, f); }
    assert n * f <= size < n * f + f;
    if !GuardIsRight(size, f) {
      assert Wrap32(n * f + f) == n * f + f - U32;
    }
  }

  /** The smallest such size for 16-byte blocks: the last block starts inside the object and
      ends behind it, and the guard compares 0 with the size. */
  lemma LargeObjectOverruns()
    ensures var size, q := U32 - 16, 0x0FFF_FFFF;
            q * 16 <= size < q * 16 + 16 && Wrap32(q * 16 + 16) == 0 && !GuardIsRight(size, 16) &&
              GuardIsRight(size - 1, 16)
  {
  }

  // ---------------------------------------------------------------- two tiles

  /** Writer and reader running at the same time over the connection. */
  datatype Link = Link(put: seq<Block>, queue: seq<Block>, taken: seq<Block>)

  ghost predicate LinkStep(s: Link, t: Link) {
    || (exists b: Block :: t == s.(put := s.put + [b], queue := s.queue + [b]))
    || (s.queue != [] && t == s.(queue := s.queue[1..], taken := s.taken + [s.queue[0]]))
  }

  ghost predicate LinkRun(run: seq<Link>) {
    && run != [] && run[0] == Link([], [], [])
    && forall k :: 0 <= k < |run| - 1 ==> LinkStep(run[k], run[k + 1])
  }

  lemma {:induction false} NothingLost(run: seq<Link>)
    requires LinkRun(run)
    ensures var s := run[|run| - 1]; s.taken + s.queue == s.put
    decreases |run|
  {
    if |run| > 1 {
      var n := |run| - 1;
      NothingLost(run[..n]);
      assert LinkStep(run[n - 1], run[n]);
      var s, t := run[n - 1], run[n];
      if s.queue != [] && t == s.(queue := s.queue[1..], taken := s.taken + [s.queue[0]]) {
        assert s.queue == [s.queue[0]] + s.queue[1..];
      }
    }
  }

  lemma {:induction false} EncodeAppend(a: seq<seq<Byte>>, b: seq<seq<Byte>>, f: nat)
    requires f > 0
    ensures Encode(a + b, f) == Encode(a, f) + Encode(b, f)
    decreases |a|
  {
    if a == [] {
      assert a + b == b;
    } else {
      EncodeAppend(a[1..], b, f);
      assert (a + b)[1..] == a[1..] + b;
    }
  }

  lemma EncodeOne(obj: seq<Byte>, f: nat)
    requires f > 0
    ensures Encode([obj], f) == Blocks(obj, f)
  {
    assert Encode([obj][1..], f) == [];
  }

  /** However the two tiles interleave, and however much the writer still has to send, once the
      reader has the blocks of n objects it has the writer's first n objects. */
  lemma ReaderGetsWriterObjects(run: seq<Link>, objects: seq<seq<Byte>>, later: seq<Block>, n: nat, f: nat)
    requires f > 0 && LinkRun(run) && n <= |objects|
    requires run[|run| - 1].put + later == Encode(objects, f)
    requires TotalCount(Sizes(objects[..n]), f) <= |run[|run| - 1].taken|
    ensures AllOfSize(run[|run| - 1].taken, f)
    ensures Decode(run[|run| - 1].taken, Sizes(objects[..n]), f) == objects[..n]
  {
    var s := run[|run| - 1];
    NothingLost(run);
    assert s.taken + (s.queue + later) == Encode(objects, f);
    PrefixDecodes(s.taken, s.queue + later, objects, n, f);
  }

  lemma PrefixDecodes(taken: seq<Block>, later: seq<Block>, objects: seq<seq<Byte>>, n: nat, f: nat)
    requires f > 0 && n <= |objects| && taken + later == Encode(objects, f)
    requires TotalCount(Sizes(objects[..n]), f) <= |taken|
    ensures AllOfSize(taken, f)
    ensures Decode(taken, Sizes(objects[..n]), f) == objects[..n]
  {
    hide Encode, Decode, TotalCount, Sizes, Blocks;
    var all, first := Encode(objects, f), Encode(objects[..n], f);
    var rest := taken[|first|..] by { StreamRoundTrip(objects[..n], [], f); }
    assert AllOfSize(taken, f) by {
      StreamRoundTrip(objects, [], f);
      assert all + [] == all;
      assert taken == all[..|taken|];
    }
    assert taken == first + rest by {
      assert objects == objects[..n] + objects[n..];
      EncodeAppend(objects[..n], objects[n..], f);
      assert first == all[..|first|];
      assert taken[..|first|] == all[..|first|];
    }
    StreamRoundTrip(objects[..n], rest, f);
  }
}
