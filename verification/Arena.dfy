/** The bump-pointer arena. Every range handed out since the last reset lies inside one of the
    blocks, none overlaps another, and each starts at an aligned offset. */
module Arenas {
  import opened Bits

  /** The largest size of an object, half the address space. */
  const MAX_OBJECT: nat := SIZE_MODULUS / 2 - 1

  /** Storage handed out: `bytes` bytes of a block from `offset`. */
  datatype Range = Range(block: array<bv8>, offset: nat, bytes: nat)

  predicate Inside(r: Range) {
    r.offset + r.bytes <= r.block.Length
  }

  predicate Disjoint(a: Range, b: Range) {
    a.block != b.block || a.offset + a.bytes <= b.offset || b.offset + b.bytes <= a.offset
  }

  /** The bytes of a range. */
  function Contents(r: Range): seq<bv8>
    requires Inside(r)
    reads r.block
  {
    r.block[r.offset..r.offset + r.bytes]
  }

  /** memset to zero. */
  method Clear(block: array<bv8>, offset: nat, bytes: nat)
    requires offset + bytes <= block.Length
    modifies block
    ensures forall q :: offset <= q < offset + bytes ==> block[q] == 0
    ensures forall q :: 0 <= q < offset || offset + bytes <= q < block.Length ==> block[q] == old(block[q])
  {
    for i := 0 to bytes
      invariant forall q :: offset <= q < offset + i ==> block[q] == 0
      invariant forall q :: 0 <= q < offset || offset + i <= q < block.Length ==> block[q] == old(block[q])
    {
      block[offset + i] := 0;
    }
  }

  datatype Pointer = Null | At(range: Range)

  function TotalTo(blocks: seq<array<bv8>>, k: nat): nat
    requires k <= |blocks|
  {
    if k == 0 then 0 else TotalTo(blocks, k - 1) + blocks[k - 1].Length
  }

  function BytesTo(live: seq<Range>, k: nat): nat
    requires k <= |live|
  {
    if k == 0 then 0 else BytesTo(live, k - 1) + live[k - 1].bytes
  }

  lemma {:induction false} TotalPrefix(a: seq<array<bv8>>, b: seq<array<bv8>>, k: nat)
    requires k <= |a| && a <= b
    ensures TotalTo(a, k) == TotalTo(b, k)
  {
    if k > 0 { TotalPrefix(a, b, k - 1); }
  }

  lemma {:induction false} BytesPrefix(a: seq<Range>, b: seq<Range>, k: nat)
    requires k <= |a| && a <= b
    ensures BytesTo(a, k) == BytesTo(b, k)
  {
    if k > 0 { BytesPrefix(a, b, k - 1); }
  }

  predicate DistinctBlocks(blocks: seq<array<bv8>>) {
    forall i, j :: 0 <= i < j < |blocks| ==> blocks[i] != blocks[j]
  }

  /** Every range is inside one of the blocks, below `used` if that is the last one, and no two
      overlap. */
  predicate RangesHold(blocks: seq<array<bv8>>, live: seq<Range>, used: nat) {
    && (forall k :: 0 <= k < |live| ==> live[k].block in blocks && Inside(live[k]))
    && (forall k :: 0 <= k < |live| && live[k].block == blocks[|blocks| - 1] ==> live[k].offset + live[k].bytes <= used)
    && (forall i, j :: 0 <= i < j < |live| ==> Disjoint(live[i], live[j]))
  }

  lemma AddRange(blocks: seq<array<bv8>>, live: seq<Range>, used: nat, r: Range)
    requires RangesHold(blocks, live, used) && blocks != []
    requires r.block == blocks[|blocks| - 1] && Inside(r) && used <= r.offset
    ensures RangesHold(blocks, live + [r], r.offset + r.bytes)
  {
  }

  lemma NewBlock(blocks: seq<array<bv8>>, live: seq<Range>, used: nat, block: array<bv8>)
    requires RangesHold(blocks, live, used) && block !in blocks && DistinctBlocks(blocks)
    ensures RangesHold(blocks + [block], live, 0) && DistinctBlocks(blocks + [block])
  {
  }

  lemma TotalAppend(blocks: seq<array<bv8>>, block: array<bv8>)
    ensures TotalTo(blocks + [block], |blocks| + 1) == TotalTo(blocks, |blocks|) + block.Length
  {
    TotalPrefix(blocks, blocks + [block], |blocks|);
  }

  lemma BytesAppend(live: seq<Range>, r: Range)
    ensures BytesTo(live + [r], |live| + 1) == BytesTo(live, |live|) + r.bytes
  {
    BytesPrefix(live, live + [r], |live|);
  }

  // ---- The sizes a run of requests leads to ----------------------------------------------

  type Alignment = a: nat | 1 <= a < SIZE_MODULUS witness 1

  /** The sizes of the blocks, oldest first, and how much of the last one is used. */
  datatype Shape = Shape(sizes: seq<nat>, used: nat)

  datatype Operation = Request(bytes: nat, alignment: Alignment) | Reset | Release

  /** The size of the block a request opens. */
  function BlockSize(blockBytes: nat, bytes: nat, alignment: nat): (size: nat)
    ensures bytes + alignment <= size && blockBytes <= size && size in {bytes + alignment, blockBytes}
  {
    if bytes + alignment >= blockBytes then bytes + alignment else blockBytes
  }

  /** Whether a request does not fit beside what the last block holds. */
  predicate Opens(s: Shape, bytes: nat, alignment: Alignment) {
    bytes > 0 && (s.sizes == [] || AlignUp(s.used, alignment) + bytes > s.sizes[|s.sizes| - 1])
  }

  function Next(blockBytes: nat, s: Shape, op: Operation): Shape {
    match op
    case Request(bytes, alignment) =>
      if bytes == 0 then s
      else if Opens(s, bytes, alignment)
      then Shape(s.sizes + [BlockSize(blockBytes, bytes, alignment)], AlignUp(0, alignment) + bytes)
      else Shape(s.sizes, AlignUp(s.used, alignment) + bytes)
    case Reset => Shape(if |s.sizes| > 1 then [s.sizes[|s.sizes| - 1]] else s.sizes, 0)
    case Release => Shape([], 0)
  }

  /** The shape after the operations, from an empty arena. */
  function After(blockBytes: nat, ops: seq<Operation>): Shape {
    if ops == [] then Shape([], 0) else Next(blockBytes, After(blockBytes, ops[..|ops| - 1]), ops[|ops| - 1])
  }

  function Sizes(blocks: seq<array<bv8>>): (r: seq<nat>)
    ensures |r| == |blocks| && forall i :: 0 <= i < |r| ==> r[i] == blocks[i].Length
  {
    seq(|blocks|, i requires 0 <= i < |blocks| => blocks[i].Length)
  }

  lemma SizesAppend(blocks: seq<array<bv8>>, block: array<bv8>)
    ensures Sizes(blocks + [block]) == Sizes(blocks) + [block.Length]
  {
  }

  /** Whether the block a reset would keep is a largest one. */
  predicate LastIsLargest(sizes: seq<nat>) {
    forall i :: 0 <= i < |sizes| ==> sizes[i] <= sizes[|sizes| - 1]
  }

  /** A request leaves a largest block last exactly when it opens one that no other exceeds, or
      opens none and a largest one was last already. */
  lemma RequestKeepsLargestIff(blockBytes: nat, s: Shape, bytes: nat, alignment: Alignment)
    ensures LastIsLargest(Next(blockBytes, s, Request(bytes, alignment)).sizes)
            <==> if Opens(s, bytes, alignment)
                 then forall i :: 0 <= i < |s.sizes| ==> s.sizes[i] <= BlockSize(blockBytes, bytes, alignment)
                 else LastIsLargest(s.sizes)
  {
    hide AlignUp, BlockSize;
    if Opens(s, bytes, alignment) {
      var size := BlockSize(blockBytes, bytes, alignment);
      var next := s.sizes + [size];
      assert Next(blockBytes, s, Request(bytes, alignment)).sizes == next && next[|next| - 1] == size;
      assert forall i :: 0 <= i < |s.sizes| ==> next[i] == s.sizes[i];
    }
  }

  /** A request that fits moves `used`; one that does not opens a block. */
  lemma NextRequest(blockBytes: nat, s: Shape, bytes: nat, alignment: Alignment, sizes: seq<nat>)
    requires sizes == if Opens(s, bytes, alignment) then s.sizes + [BlockSize(blockBytes, bytes, alignment)]
      else s.sizes
    ensures Next(blockBytes, s, Request(bytes, alignment))
            == if bytes == 0 then s
                else Shape(sizes, AlignUp(if Opens(s, bytes, alignment) then 0 else s.used, alignment) + bytes)
  {
  }

  /** Each request asks for a block at least as large as the ones before it would. */
  predicate Growing(blockBytes: nat, ops: seq<Operation>) {
    forall i, j :: 0 <= i < j < |ops| && ops[i].Request? && ops[j].Request? ==>
      BlockSize(blockBytes, ops[i].bytes, ops[i].alignment) <= BlockSize(blockBytes, ops[j].bytes, ops[j].alignment)
  }

  /** Every block was opened by one of the requests, at its size. */
  ghost predicate OpenedBy(blockBytes: nat, ops: seq<Operation>, size: nat) {
    exists i :: 0 <= i < |ops| && ops[i].Request? && size == BlockSize(blockBytes, ops[i].bytes, ops[i].alignment)
  }

  /** Over any run of growing requests, resets and releases, a reset keeps a largest block. */
  lemma {:induction false} GrowingRequestsKeepLargest(blockBytes: nat, ops: seq<Operation>)
    requires Growing(blockBytes, ops)
    ensures LastIsLargest(After(blockBytes, ops).sizes)
    ensures forall i :: 0 <= i < |After(blockBytes, ops).sizes| ==>
      OpenedBy(blockBytes, ops, After(blockBytes, ops).sizes[i])
  {
    hide AlignUp, BlockSize;
    if ops != [] {
      var before, op := ops[..|ops| - 1], ops[|ops| - 1];
      GrowingRequestsKeepLargest(blockBytes, before);
      forall size: nat | OpenedBy(blockBytes, before, size)
        ensures OpenedBy(blockBytes, ops, size)
        ensures op.Request? ==> size <= BlockSize(blockBytes, op.bytes, op.alignment)
      {
        var i :| 0 <= i < |before| && before[i].Request?
            && size == BlockSize(blockBytes, before[i].bytes, before[i].alignment);
        assert ops[i] == before[i];
      }
      if op.Request? { assert OpenedBy(blockBytes, ops, BlockSize(blockBytes, op.bytes, op.alignment)); }
    }
  }

  /** In particular when every request fits a block of the standard size. */
  lemma SmallRequestsKeepLargest(blockBytes: nat, ops: seq<Operation>)
    requires forall i :: 0 <= i < |ops| && ops[i].Request? ==> ops[i].bytes + ops[i].alignment <= blockBytes
    ensures LastIsLargest(After(blockBytes, ops).sizes)
  {
    GrowingRequestsKeepLargest(blockBytes, ops);
  }

  /** Two requests of a fresh arena make the next reset drop the larger block exactly when the
      second does not fit beside the first and asks for less. */
  lemma TwoRequestsLoseTheLargestIff(blockBytes: nat, b1: nat, a1: Alignment, b2: nat, a2: Alignment)
    requires IsPowerOfTwo(a1) && b1 > 0 && b2 > 0
    ensures !LastIsLargest(After(blockBytes, [Request(b1, a1), Request(b2, a2)]).sizes)
            <==> AlignUp(b1, a2) + b2 > BlockSize(blockBytes, b1, a1)
                 && BlockSize(blockBytes, b2, a2) < BlockSize(blockBytes, b1, a1)
  {
    hide BlockSize;
    var first, both := [Request(b1, a1)], [Request(b1, a1), Request(b2, a2)];
    assert first[..0] == [] && both[..1] == first;
    AlignUpIsLeastMultiple(0, a1, 0);
    assert After(blockBytes, first) == Shape([BlockSize(blockBytes, b1, a1)], b1);
    assert After(blockBytes, both) == Next(blockBytes, After(blockBytes, first), Request(b2, a2));
    hide AlignUp, After;
    RequestKeepsLargestIff(blockBytes, After(blockBytes, first), b2, a2);
  }

  class Arena {
    const blockBytes: nat
    var blocks: seq<array<bv8>>
    var used: nat
    var currentCapacity: nat
    var liveBytes: nat
    var totalReserved: nat
    /** The ranges handed out since the last reset, oldest first. */
    ghost var live: seq<Range>
    /** How many of the live bytes are in the last block. */
    ghost var liveInLast: nat

    function ShapeNow(): Shape
      reads this
    {
      Shape(Sizes(blocks), used)
    }

    ghost predicate Valid()
      reads this
    {
      && blockBytes <= MAX_OBJECT
      && DistinctBlocks(blocks) && RangesHold(blocks, live, used)
      && currentCapacity == (if blocks == [] then 0 else blocks[|blocks| - 1].Length) <= MAX_OBJECT
      && used <= currentCapacity
      && totalReserved == TotalTo(blocks, |blocks|)
      && liveBytes == BytesTo(live, |live|)
      && liveInLast <= liveBytes && liveInLast <= used && liveBytes - liveInLast <= totalReserved - currentCapacity
    }

    constructor (blockBytes: nat)
      requires blockBytes <= MAX_OBJECT
      ensures Valid() && this.blockBytes == blockBytes && blocks == [] && live == []
      ensures ShapeNow() == After(blockBytes, [])
    {
      this.blockBytes := blockBytes;
      blocks, used, currentCapacity, liveBytes, totalReserved := [], 0, 0, 0, 0;
      live, liveInLast := [], 0;
    }

    method AddBlock(bytes: nat)
      requires Valid() && bytes <= MAX_OBJECT
      modifies this
      ensures Valid() && used == 0 && currentCapacity == bytes
      ensures |blocks| == |old(blocks)| + 1 && old(blocks) <= blocks && fresh(blocks[|blocks| - 1])
      ensures Sizes(blocks) == old(Sizes(blocks)) + [bytes]
      ensures live == old(live) && liveBytes == old(liveBytes)
    {
      var block := new bv8[bytes];
      ReservedCoversLast();
      hide DistinctBlocks, RangesHold, TotalTo, BytesTo;
      NewBlock(blocks, live, used, block);
      TotalAppend(blocks, block);
      SizesAppend(blocks, block);
      blocks := blocks + [block];
      currentCapacity := bytes;
      totalReserved := totalReserved + bytes;
      used := 0;
      liveInLast := 0;
    }

    lemma ReservedCoversLast()
      requires Valid()
      ensures currentCapacity <= totalReserved
      ensures liveBytes <= totalReserved
    {
    }

    /** A range of the requested size at an aligned offset, overlapping nothing handed out since
        the last reset. No addition leaves the 64-bit range. */
    method AllocateBytes(bytes: nat, alignment: nat) returns (p: Pointer)
      requires Valid() && IsPowerOfTwo(alignment) && bytes + alignment <= MAX_OBJECT
      modifies this
      ensures Valid()
      ensures bytes == 0 ==> p.Null? && live == old(live) && blocks == old(blocks) && liveBytes == old(liveBytes)
      ensures bytes > 0 ==>
        && p.At? && p.range.bytes == bytes && p.range.offset % alignment == 0
        && live == old(live) + [p.range] && liveBytes == old(liveBytes) + bytes
        && |blocks| > 0 && p.range.block == blocks[|blocks| - 1]
        && (blocks == old(blocks) || (|blocks| == |old(blocks)| + 1 && old(blocks) <= blocks && fresh(p.range.block)))
      ensures bytes > 0 ==>
        && p.range.offset == AlignUp(if blocks == old(blocks) then old(used) else 0, alignment)
        && used == p.range.offset + bytes
      ensures bytes > 0 && AlignUp(old(used), alignment) + bytes <= old(currentCapacity) ==> blocks == old(blocks)
      ensures bytes > 0 && AlignUp(old(used), alignment) + bytes > old(currentCapacity) ==>
        fresh(p.range.block) && p.range.block.Length == BlockSize(blockBytes, bytes, alignment)
      ensures ShapeNow() == Next(blockBytes, old(ShapeNow()), Request(bytes, alignment))
    {
      hide RangesHold, AlignUp, DistinctBlocks, TotalTo, BytesTo, BlockSize, Sizes, Next, IsPowerOfTwo;
      ghost var before := ShapeNow();
      AlignUpIsLeastMultiple(used, alignment, 0);
      if bytes == 0 {
        NextRequest(blockBytes, before, bytes, alignment, before.sizes);
        return Null;
      }
      var offset := AlignUp(used, alignment);
      if blocks == [] || offset + bytes > currentCapacity {
        AddBlock(BlockSize(blockBytes, bytes, alignment));
        AlignUpIsLeastMultiple(used, alignment, 0);
        offset := AlignUp(used, alignment);
      }
      p := At(Range(blocks[|blocks| - 1], offset, bytes));
      NextRequest(blockBytes, before, bytes, alignment, Sizes(blocks));
      BytesAppend(live, p.range);
      AddRange(blocks, live, used, p.range);
      live := live + [p.range];
      liveInLast := liveInLast + bytes;
      used := offset + bytes;
      liveBytes := liveBytes + bytes;
    }

    /** The same, with the storage cleared; no other live byte changes. */
    method AllocateZeroed(bytes: nat, alignment: nat) returns (p: Pointer)
      requires Valid() && IsPowerOfTwo(alignment) && bytes + alignment <= MAX_OBJECT
      modifies this, if blocks == [] then {} else {blocks[|blocks| - 1]}
      ensures Valid() && (bytes == 0 <==> p.Null?)
      ensures p.At? ==> live == old(live) + [p.range] && p.range.bytes == bytes && p.range.offset % alignment == 0
      ensures ShapeNow() == Next(blockBytes, old(ShapeNow()), Request(bytes, alignment))
      ensures p.At? ==> Inside(p.range) && forall i :: 0 <= i < bytes ==> Contents(p.range)[i] == 0
      ensures forall k :: 0 <= k < |old(live)| ==> Contents(old(live)[k]) == old(Contents(live[k]))
    {
      hide AlignUp, BlockSize, Next, ShapeNow, TotalTo, BytesTo, DistinctBlocks, IsPowerOfTwo;
      p := AllocateBytes(bytes, alignment);
      if p.At? {
        ghost var mine := |live| - 1;
        assert forall k :: 0 <= k < mine ==> live[k] == old(live)[k] && Disjoint(live[k], live[mine]);
        Clear(p.range.block, p.range.offset, bytes);
      }
    }

    /** Everything is handed back. The LAST block is kept, whatever the sizes. */
    method Reset()
      requires Valid()
      modifies this
      ensures Valid() && live == [] && used == 0 && liveBytes == 0
      ensures blocks == if |old(blocks)| > 1 then [old(blocks)[|old(blocks)| - 1]] else old(blocks)
      ensures currentCapacity == old(currentCapacity) == totalReserved
      ensures ShapeNow() == Next(blockBytes, old(ShapeNow()), Operation.Reset)
    {
      hide AlignUp;
      if |blocks| > 1 {
        var keep := blocks[|blocks| - 1];
        var keepCapacity := currentCapacity;
        blocks := [];
        blocks := blocks + [keep];
        currentCapacity := keepCapacity;
        totalReserved := keepCapacity;
      }
      used := 0;
      liveBytes := 0;
      live, liveInLast := [], 0;
      assert |blocks| == 1 ==> TotalTo(blocks, 1) == TotalTo(blocks, 0) + blocks[0].Length;
    }

    method Release()
      requires Valid()
      modifies this
      ensures Valid() && blocks == [] && live == [] && used == 0 && liveBytes == 0 && totalReserved == 0
      ensures ShapeNow() == Next(blockBytes, old(ShapeNow()), Operation.Release)
    {
      blocks := [];
      used := 0;
      currentCapacity := 0;
      liveBytes := 0;
      totalReserved := 0;
      live, liveInLast := [], 0;
    }
  }

  /** A large request followed by a small one that does not fit beside it: the reset keeps the
      small block and drops the large one. */
  method ResetCanKeepTheSmallest() returns (arena: Arena, dropped: nat)
    ensures arena.Valid() && fresh(arena) && |arena.blocks| == 1
    ensures arena.blocks[0].Length < dropped
  {
    hide RangesHold, TotalTo, BytesTo, DistinctBlocks, After, Next, Sizes, And;
    arena := new Arena(64);
    assert Pow2(3) == 8;
    var p := arena.AllocateBytes(1000, 8);
    AlignUpIsLeastMultiple(0, 8, 0);
    AlignUpIsLeastMultiple(1000, 8, 1000);
    var q := arena.AllocateBytes(9, 8);
    dropped := p.range.block.Length;
    assert arena.blocks[0].Length > arena.blocks[1].Length;
    arena.Reset();
  }
}
