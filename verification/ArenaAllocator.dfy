/** An arena that hands out blocks from growing chunks of memory and runs destructors at its end
    (Arena, libraries/zc/core/arena.cc). Addresses are numbers; chunk and object headers have
    the sizes of a 64-bit machine. */
module ArenaAllocator {
  import opened Alignment
  import opened Wrappers

  const CHUNK_HEADER: nat := 24   // next, pos, end
  const OBJECT_HEADER: nat := 16  // destructor, next
  const HEADER_ALIGN: nat := 8

  /** All of memory lies below this address, so that rounding up an address does not wrap around. */
  ghost const TOP: nat := Pow2(63)

  /** A value of `alignof`: a power of two in the range of a 32-bit integer. */
  ghost predicate IsAlignment(a: nat) {
    exists k: nat | k < 32 :: a == Pow2(k)
  }

  lemma HeaderAlignment()
    ensures HEADER_ALIGN == Pow2(3) && IsAlignment(HEADER_ALIGN)
  {
    assert Pow2(3) == 2 * Pow2(2) == 4 * Pow2(1) == 8 * Pow2(0);
  }

  /** Of two alignments the larger is a multiple of the smaller. */
  lemma Divides(a: nat, b: nat)
    requires IsAlignment(a) && IsAlignment(b) && a <= b
    ensures a > 0 && b % a == 0
  {
    var j: nat :| j < 32 && a == Pow2(j);
    var k: nat :| k < 32 && b == Pow2(k);
    if j <= k {
      Pow2Order(j, k);
    } else {
      Pow2Order(k, j);
      assert a == b;
    }
  }

  lemma MultipleOfMultiple(x: nat, a: nat, b: nat)
    requires a > 0 && b > 0 && b % a == 0 && x % b == 0
    ensures x % a == 0
  {
    var p, q := b / a, x / b;
    assert x == q * b && b == p * a;
    assert x == (q * p) * a;
    DivModUnique(x, a, q * p, 0);
  }

  /** What rounding up an address does. */
  lemma Aligned(p: nat, a: nat)
    requires IsAlignment(a) && p <= TOP
    ensures 0 < a <= Pow2(WORD_BITS)
    ensures AlignTo(p, a) % a == 0 && p <= AlignTo(p, a) < p + a
    ensures AlignTo(p, a) == RoundUp(p, a)
  {
    var k: nat :| k < 32 && a == Pow2(k);
    Pow2Order(k, 63);
    Pow2Order(63, 64);
    assert Pow2(64) == 2 * Pow2(63);
    hide Pow2;
    AlignToRoundsUp(p, k);
  }

  lemma AlignedPositive(n: nat, a: nat)
    requires IsAlignment(a) && n <= 64
    ensures 0 < a <= Pow2(WORD_BITS) && AlignTo(n, a) == RoundUp(n, a) && AlignTo(n, a) >= n
  {
    assert n <= TOP;
    Aligned(n, a);
  }

  /** Rounding up from an aligned address adds a rounded-up offset. */
  lemma RoundUpOffset(base: nat, n: nat, a: nat)
    requires a > 0 && base % a == 0
    ensures RoundUp(base + n, a) == base + RoundUp(n, a)
  {
    var q, m := base / a, n + a - 1;
    assert base == q * a;
    assert base + m == (q + m / a) * a + m % a;
    DivModUnique(base + m, a, q + m / a, m % a);
  }

  /** The chunk size reached by doubling. */
  function GrowTo(size: nat, amount: nat): (r: nat)
    requires size > 0
    ensures r >= amount && r >= size
    decreases if size < amount then amount - size else 0
  {
    if size < amount then GrowTo(2 * size, amount) else size
  }

  /** The least size that doubling reaches which is enough. */
  lemma {:induction false} GrowsByDoubling(size: nat, amount: nat) returns (k: nat)
    requires size > 0
    ensures GrowTo(size, amount) == size * Pow2(k)
    ensures k > 0 ==> size * Pow2(k - 1) < amount
    decreases if size < amount then amount - size else 0
  {
    k := 0;
    if size < amount {
      var j := GrowsByDoubling(2 * size, amount);
      Twice(size, Pow2(j));
      if j > 0 { Twice(size, Pow2(j - 1)); }
      k := j + 1;
      hide GrowTo;
    }
  }

  lemma Twice(size: nat, p: nat)
    ensures 2 * size * p == size * (2 * p)
  {
  }

  class ChunkHeader {
    const base: nat
    const end: nat
    var pos: nat

    constructor (base: nat, pos: nat, end: nat)
      ensures this.base == base && this.pos == pos && this.end == end
    {
      this.base, this.pos, this.end := base, pos, end;
    }
  }

  /** A reserved range of a chunk. */
  datatype Block = Block(chunk: ChunkHeader, start: nat, size: nat)

  predicate Apart(a: Block, b: Block) {
    a.start + a.size <= b.start || b.start + b.size <= a.start
  }

  predicate ChunksApart(c: ChunkHeader, d: ChunkHeader) {
    c.end <= d.base || d.end <= c.base
  }

  datatype Object = Object(ptr: nat, destructor: nat)

  datatype Act = Ran(object: Object) | Deleted(base: nat)

  class Arena {
    var nextChunkSize: nat
    var chunkList: seq<ChunkHeader>  // the newest first
    var objectList: seq<Object>      // the newest first
    var currentChunk: ChunkHeader?

    /** All chunks, with the scratch space if there is one, and the blocks reserved in them. */
    ghost var chunks: set<ChunkHeader>
    ghost var blocks: seq<Block>

    ghost predicate ChunkOk(c: ChunkHeader)
      reads c
    {
      c.base + CHUNK_HEADER <= c.pos <= c.end <= TOP
    }

    ghost predicate BlockOk(b: Block)
      reads b.chunk
    {
      b.chunk.base + CHUNK_HEADER <= b.start && b.start + b.size <= b.chunk.pos
    }

    ghost predicate Valid()
      reads this, chunks
    {
      && nextChunkSize > 0
      && (currentChunk != null ==> currentChunk in chunks)
      && (forall c | c in chunkList :: c in chunks)
      && (forall i, j | 0 <= i < j < |chunkList| :: chunkList[i] != chunkList[j])
      && (forall c | c in chunks :: ChunkOk(c))
      && (forall c, d | c in chunks && d in chunks && c != d :: ChunksApart(c, d))
      && (forall i | 0 <= i < |blocks| :: blocks[i].chunk in chunks && BlockOk(blocks[i]))
      && (forall i, j | 0 <= i < j < |blocks| :: Apart(blocks[i], blocks[j]))
      && (forall i, j | 0 <= i < j < |objectList| :: objectList[i].ptr != objectList[j].ptr)
    }

    constructor (chunkSizeHint: nat)
      ensures Valid() && blocks == [] && chunks == {} && chunkList == [] && objectList == []
    {
      nextChunkSize := Max(CHUNK_HEADER, chunkSizeHint);
      chunkList, objectList, currentChunk := [], [], null;
      chunks, blocks := {}, [];
    }

    /** Starts with memory that is not the arena's to delete. */
    constructor FromScratch(base: nat, size: nat)
      requires base + size <= TOP
      ensures Valid() && blocks == [] && chunkList == [] && objectList == []
      ensures fresh(chunks) && forall c | c in chunks :: c.base == base && c.end == base + size
      ensures if size > CHUNK_HEADER then currentChunk != null && chunks == {currentChunk} &&
                                         currentChunk.pos == base + CHUNK_HEADER
              else currentChunk == null && chunks == {}
    {
      nextChunkSize := Max(CHUNK_HEADER, size);
      chunkList, objectList, blocks := [], [], [];
      if size > CHUNK_HEADER {
        var chunk := new ChunkHeader(base, base + CHUNK_HEADER, base + size);
        currentChunk, chunks := chunk, {chunk};
      } else {
        currentChunk, chunks := null, {};
      }
    }

    /** What `operator new` promises for memory of that size: none of it is in use yet. */
    ghost predicate Available(base: nat, alignment: nat, size: nat)
      requires alignment > 0
      reads `chunks
    {
      && base % alignment == 0 && base + size <= TOP
      && forall c | c in chunks :: c.end <= base || base + size <= c.base
    }

    /** A block behind what is reserved in a chunk overlaps no other block. */
    lemma BehindIsApart(chunk: ChunkHeader, start: nat, amount: nat)
      requires Valid() && chunk in chunks && chunk.pos <= start && start + amount <= chunk.end
      ensures forall i | 0 <= i < |blocks| :: Apart(blocks[i], Block(chunk, start, amount))
    {
      forall i | 0 <= i < |blocks| ensures Apart(blocks[i], Block(chunk, start, amount)) {
        var b := blocks[i];
        assert BlockOk(b) && b.chunk in chunks && ChunkOk(b.chunk) && ChunkOk(chunk);
        if b.chunk != chunk { assert ChunksApart(b.chunk, chunk); }
      }
    }

    /** The current chunk has room for so many bytes at an aligned address. */
    ghost predicate Fits(amount: nat, alignment: nat)
      requires alignment > 0
      reads `currentChunk, currentChunk
    {
      currentChunk != null &&
      exists q: nat :: currentChunk.pos <= q && q % alignment == 0 && q + amount <= currentChunk.end
    }

    /** The size of the chunk that would be made for a block. */
    ghost function ChunkSize(amount: nat, alignment: nat): nat
      requires nextChunkSize > 0 && Max(alignment, HEADER_ALIGN) <= Pow2(WORD_BITS)
      reads `nextChunkSize
    {
      GrowTo(nextChunkSize, amount + AlignTo(CHUNK_HEADER, Max(alignment, HEADER_ALIGN)))
    }

    /** If the current chunk has room the least aligned address in it does. */
    lemma FitsExactly(amount: nat, alignment: nat)
      requires Valid() && IsAlignment(alignment) && currentChunk != null
      ensures alignment > 0 && alignment <= Pow2(WORD_BITS)
      ensures Fits(amount, alignment) <==> AlignTo(currentChunk.pos, alignment) + amount <= currentChunk.end
      ensures forall q: nat | currentChunk.pos <= q && q % alignment == 0 :: AlignTo(currentChunk.pos, alignment) <= q
    {
      CurrentOk();
      Aligned(currentChunk.pos, alignment);
      RoundUpIsLeast(currentChunk.pos, alignment);
      hide Pow2, AlignTo, RoundUp, IsAlignment, Valid;
      assert AlignTo(currentChunk.pos, alignment) % alignment == 0;
    }

    /** Reserves `amount` bytes, in the current chunk if they fit there and otherwise in a new one of
        at least twice the size of the last; `memory` is what `operator new` would return. */
    method AllocateBytesInternal(amount: nat, alignment: nat, memory: nat) returns (p: nat)
      requires Valid() && IsAlignment(alignment)
      requires var a := Max(alignment, HEADER_ALIGN);
               0 < alignment && a <= Pow2(WORD_BITS) && Available(memory, a, ChunkSize(amount, alignment))
      modifies this, chunks
      ensures Valid() && chunks >= old(chunks) && fresh(chunks - old(chunks)) && objectList == old(objectList)
      ensures p % alignment == 0 && p + amount <= TOP
      ensures currentChunk != null && blocks == old(blocks) + [Block(currentChunk, p, amount)]
      ensures currentChunk.pos == p + amount
      ensures old(Fits(amount, alignment)) ==>
                && currentChunk == old(currentChunk) && chunks == old(chunks) && chunkList == old(chunkList)
                && nextChunkSize == old(nextChunkSize)
                && forall q: nat | old(currentChunk.pos) <= q && q % alignment == 0 :: p <= q
      ensures !old(Fits(amount, alignment)) ==> NewCurrent(old(chunkList), memory, old(ChunkSize(amount, alignment)))
    {
      hide Pow2, AlignTo, RoundUp, IsAlignment, GrowTo, Valid, Fits, ChunkSize, Available;
      if currentChunk == null {
        NoFit(amount, alignment);
      } else {
        var chunk := currentChunk;
        CurrentOk();
        FitsExactly(amount, alignment);
        Aligned(chunk.pos, alignment);
        var alignedPos := AlignTo(chunk.pos, alignment);
        if amount + (alignedPos - chunk.pos) <= chunk.end - chunk.pos {
          TakeBlock(chunk, alignedPos, amount);
          return alignedPos;
        }
      }
      p := NewChunk(amount, alignment, memory);
    }

    lemma NoFit(amount: nat, alignment: nat)
      requires alignment > 0 && currentChunk == null
      ensures !Fits(amount, alignment)
    {
    }

    /** A chunk of this size in this memory has become the current one and heads the list. */
    ghost predicate NewCurrent(list: seq<ChunkHeader>, memory: nat, size: nat)
      reads `currentChunk, `chunkList, `nextChunkSize
    {
      && currentChunk != null && chunkList == [currentChunk] + list
      && currentChunk.base == memory && currentChunk.end == memory + size && nextChunkSize == 2 * size
    }

    lemma CurrentOk()
      requires Valid() && currentChunk != null
      ensures currentChunk in chunks && currentChunk.pos <= currentChunk.end <= TOP
    {
      assert ChunkOk(currentChunk);
    }

    /** There is enough space in this chunk. */
    method TakeBlock(chunk: ChunkHeader, alignedPos: nat, amount: nat)
      requires Valid() && chunk in chunks && chunk.pos <= alignedPos && alignedPos + amount <= chunk.end
      modifies chunk`pos, `blocks
      ensures Valid() && blocks == old(blocks) + [Block(chunk, alignedPos, amount)]
      ensures chunk.pos == alignedPos + amount
    {
      hide Pow2;
      assert ChunkOk(chunk);
      BehindIsApart(chunk, alignedPos, amount);
      chunk.pos := alignedPos + amount;
      blocks := blocks + [Block(chunk, alignedPos, amount)];
    }

    method NewChunk(amount: nat, alignment: nat, memory: nat) returns (p: nat)
      requires Valid() && IsAlignment(alignment)
      requires var a := Max(alignment, HEADER_ALIGN);
               a <= Pow2(WORD_BITS) && Available(memory, a, ChunkSize(amount, alignment))
      modifies this
      ensures Valid() && chunks >= old(chunks) && fresh(chunks - old(chunks)) && objectList == old(objectList)
      ensures alignment > 0 && p % alignment == 0 && p + amount <= TOP
      ensures currentChunk != null && blocks == old(blocks) + [Block(currentChunk, p, amount)]
      ensures currentChunk.pos == p + amount
      ensures NewCurrent(old(chunkList), memory, old(ChunkSize(amount, alignment)))
    {
      hide Pow2, AlignTo, RoundUp, IsAlignment, GrowTo;
      var a := Max(alignment, HEADER_ALIGN);
      ghost var size := GrowTo(nextChunkSize, amount + AlignTo(CHUNK_HEADER, a));
      ChunkPlace(amount, alignment, memory, size);
      var total := amount + AlignTo(CHUNK_HEADER, a);
      Grow(total);
      p := AlignTo(memory + CHUNK_HEADER, a);
      AddChunk(memory, total, p, amount);
    }

    /** Sets up a new chunk that starts with a block. */
    method AddChunk(memory: nat, total: nat, p: nat, amount: nat)
      requires Valid() && total <= nextChunkSize && memory + nextChunkSize <= TOP
      requires memory + CHUNK_HEADER <= p && p + amount == memory + total
      requires forall c | c in chunks :: c.end <= memory || memory + nextChunkSize <= c.base
      modifies this
      ensures Valid() && chunks >= old(chunks) && fresh(chunks - old(chunks)) && objectList == old(objectList)
      ensures currentChunk != null && blocks == old(blocks) + [Block(currentChunk, p, amount)]
      ensures currentChunk.pos == p + amount && NewCurrent(old(chunkList), memory, old(nextChunkSize))
    {
      hide Pow2;
      var chunk := new ChunkHeader(memory, memory + total, memory + nextChunkSize);
      ghost var b := Block(chunk, p, amount);
      BlocksBelow(b);
      chunkList := [chunk] + chunkList;
      chunks := chunks + {chunk};
      currentChunk := chunk;
      nextChunkSize := nextChunkSize * 2;
      blocks := blocks + [b];
    }

    /** Where the block comes to lie in a new chunk. */
    lemma ChunkPlace(amount: nat, alignment: nat, memory: nat, size: nat)
      requires IsAlignment(alignment)
      requires var a := Max(alignment, HEADER_ALIGN);
               && a <= Pow2(WORD_BITS) && memory % a == 0 && memory + size <= TOP
               && size >= amount + AlignTo(CHUNK_HEADER, a)
      ensures var a := Max(alignment, HEADER_ALIGN);
              && alignment > 0
              && AlignTo(memory + CHUNK_HEADER, a) == memory + AlignTo(CHUNK_HEADER, a)
              && AlignTo(CHUNK_HEADER, a) >= CHUNK_HEADER
              && AlignTo(memory + CHUNK_HEADER, a) % alignment == 0
    {
      hide Pow2, RoundUp;
      HeaderAlignment();
      var a := Max(alignment, HEADER_ALIGN);
      Divides(alignment, a);
      hide IsAlignment;
      AlignedPositive(CHUNK_HEADER, a);
      Aligned(memory + CHUNK_HEADER, a);
      RoundUpOffset(memory, CHUNK_HEADER, a);
      MultipleOfMultiple(AlignTo(memory + CHUNK_HEADER, a), alignment, a);
    }

    /** Doubles the size of the next chunk until it is large enough. */
    method Grow(amount: nat)
      requires Valid()
      modifies `nextChunkSize
      ensures Valid() && nextChunkSize == GrowTo(old(nextChunkSize), amount)
    {
      while nextChunkSize < amount
        invariant nextChunkSize > 0 && GrowTo(nextChunkSize, amount) == GrowTo(old(nextChunkSize), amount)
        decreases amount - nextChunkSize
      {
        nextChunkSize := nextChunkSize * 2;
      }
    }

    /** Nothing reserved so far overlaps memory that is not in use. */
    lemma BlocksBelow(b: Block)
      requires Valid()
      requires forall c | c in chunks :: c.end <= b.chunk.base || b.chunk.end <= c.base
      requires b.chunk.base <= b.start && b.start + b.size <= b.chunk.end
      ensures forall i | 0 <= i < |blocks| :: Apart(blocks[i], b)
    {
      forall i | 0 <= i < |blocks| ensures Apart(blocks[i], b) {
        assert BlockOk(blocks[i]) && ChunkOk(blocks[i].chunk);
      }
    }

    /** The alignment and the size that are asked for when there may be a destructor. */
    function AlignmentFor(alignment: nat, hasDisposer: bool): nat {
      if hasDisposer then Max(alignment, HEADER_ALIGN) else alignment
    }

    function AmountFor(amount: nat, alignment: nat, hasDisposer: bool): nat
      requires 0 < AlignmentFor(alignment, hasDisposer) <= Pow2(WORD_BITS)
    {
      if hasDisposer then amount + AlignTo(OBJECT_HEADER, AlignmentFor(alignment, hasDisposer)) else amount
    }

    /** Allocates `amount` bytes; with `hasDisposer` there is room for an object header in front
        of them. What is returned and its header lie in a block of their own. */
    method AllocateBytes(amount: nat, alignment: nat, hasDisposer: bool, memory: nat) returns (result: nat)
      requires Valid() && IsAlignment(alignment)
      requires var a := AlignmentFor(alignment, hasDisposer);
               var b := Max(a, HEADER_ALIGN);
               && 0 < a <= Pow2(WORD_BITS) && b <= Pow2(WORD_BITS)
               && Available(memory, b, ChunkSize(AmountFor(amount, alignment, hasDisposer), a))
      modifies this, chunks
      ensures Valid() && chunks >= old(chunks) && fresh(chunks - old(chunks)) && objectList == old(objectList)
      ensures result % alignment == 0
      ensures |blocks| == |old(blocks)| + 1 && blocks[..|old(blocks)|] == old(blocks)
      ensures var b := blocks[|old(blocks)|];
              && b.start + (if hasDisposer then OBJECT_HEADER else 0) <= result
              && result + amount <= b.start + b.size
              && b.chunk.base + CHUNK_HEADER <= b.start && b.start + b.size <= b.chunk.end
      ensures forall i | 0 <= i < |old(blocks)| :: Apart(blocks[i], blocks[|old(blocks)|])
      ensures hasDisposer ==> (result - OBJECT_HEADER) % HEADER_ALIGN == 0
      ensures old(Fits(AmountFor(amount, alignment, hasDisposer), AlignmentFor(alignment, hasDisposer))) ==>
                chunks == old(chunks) && chunkList == old(chunkList) && blocks[|old(blocks)|].chunk == old(currentChunk)
    {
      hide AlignTo, RoundUp, Pow2, IsAlignment, GrowTo, Valid, Available, Fits, ChunkSize;
      HeaderAlignment();
      var a := AlignmentFor(alignment, hasDisposer);
      var size := AmountFor(amount, alignment, hasDisposer);
      result := AllocateBytesInternal(size, a, memory);
      LastBlock();
      if hasDisposer {
        AlignedPositive(OBJECT_HEADER, a);
        ObjectPlace(result, alignment);
        result := AlignTo(result + OBJECT_HEADER, a);
      }
    }

    lemma LastBlock()
      requires Valid() && blocks != []
      ensures var b := blocks[|blocks| - 1];
              && b.chunk.base + CHUNK_HEADER <= b.start && b.start + b.size <= b.chunk.end
              && forall i | 0 <= i < |blocks| - 1 :: Apart(blocks[i], b)
    {
      hide Pow2;
      var b := blocks[|blocks| - 1];
      assert BlockOk(b) && ChunkOk(b.chunk);
    }

    /** Where an object with a header comes to lie in its block. */
    lemma ObjectPlace(start: nat, alignment: nat)
      requires IsAlignment(alignment) && start + OBJECT_HEADER <= TOP
      requires start % Max(alignment, HEADER_ALIGN) == 0
      ensures var a := Max(alignment, HEADER_ALIGN);
              && alignment > 0 && a <= Pow2(WORD_BITS)
              && AlignTo(start + OBJECT_HEADER, a) == start + AlignTo(OBJECT_HEADER, a)
              && AlignTo(OBJECT_HEADER, a) >= OBJECT_HEADER
              && AlignTo(start + OBJECT_HEADER, a) % alignment == 0
              && (AlignTo(start + OBJECT_HEADER, a) - OBJECT_HEADER) % HEADER_ALIGN == 0
    {
      hide Pow2, RoundUp, AlignTo, IsAlignment;
      HeaderAlignment();
      var a := Max(alignment, HEADER_ALIGN);
      Divides(alignment, a);
      Divides(HEADER_ALIGN, a);
      AlignedPositive(OBJECT_HEADER, a);
      Aligned(start + OBJECT_HEADER, a);
      RoundUpOffset(start, OBJECT_HEADER, a);
      MultipleOfMultiple(AlignTo(start + OBJECT_HEADER, a), alignment, a);
      MultipleOfMultiple(AlignTo(start + OBJECT_HEADER, a), HEADER_ALIGN, a);
    }

    /** The object's header goes to the front of the list. */
    method SetDestructor(ptr: nat, destructor: nat)
      requires Valid() && forall i | 0 <= i < |objectList| :: objectList[i].ptr != ptr
      modifies `objectList
      ensures Valid() && objectList == [Object(ptr, destructor)] + old(objectList)
    {
      objectList := [Object(ptr, destructor)] + objectList;
    }

    /** Runs the destructors, the last one set first and each one once, and then deletes the
        chunks it has allocated, each once. Scratch space is left alone. */
    method Cleanup() returns (log: seq<Act>)
      requires Valid()
      modifies `objectList, `chunkList
      ensures |log| == |old(objectList)| + |old(chunkList)|
      ensures forall i | 0 <= i < |old(objectList)| :: log[i] == Ran(old(objectList)[i])
      ensures forall i | 0 <= i < |old(chunkList)| :: log[|old(objectList)| + i] == Deleted(old(chunkList)[i].base)
      ensures forall i, j | 0 <= i < j < |log| :: log[i] != log[j]
      ensures objectList == [] && chunkList == []
    {
      BasesDiffer();
      log := [];
      ghost var n := |objectList|;
      assert old(objectList)[0..] == objectList;
      while objectList != []
        invariant |log| <= n && objectList == old(objectList)[|log|..] && chunkList == old(chunkList)
        invariant forall i | 0 <= i < |log| :: log[i] == Ran(old(objectList)[i])
        decreases |objectList|
      {
        var header := objectList[0];
        objectList := objectList[1..];
        log := log + [Ran(header)];
      }
      assert |log| == n && old(chunkList)[0..] == chunkList;
      while chunkList != []
        invariant objectList == [] && n <= |log| <= n + |old(chunkList)| && chunkList == old(chunkList)[|log| - n..]
        invariant forall i | 0 <= i < n :: log[i] == Ran(old(objectList)[i])
        invariant forall i | n <= i < |log| :: log[i] == Deleted(old(chunkList)[i - n].base)
        decreases |chunkList|
      {
        var chunk := chunkList[0];
        chunkList := chunkList[1..];
        log := log + [Deleted(chunk.base)];
      }
    }

    lemma BasesDiffer()
      requires Valid()
      ensures forall i, j | 0 <= i < j < |chunkList| :: chunkList[i].base != chunkList[j].base
    {
      forall i, j | 0 <= i < j < |chunkList| ensures chunkList[i].base != chunkList[j].base {
        var c, d := chunkList[i], chunkList[j];
        assert ChunkOk(c) && ChunkOk(d) && ChunksApart(c, d);
      }
    }
  }
}
