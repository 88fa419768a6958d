/** The pool allocator: chunks of one size cut from blocks, the free ones linked through their own
    memory. */
module MemoryPool {

  /** The null pointer. */
  const NULL := 0

  // ---------- chunks of a block ----------

  /** The addresses of n chunks from `base` on. */
  function Chunks(base: nat, size: nat, n: nat): (cs: seq<nat>)
    ensures |cs| == n
  {
    if n == 0 then [] else Chunks(base, size, n - 1) + [base + (n - 1) * size]
  }

  lemma {:induction false} ChunkAt(base: nat, size: nat, n: nat, i: nat)
    requires i < n
    ensures i * size >= 0 && Chunks(base, size, n)[i] == base + i * size
  {
    assert i * size >= 0;
    if i < n - 1 {
      ChunkAt(base, size, n - 1, i);
    }
  }

  lemma Spaced(size: nat, i: nat, j: nat)
    requires i < j
    ensures i * size + size <= j * size
  {
    assert j * size == i * size + (j - i) * size;
    assert (j - i) * size == size + (j - i - 1) * size;
    assert (j - i - 1) * size >= 0;
  }

  /** Chunks lie inside their block, each in its own range of addresses. */
  lemma ChunkRanges(base: nat, size: nat, n: nat)
    ensures n * size >= 0
    ensures forall i :: 0 <= i < n ==>
              base <= Chunks(base, size, n)[i] && Chunks(base, size, n)[i] + size <= base + n * size
    ensures forall i, j :: 0 <= i < j < n ==> Chunks(base, size, n)[i] + size <= Chunks(base, size, n)[j]
  {
    assert n * size >= 0;
    forall i | 0 <= i < n
      ensures base <= Chunks(base, size, n)[i] && Chunks(base, size, n)[i] + size <= base + n * size
    {
      ChunkAt(base, size, n, i);
      Spaced(size, i, n);
    }
    forall i, j | 0 <= i < j < n ensures Chunks(base, size, n)[i] + size <= Chunks(base, size, n)[j] {
      ChunkAt(base, size, n, i);
      ChunkAt(base, size, n, j);
      Spaced(size, i, j);
    }
  }

  /** All chunks of all blocks, newest block first. */
  function AllChunks(blocks: seq<nat>, size: nat, n: nat): seq<nat> {
    if blocks == [] then [] else Chunks(blocks[0], size, n) + AllChunks(blocks[1..], size, n)
  }

  /** The address ranges of the blocks do not overlap, and none contains the null pointer. */
  ghost predicate BlocksApart(blocks: seq<nat>, span: nat) {
    && (forall i :: 0 <= i < |blocks| ==> blocks[i] != NULL)
    && (forall i, j :: 0 <= i < j < |blocks| ==> blocks[i] + span <= blocks[j] || blocks[j] + span <= blocks[i])
  }

  /** Two addresses of all chunks are a chunk's size apart. */
  ghost predicate ChunksApart(all: seq<nat>, size: nat) {
    forall i, j :: 0 <= i < j < |all| ==> all[i] + size <= all[j] || all[j] + size <= all[i]
  }

  /** Every chunk lies inside one of the blocks. */
  ghost predicate Inside(all: seq<nat>, blocks: seq<nat>, size: nat, span: nat) {
    forall k :: 0 <= k < |all| ==> InBlock(all[k], blocks, size, span)
  }

  ghost predicate InBlock(a: nat, blocks: seq<nat>, size: nat, span: nat) {
    exists b :: b in blocks && b <= a && a + size <= b + span
  }

  lemma {:induction false} AllChunksInside(blocks: seq<nat>, size: nat, n: nat)
    ensures n * size >= 0 && Inside(AllChunks(blocks, size, n), blocks, size, n * size)
    decreases |blocks|
  {
    ChunkRanges(0, size, n);
    if blocks != [] {
      var first, rest, all := Chunks(blocks[0], size, n), AllChunks(blocks[1..], size, n), AllChunks(blocks, size, n);
      ChunkRanges(blocks[0], size, n);
      AllChunksInside(blocks[1..], size, n);
      InsideJoined(first, rest, blocks, size, n * size);
    }
  }

  lemma InsideJoined(first: seq<nat>, rest: seq<nat>, blocks: seq<nat>, size: nat, span: nat)
    requires blocks != [] && Inside(rest, blocks[1..], size, span)
    requires forall i :: 0 <= i < |first| ==> blocks[0] <= first[i] && first[i] + size <= blocks[0] + span
    ensures Inside(first + rest, blocks, size, span)
  {
    var all := first + rest;
    forall k | 0 <= k < |all| ensures InBlock(all[k], blocks, size, span) {
      if k < |first| {
        assert blocks[0] in blocks && all[k] == first[k];
      } else {
        assert InBlock(rest[k - |first|], blocks[1..], size, span);
        var b :| b in blocks[1..] && b <= rest[k - |first|] && rest[k - |first|] + size <= b + span;
        assert b in blocks;
      }
    }
  }

  /** Address ranges of different chunks are disjoint, across all blocks. */
  lemma {:induction false} AllChunksApart(blocks: seq<nat>, size: nat, n: nat)
    requires n * size >= 0 && BlocksApart(blocks, n * size)
    ensures ChunksApart(AllChunks(blocks, size, n), size)
    decreases |blocks|
  {
    if blocks != [] {
      var first, rest, all := Chunks(blocks[0], size, n), AllChunks(blocks[1..], size, n), AllChunks(blocks, size, n);
      ChunkRanges(blocks[0], size, n);
      AllChunksInside(blocks[1..], size, n);
      AllChunksApart(blocks[1..], size, n);
      ApartJoined(first, rest, blocks, size, n * size);
    }
  }

  lemma ApartJoined(first: seq<nat>, rest: seq<nat>, blocks: seq<nat>, size: nat, span: nat)
    requires blocks != [] && BlocksApart(blocks, span) && Inside(rest, blocks[1..], size, span)
    requires ChunksApart(first, size) && ChunksApart(rest, size)
    requires forall i :: 0 <= i < |first| ==> blocks[0] <= first[i] && first[i] + size <= blocks[0] + span
    ensures ChunksApart(first + rest, size)
  {
    var all, n := first + rest, |first|;
    forall i, j | 0 <= i < j < |all| ensures all[i] + size <= all[j] || all[j] + size <= all[i] {
      if j >= n > i {
        assert InBlock(rest[j - n], blocks[1..], size, span);
        var b :| b in blocks[1..] && b <= rest[j - n] && rest[j - n] + size <= b + span;
        var k :| 0 <= k < |blocks[1..]| && blocks[1..][k] == b;
        assert blocks[k + 1] == b;
      }
    }
  }

  lemma {:induction false} AllChunksLength(blocks: seq<nat>, size: nat, n: nat)
    ensures |AllChunks(blocks, size, n)| == |blocks| * n
    decreases |blocks|
  {
    if blocks != [] {
      AllChunksLength(blocks[1..], size, n);
      assert |blocks| * n == n + (|blocks| - 1) * n;
    }
  }

  // ---------- the free list ----------

  /** Following the pointers stored in memory from `head` visits exactly `list` and ends. */
  ghost predicate Linked(next: map<nat, nat>, head: nat, list: seq<nat>)
    decreases |list|
  {
    if list == [] then head == NULL
    else head == list[0] && head != NULL && head in next && Linked(next, next[head], list[1..])
  }

  /** Memory that agrees on the chunks of the list has the same list. */
  lemma {:induction false} LinkedElsewhere(next: map<nat, nat>, next': map<nat, nat>, head: nat, list: seq<nat>)
    requires Linked(next, head, list) && forall a :: a in list && a in next ==> a in next' && next'[a] == next[a]
    ensures Linked(next', head, list)
    decreases |list|
  {
    if list != [] {
      assert list[0] in list;
      LinkedElsewhere(next, next', next[head], list[1..]);
    }
  }

  ghost predicate Distinct(s: seq<nat>) {
    forall i, j :: 0 <= i < j < |s| ==> s[i] != s[j]
  }

  ghost function Elements(s: seq<nat>): set<nat> {
    set x | x in s
  }

  lemma {:induction false} DistinctSize(s: seq<nat>)
    requires Distinct(s)
    ensures |Elements(s)| == |s|
    decreases |s|
  {
    if s != [] {
      DistinctSize(s[1..]);
      assert Elements(s) == Elements(s[1..]) + {s[0]};
    }
  }

  lemma {:induction false} ChunksLinked(next: map<nat, nat>, cs: seq<nat>, free: seq<nat>, head: nat, i: nat)
    requires i < |cs| && Linked(next, head, free)
    requires forall k :: 0 <= k < |cs| ==> cs[k] != NULL && cs[k] in next
    requires forall k :: 0 <= k < |cs| - 1 ==> next[cs[k]] == cs[k + 1]
    requires next[cs[|cs| - 1]] == head
    ensures Linked(next, cs[i], cs[i..] + free)
    decreases |cs| - i
  {
    var list := cs[i..] + free;
    if i == |cs| - 1 {
      assert list[1..] == free;
    } else {
      ChunksLinked(next, cs, free, head, i + 1);
      assert list[1..] == cs[i + 1..] + free;
    }
  }

  lemma NextChunk(base: nat, size: nat, n: nat, i: nat)
    requires i + 1 < n
    ensures Chunks(base, size, n)[i + 1] == Chunks(base, size, n)[i] + size
  {
    ChunkAt(base, size, n, i);
    ChunkAt(base, size, n, i + 1);
    assert (i + 1) * size == i * size + size;
  }

  lemma ChunkSteps(base: nat, size: nat, n: nat)
    ensures forall k :: 0 <= k < n - 1 ==> Chunks(base, size, n)[k + 1] == Chunks(base, size, n)[k] + size
  {
    forall k | 0 <= k < n - 1 ensures Chunks(base, size, n)[k + 1] == Chunks(base, size, n)[k] + size {
      NextChunk(base, size, n, k);
    }
  }

  lemma LastIsLast(cs: seq<nat>)
    requires cs != [] && Distinct(cs)
    ensures forall k :: 0 <= k < |cs| - 1 ==> cs[k] != cs[|cs| - 1]
  {
  }

  lemma DistinctJoined(a: seq<nat>, b: seq<nat>)
    requires Distinct(a) && Distinct(b) && forall x :: x in a ==> x !in b
    ensures Distinct(a + b)
  {
    forall i, j | 0 <= i < j < |a + b| ensures (a + b)[i] != (a + b)[j] {
      if i < |a| <= j {
        assert a[i] in a && b[j - |a|] in b;
      }
    }
  }

  /** The chunks of a block that overlaps no other are all different, also from the other chunks. */
  lemma NewChunks(base: nat, blocks: seq<nat>, size: nat, n: nat)
    requires size > 0 && n >= 1 && n * size >= 0 && BlocksApart([base] + blocks, n * size)
    ensures Distinct(Chunks(base, size, n)) && Chunks(base, size, n)[0] == base
    ensures forall k :: 0 <= k < n ==> Chunks(base, size, n)[k] != NULL
    ensures forall a :: a in Chunks(base, size, n) ==> a !in AllChunks(blocks, size, n)
    ensures AllChunks([base] + blocks, size, n) == Chunks(base, size, n) + AllChunks(blocks, size, n)
  {
    var cs, rest := Chunks(base, size, n), AllChunks(blocks, size, n);
    assert ([base] + blocks)[1..] == blocks && ([base] + blocks)[0] == base;
    AllChunksApart([base] + blocks, size, n);
    ChunkRanges(base, size, n);
    ChunkAt(base, size, n, 0);
    assert 0 * size == 0;
    var all := cs + rest;
    forall i, j | 0 <= i < |cs| && 0 <= j < |rest| ensures cs[i] != rest[j] {
      assert all[i] == cs[i] && all[|cs| + j] == rest[j];
    }
  }

  // ---------- one pool ----------

  class PoolCore {
    const chunkSize: nat
    const chunksPerBlock: nat
    var blocks: seq<nat>
    var freeChunks: nat
    /** The word at the start of each chunk: a link while the chunk is free, user data while not. */
    var next: map<nat, nat>
    /** The free list, and the chunks handed out. */
    ghost var free: seq<nat>
    ghost var live: set<nat>

    ghost function All(): seq<nat>
      reads this
    {
      AllChunks(blocks, chunkSize, chunksPerBlock)
    }

    /** The address range of a block. */
    ghost function Span(): (s: nat) {
      assert chunksPerBlock * chunkSize >= 0;
      chunksPerBlock * chunkSize
    }

    /** The free list has no cycle, and free and live chunks together are all chunks, each once. */
    ghost predicate Valid()
      reads this
    {
      && chunkSize > 0
      && BlocksApart(blocks, Span())
      && Linked(next, freeChunks, free) && Distinct(free)
      && (forall a :: a in All() <==> a in free || a in live)
      && (forall a :: a in free ==> a !in live)
    }

    /** A pool with no chunks in a block can be made, but nothing can be allocated from it. */
    constructor (typeSize: nat, chunksPerBlock: nat)
      ensures Valid() && blocks == [] && live == {} && this.chunksPerBlock == chunksPerBlock
              && chunkSize == Clamp(typeSize)
    {
      this.chunkSize := if typeSize < LOWEST then LOWEST else typeSize;
      this.chunksPerBlock := chunksPerBlock;
      blocks, freeChunks, next, free, live := [], NULL, map[], [], {};
    }

    /** What the system allocator promises about a new block. */
    ghost predicate NewBlock(base: nat)
      reads this
    {
      BlocksApart([base] + blocks, Span())
    }

    /** The chunks of a block linked one to the next; the last one is returned. */
    method LinkChunks(base: nat, ghost cs: seq<nat>) returns (chunk: nat)
      requires chunksPerBlock >= 1 && |cs| == chunksPerBlock && cs[0] == base && Distinct(cs)
      requires forall k :: 0 <= k < |cs| - 1 ==> cs[k + 1] == cs[k] + chunkSize
      modifies this`next
      ensures chunk == cs[|cs| - 1]
      ensures forall k :: 0 <= k < |cs| - 1 ==> cs[k] in next && next[cs[k]] == cs[k + 1]
      ensures forall a :: a in old(next) && a !in cs ==> a in next && next[a] == old(next)[a]
    {
      chunk := base;
      for i := 0 to chunksPerBlock - 1
        invariant chunk == cs[i]
        invariant forall k :: 0 <= k < i ==> cs[k] in next && next[cs[k]] == cs[k + 1]
        invariant forall a :: a in old(next) && a !in cs ==> a in next && next[a] == old(next)[a]
      {
        next := next[chunk := chunk + chunkSize];
        chunk := next[chunk];
      }
    }

    /** A new block cut into chunks that are linked in front of the free list. */
    method AllocChunksForBlock(base: nat)
      requires Valid() && NewBlock(base) && chunksPerBlock >= 1
      modifies this`next, this`freeChunks, this`free
      ensures free == Chunks(base, chunkSize, chunksPerBlock) + old(free) && Linked(next, freeChunks, free)
      ensures forall a :: a in free <==> a in Chunks(base, chunkSize, chunksPerBlock) || a in old(free)
    {
      ghost var cs := Chunks(base, chunkSize, chunksPerBlock);
      NewChunks(base, blocks, chunkSize, chunksPerBlock);
      ChunkSteps(base, chunkSize, chunksPerBlock);
      hide Chunks, Linked, BlocksApart, AllChunks, Distinct;
      var last := LinkChunks(base, cs);
      next := next[last := freeChunks];
      LastIsLast(cs);
      LinkedElsewhere(old(next), next, freeChunks, free);
      ChunksLinked(next, cs, free, freeChunks, 0);
      assert cs[0..] == cs;
      freeChunks := base;
      free := cs + free;
    }

    method AllocNewBlock(base: nat)
      requires Valid() && NewBlock(base) && chunksPerBlock >= 1
      modifies this`next, this`freeChunks, this`free, this`blocks
      ensures Valid() && blocks == [base] + old(blocks) && free == Chunks(base, chunkSize, chunksPerBlock) + old(free)
    {
      NewChunks(base, blocks, chunkSize, chunksPerBlock);
      DistinctJoined(Chunks(base, chunkSize, chunksPerBlock), free);
      AllocChunksForBlock(base);
      blocks := [base] + blocks;
    }

    /** A chunk off the free list; `base` is what the system allocator would give if it is empty.
        Without a chunk in a block the linking loop would run past the block. */
    method Allocate(base: nat) returns (p: nat)
      requires Valid() && NewBlock(base) && chunksPerBlock >= 1
      modifies this
      ensures Valid() && p !in old(live) && live == old(live) + {p} && p in All()
      ensures blocks == (if old(free) == [] then [base] + old(blocks) else old(blocks))
      ensures var list := if old(free) == [] then Chunks(base, chunkSize, chunksPerBlock) else old(free);
              p == list[0] && free == list[1..]
    {
      if freeChunks == NULL {
        AllocNewBlock(base);
        assert Chunks(base, chunkSize, chunksPerBlock) + [] == Chunks(base, chunkSize, chunksPerBlock);
      }
      p := freeChunks;
      freeChunks := next[p];
      live := live + {p};
      free := free[1..];
    }

    /** A live chunk given back: the new head of the free list. */
    method Deallocate(p: nat)
      requires Valid() && p in live
      modifies this`next, this`freeChunks, this`free, this`live
      ensures Valid() && live == old(live) - {p} && free == [p] + old(free)
    {
      NotNull(p);
      next := next[p := freeChunks];
      LinkedElsewhere(old(next), next, freeChunks, free);
      freeChunks := p;
      live := live - {p};
      free := [p] + free;
      assert free[1..] == old(free);
    }

    /** The user writes into a live chunk: the pool does not depend on what it holds. */
    method Write(p: nat, word: nat)
      requires Valid() && p in live
      modifies this`next
      ensures Valid() && p in next && next[p] == word
    {
      next := next[p := word];
      LinkedElsewhere(old(next), next, freeChunks, free);
    }

    lemma NotNull(p: nat)
      requires Valid() && p in All()
      ensures p != NULL
    {
      AllChunksInside(blocks, chunkSize, chunksPerBlock);
      var k :| 0 <= k < |All()| && All()[k] == p;
      assert InBlock(All()[k], blocks, chunkSize, Span());
    }

    /** Conservation: the free and the live chunks are as many as all blocks have. */
    lemma ChunkCount()
      requires Valid()
      ensures |free| + |live| == |blocks| * chunksPerBlock
    {
      AllChunksLength(blocks, chunkSize, chunksPerBlock);
      AllChunksApart(blocks, chunkSize, chunksPerBlock);
      assert Distinct(All());
      DistinctSize(All());
      DistinctSize(free);
      assert Elements(All()) == Elements(free) + live;
      assert Elements(free) * live == {};
    }

    /** Live chunks never overlap, and each lies inside one block. */
    lemma LiveApart(p: nat, q: nat)
      requires Valid() && p in live && q in live && p != q
      ensures p + chunkSize <= q || q + chunkSize <= p
      ensures InBlock(p, blocks, chunkSize, Span())
    {
      AllChunksApart(blocks, chunkSize, chunksPerBlock);
      AllChunksInside(blocks, chunkSize, chunksPerBlock);
      var i :| 0 <= i < |All()| && All()[i] == p;
      var j :| 0 <= j < |All()| && All()[j] == q;
    }
  }

  /** A chunk holds at least a pointer. */
  const LOWEST := 8

  function Clamp(v: nat): (r: nat)
    ensures r >= LOWEST && r >= v && (v < 8 ==> r == 8) && (v >= 8 ==> r == v)
  {
    if v < LOWEST then LOWEST else v
  }
}
