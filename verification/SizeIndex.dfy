/** The pool manager: one pool per chunk size, and an index that finds the right pool for every
    size in one step. */
module SizeIndex {
  import opened MemoryPool

  ghost predicate Sorted(s: seq<nat>) {
    forall i, j :: 0 <= i < j < |s| ==> s[i] <= s[j]
  }

  ghost predicate Increasing(s: seq<nat>) {
    forall i, j :: 0 <= i < j < |s| ==> s[i] < s[j]
  }

  /** The first pool whose chunks are large enough, or |sizes|: what a linear search finds. */
  function LinearSearch(sizes: seq<nat>, size: nat): (k: nat)
    ensures k <= |sizes| && (k < |sizes| ==> sizes[k] >= size)
    ensures forall j :: 0 <= j < k ==> sizes[j] < size
  {
    if sizes == [] || sizes[0] >= size then 0 else 1 + LinearSearch(sizes[1..], size)
  }

  lemma LinearSearchIs(sizes: seq<nat>, size: nat, k: nat)
    requires k < |sizes| && sizes[k] >= size && forall j :: 0 <= j < k ==> sizes[j] < size
    ensures LinearSearch(sizes, size) == k
  {
  }

  // ---------- preparing the sizes ----------

  method ClampAll(list: seq<nat>) returns (v: seq<nat>)
    ensures |v| == |list| && forall i :: 0 <= i < |list| ==> v[i] == Clamp(list[i])
  {
    v := list;
    for i := 0 to |v|
      invariant |v| == |list|
      invariant forall j :: 0 <= j < |list| ==> v[j] == if j < i then Clamp(list[j]) else list[j]
    {
      if v[i] < LOWEST {
        v := v[i := LOWEST];
      }
    }
  }

  /** x put in its place of a sorted sequence. */
  function Insert(s: seq<nat>, x: nat): (r: seq<nat>)
    ensures multiset(r) == multiset(s) + multiset{x}
    decreases |s|
  {
    if s == [] then [x]
    else if x <= s[0] then [x] + s
    else
      assert s == [s[0]] + s[1..];
      [s[0]] + Insert(s[1..], x)
  }

  lemma {:induction false} InsertElements(s: seq<nat>, x: nat)
    ensures forall y :: y in Insert(s, x) <==> y in s || y == x
  {
    forall y ensures y in Insert(s, x) <==> y in s || y == x {
      assert y in Insert(s, x) <==> y in multiset(Insert(s, x));
      assert y in s <==> y in multiset(s);
    }
  }

  lemma Prepended(a: nat, r: seq<nat>)
    requires Sorted(r) && forall y :: y in r ==> a <= y
    ensures Sorted([a] + r)
  {
    forall i | 0 <= i < |r| ensures a <= r[i] {
      assert r[i] in r;
    }
  }

  lemma {:induction false} InsertSorted(s: seq<nat>, x: nat)
    requires Sorted(s)
    ensures Sorted(Insert(s, x))
    decreases |s|
  {
    if s != [] {
      if x > s[0] {
        InsertSorted(s[1..], x);
        InsertElements(s[1..], x);
        Prepended(s[0], Insert(s[1..], x));
      } else {
        Prepended(x, s);
      }
    }
  }

  /** The library's sort, by its contract: ascending, and a permutation. */
  method Sort(v: seq<nat>) returns (r: seq<nat>)
    ensures Sorted(r) && multiset(r) == multiset(v)
  {
    hide Insert, Sorted;
    NothingSorted();
    r := [];
    for i := 0 to |v|
      invariant Sorted(r) && multiset(r) == multiset(v[..i])
    {
      assert v[..i + 1] == v[..i] + [v[i]];
      InsertSorted(r, v[i]);
      r := Insert(r, v[i]);
    }
    assert v[..|v|] == v;
  }

  lemma NothingSorted()
    ensures Sorted([])
  {
  }

  /** Neighbouring duplicates dropped. */
  method Unique(v: seq<nat>) returns (r: seq<nat>)
    requires Sorted(v)
    ensures Increasing(r) && forall y :: y in r <==> y in v
  {
    r := [];
    for i := 0 to |v|
      invariant Increasing(r) && (forall y :: y in r <==> y in v[..i])
      invariant (r == [] <==> i == 0) && (i > 0 ==> r[|r| - 1] == v[i - 1])
    {
      assert v[..i + 1] == v[..i] + [v[i]];
      if i == 0 || v[i] != v[i - 1] {
        r := r + [v[i]];
      }
    }
    assert v[..|v|] == v;
  }

  /** The chunk sizes of the pools: clamped, ascending, each once. */
  method PrepareSizes(list: seq<nat>) returns (sizes: seq<nat>)
    ensures Increasing(sizes) && forall y :: y in sizes <==> exists i :: 0 <= i < |list| && y == Clamp(list[i])
  {
    var clamped := ClampAll(list);
    var sorted := Sort(clamped);
    SameElements(sorted, clamped);
    sizes := Unique(sorted);
    forall y ensures y in sizes <==> exists i :: 0 <= i < |list| && y == Clamp(list[i]) {
      if y in clamped {
        var i :| 0 <= i < |clamped| && clamped[i] == y;
        assert y == Clamp(list[i]);
      }
      if i :| 0 <= i < |list| && y == Clamp(list[i]) {
        assert clamped[i] == y;
      }
    }
  }

  lemma SameElements(a: seq<nat>, b: seq<nat>)
    requires multiset(a) == multiset(b)
    ensures forall y :: y in a <==> y in b
  {
    forall y ensures y in a <==> y in b {
      assert y in multiset(a) <==> y in multiset(b);
    }
  }

  // ---------- the index ----------

  const NO_POOL := -1

  /** For every size up to the largest, the pool that a linear search for it would find. */
  method BuildIndex(sizes: seq<nat>) returns (index: seq<int>)
    requires sizes != [] && Increasing(sizes) && sizes[0] > 0
    ensures |index| == sizes[|sizes| - 1] + 1 && index[0] == NO_POOL
    ensures forall s :: 1 <= s < |index| ==> index[s] == LinearSearch(sizes, s) < |sizes|
  {
    hide LinearSearch;
    var max := sizes[|sizes| - 1];
    index := seq(max + 1, _ => NO_POOL);
    var size := 1;
    for k := 0 to |sizes|
      invariant |index| == max + 1 && 1 <= size && index[0] == NO_POOL
      invariant k == 0 ==> size == 1
      invariant k > 0 ==> size == sizes[k - 1] + 1
      invariant forall s :: 1 <= s < size && s <= max ==> index[s] == LinearSearch(sizes, s) < |sizes|
    {
      while size <= sizes[k]
        invariant |index| == max + 1 && 1 <= size && index[0] == NO_POOL
        invariant size <= sizes[k] + 1
        invariant k > 0 ==> size > sizes[k - 1]
        invariant forall s :: 1 <= s < size && s <= max ==> index[s] == LinearSearch(sizes, s) < |sizes|
      {
        LinearSearchIs(sizes, size, k);
        index := index[size := k];
        size := size + 1;
      }
    }
  }

  /** A pool gets at least one chunk a block exactly when its size fits a block. */
  lemma ChunksPerBlock(maxBlockSize: nat, size: nat)
    requires size > 0
    ensures maxBlockSize / size >= 1 <==> size <= maxBlockSize
  {
  }

  // ---------- the manager ----------

  lemma SizeRange(sizes: seq<nat>, list: seq<nat>)
    requires list != [] && forall y :: y in sizes <==> exists i :: 0 <= i < |list| && y == Clamp(list[i])
    ensures sizes != [] && forall k :: 0 <= k < |sizes| ==> LOWEST <= sizes[k]
  {
    assert Clamp(list[0]) in sizes;
    forall k | 0 <= k < |sizes| ensures LOWEST <= sizes[k] {
      assert sizes[k] in sizes;
    }
  }

  /** The pool has as many chunks in a block as fit, and none when its size does not fit a block. */
  ghost predicate Usable(pool: PoolCore, maxBlockSize: nat) {
    && pool.chunkSize > 0 && pool.chunksPerBlock == maxBlockSize / pool.chunkSize
    && (pool.chunksPerBlock >= 1 <==> pool.chunkSize <= maxBlockSize)
  }

  method MakePools(sizes: seq<nat>, maxBlockSize: nat) returns (pools: seq<PoolCore>)
    requires forall k :: 0 <= k < |sizes| ==> LOWEST <= sizes[k]
    ensures |pools| == |sizes|
    ensures forall k :: 0 <= k < |pools| ==> fresh(pools[k]) && pools[k].Valid() && pools[k].live == {}
    ensures forall k :: 0 <= k < |pools| ==> pools[k].chunkSize == sizes[k] && Usable(pools[k], maxBlockSize)
  {
    pools := [];
    for k := 0 to |sizes|
      invariant |pools| == k
      invariant forall j :: 0 <= j < k ==> fresh(pools[j]) && pools[j].Valid() && pools[j].live == {}
      invariant forall j :: 0 <= j < k ==> pools[j].chunkSize == sizes[j] && Usable(pools[j], maxBlockSize)
    {
      ChunksPerBlock(maxBlockSize, sizes[k]);
      var pool := new PoolCore(sizes[k], maxBlockSize / sizes[k]);
      pools := pools + [pool];
    }
  }

  class PoolManager {
    var allocators: seq<PoolCore>
    var index: seq<int>
    var maxTypeSize: nat

    ghost function Sizes(): (s: seq<nat>)
      reads this
      ensures |s| == |allocators| && forall i :: 0 <= i < |s| ==> s[i] == allocators[i].chunkSize
    {
      seq(|allocators|, i requires 0 <= i < |allocators| reads this => allocators[i].chunkSize)
    }

    /** All pools are in order, and the index agrees with a linear search over their sizes. */
    ghost predicate Valid()
      reads this, allocators
    {
      && allocators != [] && Increasing(Sizes()) && maxTypeSize == Sizes()[|allocators| - 1]
         && |index| == maxTypeSize + 1
      && (forall i :: 0 <= i < |allocators| ==> allocators[i].Valid())
      && (forall s :: 1 <= s <= maxTypeSize ==> index[s] == LinearSearch(Sizes(), s) < |allocators|)
    }

    /** The pools for these type sizes; those that fit a block can be used. */
    constructor Load(list: seq<nat>, maxBlockSize: nat)
      requires list != []
      ensures Valid() && forall k :: 0 <= k < |allocators| ==> fresh(allocators[k]) && allocators[k].live == {}
      ensures forall k :: 0 <= k < |allocators| ==> Usable(allocators[k], maxBlockSize)
      ensures forall y :: y in Sizes() <==> exists i :: 0 <= i < |list| && y == Clamp(list[i])
    {
      hide PoolCore.Valid, LinearSearch, Clamp, Increasing, PoolCore.All, Usable;
      var sizes := PrepareSizes(list);
      SizeRange(sizes, list);
      var pools := MakePools(sizes, maxBlockSize);
      var built := BuildIndex(sizes);
      allocators, index, maxTypeSize := pools, built, sizes[|sizes| - 1];
      new;
      assert Sizes() == sizes;
    }

    /** Pools of different sizes are different pools. */
    lemma Different()
      requires Valid()
      ensures forall i, j :: 0 <= i < j < |allocators| ==> allocators[i] != allocators[j]
    {
      forall i, j | 0 <= i < j < |allocators| ensures allocators[i] != allocators[j] {
        assert Sizes()[i] < Sizes()[j];
      }
    }

    /** The pool that serves a size: the one with the smallest chunks that are large enough. */
    method PoolFor(typeSize: nat) returns (k: nat)
      requires Valid() && 1 <= typeSize <= maxTypeSize
      ensures k == LinearSearch(Sizes(), typeSize) && k < |allocators|
      ensures allocators[k].chunkSize >= typeSize && forall j :: 0 <= j < k ==> allocators[j].chunkSize < typeSize
    {
      k := index[typeSize];
    }

    /** A chunk from the pool of the size, or, above the largest size, straight from the system. */
    method Allocate(typeSize: nat, base: nat) returns (p: nat)
      requires Valid() && typeSize >= 1
      requires typeSize <= maxTypeSize ==>
                 var pool := allocators[LinearSearch(Sizes(), typeSize)];
                 pool.NewBlock(base) && pool.chunksPerBlock >= 1
      modifies allocators
      ensures Valid() && allocators == old(allocators) && Sizes() == old(Sizes())
      ensures forall k :: 0 <= k < |allocators| && k != LinearSearch(Sizes(), typeSize) ==>
              allocators[k].live == old(allocators[k].live)
      ensures typeSize > maxTypeSize ==> p == base
      ensures typeSize <= maxTypeSize ==>
                var pool := allocators[LinearSearch(Sizes(), typeSize)];
                p !in old(pool.live) && pool.live == old(pool.live) + {p} && p in pool.All()
    {
      hide PoolCore.Valid, LinearSearch, Chunks, AllChunks, BlocksApart;
      Different();
      if typeSize <= maxTypeSize {
        var k := PoolFor(typeSize);
        p := allocators[k].Allocate(base);
      } else {
        p := base;
      }
    }

    /** The chunk goes back to the pool of the size, the one it came from. */
    method Deallocate(p: nat, typeSize: nat)
      requires Valid() && typeSize >= 1
      requires typeSize <= maxTypeSize ==> p in allocators[LinearSearch(Sizes(), typeSize)].live
      modifies allocators
      ensures Valid() && allocators == old(allocators) && Sizes() == old(Sizes())
      ensures forall k :: 0 <= k < |allocators| && k != LinearSearch(Sizes(), typeSize) ==>
              allocators[k].live == old(allocators[k].live)
      ensures typeSize <= maxTypeSize ==>
                var pool := allocators[LinearSearch(Sizes(), typeSize)];
                pool.live == old(pool.live) - {p}
    {
      hide PoolCore.Valid, LinearSearch, Chunks, AllChunks, BlocksApart;
      Different();
      if typeSize <= maxTypeSize {
        var k := PoolFor(typeSize);
        allocators[k].Deallocate(p);
      }
    }
  }
}
