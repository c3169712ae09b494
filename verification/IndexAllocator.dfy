/** The chunked bitset allocator, proved to implement `IndexSpec`. */
module IndexAllocators {
  import opened Modular
  import opened ChunkVector
  import IndexSpec

  const INDEX_LIMIT: nat := IndexSpec.INDEX_LIMIT

  /** The chunk that lies `n` chunks after chunk `sc`, going round. */
  function ChunkAt(sc: nat, n: nat, size: nat): (c: nat)
    requires sc < size && n <= size
    ensures c < size
  {
    if sc + n < size then sc + n else sc + n - size
  }

  /** How many chunks after `sc` the chunk of `x` comes. */
  function ChunksAfter(sc: nat, x: nat, size: nat): (k: nat)
    requires sc < size && x < 64 * size
    ensures k < size && ChunkAt(sc, k, size) == x / 64
  {
    if sc <= x / 64 then x / 64 - sc else x / 64 + size - sc
  }

  /** The indices a search from `start` has been through after `n` chunks. */
  predicate Searched(start: nat, sc: nat, size: nat, n: nat, x: nat)
    requires sc < size && x < 64 * size
  {
    var k := ChunksAfter(sc, x, size);
    n > size || 0 < k < n || (k == 0 < n && start <= x)
  }

  /** The indices of the chunk in hand that it has been through after `bit` bits. */
  predicate SearchedInChunk(start: nat, n: nat, chunk: nat, bit: nat, x: nat) {
    chunk * 64 <= x < chunk * 64 + bit && (n == 0 ==> start <= x)
  }

  /** Conversion to the 32-bit index type. */
  method ToIndex(x: nat) returns (r: nat)
    ensures r == IndexSpec.Wrapped(x)
  {
    r := x % INDEX_LIMIT;
    RemIsMod(x, INDEX_LIMIT);
  }

  class IndexAllocator {
    var indexBitset: seq<bv64>
    var numAllocated: nat
    var lastAllocatedIndex: nat
    var desiredMaximumIndex: nat
    /** The set the bitset stands for. */
    ghost var live: set<nat>

    /** The allocator as a set, a capacity, a cursor and a soft maximum. */
    ghost function Model(): IndexSpec.Alloc
      reads this
    {
      IndexSpec.Alloc(live, 64 * |indexBitset|, lastAllocatedIndex, desiredMaximumIndex)
    }

    ghost predicate Valid()
      reads this
    {
      && Backs(indexBitset, live, |indexBitset|)
      && Model().Valid()
      && numAllocated == |live|
    }

    constructor ()
      ensures Valid()
      ensures Model() == IndexSpec.INITIAL
    {
      indexBitset, live := [], {};
      lastAllocatedIndex := 0;
      desiredMaximumIndex := 99;
      numAllocated := 0;
      new;
      SetFree(0, false);
      lastAllocatedIndex := 0;
      numAllocated := 1;
    }

    method AllocateAndAcquire() returns (index: nat)
      requires Valid() && |Model().live| < INDEX_LIMIT
      modifies this
      ensures Valid()
      ensures index == IndexSpec.Choose(old(Model()))
      ensures Model() == IndexSpec.Allocate(old(Model()))
    {
      IndexSpec.AllocateKeepsValid(Model());
      var nextIndex := PickIndex();
      SetFree(nextIndex, false);
      numAllocated := numAllocated + 1;
      lastAllocatedIndex := nextIndex;
      index := nextIndex;
    }

    /** Raises the soft maximum if it is time to, and chooses the index to take. */
    method PickIndex() returns (nextIndex: nat)
      requires Valid()
      modifies this`desiredMaximumIndex
      ensures Valid()
      ensures nextIndex == IndexSpec.Choose(old(Model()))
      ensures desiredMaximumIndex == IndexSpec.RaisedMaximum(old(Model()))
    {
      hide IndexSpec.FindFree, IndexSpec.Wrapped, Backs;
      ghost var a := Model();
      nextIndex := ToIndex(lastAllocatedIndex + 1);
      if nextIndex >= desiredMaximumIndex && numAllocated > desiredMaximumIndex / 2 {
        if desiredMaximumIndex <= (INDEX_LIMIT - 1) / 2 {
          desiredMaximumIndex := desiredMaximumIndex * 2;
        }
      }
      assert desiredMaximumIndex == IndexSpec.RaisedMaximum(a);
      var isFree := IsFree(nextIndex);
      if nextIndex >= desiredMaximumIndex {
        nextIndex := FindFree(0);
      } else if !isFree {
        nextIndex := ToIndex(nextIndex + 1);
        nextIndex := FindFree(nextIndex);
      }
    }

    /** Taking a given index; refused, with nothing changed, if it is in use. */
    method Acquire(index: nat) returns (ok: bool)
      requires Valid() && index < INDEX_LIMIT
      modifies this
      ensures Valid()
      ensures ok == (index !in old(Model()).live)
      ensures Model() == IndexSpec.Acquire(old(Model()), index)
    {
      IndexSpec.AcquireKeepsValid(Model(), index);
      var isFree := IsFree(index);
      if !isFree {
        return false;
      }
      SetFree(index, false);
      numAllocated := numAllocated + 1;
      lastAllocatedIndex := IndexSpec.Max(lastAllocatedIndex, index);
      return true;
    }

    method Release(index: nat)
      requires Valid() && index in Model().live && index != 0
      modifies this
      ensures Valid()
      ensures Model() == IndexSpec.Release(old(Model()), index)
    {
      IndexSpec.ReleaseKeepsValid(Model(), index);
      SetFree(index, true);
      numAllocated := numAllocated - 1;
    }

    method IsFree(index: nat) returns (free: bool)
      requires Backs(indexBitset, live, |indexBitset|) && forall i | i in live :: i < 64 * |indexBitset|
      ensures free == (index !in live)
    {
      var chunk := index / 64;
      if |indexBitset| <= chunk {
        return true;
      }
      free := IsClear(indexBitset, index, live);
    }

    method SetFree(index: nat, free: bool)
      requires Backs(indexBitset, live, |indexBitset|) && forall i | i in live :: i < 64 * |indexBitset|
      modifies this`indexBitset, this`live
      ensures Backs(indexBitset, live, |indexBitset|)
      ensures 64 * |indexBitset| == IndexSpec.Grown(old(64 * |indexBitset|), index)
      ensures live == if free then old(live) - {index} else old(live) + {index}
    {
      var chunk := index / 64;
      if |indexBitset| <= chunk {
        var extra := chunk + 1 - |indexBitset|;
        Resized(indexBitset, live, extra);
        indexBitset := indexBitset + seq(extra, _ => 0);
      }
      indexBitset := Assign(indexBitset, index, !free, live);
      live := if free then live - {index} else live + {index};
    }

    method FindFree(start: nat) returns (index: nat)
      requires Valid() && start < INDEX_LIMIT
      ensures index == IndexSpec.Wrapped(IndexSpec.FindFree(Model().live, start, Model().cap))
    {
      ghost var size := |indexBitset|;
      if |indexBitset| != 0 {
        var startChunk := start / 64;
        ghost var sc := Rem(startChunk, size);
        var n := 0;
        while n <= |indexBitset|
          invariant n <= size + 1
          invariant forall x: nat | x < 64 * size && Searched(start, sc, size, n, x) :: x in live
        {
          var chunk := (startChunk + n) % |indexBitset|;
          ChunkOfStep(startChunk, n, size);
          var full := IsFullChunk(indexBitset, chunk, live);
          if !full {
            var bit := 0;
            while bit < 64
              invariant bit <= 64
              invariant forall x: nat | SearchedInChunk(start, n, chunk, bit, x) :: x in live
            {
              var clear := IsClear(indexBitset, chunk * 64 + bit, live);
              if clear {
                var found := chunk * 64 + bit;
                if n == 0 && found < start {
                } else {
                  FoundFree(live, start, sc, size, n, chunk, found);
                  index := ToIndex(found);
                  return;
                }
              }
              bit := bit + 1;
            }
          }
          NextChunkSearched(live, start, sc, size, n, chunk);
          n := n + 1;
        }
      }
      index := ToIndex(|indexBitset| * 64);
    }
  }

  lemma ChunkOfStep(startChunk: nat, n: nat, size: nat)
    requires 0 < size && n <= size
    ensures (startChunk + n) % size == ChunkAt(Rem(startChunk, size), n, size)
  {
    RemIsMod(startChunk + n, size);
    RemAdd(startChunk, n, size);
    RemOfSum(Rem(startChunk, size), n, size);
  }

  lemma RemOfSum(sc: nat, n: nat, size: nat)
    requires sc < size && n <= size
    ensures Rem(sc + n, size) == ChunkAt(sc, n, size)
  {
  }

  lemma NextChunkSearched(live: set<nat>, start: nat, sc: nat, size: nat, n: nat, chunk: nat)
    requires sc < size && n <= size && chunk == ChunkAt(sc, n, size)
    requires forall x: nat | x < 64 * size && Searched(start, sc, size, n, x) :: x in live
    requires forall x: nat | SearchedInChunk(start, n, chunk, 64, x) :: x in live
    ensures forall x: nat | x < 64 * size && Searched(start, sc, size, n + 1, x) :: x in live
  {
    forall x: nat | x < 64 * size && Searched(start, sc, size, n + 1, x)
      ensures x in live
    {
      if !Searched(start, sc, size, n, x) {
        assert SearchedInChunk(start, n, chunk, 64, x);
      }
    }
  }

  /** The first clear bit the walk meets is the answer of the cyclic search. */
  lemma FoundFree(live: set<nat>, start: nat, sc: nat, size: nat, n: nat, chunk: nat, found: nat)
    requires 0 < size && sc == Rem(start / 64, size) && n <= size && chunk == ChunkAt(sc, n, size)
    requires forall x: nat | x < 64 * size && Searched(start, sc, size, n, x) :: x in live
    requires chunk * 64 <= found < chunk * 64 + 64
    requires forall x: nat | SearchedInChunk(start, n, chunk, found - chunk * 64, x) :: x in live
    requires found !in live && (n == 0 ==> start <= found)
    ensures found < 64 * size
    ensures IndexSpec.FindFree(live, start, 64 * size) == found
  {
  }
}
