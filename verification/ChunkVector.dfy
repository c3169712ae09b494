/** A growing vector of 64-bit chunks, read as one set of indices. */
module ChunkVector {
  import opened BitChunks

  /** The first `n` entries of `s` are the membership of the `n` indices from `base` on. */
  ghost predicate Lists(s: seq<bool>, live: set<nat>, base: nat, n: nat)
    requires n <= |s|
  {
    n == 0 || (Lists(s, live, base, n - 1) && s[n - 1] == (base + n - 1 in live))
  }

  lemma {:induction false} ListsAt(s: seq<bool>, live: set<nat>, base: nat, n: nat, k: nat)
    requires k < n <= |s| && Lists(s, live, base, n)
    ensures s[k] == (base + k in live)
  {
    if k == n - 1 {
    } else {
      ListsAt(s, live, base, n - 1, k);
    }
  }

  lemma {:induction false} ListsFrom(s: seq<bool>, live: set<nat>, base: nat, n: nat)
    requires n <= |s| && forall k :: 0 <= k < n ==> s[k] == (base + k in live)
    ensures Lists(s, live, base, n)
  {
    if n == 0 {
    } else {
      ListsFrom(s, live, base, n - 1);
    }
  }

  ghost predicate ChunkBacks(word: bv64, live: set<nat>, base: nat) {
    Lists(Bools(word), live, base, 64)
  }

  /** The first `n` words are the membership of the indices below `64 * n`. */
  ghost predicate Backs(words: seq<bv64>, live: set<nat>, n: nat)
    requires n <= |words|
  {
    n == 0 || (Backs(words, live, n - 1) && ChunkBacks(words[n - 1], live, 64 * (n - 1)))
  }

  lemma {:induction false} BacksAt(words: seq<bv64>, live: set<nat>, n: nat, c: nat)
    requires c < n <= |words| && Backs(words, live, n)
    ensures ChunkBacks(words[c], live, 64 * c)
  {
    if c == n - 1 {
    } else {
      BacksAt(words, live, n - 1, c);
    }
  }

  lemma {:induction false} BacksFrom(words: seq<bv64>, live: set<nat>, n: nat)
    requires n <= |words| && forall c: nat :: c < n ==> ChunkBacks(words[c], live, 64 * c)
    ensures Backs(words, live, n)
  {
    if n == 0 {
    } else {
      BacksFrom(words, live, n - 1);
    }
  }

  lemma IndexBacked(words: seq<bv64>, live: set<nat>, i: nat)
    requires Backs(words, live, |words|) && i / 64 < |words|
    ensures Bools(words[i / 64])[i % 64] == (i in live)
  {
    BacksAt(words, live, |words|, i / 64);
    ListsAt(Bools(words[i / 64]), live, 64 * (i / 64), 64, i % 64);
  }

  /** Changing one bit of one chunk changes the membership of that one index. */
  lemma Reassigned(words: seq<bv64>, live: set<nat>, i: nat, d: bv64, value: bool)
    requires Backs(words, live, |words|) && i / 64 < |words|
    requires Bools(d) == Bools(words[i / 64])[i % 64 := value]
    ensures Backs(words[i / 64 := d], if value then live + {i} else live - {i}, |words|)
  {
    var words', live' := words[i / 64 := d], if value then live + {i} else live - {i};
    forall c: nat | c < |words|
      ensures ChunkBacks(words'[c], live', 64 * c)
    {
      BacksAt(words, live, |words|, c);
      ReassignedList(Bools(words[c]), live, i, c, Bools(words'[c]), value);
    }
    BacksFrom(words', live', |words|);
  }

  lemma ReassignedList(s: seq<bool>, live: set<nat>, i: nat, c: nat, t: seq<bool>, value: bool)
    requires |s| == 64 && Lists(s, live, 64 * c, 64)
    requires t == if c == i / 64 then s[i % 64 := value] else s
    ensures Lists(t, if value then live + {i} else live - {i}, 64 * c, 64)
  {
    var live' := if value then live + {i} else live - {i};
    forall k | 0 <= k < 64
      ensures t[k] == (64 * c + k in live')
    {
      ListsAt(s, live, 64 * c, 64, k);
    }
    ListsFrom(t, live', 64 * c, 64);
  }

  lemma NoneListed(live: set<nat>, base: nat)
    requires forall i | i in live :: i < base
    ensures ChunkBacks(0, live, base)
  {
    forall k | 0 <= k < 64
      ensures Bools(0)[k] == (base + k in live)
    {
      EmptyBools(k);
    }
    ListsFrom(Bools(0), live, base, 64);
  }

  /** Appending zero words changes no membership. */
  lemma Resized(words: seq<bv64>, live: set<nat>, extra: nat)
    requires Backs(words, live, |words|) && forall i | i in live :: i < 64 * |words|
    ensures Backs(words + seq(extra, _ => 0), live, |words| + extra)
  {
    var words' := words + seq(extra, _ => 0 as bv64);
    forall c: nat | c < |words| + extra
      ensures ChunkBacks(words'[c], live, 64 * c)
    {
      if c < |words| {
        BacksAt(words, live, |words|, c);
      } else {
        NoneListed(live, 64 * c);
      }
    }
    BacksFrom(words', live, |words| + extra);
  }

  method IsClear(words: seq<bv64>, i: nat, ghost live: set<nat>) returns (clear: bool)
    requires Backs(words, live, |words|) && i / 64 < |words|
    ensures clear == (i !in live)
  {
    IndexBacked(words, live, i);
    clear := TestClear(words[i / 64], i % 64);
  }

  method IsFullChunk(words: seq<bv64>, chunk: nat, ghost live: set<nat>) returns (full: bool)
    requires Backs(words, live, |words|) && chunk < |words|
    ensures full == forall x: nat :: 64 * chunk <= x < 64 * chunk + 64 ==> x in live
  {
    full := IsFull(words[chunk]);
    BacksAt(words, live, |words|, chunk);
    ListedChunk(Bools(words[chunk]), live, 64 * chunk);
  }

  lemma ListedChunk(s: seq<bool>, live: set<nat>, base: nat)
    requires |s| == 64 && Lists(s, live, base, 64)
    ensures (forall k :: 0 <= k < 64 ==> s[k]) <==> forall x: nat :: base <= x < base + 64 ==> x in live
  {
    forall k | 0 <= k < 64
      ensures s[k] == (base + k in live)
    {
      ListsAt(s, live, base, 64, k);
    }
    if forall k :: 0 <= k < 64 ==> s[k] {
      forall x: nat | base <= x < base + 64
        ensures x in live
      {
        assert s[x - base];
      }
    }
  }

  /** Sets or clears the bit of index `i`. */
  method Assign(words: seq<bv64>, i: nat, value: bool, ghost live: set<nat>) returns (words': seq<bv64>)
    requires Backs(words, live, |words|) && i / 64 < |words|
    ensures |words'| == |words|
    ensures Backs(words', if value then live + {i} else live - {i}, |words'|)
  {
    var word: bv64;
    if value {
      word := WithBitSet(words[i / 64], i % 64);
    } else {
      word := WithBitClear(words[i / 64], i % 64);
    }
    words' := words[i / 64 := word];
    Reassigned(words, live, i, word, value);
  }
}
