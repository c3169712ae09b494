/**
 One 64-bit chunk of the allocator's bitset. The words are real 64-bit words and the
 updates are the shift-and-mask ones of the code; bit `k` means "shifted down by `k`,
 the word is odd", and `MaskTest` shows that the code's masked test says the same.
 */
module BitChunks {

  const FULL_CHUNK: bv64 := 0xFFFF_FFFF_FFFF_FFFF

  predicate Bit(c: bv64, k: bv6) {
    (c >> k) & 1 == 1
  }

  lemma MaskTest(c: bv64, k: bv6)
    ensures c & ((1 as bv64) << k) == 0 <==> !Bit(c, k)
  {
  }

  /** Or-ing in a shifted one sets that bit and leaves every other as it was. */
  lemma SetBitHere(c: bv64, i: bv6)
    ensures Bit(c | ((1 as bv64) << i), i)
  {
  }

  lemma SetBitElsewhere(c: bv64, i: bv6, j: bv6)
    requires i != j
    ensures Bit(c | ((1 as bv64) << i), j) == Bit(c, j)
  {
  }

  /** And-ing with an inverted shifted one clears that bit and leaves every other as it was. */
  lemma ClearBitHere(c: bv64, i: bv6)
    ensures !Bit(c & !((1 as bv64) << i), i)
  {
  }

  lemma ClearBitElsewhere(c: bv64, i: bv6, j: bv6)
    requires i != j
    ensures Bit(c & !((1 as bv64) << i), j) == Bit(c, j)
  {
  }

  /** `d` is `c` with bit `i` set to `value`. */
  ghost predicate Updated(c: bv64, d: bv64, i: bv6, value: bool) {
    forall j: bv6 :: Bit(d, j) == if i == j then value else Bit(c, j)
  }

  lemma SetBit(c: bv64, i: bv6)
    ensures Updated(c, c | ((1 as bv64) << i), i, true)
  {
    forall j: bv6
      ensures Bit(c | ((1 as bv64) << i), j) == if i == j then true else Bit(c, j)
    {
      if i == j {
        SetBitHere(c, i);
      } else {
        SetBitElsewhere(c, i, j);
      }
    }
  }

  lemma ClearBit(c: bv64, i: bv6)
    ensures Updated(c, c & !((1 as bv64) << i), i, false)
  {
    forall j: bv6
      ensures Bit(c & !((1 as bv64) << i), j) == if i == j then false else Bit(c, j)
    {
      if i == j {
        ClearBitHere(c, i);
      } else {
        ClearBitElsewhere(c, i, j);
      }
    }
  }

  lemma LowBitsStep(c: bv64, k: bv6)
    requires k < 63
    requires !c & (((1 as bv64) << k) - 1) == 0
    requires Bit(c, k)
    ensures !c & (((1 as bv64) << (k + 1)) - 1) == 0
  {
  }

  /** If every bit below `k` is set, the complement has nothing below `k`. */
  lemma {:induction false} LowBits(c: bv64, k: bv6)
    requires forall j: bv6 | j < k :: Bit(c, j)
    ensures !c & (((1 as bv64) << k) - 1) == 0
  {
    if k == 0 {
    } else {
      LowBits(c, k - 1);
      assert Bit(c, k - 1);
      LowBitsStep(c, k - 1);
    }
  }

  lemma TopBit(c: bv64)
    requires !c & (((1 as bv64) << (63 as bv6)) - 1) == 0 && Bit(c, 63)
    ensures c == FULL_CHUNK
  {
  }

  /** A chunk with every bit set is the all-ones word. */
  lemma FullFromBits(c: bv64)
    requires forall k: bv6 :: Bit(c, k)
    ensures c == FULL_CHUNK
  {
    LowBits(c, 63);
    assert Bit(c, 63);
    TopBit(c);
  }

  lemma FullHasBit(k: bv6)
    ensures Bit(FULL_CHUNK, k)
  {
  }

  lemma EmptyHasNone(k: bv6)
    ensures !Bit(0, k)
  {
  }

  // ------------------------------------------------------- the chunk as 64 booleans

  /** A position below 64 is recovered from its 6-bit form, and the other way round. */
  lemma Bv6RoundTrip(k: nat)
    requires k < 64
    ensures (k as bv6) as nat == k
  {
  }

  lemma NatRoundTrip(b: bv6)
    ensures (b as nat) < 64 && (b as nat) as bv6 == b
  {
  }

  /** The first `n` values of `f`, in order. */
  function Tabulated(f: bv6 -> bool, n: nat): (s: seq<bool>)
    requires n <= 64
    ensures |s| == n
  {
    if n == 0 then [] else Tabulated(f, n - 1) + [f((n - 1) as bv6)]
  }

  lemma {:induction false} TabulatedAt(f: bv6 -> bool, n: nat, k: nat)
    requires k < n <= 64
    ensures Tabulated(f, n)[k] == f(k as bv6)
  {
    if k == n - 1 {
    } else {
      TabulatedAt(f, n - 1, k);
    }
  }

  lemma SamePosition(i: bv6, k: nat)
    requires k < 64
    ensures i == (k as bv6) <==> (i as nat) == k
  {
    NatRoundTrip(i);
    Bv6RoundTrip(k);
  }

  lemma TabulatedUpdateAt(f: bv6 -> bool, g: bv6 -> bool, i: bv6, value: bool, k: nat)
    requires forall b: bv6 :: g(b) == if i == b then value else f(b)
    requires k < 64
    ensures Tabulated(g, 64)[k] == if (i as nat) == k then value else Tabulated(f, 64)[k]
  {
    TabulatedAt(f, 64, k);
    TabulatedAt(g, 64, k);
    SamePosition(i, k);
  }

  lemma SameUpdate(s: seq<bool>, t: seq<bool>, p: nat, value: bool)
    requires |s| == |t| == 64 && p < 64
    requires forall k :: 0 <= k < 64 ==> t[k] == if p == k then value else s[k]
    ensures t == s[p := value]
  {
  }

  lemma TabulatedUpdate(f: bv6 -> bool, g: bv6 -> bool, i: bv6, value: bool)
    requires forall b: bv6 :: g(b) == if i == b then value else f(b)
    ensures (i as nat) < 64 && Tabulated(g, 64) == Tabulated(f, 64)[i as nat := value]
  {
    NatRoundTrip(i);
    forall k | 0 <= k < 64
      ensures Tabulated(g, 64)[k] == if (i as nat) == k then value else Tabulated(f, 64)[k]
    {
      TabulatedUpdateAt(f, g, i, value, k);
    }
    SameUpdate(Tabulated(f, 64), Tabulated(g, 64), i as nat, value);
  }

  /** The low `n` bits of a word, lowest first. */
  function LowBools(c: bv64, n: nat): (s: seq<bool>)
    ensures |s| == n
  {
    if n == 0 then [] else [c & 1 == 1] + LowBools(c >> 1, n - 1)
  }

  /** The chunk as a list of 64 booleans. */
  function Bools(c: bv64): (s: seq<bool>)
    ensures |s| == 64
  {
    LowBools(c, 64)
  }

  lemma ShiftTwice(c: bv64, b: bv6)
    requires b > 0
    ensures Bit(c, b) == Bit(c >> 1, b - 1)
  {
  }

  lemma ShiftNone(c: bv64)
    ensures Bit(c, 0) == (c & 1 == 1)
  {
  }

  lemma Bv6Predecessor(k: nat)
    requires 0 < k < 64
    ensures (k as bv6) > 0 && (k as bv6) - 1 == ((k - 1) as bv6)
  {
    Bv6RoundTrip(k);
    Bv6RoundTrip(k - 1);
  }

  lemma {:induction false} LowBoolsAt(c: bv64, n: nat, k: nat)
    requires k < n <= 64
    ensures LowBools(c, n)[k] == Bit(c, k as bv6)
  {
    if k == 0 {
      ShiftNone(c);
    } else {
      LowBoolsAt(c >> 1, n - 1, k - 1);
      Bv6Predecessor(k);
      ShiftTwice(c, k as bv6);
    }
  }

  /** Bit by bit, the list is the tabulated shifts. */
  lemma BoolsTabulated(c: bv64)
    ensures Bools(c) == Tabulated((b: bv6) => Bit(c, b), 64)
  {
    forall k | 0 <= k < 64
      ensures Bools(c)[k] == Tabulated((b: bv6) => Bit(c, b), 64)[k]
    {
      LowBoolsAt(c, 64, k);
      TabulatedAt((b: bv6) => Bit(c, b), 64, k);
    }
  }

  lemma BoolsAt(c: bv64, b: bv6)
    ensures (b as nat) < 64 && Bools(c)[b as nat] == Bit(c, b)
  {
    NatRoundTrip(b);
    LowBoolsAt(c, 64, b as nat);
  }

  lemma UpdatedBools(c: bv64, d: bv64, i: bv6, value: bool)
    requires Updated(c, d, i, value)
    ensures (i as nat) < 64 && Bools(d) == Bools(c)[i as nat := value]
  {
    BoolsTabulated(c);
    BoolsTabulated(d);
    TabulatedUpdate((b: bv6) => Bit(c, b), (b: bv6) => Bit(d, b), i, value);
  }

  /** The all-ones word is exactly the chunk with no free position. */
  lemma FullBools(c: bv64)
    ensures c == FULL_CHUNK <==> forall k :: 0 <= k < 64 ==> Bools(c)[k]
  {
    if c == FULL_CHUNK {
      forall k | 0 <= k < 64
        ensures Bools(c)[k]
      {
        LowBoolsAt(c, 64, k);
        FullHasBit(k as bv6);
      }
    } else if forall k :: 0 <= k < 64 ==> Bools(c)[k] {
      forall b: bv6
        ensures Bit(c, b)
      {
        BoolsAt(c, b);
      }
      FullFromBits(c);
    }
  }

  lemma EmptyBools(k: nat)
    requires k < 64
    ensures !Bools(0)[k]
  {
    LowBoolsAt(0, 64, k);
    EmptyHasNone(k as bv6);
  }

  // ------------------------------------------------------- the operations of the code

  method TestClearAt(c: bv64, b: bv6) returns (clear: bool)
    ensures (b as nat) < 64 && clear == !Bools(c)[b as nat]
  {
    clear := c & ((1 as bv64) << b) == 0;
    MaskTest(c, b);
    BoolsAt(c, b);
  }

  method WithBitSetAt(c: bv64, b: bv6) returns (d: bv64)
    ensures (b as nat) < 64 && Bools(d) == Bools(c)[b as nat := true]
  {
    d := c | ((1 as bv64) << b);
    SetBit(c, b);
    UpdatedBools(c, d, b, true);
  }

  method WithBitClearAt(c: bv64, b: bv6) returns (d: bv64)
    ensures (b as nat) < 64 && Bools(d) == Bools(c)[b as nat := false]
  {
    d := c & !((1 as bv64) << b);
    ClearBit(c, b);
    UpdatedBools(c, d, b, false);
  }

  method TestClear(c: bv64, bit: nat) returns (clear: bool)
    requires bit < 64
    ensures clear == !Bools(c)[bit]
  {
    Bv6RoundTrip(bit);
    clear := TestClearAt(c, bit as bv6);
  }

  method WithBitSet(c: bv64, bit: nat) returns (d: bv64)
    requires bit < 64
    ensures Bools(d) == Bools(c)[bit := true]
  {
    Bv6RoundTrip(bit);
    d := WithBitSetAt(c, bit as bv6);
  }

  method WithBitClear(c: bv64, bit: nat) returns (d: bv64)
    requires bit < 64
    ensures Bools(d) == Bools(c)[bit := false]
  {
    Bv6RoundTrip(bit);
    d := WithBitClearAt(c, bit as bv6);
  }

  method IsFull(c: bv64) returns (full: bool)
    ensures full == forall k :: 0 <= k < 64 ==> Bools(c)[k]
  {
    full := c == FULL_CHUNK;
    FullBools(c);
  }
}
