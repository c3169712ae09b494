/**
 What the index allocator promises, stated on a finite set of live indices, a capacity,
 a cursor and a soft maximum; and what follows over whole runs.
 Indices are 32-bit: `INDEX_LIMIT` values, with wrap-around where the code adds.
 */
module IndexSpec {
  import opened Modular

  const INDEX_LIMIT: nat := 0x1_0000_0000

  /** A number cut to 32 bits. */
  function Wrapped(x: nat): (r: nat)
    ensures r < INDEX_LIMIT
  {
    Rem(x, INDEX_LIMIT)
  }

  function Max(a: nat, b: nat): nat { if a < b then b else a }

  datatype Alloc = Alloc(live: set<nat>, cap: nat, last: nat, desired: nat) {

    ghost predicate Valid() {
      && 64 <= cap <= INDEX_LIMIT && cap % 64 == 0
      && 0 in live
      && (forall i | i in live :: i < cap)
      && last < INDEX_LIMIT
      && 99 <= desired < INDEX_LIMIT
    }
  }

  const INITIAL: Alloc := Alloc({0}, 64, 0, 99)

  // ---------------------------------------------------------------- searching

  /** The smallest free index in `[from, cap)`, or `cap` if there is none. */
  function FirstFree(live: set<nat>, from: nat, cap: nat): (r: nat)
    requires from <= cap
    ensures from <= r <= cap
    ensures r < cap ==> r !in live
    ensures forall i | from <= i < r :: i in live
    decreases cap - from
  {
    if from == cap || from !in live then from else FirstFree(live, from + 1, cap)
  }

  lemma {:induction false} FirstFreeUnique(live: set<nat>, from: nat, cap: nat, r: nat)
    requires from <= r <= cap
    requires r < cap ==> r !in live
    requires forall i | from <= i < r :: i in live
    ensures FirstFree(live, from, cap) == r
  {
    var f := FirstFree(live, from, cap);
    assert !(f < r) && !(r < f);
  }

  /**
   Where a search really begins. Inside the bitset that is the start itself; a start beyond
   it is folded back by whole chunks, and the chunk it lands in is left for last.
   */
  function SearchFrom(start: nat, cap: nat): (r: nat)
    requires 64 <= cap && cap % 64 == 0
    ensures r <= cap
  {
    if start < cap then start else (Rem(start / 64, cap / 64) + 1) * 64
  }

  /** Cyclic search: the smallest free index from the search start on, else the smallest of all, else `cap`. */
  function FindFree(live: set<nat>, start: nat, cap: nat): (r: nat)
    requires 64 <= cap && cap % 64 == 0
    ensures r <= cap
    ensures r < cap ==> r !in live
    ensures r == cap <==> forall i | 0 <= i < cap :: i in live
  {
    var r := FirstFree(live, SearchFrom(start, cap), cap);
    if r < cap then r else FirstFree(live, 0, cap)
  }

  /**
   What a cyclic search is for: the smallest free index at or after the start; if there is none,
   the smallest free index; if every index is live, the capacity.
   */
  ghost predicate CyclicallyFirst(live: set<nat>, start: nat, cap: nat, r: nat) {
    if exists i: nat :: start <= i < cap && i !in live then
      start <= r < cap && r !in live && forall i: nat | start <= i < r :: i in live
    else if exists i: nat :: i < cap && i !in live then
      r < cap && r !in live && forall i: nat | i < r :: i in live
    else r == cap
  }

  /** There is only one such index. */
  lemma CyclicallyFirstUnique(live: set<nat>, start: nat, cap: nat, a: nat, b: nat)
    requires CyclicallyFirst(live, start, cap, a) && CyclicallyFirst(live, start, cap, b)
    ensures a == b
  {
  }

  /** From a start inside the bitset the search does what it is for. */
  lemma FindFreeInside(live: set<nat>, start: nat, cap: nat)
    requires 64 <= cap && cap % 64 == 0 && start < cap
    ensures CyclicallyFirst(live, start, cap, FindFree(live, start, cap))
  {
  }

  /**
   From a start beyond the bitset it does so exactly when the part it looks at last has nothing
   free, or the part it looks at first has nothing free.
   */
  lemma FindFreeExactly(live: set<nat>, start: nat, cap: nat)
    requires 64 <= cap && cap % 64 == 0
    ensures CyclicallyFirst(live, start, cap, FindFree(live, start, cap))
            <==> || start < cap
                 || (forall i: nat | i < SearchFrom(start, cap) :: i in live)
                 || (forall i: nat | SearchFrom(start, cap) <= i < cap :: i in live)
  {
    if start < cap {
      FindFreeInside(live, start, cap);
    } else {
      var from := SearchFrom(start, cap);
      var late := FirstFree(live, from, cap);
      if forall i: nat | i < from :: i in live {
        FirstFreeUnique(live, 0, cap, late);
      } else if late < cap {
        var i: nat :| i < from && i !in live;
        assert FindFree(live, start, cap) == late;
      }
    }
  }

  // ---------------------------------------------------------------- operations

  /** The index after the cursor, in 32-bit arithmetic. */
  function Candidate(a: Alloc): nat {
    Wrapped(a.last + 1)
  }

  /** The soft maximum is doubled when the cursor has reached it and over half the indices below are taken. */
  function RaisedMaximum(a: Alloc): nat {
    if Candidate(a) >= a.desired && |a.live| > a.desired / 2 && a.desired <= (INDEX_LIMIT - 1) / 2
    then a.desired * 2
    else a.desired
  }

  function Choose(a: Alloc): (i: nat)
    requires a.Valid()
    ensures i < INDEX_LIMIT
  {
    var next := Candidate(a);
    if next >= RaisedMaximum(a) then Wrapped(FindFree(a.live, 0, a.cap))
    else if next in a.live then Wrapped(FindFree(a.live, Wrapped(next + 1), a.cap))
    else next
  }

  function Grown(cap: nat, i: nat): nat {
    Max(cap, (i / 64 + 1) * 64)
  }

  function Allocate(a: Alloc): Alloc
    requires a.Valid()
  {
    var i := Choose(a);
    Alloc(a.live + {i}, Grown(a.cap, i), i, RaisedMaximum(a))
  }

  function Acquire(a: Alloc, i: nat): Alloc {
    if i in a.live then a
    else Alloc(a.live + {i}, Grown(a.cap, i), Max(a.last, i), a.desired)
  }

  function Release(a: Alloc, i: nat): Alloc {
    a.(live := a.live - {i})
  }

  // ---------------------------------------------------------------- counting

  /** The indices below `n`. */
  function Below(n: nat): (s: set<nat>)
    ensures forall i: nat :: i in s <==> i < n
    ensures |s| == n
  {
    if n == 0 then {} else Below(n - 1) + {n - 1}
  }

  lemma {:induction false} SubsetCount(s: set<nat>, t: set<nat>)
    requires s <= t
    ensures |s| <= |t|
    ensures |s| == |t| ==> s == t
  {
    if s == {} {
    } else {
      var x :| x in s;
      SubsetCount(s - {x}, t - {x});
    }
  }

  /** A full bitset has exactly as many live indices as it has bits. */
  lemma AllTaken(a: Alloc)
    requires a.Valid() && forall i: nat | i < a.cap :: i in a.live
    ensures |a.live| == a.cap
  {
    assert a.live == Below(a.cap);
  }

  /** Pigeonhole: the smallest free index is at most the number of live ones. */
  lemma SmallestFreeIsSmall(live: set<nat>, cap: nat)
    ensures FirstFree(live, 0, cap) <= |live|
  {
    var r := FirstFree(live, 0, cap);
    SubsetCount(Below(r), live);
  }

  lemma FindFreeFresh(a: Alloc, start: nat)
    requires a.Valid() && |a.live| < INDEX_LIMIT
    ensures Wrapped(FindFree(a.live, start, a.cap)) == FindFree(a.live, start, a.cap)
    ensures FindFree(a.live, start, a.cap) !in a.live
  {
    if FindFree(a.live, start, a.cap) == a.cap {
      AllTaken(a);
    }
  }

  lemma Exhausted(a: Alloc)
    requires a.Valid() && |a.live| >= INDEX_LIMIT
    ensures forall i: nat | i < INDEX_LIMIT :: i in a.live
  {
    SubsetCount(a.live, Below(a.cap));
    assert a.live == Below(INDEX_LIMIT);
  }

  /** An index is handed out fresh exactly when the 32-bit space is not exhausted. */
  lemma ChooseFreshExactly(a: Alloc)
    requires a.Valid()
    ensures Choose(a) !in a.live <==> |a.live| < INDEX_LIMIT
  {
    if |a.live| < INDEX_LIMIT {
      FindFreeFresh(a, 0);
      FindFreeFresh(a, Wrapped(Candidate(a) + 1));
    } else {
      Exhausted(a);
    }
  }

  // ---------------------------------------------------------------- one step

  /** Every operation keeps the representation sound; allocation adds exactly one index, never zero. */
  lemma AllocateKeepsValid(a: Alloc)
    requires a.Valid() && |a.live| < INDEX_LIMIT
    ensures Allocate(a).Valid()
    ensures Choose(a) !in a.live && Choose(a) != 0
    ensures |Allocate(a).live| == |a.live| + 1
  {
    ChooseFreshExactly(a);
    GrownValid(a.cap, Choose(a));
  }

  lemma GrownValid(cap: nat, i: nat)
    requires 64 <= cap <= INDEX_LIMIT && cap % 64 == 0 && i < INDEX_LIMIT
    ensures 64 <= Grown(cap, i) <= INDEX_LIMIT && Grown(cap, i) % 64 == 0
    ensures cap <= Grown(cap, i) && i < Grown(cap, i) <= Max(cap, i + 64)
  {
  }

  lemma AcquireKeepsValid(a: Alloc, i: nat)
    requires a.Valid() && i < INDEX_LIMIT
    ensures Acquire(a, i).Valid()
    ensures |Acquire(a, i).live| == |a.live| + (if i in a.live then 0 else 1)
  {
    GrownValid(a.cap, i);
  }

  lemma ReleaseKeepsValid(a: Alloc, i: nat)
    requires a.Valid() && i in a.live && i != 0
    ensures Release(a, i).Valid()
    ensures |Release(a, i).live| == |a.live| - 1
  {
  }

  /**
   Reuse is postponed: an index at or below the cursor is handed out only when the cursor
   has reached the soft maximum, or when nothing above it is free in the bitset.
   Otherwise the next index up is taken if it is free.
   */
  lemma ReuseIsPostponed(a: Alloc)
    requires a.Valid() && |a.live| < INDEX_LIMIT
    ensures Choose(a) <= a.last ==>
              Candidate(a) >= RaisedMaximum(a) || forall x: nat | a.last < x < a.cap :: x in a.live
    ensures Candidate(a) < RaisedMaximum(a) && Candidate(a) !in a.live ==> Choose(a) == Candidate(a)
  {
    var next := Candidate(a);
    if next < RaisedMaximum(a) && next in a.live && a.last + 1 < INDEX_LIMIT {
      FindFreeFresh(a, Wrapped(next + 1));
      WrapsOnlyPast(a);
    }
  }

  /**
   At the soft maximum the smallest free index is reused. It is no larger than the number
   of live indices; and if the maximum was left alone although the 32-bit space still has
   room for twice as much, it is at most half of it.
   */
  lemma ReuseIsSmallest(a: Alloc)
    requires a.Valid() && |a.live| < INDEX_LIMIT
    requires Candidate(a) >= RaisedMaximum(a)
    ensures Choose(a) <= |a.live| && Choose(a) !in a.live
    ensures forall x: nat | x < Choose(a) :: x in a.live
    ensures RaisedMaximum(a) == a.desired <= (INDEX_LIMIT - 1) / 2 ==> Choose(a) <= a.desired / 2
  {
    FindFreeFresh(a, 0);
    SmallestFreeIsSmall(a.live, a.cap);
  }

  /** Searching on from a taken candidate comes back to the cursor only past a fully taken rest. */
  lemma WrapsOnlyPast(a: Alloc)
    requires a.Valid() && |a.live| < INDEX_LIMIT && a.last + 1 < INDEX_LIMIT
    requires Candidate(a) in a.live
    ensures var r := FindFree(a.live, Wrapped(Candidate(a) + 1), a.cap);
            r <= a.last ==> forall x: nat | a.last < x < a.cap :: x in a.live
  {
  }

  /** The candidate is the index after the cursor, and zero after the last of all. */
  lemma CandidateIsNext(a: Alloc)
    requires a.Valid()
    ensures Candidate(a) == if a.last == INDEX_LIMIT - 1 then 0 else a.last + 1
  {
  }

  /**
   If the candidate is taken but below the soft maximum, an allocation hands out the cyclically
   first free index after it; from a candidate at the end of the bitset it does so exactly if the
   first chunk or all the others have nothing free.
   */
  lemma AllocationIsCyclic(a: Alloc)
    requires a.Valid() && |a.live| < INDEX_LIMIT
    requires Candidate(a) in a.live && Candidate(a) < RaisedMaximum(a)
    ensures Candidate(a) + 1 < a.cap ==> CyclicallyFirst(a.live, Candidate(a) + 1, a.cap, Choose(a))
    ensures Candidate(a) + 1 == a.cap < INDEX_LIMIT ==>
              (CyclicallyFirst(a.live, a.cap, a.cap, Choose(a))
               <==> (forall i: nat | i < 64 :: i in a.live) || (forall i: nat | 64 <= i < a.cap :: i in a.live))
    ensures Candidate(a) + 1 == a.cap == INDEX_LIMIT ==> CyclicallyFirst(a.live, 0, a.cap, Choose(a))
  {
    hide FindFree, CyclicallyFirst, RaisedMaximum;
    FindFreeFresh(a, Wrapped(Candidate(a) + 1));
    FindFreeExactly(a.live, Wrapped(Candidate(a) + 1), a.cap);
    if Candidate(a) + 1 == a.cap {
      BehindTheEnd(a.cap);
    }
  }

  lemma BehindTheEnd(cap: nat)
    requires 64 <= cap && cap % 64 == 0
    ensures SearchFrom(cap, cap) == 64
  {
    RemOnce(cap / 64, cap / 64);
  }

  /** The soft maximum is doubled exactly if the cursor has reached it, over half of it is live, and 32 bits suffice. */
  lemma RaisedExactly(a: Alloc)
    requires a.Valid()
    ensures RaisedMaximum(a) == a.desired || RaisedMaximum(a) == 2 * a.desired
    ensures RaisedMaximum(a) == 2 * a.desired
            <==> Candidate(a) >= a.desired && |a.live| > a.desired / 2 && 2 * a.desired < INDEX_LIMIT
  {
  }

  // ---------------------------------------------------------------- runs

  datatype Op = AllocateOp | AcquireOp(i: nat) | ReleaseOp(i: nat)

  /** Allocation needs a free index; only live indices but zero are released; taken ones may be asked for in vain. */
  predicate Allowed(a: Alloc, op: Op) {
    match op
    case AllocateOp => |a.live| < INDEX_LIMIT
    case AcquireOp(i) => i < INDEX_LIMIT
    case ReleaseOp(i) => i in a.live && i != 0
  }

  function Step(a: Alloc, op: Op): (r: Alloc)
    requires a.Valid() && Allowed(a, op)
    ensures r.Valid()
  {
    match op
    case AllocateOp => AllocateKeepsValid(a); Allocate(a)
    case AcquireOp(i) => AcquireKeepsValid(a, i); Acquire(a, i)
    case ReleaseOp(i) => ReleaseKeepsValid(a, i); Release(a, i)
  }

  predicate RunAllowed(a: Alloc, ops: seq<Op>)
    requires a.Valid()
    decreases |ops|, 0
  {
    ops == [] ||
    (RunAllowed(a, ops[..|ops| - 1]) && Allowed(Run(a, ops[..|ops| - 1]), ops[|ops| - 1]))
  }

  /** The allocator after the operations `ops`. */
  function Run(a: Alloc, ops: seq<Op>): (r: Alloc)
    requires a.Valid() && RunAllowed(a, ops)
    ensures r.Valid()
    decreases |ops|, 1
  {
    if ops == [] then a else Step(Run(a, ops[..|ops| - 1]), ops[|ops| - 1])
  }

  /** The most indices that were ever live at once. */
  function Peak(ops: seq<Op>): (p: nat)
    requires RunAllowed(INITIAL, ops)
    ensures |Run(INITIAL, ops).live| <= p
  {
    var now := |Run(INITIAL, ops).live|;
    if ops == [] then now else Max(now, Peak(ops[..|ops| - 1]))
  }

  /** The largest index ever acquired by number, 0 if none. */
  function LargestAcquired(ops: seq<Op>): nat
    requires RunAllowed(INITIAL, ops)
  {
    if ops == [] then 0
    else
      var before := LargestAcquired(ops[..|ops| - 1]);
      match ops[|ops| - 1]
      case AcquireOp(i) => if i in Run(INITIAL, ops[..|ops| - 1]).live then before else Max(i, before)
      case _ => before
  }

  function Bound(peak: nat, largest: nat): nat {
    Max(Max(99, 4 * peak), largest + 1)
  }

  /** The soft maximum and the capacity are bounded by what was ever needed. */
  ghost predicate Bounded(a: Alloc, peak: nat, largest: nat) {
    && |a.live| <= peak
    && a.desired <= Max(99, 4 * peak)
    && a.cap < Bound(peak, largest) + 64
  }

  lemma RaisedBounded(a: Alloc, peak: nat)
    requires a.Valid() && |a.live| <= peak && a.desired <= Max(99, 4 * peak)
    ensures RaisedMaximum(a) <= Max(99, 4 * peak)
  {
  }

  /** An allocated index is below the soft maximum, inside the bitset, or as large as the number of live ones. */
  lemma ChooseBounded(a: Alloc)
    requires a.Valid() && |a.live| < INDEX_LIMIT
    ensures Choose(a) < RaisedMaximum(a) || Choose(a) < a.cap || Choose(a) == a.cap == |a.live|
  {
    var next := Candidate(a);
    FindFreeFresh(a, 0);
    FindFreeFresh(a, Wrapped(next + 1));
    if forall i: nat | i < a.cap :: i in a.live {
      AllTaken(a);
    }
  }

  lemma AllocateBounded(a: Alloc, peak: nat, largest: nat)
    requires a.Valid() && |a.live| < INDEX_LIMIT && Bounded(a, peak, largest)
    ensures Bounded(Allocate(a), Max(peak, |a.live| + 1), largest)
    ensures Choose(a) < Bound(Max(peak, |a.live| + 1), largest) + 64
  {
    ChooseBounded(a);
    RaisedBounded(a, peak);
    GrownBounded(a.cap, Choose(a), RaisedMaximum(a), |a.live|, peak, largest);
    AllocateKeepsValid(a);
  }

  lemma GrownBounded(cap: nat, i: nat, raised: nat, live: nat, peak: nat, largest: nat)
    requires cap % 64 == 0 && cap < Bound(peak, largest) + 64 && raised <= Max(99, 4 * peak) && live <= peak
    requires i < raised || i < cap || i == cap == live
    ensures var bound := Bound(Max(peak, live + 1), largest);
            i < bound + 64 && Grown(cap, i) < bound + 64
  {
    if i < cap {
      assert (i / 64 + 1) * 64 <= cap;
    }
  }

  lemma AcquireBounded(a: Alloc, i: nat, peak: nat, largest: nat)
    requires a.Valid() && i < INDEX_LIMIT && i !in a.live && Bounded(a, peak, largest)
    ensures Bounded(Acquire(a, i), Max(peak, |a.live| + 1), Max(i, largest))
  {
    GrownValid(a.cap, i);
  }

  /** Indices stay small: over every run the capacity and the soft maximum follow the peak of live indices. */
  lemma {:induction false} RunBounded(ops: seq<Op>)
    requires RunAllowed(INITIAL, ops)
    ensures Bounded(Run(INITIAL, ops), Peak(ops), LargestAcquired(ops))
  {
    if ops == [] {
    } else {
      var before, op := ops[..|ops| - 1], ops[|ops| - 1];
      RunBounded(before);
      var a, peak, largest := Run(INITIAL, before), Peak(before), LargestAcquired(before);
      match op
      case AllocateOp =>
        AllocateBounded(a, peak, largest);
        AllocateKeepsValid(a);
      case AcquireOp(i) =>
        if i !in a.live {
          AcquireBounded(a, i, peak, largest);
        }
      case ReleaseOp(i) =>
        ReleaseKeepsValid(a, i);
    }
  }

  function PowerOfTwo(k: nat): (p: nat)
    ensures p > 0
  {
    if k == 0 then 1 else 2 * PowerOfTwo(k - 1)
  }

  lemma StepDoubles(a: Alloc, op: Op)
    requires a.Valid() && Allowed(a, op)
    ensures Step(a, op).desired == a.desired || Step(a, op).desired == 2 * a.desired
  {
    RaisedExactly(a);
  }

  lemma {:induction false} RunDoubles(a: Alloc, ops: seq<Op>, j: nat) returns (k: nat)
    requires a.Valid() && RunAllowed(a, ops) && a.desired == 99 * PowerOfTwo(j)
    ensures Run(a, ops).desired == 99 * PowerOfTwo(k)
  {
    if ops == [] {
      k := j;
    } else {
      hide Step, Allowed;
      var before, op := ops[..|ops| - 1], ops[|ops| - 1];
      k := RunDoubles(a, before, j);
      StepDoubles(Run(a, before), op);
      if Run(a, ops).desired != Run(a, before).desired {
        k := k + 1;
      }
    }
  }

  /** Over every run the soft maximum is 99 times a power of two. */
  lemma SoftMaximumDoubles(ops: seq<Op>) returns (k: nat)
    requires RunAllowed(INITIAL, ops)
    ensures Run(INITIAL, ops).desired == 99 * PowerOfTwo(k)
  {
    k := RunDoubles(INITIAL, ops, 0);
  }

  /** Where a run would take the cursor if every allocation gave the next index up. */
  function Top(last: nat, ops: seq<Op>): nat {
    if ops == [] then last
    else
      var before := Top(last, ops[..|ops| - 1]);
      match ops[|ops| - 1]
      case AllocateOp => before + 1
      case AcquireOp(i) => Max(before, i)
      case ReleaseOp(_) => before
  }

  lemma NextIndexUp(a: Alloc)
    requires a.Valid() && |a.live| < INDEX_LIMIT
    requires (forall x | x in a.live :: x <= a.last) && a.last + 1 < a.desired
    ensures Choose(a) == a.last + 1 && RaisedMaximum(a) == a.desired
  {
  }

  /**
   As long as the soft maximum is not reached that way, and nothing above the cursor was live to
   begin with, allocation does give the next index up, above everything live.
   */
  lemma {:induction false} FreshUntilSoftMaximum(a: Alloc, ops: seq<Op>)
    requires a.Valid() && RunAllowed(a, ops)
    requires forall x | x in a.live :: x <= a.last
    requires Top(a.last, ops) < a.desired
    ensures var r := Run(a, ops);
            && r.last == Top(a.last, ops) && r.desired == a.desired
            && forall x | x in r.live :: x <= r.last
  {
    if ops == [] {
    } else {
      var before, op := ops[..|ops| - 1], ops[|ops| - 1];
      FreshUntilSoftMaximum(a, before);
      if op.AllocateOp? {
        NextIndexUp(Run(a, before));
      }
    }
  }

  lemma {:induction false} TopGrows(last: nat, ops: seq<Op>, j: nat)
    requires j <= |ops|
    ensures Top(last, ops[..j]) <= Top(last, ops)
  {
    if j == |ops| {
      assert ops[..j] == ops;
    } else {
      assert ops[..|ops| - 1][..j] == ops[..j];
      TopGrows(last, ops[..|ops| - 1], j);
    }
  }

  lemma {:induction false} RunAllowedPrefix(a: Alloc, ops: seq<Op>, j: nat)
    requires a.Valid() && RunAllowed(a, ops) && j <= |ops|
    ensures RunAllowed(a, ops[..j])
  {
    if j == |ops| {
      assert ops[..j] == ops;
    } else {
      assert ops[..|ops| - 1][..j] == ops[..j];
      RunAllowedPrefix(a, ops[..|ops| - 1], j);
    }
  }

  /** The next index handed out then is larger than any that was live at any time of the run. */
  lemma NeverHandedOutAgain(a: Alloc, ops: seq<Op>, j: nat, x: nat)
    requires a.Valid() && RunAllowed(a, ops) && Allowed(Run(a, ops), AllocateOp)
    requires forall y | y in a.live :: y <= a.last
    requires Top(a.last, ops) + 1 < a.desired && j <= |ops|
    ensures RunAllowed(a, ops[..j])
    ensures x in Run(a, ops[..j]).live ==> x < Choose(Run(a, ops))
  {
    RunAllowedPrefix(a, ops, j);
    TopGrows(a.last, ops, j);
    FreshUntilSoftMaximum(a, ops[..j]);
    FreshUntilSoftMaximum(a, ops);
    NextIndexUp(Run(a, ops));
  }

  // ---------------------------------------------------------------- a search from behind the bitset

  /** The only start outside the bitset an allocation searches from is the one right behind it. */
  lemma SearchStart(a: Alloc)
    requires a.Valid() && Candidate(a) in a.live
    ensures Wrapped(Candidate(a) + 1) <= a.cap
  {
  }

  /** Index 127 is taken, then `n` indices are asked for. */
  function Filling(n: nat): seq<Op> {
    if n == 0 then [AcquireOp(127)] else Filling(n - 1) + [AllocateOp]
  }

  /** The state that leads to: all indices up to `n` and 127 are live. */
  function FilledUpTo(n: nat): Alloc {
    Alloc(Below(n + 1) + {127}, 128, if n == 0 then 127 else n, if n < 99 then 99 else 198)
  }

  lemma RunAppend(ops: seq<Op>, op: Op)
    requires RunAllowed(INITIAL, ops) && Allowed(Run(INITIAL, ops), op)
    ensures RunAllowed(INITIAL, ops + [op])
    ensures Run(INITIAL, ops + [op]) == Step(Run(INITIAL, ops), op)
  {
    var all := ops + [op];
    assert all[..|all| - 1] == ops;
  }

  lemma FilledValid(n: nat)
    requires n <= 126
    ensures FilledUpTo(n).Valid() && |FilledUpTo(n).live| == n + 2
  {
    assert 127 !in Below(n + 1);
  }

  lemma FirstAllocation(a: Alloc)
    requires a.Valid() && a.cap == 128 && a.last == 127 && a.desired == 99 && a.live == {0, 127}
    ensures Allocate(a) == Alloc({0, 1, 127}, 128, 1, 99)
  {
    FirstFreeUnique(a.live, 0, a.cap, 1);
    assert |a.live| == 2;
    assert Choose(a) == 1;
  }

  lemma NextAllocation(a: Alloc, n: nat)
    requires a.Valid() && a.cap == 128 && 1 < n <= 126 && a.last == n - 1 && n !in a.live
    requires |a.live| == n + 1 && a.desired == if n <= 99 then 99 else 198
    ensures Allocate(a) == Alloc(a.live + {n}, 128, n, if n < 99 then 99 else 198)
  {
    assert Choose(a) == n;
  }

  lemma FilledLive(n: nat)
    requires 1 <= n <= 126
    ensures FilledUpTo(n).live == FilledUpTo(n - 1).live + {n} && n !in FilledUpTo(n - 1).live
    ensures n == 1 ==> FilledUpTo(n - 1).live == {0, 127} && FilledUpTo(n).live == {0, 1, 127}
  {
  }

  lemma FillStep(n: nat)
    requires 1 <= n <= 126
    ensures FilledUpTo(n - 1).Valid() && |FilledUpTo(n - 1).live| < INDEX_LIMIT
    ensures Allocate(FilledUpTo(n - 1)) == FilledUpTo(n)
  {
    var a := FilledUpTo(n - 1);
    FilledValid(n - 1);
    FilledLive(n);
    if n == 1 {
      FirstAllocation(a);
    } else {
      NextAllocation(a, n);
    }
  }

  lemma {:induction false} Filled(n: nat)
    requires n <= 126
    ensures RunAllowed(INITIAL, Filling(n)) && Run(INITIAL, Filling(n)) == FilledUpTo(n)
  {
    if n == 0 {
      assert Filling(0)[..0] == [];
      assert {0} + {127} == FilledUpTo(0).live;
    } else {
      Filled(n - 1);
      FillStep(n);
      RunAppend(Filling(n - 1), AllocateOp);
    }
  }

  /** With one index free in each of two chunks, a search from behind them finds the larger one. */
  lemma LargerIndexFound(a: Alloc, low: nat, high: nat)
    requires a.Valid() && a.cap == 128 && a.last == 126 && a.desired == 198
    requires low < 64 <= high < 127 && forall i: nat | i < a.cap :: i in a.live <==> i != low && i != high
    ensures Candidate(a) in a.live && Candidate(a) < RaisedMaximum(a) && Wrapped(Candidate(a) + 1) == a.cap
    ensures CyclicallyFirst(a.live, a.cap, a.cap, low)
    ensures Choose(a) == high
  {
    assert SearchFrom(a.cap, a.cap) == 64;
    FirstFreeUnique(a.live, 64, a.cap, high);
    assert FindFree(a.live, a.cap, a.cap) == high;
  }

  lemma ReleaseTwo(n: nat, low: nat, high: nat) returns (ops: seq<Op>)
    requires 0 < low < high <= n <= 126
    ensures RunAllowed(INITIAL, ops)
    ensures Run(INITIAL, ops) == FilledUpTo(n).(live := FilledUpTo(n).live - {low} - {high})
  {
    hide RunAllowed, Run;
    Filled(n);
    FilledValid(n);
    RunAppend(Filling(n), ReleaseOp(low));
    RunAppend(Filling(n) + [ReleaseOp(low)], ReleaseOp(high));
    ops := Filling(n) + [ReleaseOp(low)] + [ReleaseOp(high)];
  }

  /**
   For any index below 64 and any from 64 to 126 there is a run that leaves just those two free and
   whose next allocation takes the larger one: the search starts right behind the bitset and looks
   at the first chunk last.
   */
  lemma SmallerIndexMissed(low: nat, high: nat) returns (ops: seq<Op>)
    requires 0 < low < 64 <= high < 127
    ensures RunAllowed(INITIAL, ops)
    ensures var a := Run(INITIAL, ops);
            && Candidate(a) in a.live && Candidate(a) < RaisedMaximum(a)
            && Wrapped(Candidate(a) + 1) == a.cap
            && CyclicallyFirst(a.live, a.cap, a.cap, low)
            && Choose(a) == high
  {
    hide FindFree, CyclicallyFirst, Choose, RunAllowed, Run;
    var n: nat :| n == 126;
    ops := ReleaseTwo(n, low, high);
    var a := Run(INITIAL, ops);
    AllButTwo(Below(n + 1), a.live, low, high);
    LargerIndexFound(a, low, high);
  }

  lemma AllButTwo(below: set<nat>, live: set<nat>, low: nat, high: nat)
    requires forall i: nat :: i in below <==> i < 127
    requires live == below + {127} - {low} - {high}
    ensures forall i: nat | i < 128 :: i in live <==> i != low && i != high
  {
  }
}
