/**
 What the ring buffer means, with no circular storage in sight: a window
 `[head, tail)` of absolute sample times, and the sample held for each of them.

 Times and counts are natural numbers here. The 64-bit subtractions that can
 really wrap are those of the read plan, and `PlanRead` wraps them explicitly.
 */
module SampleWindow {
  import opened Modular

  function Max(a: int, b: int): int { if a < b then b else a }

  function Min(a: int, b: int): int { if a < b then a else b }

  /** A sample at a volume. */
  function Amplified(x: real, gain: real): real { x * gain }

  /** `Fresh` until the first write commits; after that the window always spans `size` times. */
  datatype Window = Fresh(size: nat) | Live(head: nat, view: seq<real>) {

    predicate Valid() {
      Size() > 0
    }

    function Size(): nat {
      if Fresh? then size else |view|
    }

    function Head(): nat {
      if Fresh? then 0 else head
    }

    function Tail(): nat {
      if Fresh? then 0 else head + |view|
    }

    predicate Covers(t: int) {
      Live? && head <= t < head + |view|
    }

    /** The sample at time `t`; silence outside the window. */
    function At(t: int): real {
      if Covers(t) then view[t - head] else 0.0
    }
  }

  // ---------------------------------------------------------------- writing

  /** A first write is ignored while it ends before a whole buffer of time has passed. */
  predicate Commits(w: Window, ts: nat, n: nat) {
    n > 0 && (w.Live? || w.Size() <= ts + n)
  }

  function NextTail(w: Window, ts: nat, n: nat): nat {
    if Commits(w, ts, n) then Max(w.Tail(), ts + n) else w.Tail()
  }

  function NextHead(w: Window, ts: nat, n: nat): nat {
    if Commits(w, ts, n) then Max(w.Head(), NextTail(w, ts, n) - w.Size()) else w.Head()
  }

  /** The condition the code asserts before it copies: the block starts inside the new window. */
  predicate WriteAllowed(w: Window, ts: nat, n: nat) {
    Commits(w, ts, n) ==> NextHead(w, ts, n) <= ts
  }

  /**
   The sample in the cell of time `t` once a committed write is over. Two times a whole
   buffer apart share a cell, so a cell nobody writes still holds what an older time left
   there. A block of exactly the buffer size is not copied at all.
   */
  function CellAfter(w: Window, ts: nat, s: seq<real>, t: nat): real
    requires w.Valid() && w.Head() <= t
  {
    if |s| < w.Size() && ts <= t < ts + |s| then s[t - ts]
    else if w.Fresh? then 0.0
    else w.view[Rem(t - w.head, w.Size())]
  }

  function Write(w: Window, ts: nat, s: seq<real>): (r: Window)
    requires w.Valid() && WriteAllowed(w, ts, |s|)
    ensures r.Valid() && r.Size() == w.Size()
    ensures r.Head() == NextHead(w, ts, |s|) && r.Tail() == NextTail(w, ts, |s|)
  {
    if Commits(w, ts, |s|) then
      var head := NextHead(w, ts, |s|);
      Live(head, seq(w.Size(), i requires 0 <= i => CellAfter(w, ts, s, head + i)))
    else w
  }

  /**
   The sample of every time of the new window: the block's, if the block covers it and is copied;
   else silence after a first write, and otherwise that of the old window's time sharing its cell,
   which is the time itself as long as the old window covers it.
   */
  lemma WrittenAt(w: Window, ts: nat, s: seq<real>, t: nat)
    requires w.Valid() && WriteAllowed(w, ts, |s|) && Commits(w, ts, |s|)
    requires Write(w, ts, s).Covers(t)
    ensures |s| < w.Size() && ts <= t < ts + |s| ==> Write(w, ts, s).At(t) == s[t - ts]
    ensures !(|s| < w.Size() && ts <= t < ts + |s|) ==>
              && (w.Fresh? ==> Write(w, ts, s).At(t) == 0.0)
              && (w.Live? ==> Write(w, ts, s).At(t) == w.At(w.head + Rem(t - w.head, w.Size())))
              && (t < w.Tail() ==> Write(w, ts, s).At(t) == w.At(t))
              && (w.Live? && w.Tail() <= t < w.Tail() + w.Size() ==> Write(w, ts, s).At(t) == w.At(t - w.Size()))
  {
    var r := Write(w, ts, s);
    assert r.At(t) == CellAfter(w, ts, s, r.head + (t - r.head));
    if w.Live? && w.Tail() <= t < w.Tail() + w.Size() {
      RemOnce(t - w.head, w.Size());
    }
  }

  // ---------------------------------------------------------------- reading

  /** What a reader is promised for `[ts, ts + n)`. */
  function Heard(w: Window, ts: nat, n: nat): seq<real> {
    seq(n, i => w.At(ts + i))
  }

  predicate Touches(w: Window, ts: nat, n: nat) {
    n > 0 && w.Live? ==> ts <= w.Tail() && w.Head() <= ts + n
  }

  /** The request spans the whole window, so the copied part is exactly the buffer size. */
  predicate SpansWindow(w: Window, ts: nat, n: nat) {
    w.Live? && ts <= w.Head() && w.Tail() <= ts + n
  }

  /** What the caller's memory holds after a read: a copy of exactly the buffer size leaves it alone. */
  function ReadInto(w: Window, ts: nat, prior: seq<real>): seq<real>
    requires Touches(w, ts, |prior|)
  {
    seq(|prior|, i requires 0 <= i < |prior| => ReadCell(w, ts, prior, i))
  }

  function ReadCell(w: Window, ts: nat, prior: seq<real>, i: nat): real
    requires i < |prior|
  {
    if SpansWindow(w, ts, |prior|) && w.Covers(ts + i) then prior[i] else w.At(ts + i)
  }

  const TWO_64: int := 0x1_0000_0000_0000_0000

  function Sub64(a: nat, b: nat): nat {
    (a - b) % TWO_64
  }

  /** The three lengths a read computes, in unsigned 64-bit arithmetic. */
  datatype ReadPlan = ReadPlan(zerosBefore: nat, fromBuffer: nat, zerosAfter: nat)

  function PlanRead(w: Window, ts: nat, n: nat): ReadPlan {
    var from := Max(ts, w.Head());
    var to := Min(ts + n, w.Tail());
    ReadPlan(Sub64(from, ts), Sub64(to, from), Sub64(ts + n, to))
  }

  /** The three parts follow each other and fill the output exactly. */
  predicate FillsOutput(p: ReadPlan, n: nat) {
    p.zerosBefore + p.fromBuffer + p.zerosAfter == n
  }

  /** The read plan partitions the output exactly when the request touches the window. */
  lemma ReadPlanExactly(w: Window, ts: nat, n: nat)
    requires w.Valid() && w.Live? && n > 0
    requires ts + n < TWO_64 && w.Tail() < TWO_64
    ensures FillsOutput(PlanRead(w, ts, n), n) <==> Touches(w, ts, n)
  {
    var from := Max(ts, w.Head());
    var to := Min(ts + n, w.Tail());
    if from <= to {
      Sub64Exact(from, ts);
      Sub64Exact(to, from);
      Sub64Exact(ts + n, to);
    } else {
      Sub64Exact(from, ts);
      Sub64Wraps(to, from);
      Sub64Exact(ts + n, to);
    }
  }

  lemma Sub64Exact(a: nat, b: nat)
    requires b <= a < TWO_64
    ensures Sub64(a, b) == a - b
  {
  }

  lemma Sub64Wraps(a: nat, b: nat)
    requires a < b < TWO_64
    ensures Sub64(a, b) == TWO_64 + a - b
  {
  }

  /** For 64-bit times and a request that touches the window the lengths are what they seem. */
  lemma PlannedLengths(w: Window, ts: nat, n: nat)
    requires w.Valid() && w.Live? && n > 0 && Touches(w, ts, n)
    ensures ts + n < TWO_64 && w.Tail() < TWO_64 ==>
              var from, to := Max(ts, w.Head()), Min(ts + n, w.Tail());
              PlanRead(w, ts, n) == ReadPlan(from - ts, to - from, ts + n - to)
  {
    var from, to := Max(ts, w.Head()), Min(ts + n, w.Tail());
    if ts + n < TWO_64 && w.Tail() < TWO_64 {
      Sub64Exact(from, ts);
      Sub64Exact(to, from);
      Sub64Exact(ts + n, to);
    }
  }

  // ---------------------------------------------------------------- amounts

  /** How many samples must follow the tail so that everything before `ts` can be read. */
  function NeedWrite(w: Window, ts: nat): nat {
    if w.Fresh? || ts < w.Tail() then 0 else Min(ts - w.Tail(), w.Size())
  }

  /** How many samples from `ts` on have been written. */
  function CanRead(w: Window, ts: nat): nat {
    if w.Fresh? || w.Tail() <= ts then 0 else Min(w.Tail() - ts, w.Size())
  }
}
