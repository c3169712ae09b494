/**
 The ring buffer against the plainest reference there is: a map from time to
 sample in which the latest write wins and a time nobody wrote is silent.
 For one write, and for whole runs of writes and restarts.
 */
module SignalRefinement {
  import opened Modular
  import opened SampleWindow

  /** A sample for every time. */
  type Signal = int -> real

  /** Inside its window, `w` shows exactly `f`. */
  ghost predicate Refines(w: Window, f: Signal) {
    forall t: int {:trigger w.At(t)} :: w.Covers(t) ==> w.At(t) == f(t)
  }

  function Overlay(f: Signal, ts: nat, s: seq<real>): Signal {
    (t: int) => if ts <= t < ts + |s| then s[t - ts] else f(t)
  }

  /** The reference answer to a write. Nothing from before the first commit is remembered. */
  function Record(w: Window, f: Signal, ts: nat, s: seq<real>): Signal {
    if !Commits(w, ts, |s|) then f
    else Overlay(if w.Fresh? then (t: int) => 0.0 else f, ts, s)
  }

  /** What a caller can check before a write: shorter than the buffer, and no gap after the tail. */
  predicate Keeps(w: Window, ts: nat, n: nat) {
    Commits(w, ts, n) ==> n < w.Size() && (w.Live? ==> ts <= w.Tail())
  }

  ghost predicate SameTiming(w: Window, w': Window) {
    w'.Valid() && w.Fresh? == w'.Fresh? && w.Size() == w'.Size() && w.Head() == w'.Head()
  }

  /** Whatever the samples involved, a write at `ts` of `n` samples keeps buffer and reference in step. */
  ghost predicate Preserves(w: Window, ts: nat, n: nat)
    requires w.Valid() && WriteAllowed(w, ts, n)
  {
    forall w': Window, f: Signal, s: seq<real> ::
      SameTiming(w, w') && Refines(w', f) && |s| == n ==> Refines(Write(w', ts, s), Record(w', f, ts, s))
  }

  lemma KeptWrite(w: Window, f: Signal, ts: nat, s: seq<real>)
    requires w.Valid() && WriteAllowed(w, ts, |s|) && Keeps(w, ts, |s|)
    requires Refines(w, f)
    ensures Refines(Write(w, ts, s), Record(w, f, ts, s))
  {
    if Commits(w, ts, |s|) {
      var r := Write(w, ts, s);
      forall t: int | r.Covers(t)
        ensures r.At(t) == Record(w, f, ts, s)(t)
      {
        if !(ts <= t < ts + |s|) && w.Live? {
          assert w.Covers(t);
        }
        WrittenAt(w, ts, s, t);
        if w.Fresh? {
          assert r.At(t) == CellAfter(w, ts, s, t);
        }
      }
    }
  }

  /** A whole buffer's worth is never copied: the reference has it, the buffer does not. */
  lemma WholeBufferIsLost(w: Window, ts: nat, n: nat) returns (w': Window, f: Signal, s: seq<real>)
    requires w.Valid() && WriteAllowed(w, ts, n) && Commits(w, ts, n)
    requires n >= w.Size()
    ensures SameTiming(w, w') && Refines(w', f) && |s| == n
    ensures WriteAllowed(w', ts, |s|) && !Refines(Write(w', ts, s), Record(w', f, ts, s))
  {
    w' := if w.Fresh? then w else Live(w.head, seq(w.Size(), _ => 0.0));
    f := (t: int) => 0.0;
    s := seq(n, _ => 1.0);
    var r := Write(w', ts, s);
    assert r.Covers(ts);
    assert r.At(ts) == CellAfter(w', ts, s, r.head + (ts - r.head));
    assert Record(w', f, ts, s)(ts) == 1.0;
  }

  /** A gap after the tail shows what a whole buffer earlier left there, not silence. */
  lemma GapIsStale(w: Window, ts: nat, n: nat) returns (w': Window, f: Signal, s: seq<real>)
    requires w.Valid() && WriteAllowed(w, ts, n) && Commits(w, ts, n)
    requires n < w.Size() && w.Live? && w.Tail() < ts
    ensures SameTiming(w, w') && Refines(w', f) && |s| == n
    ensures WriteAllowed(w', ts, |s|) && !Refines(Write(w', ts, s), Record(w', f, ts, s))
  {
    w' := Live(w.head, seq(w.Size(), _ => 1.0));
    f := (t: int) => if t < w.Tail() then 1.0 else 0.0;
    s := seq(n, _ => 0.0);
    var r := Write(w', ts, s);
    assert r.Covers(ts - 1);
    assert r.At(ts - 1) == CellAfter(w', ts, s, r.head + (ts - 1 - r.head));
    assert Record(w', f, ts, s)(ts - 1) == 0.0;
  }

  /** The buffer follows the reference through a write exactly when the write is short and leaves no gap. */
  lemma KeepsExactly(w: Window, ts: nat, n: nat)
    requires w.Valid() && WriteAllowed(w, ts, n)
    ensures Preserves(w, ts, n) <==> Keeps(w, ts, n)
  {
    if Keeps(w, ts, n) {
      forall w': Window, f: Signal, s: seq<real> | SameTiming(w, w') && Refines(w', f) && |s| == n
        ensures Refines(Write(w', ts, s), Record(w', f, ts, s))
      {
        KeptWrite(w', f, ts, s);
      }
    } else if n >= w.Size() {
      var w', f, s := WholeBufferIsLost(w, ts, n);
    } else {
      var w', f, s := GapIsStale(w, ts, n);
    }
  }

  /** A block can be read back, whatever its samples, exactly when it commits and is shorter than the buffer. */
  lemma ReadBackExactly(w: Window, ts: nat, n: nat)
    requires w.Valid() && WriteAllowed(w, ts, n) && n > 0
    ensures (forall s: seq<real> | |s| == n :: Heard(Write(w, ts, s), ts, n) == s)
            <==> Commits(w, ts, n) && n < w.Size()
  {
    if Commits(w, ts, n) && n < w.Size() {
      forall s: seq<real> | |s| == n
        ensures Heard(Write(w, ts, s), ts, n) == s
      {
        forall i | 0 <= i < n
          ensures Heard(Write(w, ts, s), ts, n)[i] == s[i]
        {
          WrittenAt(w, ts, s, ts + i);
        }
      }
    } else {
      var zeros: seq<real> := seq(n, _ => 0.0);
      var h := Write(w, ts, zeros).At(ts);
      var s: seq<real> := seq(n, _ => h + 1.0);
      var r := Write(w, ts, s);
      assert r.At(ts) == h by {
        if Commits(w, ts, n) {
          assert r.At(ts) == CellAfter(w, ts, s, r.head + (ts - r.head));
          assert Write(w, ts, zeros).At(ts) == CellAfter(w, ts, zeros, r.head + (ts - r.head));
        }
      }
      assert Heard(r, ts, n)[0] == h;
      assert s[0] == h + 1.0;
    }
  }

  // ---------------------------------------------------------------- runs

  datatype Op = WriteOp(ts: nat, s: seq<real>) | RestartOp

  /** Every write of the run meets the asserted condition, is shorter than the buffer and leaves no gap. */
  predicate AllKept(size: nat, ops: seq<Op>)
    requires size > 0
    decreases |ops|, 0
  {
    ops == [] ||
    (var before, op := ops[..|ops| - 1], ops[|ops| - 1];
     && AllKept(size, before)
     && (op.WriteOp? ==>
           && WriteAllowed(WindowAfter(size, before), op.ts, |op.s|)
           && Keeps(WindowAfter(size, before), op.ts, |op.s|)))
  }

  /** The buffer after the run. */
  function WindowAfter(size: nat, ops: seq<Op>): (w: Window)
    requires size > 0 && AllKept(size, ops)
    ensures w.Valid() && w.Size() == size
    decreases |ops|, 1
  {
    if ops == [] then Fresh(size)
    else
      var before, op := ops[..|ops| - 1], ops[|ops| - 1];
      match op
      case RestartOp => Fresh(size)
      case WriteOp(ts, s) => Write(WindowAfter(size, before), ts, s)
  }

  /** A write has committed since the last restart. Only times and lengths matter. */
  predicate Committed(size: nat, ops: seq<Op>) {
    if ops == [] then false
    else
      match ops[|ops| - 1]
      case RestartOp => false
      case WriteOp(ts, s) => Committed(size, ops[..|ops| - 1]) || (s != [] && size <= ts + |s|)
  }

  /** The sample of time `t` by the operations alone: the latest committed write covering it, else silence. */
  function Latest(size: nat, ops: seq<Op>, t: int): real {
    if !Committed(size, ops) then 0.0
    else
      var op := ops[|ops| - 1];
      if op.WriteOp? && op.ts <= t < op.ts + |op.s| then op.s[t - op.ts]
      else Latest(size, ops[..|ops| - 1], t)
  }

  /** After any run of kept writes and restarts, every read hears the latest writes, and silence outside the window. */
  lemma {:induction false} RunRefines(size: nat, ops: seq<Op>)
    requires size > 0 && AllKept(size, ops)
    ensures WindowAfter(size, ops).Live? <==> Committed(size, ops)
    ensures Refines(WindowAfter(size, ops), t => Latest(size, ops, t))
  {
    if ops == [] {
    } else {
      var before, op := ops[..|ops| - 1], ops[|ops| - 1];
      RunRefines(size, before);
      if op.WriteOp? {
        var w := WindowAfter(size, before);
        var f: Signal := t => Latest(size, before, t);
        KeptWrite(w, f, op.ts, op.s);
        var r := WindowAfter(size, ops);
        forall t: int | r.Covers(t)
          ensures r.At(t) == Latest(size, ops, t)
        {
          assert r.At(t) == Record(w, f, op.ts, op.s)(t);
        }
      }
    }
  }

  lemma RunReads(size: nat, ops: seq<Op>, ts: nat, prior: seq<real>)
    requires size > 0 && AllKept(size, ops)
    requires Touches(WindowAfter(size, ops), ts, |prior|) && !SpansWindow(WindowAfter(size, ops), ts, |prior|)
    ensures ReadInto(WindowAfter(size, ops), ts, prior) == seq(|prior|, i =>
              if WindowAfter(size, ops).Covers(ts + i) then Latest(size, ops, ts + i) else 0.0)
  {
    RunRefines(size, ops);
    var w := WindowAfter(size, ops);
    forall i | 0 <= i < |prior|
      ensures ReadInto(w, ts, prior)[i] == if w.Covers(ts + i) then Latest(size, ops, ts + i) else 0.0
    {
      assert ReadInto(w, ts, prior)[i] == ReadCell(w, ts, prior, i);
    }
  }

  /** A read is the promised answer, whatever buffer and output hold, exactly when it does not span the window. */
  lemma ReadExactly(w: Window, ts: nat, n: nat)
    requires w.Valid() && Touches(w, ts, n)
    ensures (forall w', prior: seq<real> :: SameTiming(w, w') && |prior| == n ==>
               ReadInto(w', ts, prior) == Heard(w', ts, n))
            <==> !SpansWindow(w, ts, n)
  {
    if !SpansWindow(w, ts, n) {
      forall w', prior: seq<real> | SameTiming(w, w') && |prior| == n
        ensures ReadInto(w', ts, prior) == Heard(w', ts, n)
      {
        forall i | 0 <= i < n
          ensures ReadInto(w', ts, prior)[i] == Heard(w', ts, n)[i]
        {
          assert ReadInto(w', ts, prior)[i] == ReadCell(w', ts, prior, i);
        }
      }
    } else {
      var w' := Live(w.head, seq(w.Size(), _ => 0.0));
      var prior: seq<real> := seq(n, _ => 1.0);
      var i := w.head - ts;
      assert SameTiming(w, w');
      assert ReadInto(w', ts, prior)[i] == ReadCell(w', ts, prior, i) == 1.0;
      assert Heard(w', ts, n)[i] == w'.At(ts + i) == 0.0;
    }
  }

  /** Between restarts the window only moves forward. */
  lemma WindowAdvances(w: Window, ts: nat, s: seq<real>)
    requires w.Valid() && WriteAllowed(w, ts, |s|)
    ensures var r := Write(w, ts, s);
            && w.Head() <= r.Head() && w.Tail() <= r.Tail()
            && (w.Live? ==> r.Live?)
            && (r.Live? ==> r.Tail() - r.Head() == w.Size())
            && (w.Fresh? ==> (r.Live? <==> s != [] && w.Size() <= ts + |s|))
            && (w.Fresh? && r.Live? ==> r.Tail() == ts + |s|)
            && (w.Live? && s != [] ==> r.Tail() == if w.Tail() < ts + |s| then ts + |s| else w.Tail())
  {
  }
}
