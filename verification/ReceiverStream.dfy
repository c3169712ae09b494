/**
 A receiver device: client reads pull network samples into the ring buffer and
 are answered from it. The reference is one endless stream that starts at the
 first committed read; the timestamps of the requests only say how far it has
 been pulled and which part of it is wanted.
 */
module ReceiverStream {
  import opened Modular
  import opened SampleWindow
  import opened SignalRefinement

  /** The k-th sample the network delivers. */
  type Network = nat -> real

  /** `n` network samples from the `from`-th on, at one volume. */
  function Block(net: Network, from: nat, n: nat, gain: real): seq<real> {
    seq(n, i requires 0 <= i => Amplified(net(from + i), gain))
  }

  // ---------------------------------------------------------------- the handler

  /** `prior` is what the client's memory holds before the answer is written into it. */
  datatype Request = Request(ts: nat, prior: seq<real>, gain: real)

  datatype Receiver = Receiver(win: Window, pulled: nat)

  function PullCount(w: Window, ts: nat, n: nat): nat {
    if w.Fresh? then n else NeedWrite(w, ts + n)
  }

  function PullAt(w: Window, ts: nat): nat {
    if w.Fresh? then ts else w.Tail()
  }

  /** The copy the request causes stays inside the new window, as asserted. */
  predicate PullAllowed(w: Window, ts: nat, n: nat) {
    WriteAllowed(w, PullAt(w, ts), PullCount(w, ts, n))
  }

  function Pull(net: Network, st: Receiver, ts: nat, n: nat, gain: real): (r: Receiver)
    requires st.win.Valid() && PullAllowed(st.win, ts, n)
    ensures r.win.Valid() && r.win.Size() == st.win.Size()
  {
    var count := PullCount(st.win, ts, n);
    Receiver(Write(st.win, PullAt(st.win, ts), Block(net, st.pulled, count, gain)), st.pulled + count)
  }

  // ---------------------------------------------------------------- the reference

  /**
   `Silent` until a read commits. Then time `t0 + k` is network sample `base + k`, at
   the volume in force when it was pulled.
   */
  datatype Stream = Silent(count: nat) | Playing(t0: nat, base: nat, gains: seq<real>) {

    function Tail(): nat {
      if Silent? then 0 else t0 + |gains|
    }

    /** Network samples pulled so far. */
    function Pulled(): nat {
      if Silent? then count else base + |gains|
    }

    function At(net: Network, t: int): real {
      if Playing? && t0 <= t < t0 + |gains| then Amplified(net(base + (t - t0)), gains[t - t0]) else 0.0
    }

    /** The stream after a request for `[ts, ts + n)`: extended, if need be, to reach the end of the request. */
    function Extended(size: nat, ts: nat, n: nat, gain: real): Stream {
      if Silent? then
        if n > 0 && size <= ts + n then Playing(ts, count, seq(n, _ => gain)) else Silent(count + n)
      else if Tail() < ts + n then Playing(t0, base, gains + seq(ts + n - Tail(), _ => gain))
      else this
    }

    /** What a client asking for `[ts, ts + n)` should hear: the stream, within the last `size` times. */
    function Answer(net: Network, size: nat, ts: nat, n: nat): seq<real> {
      seq(n, i requires 0 <= i => Answered(net, size, ts + i))
    }

    function Answered(net: Network, size: nat, t: nat): real {
      if Tail() - size <= t < Tail() then At(net, t) else 0.0
    }
  }

  /** The handler has pulled as far as the reference and its buffer shows the reference stream. */
  ghost predicate InStep(net: Network, st: Receiver, ideal: Stream) {
    && st.win.Valid()
    && st.pulled == ideal.Pulled()
    && (ideal.Silent? <==> st.win.Fresh?)
    && (ideal.Playing? ==>
          && st.win.Tail() == ideal.Tail()
          && Refines(st.win, t => ideal.At(net, t)))
  }

  /**
   The requests that are served right. A first read must be shorter than the buffer; a
   later one must end no further than the head lies behind the tail, jump ahead by less
   than the buffer, and not span it.
   */
  predicate RequestOk(size: nat, ideal: Stream, ts: nat, n: nat) {
    if ideal.Silent? then size <= ts + n ==> n < size
    else
      && ts + n < ideal.Tail() + size
      && (n > 0 ==> ideal.Tail() <= ts + n + size && (n < size || ts + n < ideal.Tail()))
  }

  /** What serving one request well means. */
  ghost predicate ServedWell(net: Network, st: Receiver, ideal: Stream, req: Request)
    requires st.win.Valid()
  {
    var n := |req.prior|;
    && PullAllowed(st.win, req.ts, n)
    && var st' := Pull(net, st, req.ts, n, req.gain);
       var ideal' := ideal.Extended(st.win.Size(), req.ts, n, req.gain);
    && Touches(st'.win, req.ts, n)
    && ReadInto(st'.win, req.ts, req.prior) == ideal'.Answer(net, st.win.Size(), req.ts, n)
    && InStep(net, st', ideal')
  }

  lemma PulledInStep(net: Network, st: Receiver, ideal: Stream, ts: nat, n: nat, gain: real)
    requires InStep(net, st, ideal) && RequestOk(st.win.Size(), ideal, ts, n)
    ensures PullAllowed(st.win, ts, n)
    ensures InStep(net, Pull(net, st, ts, n, gain), ideal.Extended(st.win.Size(), ts, n, gain))
  {
    hide Rem;
    var w, count, at := st.win, PullCount(st.win, ts, n), PullAt(st.win, ts);
    var s := Block(net, st.pulled, count, gain);
    var ideal' := ideal.Extended(w.Size(), ts, n, gain);
    if Commits(w, at, count) {
      var r := Write(w, at, s);
      forall t: int | r.Covers(t)
        ensures r.At(t) == ideal'.At(net, t)
      {
        WrittenAt(w, at, s, t);
        if !(at <= t < at + count) {
          if w.Live? {
            assert w.Covers(t);
          } else {
            assert r.At(t) == CellAfter(w, at, s, t);
          }
        }
      }
    }
  }

  /** Every acceptable request is answered from the stream and leaves the handler in step with it. */
  lemma ServesWell(net: Network, st: Receiver, ideal: Stream, req: Request)
    requires InStep(net, st, ideal) && RequestOk(st.win.Size(), ideal, req.ts, |req.prior|)
    ensures ServedWell(net, st, ideal, req)
  {
    hide Rem, CellAfter, WriteAllowed;
    var n, size := |req.prior|, st.win.Size();
    PulledInStep(net, st, ideal, req.ts, n, req.gain);
    var w := Pull(net, st, req.ts, n, req.gain).win;
    var ideal' := ideal.Extended(size, req.ts, n, req.gain);
    assert Touches(w, req.ts, n) && !SpansWindow(w, req.ts, n);
    var got, want := ReadInto(w, req.ts, req.prior), ideal'.Answer(net, size, req.ts, n);
    forall i | 0 <= i < n
      ensures got[i] == want[i]
    {
      assert got[i] == ReadCell(w, req.ts, req.prior, i) == w.At(req.ts + i);
      assert want[i] == ideal'.Answered(net, size, req.ts + i);
    }
    assert got == want;
  }

  // ---------------------------------------------------------------- exactly which requests

  ghost predicate SamePosition(ideal: Stream, ideal': Stream) {
    && ideal.Silent? == ideal'.Silent?
    && (ideal.Playing? ==> ideal.t0 == ideal'.t0 && |ideal.gains| == |ideal'.gains|)
  }

  /** Whatever the network delivers, the volumes and the client's memory, the request is served well. */
  ghost predicate AlwaysServedWell(size: nat, ideal: Stream, ts: nat, n: nat) {
    forall net: Network, st: Receiver, ideal': Stream, req: Request ::
      st.win.Size() == size && SamePosition(ideal, ideal') && InStep(net, st, ideal')
      && req.ts == ts && |req.prior| == n
      ==> ServedWell(net, st, ideal', req)
  }

  /** A handler at the same position of the stream, all of it played at volume zero. */
  function Muted(size: nat, ideal: Stream): (r: (Receiver, Stream))
    requires ideal.Playing? ==> size <= ideal.Tail()
  {
    if ideal.Silent? then (Receiver(Fresh(size), 0), Silent(0))
    else (Receiver(Live(ideal.Tail() - size, seq(size, _ => 0.0)), |ideal.gains|),
          Playing(ideal.t0, 0, seq(|ideal.gains|, _ => 0.0)))
  }

  lemma MutedInStep(net: Network, size: nat, ideal: Stream)
    requires size > 0 && (ideal.Playing? ==> size <= ideal.Tail())
    ensures var (st, ideal') := Muted(size, ideal);
            st.win.Size() == size && SamePosition(ideal, ideal') && InStep(net, st, ideal')
  {
  }

  /** A jump by a whole buffer or more: the pulled block is not stored, or does not reach the request. */
  lemma JumpFails(size: nat, ideal: Stream, ts: nat, n: nat)
    requires size > 0 && ideal.Playing? && size <= ideal.Tail()
    requires ideal.Tail() + size <= ts + n
    ensures !AlwaysServedWell(size, ideal, ts, n)
  {
    var net: Network := _ => 1.0;
    var (st, muted) := Muted(size, ideal);
    var req := Request(ts, seq(n, _ => 0.0), 1.0);
    MutedInStep(net, size, ideal);
    assert PullAllowed(st.win, ts, n);
    var w := Pull(net, st, ts, n, 1.0).win;
    var next := muted.Extended(size, ts, n, 1.0);
    if ts + n == ideal.Tail() + size {
      assert w.At(ideal.Tail()) == CellAfter(st.win, ideal.Tail(), Block(net, st.pulled, size, 1.0), w.head);
      assert next.At(net, ideal.Tail()) == Amplified(1.0, 1.0);
      assert w.Covers(ideal.Tail());
    }
    assert !InStep(net, Pull(net, st, ts, n, 1.0), next);
    assert !ServedWell(net, st, muted, req);
  }

  /** A request that spans the window: the client's memory keeps what it held. */
  lemma SpanFails(size: nat, ideal: Stream, ts: nat, n: nat)
    requires size > 0 && ideal.Playing? && size <= ideal.Tail()
    requires ideal.Tail() <= ts + n < ideal.Tail() + size && size <= n
    ensures !AlwaysServedWell(size, ideal, ts, n)
  {
    var net: Network := _ => 0.0;
    var (st, muted) := Muted(size, ideal);
    var req := Request(ts, seq(n, _ => 1.0), 0.0);
    MutedInStep(net, size, ideal);
    var w := Pull(net, st, ts, n, 0.0).win;
    var next := muted.Extended(size, ts, n, 0.0);
    var i := w.Head() - ts;
    assert ReadInto(w, ts, req.prior)[i] == ReadCell(w, ts, req.prior, i) == 1.0;
    assert next.Answer(net, size, ts, n)[i] == next.Answered(net, size, ts + i);
    assert next.Answered(net, size, ts + i) == 0.0;
    assert !ServedWell(net, st, muted, req);
  }

  /** A first read of a whole buffer commits the window without storing the block. */
  lemma LongFirstReadFails(size: nat, ideal: Stream, ts: nat, n: nat)
    requires size > 0 && ideal.Silent? && size <= n
    ensures !AlwaysServedWell(size, ideal, ts, n)
  {
    var net: Network := _ => 1.0;
    var (st, muted) := Muted(size, ideal);
    var req := Request(ts, seq(n, _ => 0.0), 1.0);
    MutedInStep(net, size, ideal);
    if n == size {
      var w := Pull(net, st, ts, n, 1.0).win;
      var next := muted.Extended(size, ts, n, 1.0);
      assert w.At(ts) == CellAfter(st.win, ts, Block(net, 0, n, 1.0), w.head) == 0.0;
      assert next.At(net, ts) == Amplified(1.0, 1.0);
      assert w.Covers(ts);
      assert !InStep(net, Pull(net, st, ts, n, 1.0), next);
    }
    assert !ServedWell(net, st, muted, req);
  }

  /** A request that ends before the head: the read's three parts do not fit the output. */
  lemma LateRequestFails(size: nat, ideal: Stream, ts: nat, n: nat)
    requires size > 0 && ideal.Playing? && size <= ideal.Tail()
    requires n > 0 && ts + n + size < ideal.Tail()
    ensures !AlwaysServedWell(size, ideal, ts, n)
  {
    var net: Network := _ => 1.0;
    var (st, muted) := Muted(size, ideal);
    var req := Request(ts, seq(n, _ => 0.0), 1.0);
    MutedInStep(net, size, ideal);
    assert !ServedWell(net, st, muted, req);
  }

  /** `RequestOk` is exact: those requests are always served well, and every other one can fail. */
  lemma RequestExactly(size: nat, ideal: Stream, ts: nat, n: nat)
    requires size > 0 && (ideal.Playing? ==> size <= ideal.Tail())
    ensures AlwaysServedWell(size, ideal, ts, n) <==> RequestOk(size, ideal, ts, n)
  {
    if RequestOk(size, ideal, ts, n) {
      forall net: Network, st: Receiver, ideal': Stream, req: Request |
        st.win.Size() == size && SamePosition(ideal, ideal') && InStep(net, st, ideal')
        && req.ts == ts && |req.prior| == n
        ensures ServedWell(net, st, ideal', req)
      {
        ServesWell(net, st, ideal', req);
      }
    } else if ideal.Silent? {
      LongFirstReadFails(size, ideal, ts, n);
    } else if ideal.Tail() + size <= ts + n {
      JumpFails(size, ideal, ts, n);
    } else if ts + n + size < ideal.Tail() {
      LateRequestFails(size, ideal, ts, n);
    } else {
      SpanFails(size, ideal, ts, n);
    }
  }

  // ---------------------------------------------------------------- runs

  /** The reference after a run of requests. */
  function After(size: nat, ideal: Stream, reqs: seq<Request>): Stream {
    if reqs == [] then ideal
    else
      var last := reqs[|reqs| - 1];
      After(size, ideal, reqs[..|reqs| - 1]).Extended(size, last.ts, |last.prior|, last.gain)
  }

  predicate RunOk(size: nat, ideal: Stream, reqs: seq<Request>) {
    forall k :: 0 <= k < |reqs| ==> RequestOk(size, After(size, ideal, reqs[..k]), reqs[k].ts, |reqs[k].prior|)
  }

  /** The handler after a run it serves well. */
  ghost function Served(net: Network, st: Receiver, ideal: Stream, reqs: seq<Request>): (r: Receiver)
    requires InStep(net, st, ideal) && RunOk(st.win.Size(), ideal, reqs)
    ensures InStep(net, r, After(st.win.Size(), ideal, reqs)) && r.win.Size() == st.win.Size()
  {
    if reqs == [] then st
    else
      var k := |reqs| - 1;
      RunOkPrefix(st.win.Size(), ideal, reqs, k);
      var before := Served(net, st, ideal, reqs[..k]);
      PulledInStep(net, before, After(st.win.Size(), ideal, reqs[..k]), reqs[k].ts, |reqs[k].prior|, reqs[k].gain);
      Pull(net, before, reqs[k].ts, |reqs[k].prior|, reqs[k].gain)
  }

  lemma RunOkPrefix(size: nat, ideal: Stream, reqs: seq<Request>, k: nat)
    requires k <= |reqs| && RunOk(size, ideal, reqs)
    ensures RunOk(size, ideal, reqs[..k])
  {
    forall i | 0 <= i < k
      ensures RequestOk(size, After(size, ideal, reqs[..k][..i]), reqs[..k][i].ts, |reqs[..k][i].prior|)
    {
      assert reqs[..k][..i] == reqs[..i];
    }
  }

  /** What the k-th client of the run finds in its memory. */
  ghost function Output(net: Network, st: Receiver, ideal: Stream, reqs: seq<Request>, k: nat): seq<real>
    requires InStep(net, st, ideal) && RunOk(st.win.Size(), ideal, reqs) && k < |reqs|
  {
    RunOkPrefix(st.win.Size(), ideal, reqs, k);
    var before := Served(net, st, ideal, reqs[..k]);
    ServesWell(net, before, After(st.win.Size(), ideal, reqs[..k]), reqs[k]);
    ReadInto(Pull(net, before, reqs[k].ts, |reqs[k].prior|, reqs[k].gain).win, reqs[k].ts, reqs[k].prior)
  }

  /** Every answer of the run is the reference stream's, cut to the window of that moment. */
  lemma RunAnswers(net: Network, st: Receiver, ideal: Stream, reqs: seq<Request>, k: nat)
    requires InStep(net, st, ideal) && RunOk(st.win.Size(), ideal, reqs) && k < |reqs|
    ensures Output(net, st, ideal, reqs, k)
         == After(st.win.Size(), ideal, reqs[..k + 1]).Answer(net, st.win.Size(), reqs[k].ts, |reqs[k].prior|)
  {
    RunOkPrefix(st.win.Size(), ideal, reqs, k);
    var before := Served(net, st, ideal, reqs[..k]);
    ServesWell(net, before, After(st.win.Size(), ideal, reqs[..k]), reqs[k]);
    assert reqs[..k + 1][..k] == reqs[..k];
  }

  /** The stream is one and the same all along: it is only ever extended at its end. */
  lemma {:induction false} StreamGrows(size: nat, ideal: Stream, reqs: seq<Request>, j: nat, k: nat)
    requires j <= k <= |reqs|
    requires After(size, ideal, reqs[..j]).Playing?
    ensures var a, b := After(size, ideal, reqs[..j]), After(size, ideal, reqs[..k]);
            b.Playing? && b.t0 == a.t0 && b.base == a.base && a.gains <= b.gains
  {
    if j == k {
    } else {
      StreamGrows(size, ideal, reqs, j, k - 1);
      assert reqs[..k][..k - 1] == reqs[..k - 1];
    }
  }

  lemma StreamReachesRequest(size: nat, ideal: Stream, reqs: seq<Request>, j: nat)
    requires j < |reqs| && After(size, ideal, reqs[..j + 1]).Playing?
    ensures |reqs[j].prior| > 0 ==> reqs[j].ts + |reqs[j].prior| <= After(size, ideal, reqs[..j + 1]).Tail()
  {
    assert reqs[..j + 1][..j] == reqs[..j];
  }

  lemma GrownStreamAgrees(net: Network, size: nat, a: Stream, b: Stream, t: nat)
    requires a.Playing? && b.Playing? && b.t0 == a.t0 && b.base == a.base && a.gains <= b.gains
    requires t < a.Tail() && b.Tail() <= t + size
    ensures a.Answered(net, size, t) == b.Answered(net, size, t)
  {
  }

  lemma OutputAt(net: Network, st: Receiver, ideal: Stream, reqs: seq<Request>, k: nat, t: nat)
    requires InStep(net, st, ideal) && RunOk(st.win.Size(), ideal, reqs) && k < |reqs|
    requires reqs[k].ts <= t < reqs[k].ts + |reqs[k].prior|
    ensures t - reqs[k].ts < |Output(net, st, ideal, reqs, k)|
    ensures Output(net, st, ideal, reqs, k)[t - reqs[k].ts]
         == After(st.win.Size(), ideal, reqs[..k + 1]).Answered(net, st.win.Size(), t)
  {
    RunAnswers(net, st, ideal, reqs, k);
  }

  /** Two clients asking for the same time hear the same sample, if the later one still finds it in the window. */
  lemma ClientsAgree(net: Network, st: Receiver, ideal: Stream, reqs: seq<Request>, j: nat, k: nat, t: nat)
    requires InStep(net, st, ideal) && RunOk(st.win.Size(), ideal, reqs)
    requires j < k < |reqs| && After(st.win.Size(), ideal, reqs[..j + 1]).Playing?
    requires reqs[j].ts <= t < reqs[j].ts + |reqs[j].prior|
    requires reqs[k].ts <= t < reqs[k].ts + |reqs[k].prior|
    requires After(st.win.Size(), ideal, reqs[..k + 1]).Tail() <= t + st.win.Size()
    ensures t - reqs[j].ts < |Output(net, st, ideal, reqs, j)| && t - reqs[k].ts < |Output(net, st, ideal, reqs, k)|
    ensures Output(net, st, ideal, reqs, j)[t - reqs[j].ts] == Output(net, st, ideal, reqs, k)[t - reqs[k].ts]
  {
    hide Output, RunOk, InStep, After, Stream.Answered;
    OutputAt(net, st, ideal, reqs, j, t);
    OutputAt(net, st, ideal, reqs, k, t);
    StreamGrows(st.win.Size(), ideal, reqs, j + 1, k + 1);
    StreamReachesRequest(st.win.Size(), ideal, reqs, j);
    GrownStreamAgrees(net, st.win.Size(), After(st.win.Size(), ideal, reqs[..j + 1]),
                      After(st.win.Size(), ideal, reqs[..k + 1]), t);
  }

  /** Since the commit, the window has moved by exactly as many times as samples were pulled. */
  lemma PulledOnce(net: Network, st: Receiver, reqs: seq<Request>)
    requires st.win == Fresh(st.win.Size()) && st.win.Valid()
    requires RunOk(st.win.Size(), Silent(st.pulled), reqs)
    ensures InStep(net, st, Silent(st.pulled))
    ensures var r, ideal := Served(net, st, Silent(st.pulled), reqs), After(st.win.Size(), Silent(st.pulled), reqs);
            && (ideal.Silent? ==> r.win.Fresh?)
            && (ideal.Playing? ==> r.win.Live? && r.win.Tail() - ideal.t0 == r.pulled - ideal.base)
  {
  }

  /** One more request after a run: if it is acceptable too, it is served well and the run goes on. */
  lemma RunGoesOn(net: Network, st: Receiver, start: Stream, reqs: seq<Request>, req: Request)
    requires st.win.Valid()
    requires RunOk(st.win.Size(), start, reqs) ==> InStep(net, st, After(st.win.Size(), start, reqs))
    requires RunOk(st.win.Size(), start, reqs + [req])
    ensures ServedWell(net, st, After(st.win.Size(), start, reqs), req)
    ensures After(st.win.Size(), start, reqs + [req])
         == After(st.win.Size(), start, reqs).Extended(st.win.Size(), req.ts, |req.prior|, req.gain)
  {
    var all, k := reqs + [req], |reqs|;
    assert all[..k] == reqs;
    RunOkPrefix(st.win.Size(), start, all, k);
    assert RequestOk(st.win.Size(), After(st.win.Size(), start, all[..k]), all[k].ts, |all[k].prior|);
    ServesWell(net, st, After(st.win.Size(), start, reqs), req);
  }

  // ---------------------------------------------------------------- samples pulled in vain

  /** A request that commits a fresh buffer. Only its time and length matter. */
  predicate Opens(size: nat, req: Request) {
    |req.prior| > 0 && size <= req.ts + |req.prior|
  }

  predicate AnyOpens(size: nat, reqs: seq<Request>) {
    exists i :: 0 <= i < |reqs| && Opens(size, reqs[i])
  }

  /** How many samples were pulled before the buffer was committed; those are heard by nobody. */
  function Dropped(size: nat, reqs: seq<Request>): nat {
    if reqs == [] then 0
    else
      var k := |reqs| - 1;
      Dropped(size, reqs[..k]) + (if AnyOpens(size, reqs) then 0 else |reqs[k].prior|)
  }

  lemma AnyOpensNext(size: nat, reqs: seq<Request>)
    requires reqs != []
    ensures AnyOpens(size, reqs) <==> AnyOpens(size, reqs[..|reqs| - 1]) || Opens(size, reqs[|reqs| - 1])
  {
    var k := |reqs| - 1;
    if AnyOpens(size, reqs[..k]) {
      var i :| 0 <= i < k && Opens(size, reqs[..k][i]);
      assert Opens(size, reqs[i]);
    }
    if AnyOpens(size, reqs) {
      var i :| 0 <= i < |reqs| && Opens(size, reqs[i]);
      assert i < k ==> Opens(size, reqs[..k][i]);
    }
  }

  /** The stream starts with the first opening request, and with the first sample pulled for it. */
  lemma {:induction false} StreamStarts(size: nat, p: nat, reqs: seq<Request>)
    ensures After(size, Silent(p), reqs).Playing? <==> AnyOpens(size, reqs)
    ensures match After(size, Silent(p), reqs)
            case Silent(count) => count == p + Dropped(size, reqs)
            case Playing(_, base, _) => base == p + Dropped(size, reqs)
  {
    if reqs == [] {
    } else {
      StreamStarts(size, p, reqs[..|reqs| - 1]);
      AnyOpensNext(size, reqs);
    }
  }

  /** The first request that asks for anything at all, or the number of requests if there is none. */
  function FirstAsking(reqs: seq<Request>): (f: nat)
    ensures f <= |reqs|
    ensures f < |reqs| ==> |reqs[f].prior| > 0
    ensures forall j :: 0 <= j < f ==> |reqs[j].prior| == 0
  {
    if reqs == [] then 0
    else
      var k := |reqs| - 1;
      var f := FirstAsking(reqs[..k]);
      if f < k || |reqs[k].prior| > 0 then f else k + 1
  }

  /**
   No pulled sample is lost exactly when the first request that asks for anything ends at or
   after one buffer size.
   */
  lemma {:induction false} NothingDroppedExactly(size: nat, reqs: seq<Request>)
    ensures Dropped(size, reqs) == 0
            <==> var f := FirstAsking(reqs); f < |reqs| ==> size <= reqs[f].ts + |reqs[f].prior|
  {
    if reqs == [] {
    } else {
      NothingDroppedExactly(size, reqs[..|reqs| - 1]);
      AnyOpensNext(size, reqs);
      assert FirstAsking(reqs) == |reqs| ==> !AnyOpens(size, reqs);
    }
  }

  /** Over every run from a fresh buffer: what the network delivered is what was lost and what is in the stream. */
  lemma PulledIsDroppedOrPlayed(net: Network, st: Receiver, reqs: seq<Request>)
    requires st.win == Fresh(st.win.Size()) && st.win.Valid()
    requires RunOk(st.win.Size(), Silent(st.pulled), reqs)
    ensures InStep(net, st, Silent(st.pulled))
    ensures var r, ideal := Served(net, st, Silent(st.pulled), reqs), After(st.win.Size(), Silent(st.pulled), reqs);
            r.pulled == st.pulled + Dropped(st.win.Size(), reqs) + (if ideal.Playing? then |ideal.gains| else 0)
  {
    StreamStarts(st.win.Size(), st.pulled, reqs);
  }

  /** Two requests of half a buffer each, from time zero: the first is answered with silence, its samples are gone. */
  lemma FirstHalfIsLost(half: nat, gain: real) returns (reqs: seq<Request>)
    requires half > 0
    ensures |reqs| == 2 && RunOk(2 * half, Silent(0), reqs)
    ensures Dropped(2 * half, reqs) == half
    ensures After(2 * half, Silent(0), reqs) == Playing(half, half, seq(half, _ => gain))
  {
    var first, second := Request(0, seq(half, _ => 0.0), gain), Request(half, seq(half, _ => 0.0), gain);
    reqs := [first, second];
    assert reqs[..0] == [] && reqs[..1] == [first] && reqs[..1][..0] == [];
    assert After(2 * half, Silent(0), [first]) == Silent(half);
    StreamStarts(2 * half, 0, reqs);
  }

  // ---------------------------------------------------------------- what is heard

  /** Request `i` is the one that commits the fresh buffer. */
  predicate Commitment(size: nat, reqs: seq<Request>, i: nat) {
    i < |reqs| && Opens(size, reqs[i]) && forall h :: 0 <= h < i ==> !Opens(size, reqs[h])
  }

  /** Request `j` is the first that, from the commit on, reaches past time `t`. */
  predicate FirstPast(size: nat, reqs: seq<Request>, t: int, j: nat) {
    && j < |reqs| && AnyOpens(size, reqs[..j + 1]) && t < reqs[j].ts + |reqs[j].prior|
    && forall i :: 0 <= i < j && AnyOpens(size, reqs[..i + 1]) ==> reqs[i].ts + |reqs[i].prior| <= t
  }

  /** The stream starts with the request that commits the buffer. */
  lemma {:induction false} StreamStartTime(size: nat, p: nat, reqs: seq<Request>, i: nat)
    requires Commitment(size, reqs, i)
    ensures After(size, Silent(p), reqs).Playing? && After(size, Silent(p), reqs).t0 == reqs[i].ts
  {
    var k := |reqs| - 1;
    if i == k {
      StreamStarts(size, p, reqs[..k]);
      assert forall h :: 0 <= h < k ==> reqs[..k][h] == reqs[h];
    } else {
      assert reqs[..k][i] == reqs[i] && forall h :: 0 <= h < i ==> reqs[..k][h] == reqs[h];
      StreamStartTime(size, p, reqs[..k], i);
    }
  }

  /** From the commit on no request ends beyond the tail. */
  lemma {:induction false} EndsBeforeTail(size: nat, p: nat, reqs: seq<Request>, i: nat)
    requires i < |reqs| && AnyOpens(size, reqs[..i + 1])
    ensures After(size, Silent(p), reqs).Playing?
    ensures reqs[i].ts + |reqs[i].prior| <= After(size, Silent(p), reqs).Tail()
  {
    var k := |reqs| - 1;
    if i == k {
      assert reqs[..k + 1] == reqs;
      StreamStarts(size, p, reqs);
    } else {
      assert reqs[..k][..i + 1] == reqs[..i + 1];
      EndsBeforeTail(size, p, reqs[..k], i);
    }
  }

  lemma FirstPastLonger(size: nat, reqs: seq<Request>, k: nat, t: int, j: nat)
    requires k <= |reqs| && FirstPast(size, reqs[..k], t, j)
    ensures FirstPast(size, reqs, t, j)
  {
    forall i | 0 <= i <= j
      ensures reqs[..k][..i + 1] == reqs[..i + 1] && reqs[..k][i] == reqs[i]
    {
    }
  }

  lemma LastIsFirstPast(size: nat, p: nat, reqs: seq<Request>, t: nat)
    requires reqs != [] && AnyOpens(size, reqs)
    requires var before := After(size, Silent(p), reqs[..|reqs| - 1]); before.Playing? ==> before.Tail() <= t
    requires t < reqs[|reqs| - 1].ts + |reqs[|reqs| - 1].prior|
    ensures FirstPast(size, reqs, t, |reqs| - 1)
  {
    var k := |reqs| - 1;
    assert reqs[..k + 1] == reqs;
    forall i | 0 <= i < k && AnyOpens(size, reqs[..i + 1])
      ensures reqs[i].ts + |reqs[i].prior| <= t
    {
      assert reqs[..k][..i + 1] == reqs[..i + 1];
      EndsBeforeTail(size, p, reqs[..k], i);
    }
  }

  /** Every time of the stream is at the volume of the first request that reached past it. */
  lemma {:induction false} VolumeOfFirst(size: nat, p: nat, reqs: seq<Request>, t: nat) returns (j: nat)
    requires var ideal := After(size, Silent(p), reqs); ideal.Playing? && ideal.t0 <= t < ideal.Tail()
    ensures FirstPast(size, reqs, t, j)
    ensures var ideal := After(size, Silent(p), reqs); ideal.gains[t - ideal.t0] == reqs[j].gain
  {
    var k := |reqs| - 1;
    var before := After(size, Silent(p), reqs[..k]);
    if before.Playing? && t < before.Tail() {
      j := VolumeOfFirst(size, p, reqs[..k], t);
      FirstPastLonger(size, reqs, k, t, j);
    } else {
      j := k;
      StreamStarts(size, p, reqs);
      LastIsFirstPast(size, p, reqs, t);
    }
  }

  /** The tail is the end of a request since the commit; by `EndsBeforeTail` it is the furthest one. */
  lemma {:induction false} TailReached(size: nat, p: nat, reqs: seq<Request>, first: nat) returns (i: nat)
    requires Commitment(size, reqs, first)
    ensures first <= i < |reqs| && After(size, Silent(p), reqs).Tail() == reqs[i].ts + |reqs[i].prior|
  {
    var k := |reqs| - 1;
    StreamStarts(size, p, reqs[..k]);
    if first == k {
      assert forall h :: 0 <= h < k ==> reqs[..k][h] == reqs[h];
      i := k;
    } else {
      CommitmentBefore(size, reqs, first, k);
      i := TailReached(size, p, reqs[..k], first);
      StreamStartTime(size, p, reqs[..k], first);
      if After(size, Silent(p), reqs[..k]).Tail() < reqs[k].ts + |reqs[k].prior| {
        i := k;
      }
    }
  }

  lemma CommitmentBefore(size: nat, reqs: seq<Request>, first: nat, k: nat)
    requires Commitment(size, reqs, first) && first < k <= |reqs|
    ensures Commitment(size, reqs[..k], first)
  {
    assert forall h :: 0 <= h <= first ==> reqs[..k][h] == reqs[h];
  }

  /** A time is less than a buffer behind the tail exactly if no request since the commit ends further ahead. */
  lemma RecentExactly(size: nat, p: nat, reqs: seq<Request>, first: nat, t: nat)
    requires Commitment(size, reqs, first)
    ensures After(size, Silent(p), reqs).Tail() <= t + size
            <==> forall i :: first <= i < |reqs| ==> reqs[i].ts + |reqs[i].prior| <= t + size
  {
    var last := TailReached(size, p, reqs, first);
    forall i | first <= i < |reqs|
      ensures reqs[i].ts + |reqs[i].prior| <= After(size, Silent(p), reqs).Tail()
    {
      assert reqs[..i + 1][first] == reqs[first];
      EndsBeforeTail(size, p, reqs, i);
    }
  }

  /** All that the requests ask for. */
  function Asked(reqs: seq<Request>): nat {
    if reqs == [] then 0 else Asked(reqs[..|reqs| - 1]) + |reqs[|reqs| - 1].prior|
  }

  /** What is lost is all that was asked for before the commit. */
  lemma {:induction false} DroppedIsAsked(size: nat, reqs: seq<Request>, first: nat)
    requires Commitment(size, reqs, first) || (first == |reqs| && !AnyOpens(size, reqs))
    ensures Dropped(size, reqs) == Asked(reqs[..first])
  {
    if reqs == [] {
    } else {
      var k := |reqs| - 1;
      AnyOpensNext(size, reqs);
      assert reqs[..k][..if first < k then first else k] == reqs[..if first < k then first else k];
      if first == |reqs| {
        assert reqs[..first] == reqs;
        DroppedIsAsked(size, reqs[..k], k);
      } else if first == k {
        assert forall h :: 0 <= h < k ==> reqs[..k][h] == reqs[h];
        DroppedIsAsked(size, reqs[..k], k);
      } else {
        CommitmentBefore(size, reqs, first, k);
        DroppedIsAsked(size, reqs[..k], first);
      }
    }
  }

  lemma PlayedAt(net: Network, ideal: Stream, t: int)
    ensures ideal.At(net, t) == if ideal.Playing? && ideal.t0 <= t < ideal.Tail()
                                then net(ideal.base + (t - ideal.t0)) * ideal.gains[t - ideal.t0] else 0.0
  {
  }

  /**
   What a client hears: from a fresh buffer, in every run of acceptable requests, the sample for time
   `t` is the network's, counted from the committing request on behind all that was asked for before
   it, at the volume of the first request that reached past `t`. Before the start of the stream, and
   more than a buffer before the furthest end of a request, it is silence.
   */
  lemma HeardInOrder(net: Network, st: Receiver, reqs: seq<Request>, k: nat, first: nat, t: nat) returns (j: nat)
    requires st.win.Valid() && st.win == Fresh(st.win.Size()) && InStep(net, st, Silent(st.pulled))
    requires RunOk(st.win.Size(), Silent(st.pulled), reqs) && k < |reqs|
    requires reqs[k].ts <= t < reqs[k].ts + |reqs[k].prior| && Commitment(st.win.Size(), reqs[..k + 1], first)
    ensures t - reqs[k].ts < |Output(net, st, Silent(st.pulled), reqs, k)|
    ensures var heard := Output(net, st, Silent(st.pulled), reqs, k)[t - reqs[k].ts];
            if reqs[first].ts <= t && forall i :: first <= i <= k ==> reqs[i].ts + |reqs[i].prior| <= t + st.win.Size()
            then
              && FirstPast(st.win.Size(), reqs[..k + 1], t, j)
              && heard == net(st.pulled + Asked(reqs[..first]) + (t - reqs[first].ts)) * reqs[j].gain
            else heard == 0.0
  {
    hide Output, RunOk, FirstPast, InStep, After, Asked, Dropped, Opens, Stream.At;
    var size, p, upTo := st.win.Size(), st.pulled, reqs[..k + 1];
    OutputAt(net, st, Silent(p), reqs, k, t);
    StreamStartTime(size, p, upTo, first);
    StreamStarts(size, p, upTo);
    StreamReachesRequest(size, Silent(p), reqs, k);
    RecentExactly(size, p, upTo, first, t);
    DroppedIsAsked(size, upTo, first);
    assert upTo[..first] == reqs[..first];
    PlayedAt(net, After(size, Silent(p), upTo), t);
    j := first;
    if reqs[first].ts <= t {
      j := VolumeOfFirst(size, p, upTo, t);
    }
  }

  /** Before the commit there is silence. */
  lemma HeardBeforeCommit(net: Network, st: Receiver, reqs: seq<Request>, k: nat, t: nat)
    requires st.win.Valid() && st.win == Fresh(st.win.Size()) && InStep(net, st, Silent(st.pulled))
    requires RunOk(st.win.Size(), Silent(st.pulled), reqs) && k < |reqs|
    requires reqs[k].ts <= t < reqs[k].ts + |reqs[k].prior| && !AnyOpens(st.win.Size(), reqs[..k + 1])
    ensures t - reqs[k].ts < |Output(net, st, Silent(st.pulled), reqs, k)|
    ensures Output(net, st, Silent(st.pulled), reqs, k)[t - reqs[k].ts] == 0.0
  {
    OutputAt(net, st, Silent(st.pulled), reqs, k, t);
    StreamStarts(st.win.Size(), st.pulled, reqs[..k + 1]);
  }

  // ---------------------------------------------------------------- clients before the commit

  /** In a run of acceptable requests from a fresh buffer, request `j` and the later `k` both cover time `t`. */
  ghost predicate BothAsk(st: Receiver, reqs: seq<Request>, j: nat, k: nat, t: nat) {
    && st.win.Valid() && st.win == Fresh(st.win.Size())
    && RunOk(st.win.Size(), Silent(st.pulled), reqs) && j < k < |reqs|
    && reqs[j].ts <= t < reqs[j].ts + |reqs[j].prior|
    && reqs[k].ts <= t < reqs[k].ts + |reqs[k].prior|
  }

  /** The stream as request `i` leaves it. */
  function StreamAt(st: Receiver, reqs: seq<Request>, i: nat): Stream
    requires i < |reqs|
  {
    After(st.win.Size(), Silent(st.pulled), reqs[..i + 1])
  }

  /** Both clients hear the same sample for time `t`. */
  ghost predicate HearSame(net: Network, st: Receiver, reqs: seq<Request>, j: nat, k: nat, t: nat)
    requires BothAsk(st, reqs, j, k, t)
  {
    var start := Silent(st.pulled);
    OutputAt(net, st, start, reqs, j, t);
    OutputAt(net, st, start, reqs, k, t);
    Output(net, st, start, reqs, j)[t - reqs[j].ts] == Output(net, st, start, reqs, k)[t - reqs[k].ts]
  }

  /** A client that was answered before the commit heard silence, and the stream may have started since. */
  lemma EarlyClientHears(net: Network, st: Receiver, reqs: seq<Request>, j: nat, k: nat, t: nat)
    requires BothAsk(st, reqs, j, k, t) && StreamAt(st, reqs, j).Silent?
    requires StreamAt(st, reqs, k).Tail() <= t + st.win.Size()
    ensures HearSame(net, st, reqs, j, k, t) <==> StreamAt(st, reqs, k).At(net, t) == 0.0
  {
    hide Output, RunOk, After;
    OutputAt(net, st, Silent(st.pulled), reqs, j, t);
    OutputAt(net, st, Silent(st.pulled), reqs, k, t);
  }

  /** A stream is silent at a time, whatever the network delivers, exactly outside of it or at volume zero. */
  lemma SilentExactly(b: Stream, t: nat)
    ensures (forall net: Network :: b.At(net, t) == 0.0)
            <==> b.Silent? || t < b.t0 || b.Tail() <= t || b.gains[t - b.t0] == 0.0
  {
    var ones: Network := _ => 1.0;
    assert b.At(ones, t) == 0.0 ==> b.Silent? || t < b.t0 || b.Tail() <= t || b.gains[t - b.t0] == 0.0;
  }

  lemma EarlyClientAgrees(st: Receiver, reqs: seq<Request>, j: nat, k: nat, t: nat)
    requires BothAsk(st, reqs, j, k, t) && StreamAt(st, reqs, j).Silent?
    requires StreamAt(st, reqs, k).Tail() <= t + st.win.Size()
    ensures (forall net: Network :: HearSame(net, st, reqs, j, k, t))
            <==> (forall net: Network :: StreamAt(st, reqs, k).At(net, t) == 0.0)
  {
    hide HearSame, StreamAt;
    forall net: Network
      ensures HearSame(net, st, reqs, j, k, t) <==> StreamAt(st, reqs, k).At(net, t) == 0.0
    {
      EarlyClientHears(net, st, reqs, j, k, t);
    }
  }

  /**
   Two clients asking for a time that the later one still finds in the window hear the same,
   whatever the network delivers, exactly if the buffer was committed by the earlier request or
   before it, or not even by the later one, or the stream starts after that time, or is at volume
   zero there.
   */
  lemma ClientsAgreeExactly(st: Receiver, reqs: seq<Request>, j: nat, k: nat, t: nat)
    requires BothAsk(st, reqs, j, k, t) && StreamAt(st, reqs, k).Tail() <= t + st.win.Size()
    ensures StreamAt(st, reqs, k).Playing? ==> t < StreamAt(st, reqs, k).Tail()
    ensures var b := StreamAt(st, reqs, k);
            (forall net: Network :: HearSame(net, st, reqs, j, k, t))
            <==> AnyOpens(st.win.Size(), reqs[..j + 1]) || b.Silent? || t < b.t0 || b.gains[t - b.t0] == 0.0
  {
    hide HearSame, After, RunOk, AnyOpens;
    StreamStarts(st.win.Size(), st.pulled, reqs[..j + 1]);
    if StreamAt(st, reqs, k).Playing? {
      StreamReachesRequest(st.win.Size(), Silent(st.pulled), reqs, k);
    }
    if AnyOpens(st.win.Size(), reqs[..j + 1]) {
      forall net: Network
        ensures HearSame(net, st, reqs, j, k, t)
      {
        CommittedClientsAgree(net, st, reqs, j, k, t);
      }
    } else {
      EarlyClientAgrees(st, reqs, j, k, t);
      SilentExactly(StreamAt(st, reqs, k), t);
    }
  }

  lemma CommittedClientsAgree(net: Network, st: Receiver, reqs: seq<Request>, j: nat, k: nat, t: nat)
    requires BothAsk(st, reqs, j, k, t) && StreamAt(st, reqs, j).Playing?
    requires StreamAt(st, reqs, k).Tail() <= t + st.win.Size()
    ensures HearSame(net, st, reqs, j, k, t)
  {
    ClientsAgree(net, st, Silent(st.pulled), reqs, j, k, t);
  }

  /**
   Two acceptable reads of which the first ends too early to commit: for a time both cover, the
   first client hears silence and the second the network.
   */
  lemma EarlyClientDisagrees(half: nat) returns (reqs: seq<Request>)
    requires half > 1
    ensures |reqs| == 2 && RunOk(2 * half, Silent(0), reqs)
    ensures reqs[0].ts <= 1 < reqs[0].ts + |reqs[0].prior| && reqs[1].ts <= 1 < reqs[1].ts + |reqs[1].prior|
    ensures After(2 * half, Silent(0), reqs).Tail() <= 1 + 2 * half
    ensures InStep(_ => 1.0, Receiver(Fresh(2 * half), 0), Silent(0))
    ensures |Output(_ => 1.0, Receiver(Fresh(2 * half), 0), Silent(0), reqs, 0)| > 1
            && Output(_ => 1.0, Receiver(Fresh(2 * half), 0), Silent(0), reqs, 0)[1] == 0.0
    ensures |Output(_ => 1.0, Receiver(Fresh(2 * half), 0), Silent(0), reqs, 1)| > 0
            && Output(_ => 1.0, Receiver(Fresh(2 * half), 0), Silent(0), reqs, 1)[0] == 1.0
  {
    var first, second := Request(0, seq(half, _ => 0.0), 1.0), Request(1, seq(2 * half - 1, _ => 0.0), 1.0);
    reqs := [first, second];
    assert reqs[..0] == [] && reqs[..1] == [first] && reqs[..1][..0] == [] && reqs[..2] == reqs;
    assert After(2 * half, Silent(0), [first]) == Silent(half);
    assert After(2 * half, Silent(0), reqs) == Playing(1, half, seq(2 * half - 1, _ => 1.0));
    OutputAt(_ => 1.0, Receiver(Fresh(2 * half), 0), Silent(0), reqs, 0, 1);
    OutputAt(_ => 1.0, Receiver(Fresh(2 * half), 0), Silent(0), reqs, 1, 1);
  }
}
