/**
 A sender device: mixed client writes go into the ring buffer, and what is new behind
 the send position is forwarded to the network. The reference forwards, for every time
 since the first committed write, the sample of the first call that reached past it.
 */
module SenderStream {
  import opened Modular
  import opened SampleWindow

  function Gained(s: seq<real>, gain: real): (r: seq<real>)
    ensures |r| == |s|
  {
    seq(|s|, i requires 0 <= i < |s| => Amplified(s[i], gain))
  }

  // ---------------------------------------------------------------- the handler

  datatype Request = Request(ts: nat, s: seq<real>, gain: real)

  datatype Sender = Sender(win: Window, pos: nat, sent: seq<real>)

  /** Where sending goes on: a first call restarts the position. */
  function SendFrom(st: Sender, ts: nat): nat {
    if st.win.Fresh? then ts else st.pos
  }

  /** How many samples the call forwards. */
  function SendCount(st: Sender, req: Request): nat
    requires st.win.Valid() && WriteAllowed(st.win, req.ts, |req.s|)
  {
    CanRead(Write(st.win, req.ts, req.s), SendFrom(st, req.ts))
  }

  /** The copies of the call stay inside the window and inside the output. */
  predicate SendAllowed(st: Sender, req: Request)
    requires st.win.Valid()
  {
    && WriteAllowed(st.win, req.ts, |req.s|)
    && Touches(Write(st.win, req.ts, req.s), SendFrom(st, req.ts), SendCount(st, req))
  }

  /** `scratch` is what the handler's own buffer holds before the samples are read into it. */
  function Send(st: Sender, req: Request, scratch: seq<real>): (r: Sender)
    requires st.win.Valid() && SendAllowed(st, req) && |scratch| == SendCount(st, req)
    ensures r.win.Valid() && r.win.Size() == st.win.Size()
  {
    var w, from := Write(st.win, req.ts, req.s), SendFrom(st, req.ts);
    Sender(w, from + |scratch|, st.sent + Gained(ReadInto(w, from, scratch), req.gain))
  }

  // ---------------------------------------------------------------- the reference

  /** `Idle` until a write commits; then `emitted[k]` is what was sent for time `t0 + k`. */
  datatype Emission = Idle | Sending(t0: nat, emitted: seq<real>) {

    function Tail(): nat {
      if Idle? then 0 else t0 + |emitted|
    }

    /** The part of a call that reaches past the tail; a gap before it is silence. */
    function NewSamples(req: Request): seq<real> {
      if Tail() < req.ts + |req.s| && req.s != [] then
        seq(req.ts + |req.s| - Tail(), k requires 0 <= k < req.ts + |req.s| - Tail() => NewSample(req, k))
      else []
    }

    function NewSample(req: Request, k: nat): real
      requires Tail() + k < req.ts + |req.s|
    {
      if req.ts <= Tail() + k then Amplified(req.s[Tail() + k - req.ts], req.gain) else 0.0
    }

    /** What the call is to send. */
    function Block(size: nat, req: Request): seq<real> {
      if Sending? then NewSamples(req)
      else if req.s != [] && size <= req.ts + |req.s| then Gained(req.s, req.gain)
      else []
    }

    function Extended(size: nat, req: Request): Emission {
      if Sending? then Sending(t0, emitted + Block(size, req))
      else if req.s != [] && size <= req.ts + |req.s| then Sending(req.ts, Block(size, req))
      else Idle
    }

    function Emitted(): seq<real> {
      if Idle? then [] else emitted
    }
  }

  /** The handler has sent what the reference has, on top of `base`, and nothing is pending. */
  predicate InStep(base: seq<real>, st: Sender, ideal: Emission) {
    && st.win.Valid()
    && st.sent == base + ideal.Emitted()
    && (ideal.Idle? <==> st.win.Fresh?)
    && (ideal.Sending? ==> st.win.Tail() == st.pos == ideal.Tail())
  }

  /**
   The calls that are forwarded right: a first one shorter than the buffer; a later one
   that starts inside the window or right at its end, and is shorter than the buffer or
   brings nothing new.
   */
  predicate RequestOk(size: nat, ideal: Emission, ts: nat, n: nat) {
    n == 0 ||
    (if ideal.Idle? then size <= ts + n ==> n < size
     else ideal.Tail() - size <= ts <= ideal.Tail() && (n < size || ts + n <= ideal.Tail()))
  }

  predicate SentWell(base: seq<real>, st: Sender, ideal: Emission, req: Request, scratch: seq<real>)
    requires st.win.Valid()
  {
    && SendAllowed(st, req)
    && (|scratch| == SendCount(st, req) ==>
          InStep(base, Send(st, req, scratch), ideal.Extended(st.win.Size(), req)))
  }

  /** Every acceptable call sends exactly what is new in it, and leaves nothing pending. */
  lemma SendsWell(base: seq<real>, st: Sender, ideal: Emission, req: Request, scratch: seq<real>)
    requires InStep(base, st, ideal) && RequestOk(st.win.Size(), ideal, req.ts, |req.s|)
    ensures SentWell(base, st, ideal, req, scratch)
  {
    var w, from := Write(st.win, req.ts, req.s), SendFrom(st, req.ts);
    if |scratch| == SendCount(st, req) {
      NewPart(base, st, ideal, req, scratch);
    }
  }

  /** What the call reads back behind the send position is the new part of its own samples. */
  lemma NewSampleRead(st: Sender, ideal: Emission, req: Request, scratch: seq<real>, i: nat)
    requires InStep([], Sender(st.win, st.pos, ideal.Emitted()), ideal)
    requires RequestOk(st.win.Size(), ideal, req.ts, |req.s|) && Commits(st.win, req.ts, |req.s|)
    requires SendAllowed(st, req) && i < |scratch| == SendCount(st, req)
    ensures var t := SendFrom(st, req.ts) + i;
            req.ts <= t < req.ts + |req.s|
            && ReadInto(Write(st.win, req.ts, req.s), SendFrom(st, req.ts), scratch)[i] == req.s[t - req.ts]
  {
    var w, from := Write(st.win, req.ts, req.s), SendFrom(st, req.ts);
    WrittenAt(st.win, req.ts, req.s, from + i);
    assert ReadInto(w, from, scratch)[i] == ReadCell(w, from, scratch, i);
  }

  lemma BlockAt(ideal: Emission, size: nat, req: Request, i: nat)
    requires i < |ideal.Block(size, req)|
    ensures var t := (if ideal.Idle? then req.ts else ideal.Tail()) + i;
            req.ts <= t < req.ts + |req.s| ==> ideal.Block(size, req)[i] == Amplified(req.s[t - req.ts], req.gain)
  {
  }

  lemma BlockSent(st: Sender, ideal: Emission, req: Request, scratch: seq<real>)
    requires InStep([], Sender(st.win, st.pos, ideal.Emitted()), ideal)
    requires RequestOk(st.win.Size(), ideal, req.ts, |req.s|) && Commits(st.win, req.ts, |req.s|)
    requires SendAllowed(st, req) && |scratch| == SendCount(st, req)
    ensures Gained(ReadInto(Write(st.win, req.ts, req.s), SendFrom(st, req.ts), scratch), req.gain)
         == ideal.Block(st.win.Size(), req)
  {
    var got := ReadInto(Write(st.win, req.ts, req.s), SendFrom(st, req.ts), scratch);
    var want := ideal.Block(st.win.Size(), req);
    assert |got| == |want|;
    forall i: nat | i < |got|
      ensures Gained(got, req.gain)[i] == want[i]
    {
      NewSampleRead(st, ideal, req, scratch, i);
      BlockAt(ideal, st.win.Size(), req, i);
    }
    SameSamples(Gained(got, req.gain), want);
  }

  lemma SameSamples(a: seq<real>, b: seq<real>)
    requires |a| == |b| && forall i: nat :: i < |a| ==> a[i] == b[i]
    ensures a == b
  {
  }

  /** After an acceptable call the window, the send position and the reference end at the same time. */
  lemma SendTiming(st: Sender, ideal: Emission, req: Request)
    requires InStep([], Sender(st.win, st.pos, ideal.Emitted()), ideal)
    requires RequestOk(st.win.Size(), ideal, req.ts, |req.s|) && WriteAllowed(st.win, req.ts, |req.s|)
    ensures var w, ideal' := Write(st.win, req.ts, req.s), ideal.Extended(st.win.Size(), req);
            if Commits(st.win, req.ts, |req.s|) then
              w.Live? && ideal'.Sending? && w.Tail() == SendFrom(st, req.ts) + SendCount(st, req) == ideal'.Tail()
            else
              w == st.win && SendCount(st, req) == 0 && ideal'.Emitted() == ideal.Emitted()
              && ideal'.Idle? == ideal.Idle? && ideal'.Tail() == ideal.Tail()
  {
  }

  lemma Associate(a: seq<real>, b: seq<real>, c: seq<real>)
    ensures a + b + c == a + (b + c)
  {
  }

  lemma ExtendedEmits(ideal: Emission, size: nat, req: Request)
    ensures ideal.Extended(size, req).Emitted() == ideal.Emitted() + ideal.Block(size, req)
  {
  }

  lemma SendsNothing(st: Sender, req: Request, scratch: seq<real>)
    requires st.win.Valid() && SendAllowed(st, req) && |scratch| == SendCount(st, req) == 0
    ensures Send(st, req, scratch).sent == st.sent
  {
  }

  lemma NewPart(base: seq<real>, st: Sender, ideal: Emission, req: Request, scratch: seq<real>)
    requires InStep(base, st, ideal) && RequestOk(st.win.Size(), ideal, req.ts, |req.s|)
    requires SendAllowed(st, req) && |scratch| == SendCount(st, req)
    ensures InStep(base, Send(st, req, scratch), ideal.Extended(st.win.Size(), req))
  {
    SendTiming(st, ideal, req);
    var block := Gained(ReadInto(Write(st.win, req.ts, req.s), SendFrom(st, req.ts), scratch), req.gain);
    if Commits(st.win, req.ts, |req.s|) {
      BlockSent(st, ideal, req, scratch);
      ExtendedEmits(ideal, st.win.Size(), req);
      Associate(base, ideal.Emitted(), block);
    } else {
      SendsNothing(st, req, scratch);
    }
  }

  // ---------------------------------------------------------------- exactly which calls

  predicate SamePosition(ideal: Emission, ideal': Emission) {
    && ideal.Idle? == ideal'.Idle?
    && (ideal.Sending? ==> ideal.t0 == ideal'.t0 && |ideal.emitted| == |ideal'.emitted|)
  }

  /** Whatever the samples, the volume and the memory involved, the call is forwarded well. */
  ghost predicate AlwaysSentWell(size: nat, ideal: Emission, ts: nat, n: nat) {
    forall base: seq<real>, st: Sender, ideal': Emission, req: Request, scratch: seq<real> ::
      st.win.Size() == size && SamePosition(ideal, ideal') && InStep(base, st, ideal')
      && req.ts == ts && |req.s| == n
      ==> SentWell(base, st, ideal', req, scratch)
  }

  /** A handler at the same position whose buffer holds `x` everywhere. */
  function Uniform(size: nat, ideal: Emission, x: real): (r: (Sender, Emission))
    requires size > 0 && (ideal.Sending? ==> size <= ideal.Tail())
    ensures r.0.win.Size() == size && SamePosition(ideal, r.1) && InStep([], r.0, r.1)
  {
    if ideal.Idle? then (Sender(Window.Fresh(size), 0, []), Idle)
    else
      var emitted := seq(|ideal.emitted|, _ => 0.0);
      (Sender(Live(ideal.Tail() - size, seq(size, _ => x)), ideal.Tail(), emitted), Sending(ideal.t0, emitted))
  }

  /** A block of at least a whole buffer leaves a buffer of zeros as it was. */
  lemma UnstoredAt(w: Window, ts: nat, s: seq<real>, t: int)
    requires w.Valid() && WriteAllowed(w, ts, |s|) && w.Size() <= |s|
    requires w.Live? ==> forall i :: 0 <= i < |w.view| ==> w.view[i] == 0.0
    ensures Write(w, ts, s).At(t) == 0.0
  {
    var r := Write(w, ts, s);
    if r.Covers(t) {
      if Commits(w, ts, |s|) {
        assert r.At(t) == CellAfter(w, ts, s, r.head + (t - r.head));
      }
    }
  }

  /** With nothing but zeros around, a block of a whole buffer of ones is forwarded as zeros. */
  lemma WholeBufferUnsent(st: Sender, req: Request, scratch: seq<real>)
    requires st.win.Valid() && SendAllowed(st, req) && st.win.Size() <= |req.s|
    requires st.win.Live? ==> forall i :: 0 <= i < |st.win.view| ==> st.win.view[i] == 0.0
    requires |scratch| == SendCount(st, req) > 0 && forall i :: 0 <= i < |scratch| ==> scratch[i] == 0.0
    ensures ReadInto(Write(st.win, req.ts, req.s), SendFrom(st, req.ts), scratch)[0] == 0.0
  {
    var w, from := Write(st.win, req.ts, req.s), SendFrom(st, req.ts);
    UnstoredAt(st.win, req.ts, req.s, from);
    assert ReadInto(w, from, scratch)[0] == ReadCell(w, from, scratch, 0);
  }

  lemma FirstDiffers(a: seq<real>, b: seq<real>, c: seq<real>)
    requires b != [] && c != [] && b[0] != c[0]
    ensures a + b != a + c
  {
    assert (a + b)[|a|] != (a + c)[|a|];
  }

  lemma NoBase(s: seq<real>)
    ensures [] + s == s
  {
  }

  /** A call whose first forwarded sample is not the reference's is not sent well. */
  lemma WrongFirstSample(st: Sender, ideal: Emission, req: Request, scratch: seq<real>)
    requires InStep([], st, ideal) && SendAllowed(st, req) && |scratch| == SendCount(st, req) > 0
    requires ideal.Block(st.win.Size(), req) != []
    requires Gained(ReadInto(Write(st.win, req.ts, req.s), SendFrom(st, req.ts), scratch), req.gain)[0]
          != ideal.Block(st.win.Size(), req)[0]
    ensures !SentWell([], st, ideal, req, scratch)
  {
    var ideal' := ideal.Extended(st.win.Size(), req);
    ExtendedEmits(ideal, st.win.Size(), req);
    NoBase(ideal.Emitted());
    NoBase(ideal'.Emitted());
    FirstDiffers(st.sent, Gained(ReadInto(Write(st.win, req.ts, req.s), SendFrom(st, req.ts), scratch), req.gain),
                 ideal.Block(st.win.Size(), req));
    assert Send(st, req, scratch).sent != ideal'.Emitted();
  }

  lemma NotAlways(size: nat, ideal: Emission, st: Sender, ideal': Emission, req: Request, scratch: seq<real>)
    requires st.win.Size() == size && SamePosition(ideal, ideal') && InStep([], st, ideal')
    requires !SentWell([], st, ideal', req, scratch)
    ensures !AlwaysSentWell(size, ideal, req.ts, |req.s|)
  {
  }

  /** A block of a whole buffer is not stored: what is forwarded is not in it. */
  lemma WholeBufferFails(size: nat, ideal: Emission, ts: nat, n: nat)
    requires size > 0 && (ideal.Sending? ==> size <= ideal.Tail())
    requires size <= n && size <= ts + n
    requires ideal.Sending? ==> ts <= ideal.Tail() < ts + n
    ensures !AlwaysSentWell(size, ideal, ts, n)
  {
    var (st, quiet) := Uniform(size, ideal, 0.0);
    var req := Request(ts, seq(n, _ => 1.0), 1.0);
    var scratch := if SendAllowed(st, req) then seq(SendCount(st, req), _ => 0.0) else [];
    if SendAllowed(st, req) {
      assert SendCount(st, req) > 0;
      WholeBufferUnsent(st, req, scratch);
      BlockAt(quiet, size, req, 0);
      WrongFirstSample(st, quiet, req, scratch);
    }
    NotAlways(size, ideal, st, quiet, req, scratch);
  }

  /** A gap after the tail is forwarded with whatever an older time left there, or leaves samples pending. */
  lemma GapFails(size: nat, ideal: Emission, ts: nat, n: nat)
    requires size > 0 && ideal.Sending? && size <= ideal.Tail() < ts && n > 0
    ensures !AlwaysSentWell(size, ideal, ts, n)
  {
    var (st, quiet) := Uniform(size, ideal, 1.0);
    var req := Request(ts, seq(n, _ => 0.0), 1.0);
    var scratch := if SendAllowed(st, req) then seq(SendCount(st, req), _ => 1.0) else [];
    if SendAllowed(st, req) && ts + n - ideal.Tail() <= size {
      StaleSent(st, req, scratch);
      assert quiet.Block(size, req)[0] == quiet.NewSample(req, 0) == 0.0;
      WrongFirstSample(st, quiet, req, scratch);
    }
    NotAlways(size, ideal, st, quiet, req, scratch);
  }

  /** With nothing but ones around, the first time of a gap is forwarded as a one. */
  lemma StaleSent(st: Sender, req: Request, scratch: seq<real>)
    requires st.win.Valid() && st.win.Live? && SendAllowed(st, req)
    requires forall i :: 0 <= i < |st.win.view| ==> st.win.view[i] == 1.0
    requires st.pos == st.win.Tail() < req.ts && req.s != [] && req.ts + |req.s| - st.win.Tail() <= st.win.Size()
    requires |scratch| == SendCount(st, req) && forall i :: 0 <= i < |scratch| ==> scratch[i] == 1.0
    ensures |scratch| > 0 && ReadInto(Write(st.win, req.ts, req.s), SendFrom(st, req.ts), scratch)[0] == 1.0
  {
    var w, from := Write(st.win, req.ts, req.s), SendFrom(st, req.ts);
    assert ReadInto(w, from, scratch)[0] == ReadCell(w, from, scratch, 0);
    assert w.At(from) == CellAfter(st.win, req.ts, req.s, w.head + (from - w.head)) == 1.0;
  }

  /** `RequestOk` is exact: those calls are always forwarded well, and every other one can fail. */
  lemma RequestExactly(size: nat, ideal: Emission, ts: nat, n: nat)
    requires size > 0 && (ideal.Sending? ==> size <= ideal.Tail())
    ensures AlwaysSentWell(size, ideal, ts, n) <==> RequestOk(size, ideal, ts, n)
  {
    if RequestOk(size, ideal, ts, n) {
      forall base: seq<real>, st: Sender, ideal': Emission, req: Request, scratch: seq<real> |
        st.win.Size() == size && SamePosition(ideal, ideal') && InStep(base, st, ideal')
        && req.ts == ts && |req.s| == n
        ensures SentWell(base, st, ideal', req, scratch)
      {
        SendsWell(base, st, ideal', req, scratch);
      }
    } else if ideal.Sending? && ideal.Tail() < ts {
      GapFails(size, ideal, ts, n);
    } else if ideal.Sending? && ts + size < ideal.Tail() {
      var (st, quiet) := Uniform(size, ideal, 0.0);
      assert !SentWell([], st, quiet, Request(ts, seq(n, _ => 0.0), 1.0), []);
    } else {
      WholeBufferFails(size, ideal, ts, n);
    }
  }

  // ---------------------------------------------------------------- runs

  /** The reference after a run of calls. */
  function After(size: nat, ideal: Emission, reqs: seq<Request>): Emission {
    if reqs == [] then ideal
    else After(size, ideal, reqs[..|reqs| - 1]).Extended(size, reqs[|reqs| - 1])
  }

  predicate RunOk(size: nat, ideal: Emission, reqs: seq<Request>) {
    forall k :: 0 <= k < |reqs| ==> RequestOk(size, After(size, ideal, reqs[..k]), reqs[k].ts, |reqs[k].s|)
  }

  lemma RunOkPrefix(size: nat, ideal: Emission, reqs: seq<Request>, k: nat)
    requires k <= |reqs| && RunOk(size, ideal, reqs)
    ensures RunOk(size, ideal, reqs[..k])
  {
    forall i | 0 <= i < k
      ensures RequestOk(size, After(size, ideal, reqs[..k][..i]), reqs[..k][i].ts, |reqs[..k][i].s|)
    {
      assert reqs[..k][..i] == reqs[..i];
    }
  }

  /**
   The handler after a run it forwards well; `memory(k, i)` is what place `i` of its own
   buffer holds when call `k` comes.
   */
  ghost function Forwarded(base: seq<real>, st: Sender, ideal: Emission, reqs: seq<Request>, memory: (nat, nat) -> real)
    : (r: Sender)
    requires InStep(base, st, ideal) && RunOk(st.win.Size(), ideal, reqs)
    ensures InStep(base, r, After(st.win.Size(), ideal, reqs)) && r.win.Size() == st.win.Size()
  {
    if reqs == [] then st
    else
      var k := |reqs| - 1;
      RunOkPrefix(st.win.Size(), ideal, reqs, k);
      var before := Forwarded(base, st, ideal, reqs[..k], memory);
      var mid := After(st.win.Size(), ideal, reqs[..k]);
      SendsWell(base, before, mid, reqs[k], []);
      var scratch := seq(SendCount(before, reqs[k]), i requires 0 <= i => memory(k, i));
      SendsWell(base, before, mid, reqs[k], scratch);
      Send(before, reqs[k], scratch)
  }

  /**
   Conservation: from a fresh buffer, every run of acceptable calls sends exactly the
   reference emission, one sample for every time between the first committed write and the
   tail, and nothing stays pending.
   */
  lemma EverySampleSentOnce(st: Sender, reqs: seq<Request>, memory: (nat, nat) -> real)
    requires st.win == Window.Fresh(st.win.Size()) && st.win.Valid()
    requires RunOk(st.win.Size(), Idle, reqs)
    ensures InStep(st.sent, st, Idle)
    ensures var r, ideal := Forwarded(st.sent, st, Idle, reqs, memory), After(st.win.Size(), Idle, reqs);
            && (ideal.Idle? ==> r.win.Fresh? && r.sent == st.sent)
            && (ideal.Sending? ==>
                  && r.win.Live? && r.pos == r.win.Tail()
                  && r.sent == st.sent + ideal.emitted
                  && |r.sent| - |st.sent| == r.win.Tail() - ideal.t0)
  {
    assert st.sent + [] == st.sent;
  }

  /** A call committed the window no later than call `j`. */
  ghost predicate CommittedBy(size: nat, reqs: seq<Request>, j: int) {
    exists i :: 0 <= i <= j < |reqs| && reqs[i].s != [] && size <= reqs[i].ts + |reqs[i].s|
  }

  /** Call `j` is the first that, from the commit on, reaches past time `t`. */
  ghost predicate FirstPast(size: nat, reqs: seq<Request>, t: int, j: nat) {
    && j < |reqs| && CommittedBy(size, reqs, j)
    && reqs[j].ts <= t < reqs[j].ts + |reqs[j].s|
    && forall i {:trigger reqs[i]} :: 0 <= i < j && CommittedBy(size, reqs, i) && reqs[i].s != [] ==>
         reqs[i].ts + |reqs[i].s| <= t
  }

  lemma {:induction false} SendingWhenCommitted(size: nat, reqs: seq<Request>)
    ensures After(size, Idle, reqs).Sending? <==> CommittedBy(size, reqs, |reqs| - 1)
  {
    if reqs == [] {
    } else {
      var before := reqs[..|reqs| - 1];
      SendingWhenCommitted(size, before);
      if CommittedBy(size, before, |before| - 1) {
        var i :| 0 <= i < |before| && before[i].s != [] && size <= before[i].ts + |before[i].s|;
        assert reqs[i] == before[i];
      }
      if CommittedBy(size, reqs, |reqs| - 1) {
        var i :| 0 <= i < |reqs| && reqs[i].s != [] && size <= reqs[i].ts + |reqs[i].s|;
        if i < |before| {
          assert before[i] == reqs[i];
        }
      }
    }
  }

  lemma CommittedPrefix(size: nat, reqs: seq<Request>, k: nat, i: int)
    requires i < k <= |reqs|
    ensures CommittedBy(size, reqs[..k], i) <==> CommittedBy(size, reqs, i)
  {
    if CommittedBy(size, reqs, i) {
      var m :| 0 <= m <= i < |reqs| && reqs[m].s != [] && size <= reqs[m].ts + |reqs[m].s|;
      assert reqs[..k][m] == reqs[m];
    }
    if CommittedBy(size, reqs[..k], i) {
      var m :| 0 <= m <= i < k && reqs[..k][m].s != [] && size <= reqs[..k][m].ts + |reqs[..k][m].s|;
      assert reqs[m] == reqs[..k][m];
    }
  }

  /** No committed call ends beyond the tail. */
  lemma {:induction false} EndsBeforeTail(size: nat, reqs: seq<Request>, i: nat)
    requires i < |reqs| && CommittedBy(size, reqs, i) && reqs[i].s != []
    ensures After(size, Idle, reqs).Sending?
    ensures reqs[i].ts + |reqs[i].s| <= After(size, Idle, reqs).Tail()
  {
    var k := |reqs| - 1;
    if i < k {
      CommittedPrefix(size, reqs, k, i);
      EndsBeforeTail(size, reqs[..k], i);
    } else {
      SendingWhenCommitted(size, reqs);
    }
  }

  lemma EmittedByLast(ideal: Emission, size: nat, req: Request, t: nat)
    requires ideal.Extended(size, req).Sending?
    requires ideal.Sending? ==> ideal.Tail() <= t && req.ts <= ideal.Tail()
    requires var ideal' := ideal.Extended(size, req); ideal'.t0 <= t < ideal'.Tail()
    ensures req.s != [] && req.ts <= t < req.ts + |req.s|
    ensures var ideal' := ideal.Extended(size, req);
            ideal'.emitted[t - ideal'.t0] == Amplified(req.s[t - req.ts], req.gain)
  {
    BlockAt(ideal, size, req, if ideal.Idle? then t - req.ts else t - ideal.Tail());
  }

  lemma EmittedEarlier(ideal: Emission, size: nat, req: Request, t: nat)
    requires ideal.Sending? && ideal.t0 <= t < ideal.Tail()
    ensures ideal.Extended(size, req).Sending? && ideal.Extended(size, req).t0 == ideal.t0
    ensures t < ideal.Extended(size, req).Tail()
    ensures ideal.Extended(size, req).emitted[t - ideal.t0] == ideal.emitted[t - ideal.t0]
  {
  }

  lemma FirstPastLonger(size: nat, reqs: seq<Request>, k: nat, t: int, j: nat)
    requires k <= |reqs| && FirstPast(size, reqs[..k], t, j)
    ensures FirstPast(size, reqs, t, j)
  {
    CommittedPrefix(size, reqs, k, j);
    forall i {:trigger reqs[i]} | 0 <= i < j && CommittedBy(size, reqs, i) && reqs[i].s != []
      ensures reqs[i].ts + |reqs[i].s| <= t
    {
      CommittedPrefix(size, reqs, k, i);
      assert reqs[..k][i] == reqs[i];
    }
  }

  lemma LastIsFirstPast(size: nat, reqs: seq<Request>, t: nat)
    requires reqs != [] && CommittedBy(size, reqs, |reqs| - 1)
    requires var before := After(size, Idle, reqs[..|reqs| - 1]); before.Sending? ==> before.Tail() <= t
    requires var last := reqs[|reqs| - 1]; last.ts <= t < last.ts + |last.s|
    ensures FirstPast(size, reqs, t, |reqs| - 1)
  {
    var k := |reqs| - 1;
    forall i {:trigger reqs[i]} | 0 <= i < k && CommittedBy(size, reqs, i) && reqs[i].s != []
      ensures reqs[i].ts + |reqs[i].s| <= t
    {
      CommittedPrefix(size, reqs, k, i);
      assert reqs[..k][i] == reqs[i];
      EndsBeforeTail(size, reqs[..k], i);
    }
  }

  /** Time `t` was sent with the sample, at the volume, of the first call that reached past it. */
  ghost predicate SentFirst(size: nat, reqs: seq<Request>, t: nat, j: nat) {
    var ideal := After(size, Idle, reqs);
    && FirstPast(size, reqs, t, j)
    && ideal.Sending? && ideal.t0 <= t < ideal.Tail()
    && ideal.emitted[t - ideal.t0] == Amplified(reqs[j].s[t - reqs[j].ts], reqs[j].gain)
  }

  lemma SentFirstEarlier(size: nat, reqs: seq<Request>, t: nat, j: nat)
    requires reqs != [] && SentFirst(size, reqs[..|reqs| - 1], t, j)
    ensures SentFirst(size, reqs, t, j)
  {
    var k := |reqs| - 1;
    FirstPastLonger(size, reqs, k, t, j);
    EmittedEarlier(After(size, Idle, reqs[..k]), size, reqs[k], t);
    assert reqs[..k][j] == reqs[j];
  }

  lemma SentFirstByLast(size: nat, reqs: seq<Request>, t: nat)
    requires size > 0 && reqs != [] && RunOk(size, Idle, reqs)
    requires var ideal := After(size, Idle, reqs); ideal.Sending? && ideal.t0 <= t < ideal.Tail()
    requires var before := After(size, Idle, reqs[..|reqs| - 1]); before.Sending? ==> before.Tail() <= t
    ensures SentFirst(size, reqs, t, |reqs| - 1)
  {
    var k := |reqs| - 1;
    SendingWhenCommitted(size, reqs);
    EmittedByLast(After(size, Idle, reqs[..k]), size, reqs[k], t);
    LastIsFirstPast(size, reqs, t);
  }

  lemma StartStays(size: nat, reqs: seq<Request>)
    requires reqs != []
    requires After(size, Idle, reqs[..|reqs| - 1]).Sending?
    ensures After(size, Idle, reqs).Sending? && After(size, Idle, reqs).t0 == After(size, Idle, reqs[..|reqs| - 1]).t0
  {
  }

  /**
   Every time between the first committed write and the tail was sent with the sample, at
   the volume, of the first call that reached past it; later overlapping calls change nothing.
   */
  lemma {:induction false} FirstCallWins(size: nat, reqs: seq<Request>, t: nat) returns (j: nat)
    requires size > 0 && RunOk(size, Idle, reqs)
    requires var ideal := After(size, Idle, reqs); ideal.Sending? && ideal.t0 <= t < ideal.Tail()
    ensures SentFirst(size, reqs, t, j)
  {
    var before := After(size, Idle, reqs[..|reqs| - 1]);
    if before.Sending? && t < before.Tail() {
      RunOkPrefix(size, Idle, reqs, |reqs| - 1);
      StartStays(size, reqs);
      j := FirstCallWins(size, reqs[..|reqs| - 1], t);
      SentFirstEarlier(size, reqs, t, j);
    } else {
      j := |reqs| - 1;
      SentFirstByLast(size, reqs, t);
    }
  }

  /** Call `i` is the one that commits the fresh window. */
  ghost predicate Commitment(size: nat, reqs: seq<Request>, i: nat) {
    i < |reqs| && CommittedBy(size, reqs, i) && (i > 0 ==> !CommittedBy(size, reqs, i - 1))
  }

  /** The emission starts with the call that commits the window: what was written before is never sent. */
  lemma {:induction false} EmissionStarts(size: nat, reqs: seq<Request>, i: nat)
    requires Commitment(size, reqs, i)
    ensures After(size, Idle, reqs).Sending? && After(size, Idle, reqs).t0 == reqs[i].ts
  {
    var k := |reqs| - 1;
    if i < k {
      hide After, CommittedBy;
      CommittedPrefix(size, reqs, k, i);
      CommittedPrefix(size, reqs, k, i - 1);
      EmissionStarts(size, reqs[..k], i);
      StartStays(size, reqs);
    } else {
      CommittedPrefix(size, reqs, k, k - 1);
      SendingWhenCommitted(size, reqs[..k]);
      SendingWhenCommitted(size, reqs);
    }
  }

  /** How many samples were written in calls before the commit. */
  ghost function Unsent(size: nat, reqs: seq<Request>): nat {
    if reqs == [] then 0
    else
      var k := |reqs| - 1;
      Unsent(size, reqs[..k]) + (if CommittedBy(size, reqs, k) then 0 else |reqs[k].s|)
  }

  /** The first call that writes anything at all, or the number of calls if there is none. */
  function FirstWriting(reqs: seq<Request>): (f: nat)
    ensures f <= |reqs|
    ensures f < |reqs| ==> reqs[f].s != []
    ensures forall j :: 0 <= j < f ==> reqs[j].s == []
  {
    if reqs == [] then 0
    else
      var k := |reqs| - 1;
      var f := FirstWriting(reqs[..k]);
      if f < k || reqs[k].s != [] then f else k + 1
  }

  lemma CommittedNext(size: nat, reqs: seq<Request>)
    requires reqs != []
    ensures var k := |reqs| - 1;
            CommittedBy(size, reqs, k)
            <==> CommittedBy(size, reqs[..k], k - 1) || (reqs[k].s != [] && size <= reqs[k].ts + |reqs[k].s|)
  {
    var k := |reqs| - 1;
    CommittedPrefix(size, reqs, k, k - 1);
  }

  /** A call before the commit sends nothing, then or later: no time is sent with a sample of it. */
  lemma UnsentCall(size: nat, reqs: seq<Request>, i: nat, t: nat)
    requires i < |reqs| && !CommittedBy(size, reqs, i)
    ensures After(size, Idle, reqs[..i + 1]).Idle?
    ensures !SentFirst(size, reqs, t, i)
  {
    SendingWhenCommitted(size, reqs[..i + 1]);
    CommittedPrefix(size, reqs, i + 1, i);
  }

  /**
   No written sample goes unsent for want of a commit exactly when the first call that writes
   anything ends at or after one buffer size.
   */
  lemma {:induction false} NothingUnsentExactly(size: nat, reqs: seq<Request>)
    ensures Unsent(size, reqs) == 0
            <==> var f := FirstWriting(reqs); f < |reqs| ==> size <= reqs[f].ts + |reqs[f].s|
  {
    if reqs == [] {
    } else {
      NothingUnsentExactly(size, reqs[..|reqs| - 1]);
      CommittedNext(size, reqs);
      assert FirstWriting(reqs) == |reqs| ==> !CommittedBy(size, reqs, |reqs| - 1);
    }
  }

  /** Two calls of half a buffer each, from time zero: the samples of the first are never sent. */
  lemma FirstHalfIsUnsent(half: nat, gain: real) returns (reqs: seq<Request>)
    requires half > 0
    ensures |reqs| == 2 && RunOk(2 * half, Idle, reqs) && reqs[0].ts == 0 && |reqs[0].s| == half
    ensures Unsent(2 * half, reqs) == half
    ensures After(2 * half, Idle, reqs).Sending? && After(2 * half, Idle, reqs).t0 == half
    ensures |After(2 * half, Idle, reqs).emitted| == half
  {
    var first, second := Request(0, seq(half, _ => 1.0), gain), Request(half, seq(half, _ => 1.0), gain);
    reqs := [first, second];
    assert reqs[..0] == [] && reqs[..1] == [first] && [first][..0] == [];
    assert After(2 * half, Idle, [first]) == Idle;
    CommittedNext(2 * half, [first]);
    assert !CommittedBy(2 * half, [first], 0) && Unsent(2 * half, [first]) == half;
    CommittedNext(2 * half, reqs);
    assert reqs[1] == second && CommittedBy(2 * half, reqs, 1);
  }

  /**
   What is on the wire: from a fresh buffer, after every run of acceptable calls, the sample sent
   for time `t` stands `t - t0` places behind what had been sent before, where `t0` is the start of
   the committing call; and it is that of the first call that reached past `t`, at its volume.
   */
  lemma SentInOrder(st: Sender, reqs: seq<Request>, memory: (nat, nat) -> real, first: nat, t: nat) returns (j: nat)
    requires st.win == Window.Fresh(st.win.Size()) && st.win.Valid() && InStep(st.sent, st, Idle)
    requires RunOk(st.win.Size(), Idle, reqs) && Commitment(st.win.Size(), reqs, first)
    requires reqs[first].ts <= t < Forwarded(st.sent, st, Idle, reqs, memory).win.Tail()
    ensures FirstPast(st.win.Size(), reqs, t, j)
    ensures var r, at := Forwarded(st.sent, st, Idle, reqs, memory), |st.sent| + (t - reqs[first].ts);
            && |r.sent| == |st.sent| + (r.win.Tail() - reqs[first].ts)
            && at < |r.sent| && r.sent[at] == reqs[j].s[t - reqs[j].ts] * reqs[j].gain
  {
    hide Forwarded, RunOk, FirstPast, CommittedBy, InStep;
    EmissionStarts(st.win.Size(), reqs, first);
    EverySampleSentOnce(st, reqs, memory);
    j := FirstCallWins(st.win.Size(), reqs, t);
  }

  /** One more call after a run: if it is acceptable too, it is forwarded well and the run goes on. */
  lemma RunGoesOn(base: seq<real>, st: Sender, reqs: seq<Request>, req: Request, scratch: seq<real>)
    requires st.win.Valid()
    requires RunOk(st.win.Size(), Idle, reqs) ==> InStep(base, st, After(st.win.Size(), Idle, reqs))
    requires RunOk(st.win.Size(), Idle, reqs + [req])
    ensures SentWell(base, st, After(st.win.Size(), Idle, reqs), req, scratch)
    ensures After(st.win.Size(), Idle, reqs + [req]) == After(st.win.Size(), Idle, reqs).Extended(st.win.Size(), req)
  {
    var all, k := reqs + [req], |reqs|;
    assert all[..k] == reqs;
    RunOkPrefix(st.win.Size(), Idle, all, k);
    assert RequestOk(st.win.Size(), After(st.win.Size(), Idle, all[..k]), all[k].ts, |all[k].s|);
    SendsWell(base, st, After(st.win.Size(), Idle, reqs), req, scratch);
  }
}
