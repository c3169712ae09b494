/**
 Interleaved channels: if every request carries whole frames, every position the sample
 path keeps stays on a frame boundary, so a physical cell never changes channel.
 */
module FrameAlignment {
  import opened Modular
  import opened SampleWindow
  import opened RingBuffers
  import ReceiverStream
  import SenderStream

  /** `x` is the first sample of a frame of `chans` channels. */
  predicate OnFrame(x: nat, chans: nat)
    requires chans > 0
  {
    Rem(x, chans) == 0
  }

  predicate Aligned(w: Window, off: nat, chans: nat)
    requires chans > 0
  {
    OnFrame(w.Size(), chans) && OnFrame(w.Head(), chans) && OnFrame(w.Tail(), chans) && OnFrame(off, chans)
  }

  lemma HeadAligned(w: Window, ts: nat, n: nat, chans: nat)
    requires w.Valid() && chans > 0 && OnFrame(w.Size(), chans) && OnFrame(w.Head(), chans) && OnFrame(w.Tail(), chans)
    requires OnFrame(ts, chans) && OnFrame(n, chans)
    ensures OnFrame(NextTail(w, ts, n), chans) && OnFrame(NextHead(w, ts, n), chans)
  {
    MultipleSum(ts, n, chans);
    if NextTail(w, ts, n) >= w.Size() {
      MultipleSum(NextTail(w, ts, n), w.Size(), chans);
    }
  }

  /** A write of whole frames keeps head, tail and physical offset on frame boundaries. */
  lemma WriteAligned(w: Window, off: nat, ts: nat, s: seq<real>, chans: nat)
    requires w.Valid() && off < w.Size() && WriteAllowed(w, ts, |s|)
    requires chans > 0 && Aligned(w, off, chans) && OnFrame(ts, chans) && OnFrame(|s|, chans)
    ensures Aligned(Write(w, ts, s), OffsetAfter(w, off, ts, |s|), chans)
  {
    HeadAligned(w, ts, |s|, chans);
    if w.Live? {
      MultipleSum(NextHead(w, ts, |s|), w.head, chans);
      MultipleSum(off, NextHead(w, ts, |s|) - w.head, chans);
      MultipleRem(off + (NextHead(w, ts, |s|) - w.head), w.Size(), chans);
    }
  }

  /** The physical cell of a time always carries the channel of that time. */
  lemma CellChannel(w: Window, off: nat, t: nat, chans: nat)
    requires w.Valid() && off < w.Size() && chans > 0 && Aligned(w, off, chans)
    requires w.Covers(t)
    ensures Rem(CellIndex(off, t - w.head, w.Size()), chans) == Rem(t, chans)
  {
    var cell := CellIndex(off, t - w.head, w.Size());
    RemAdd(w.head, t - w.head, chans);
    RemAdd(off, t - w.head, chans);
    if off + (t - w.head) >= w.Size() {
      RemAdd(w.Size(), cell, chans);
    }
  }

  /** What a read request of whole frames pulls, and where it puts it, is whole frames. */
  lemma PullAligned(w: Window, ts: nat, n: nat, chans: nat)
    requires w.Valid() && chans > 0
    requires OnFrame(w.Size(), chans) && OnFrame(w.Tail(), chans) && OnFrame(ts, chans) && OnFrame(n, chans)
    ensures OnFrame(ReceiverStream.PullCount(w, ts, n), chans) && OnFrame(ReceiverStream.PullAt(w, ts), chans)
  {
    MultipleSum(ts, n, chans);
    if w.Live? && w.Tail() <= ts + n {
      MultipleSum(ts + n, w.Tail(), chans);
    }
  }

  /** The send position stays on a frame boundary. */
  lemma SendAligned(st: SenderStream.Sender, req: SenderStream.Request, chans: nat)
    requires st.win.Valid() && WriteAllowed(st.win, req.ts, |req.s|) && chans > 0
    requires OnFrame(st.win.Size(), chans) && OnFrame(st.win.Head(), chans) && OnFrame(st.win.Tail(), chans)
    requires OnFrame(st.pos, chans) && OnFrame(req.ts, chans) && OnFrame(|req.s|, chans)
    ensures OnFrame(SenderStream.SendFrom(st, req.ts) + SenderStream.SendCount(st, req), chans)
  {
    HeadAligned(st.win, req.ts, |req.s|, chans);
    var w, from := Write(st.win, req.ts, req.s), SenderStream.SendFrom(st, req.ts);
    if w.Live? && from < w.Tail() {
      MultipleSum(w.Tail(), from, chans);
    }
    MultipleSum(from, SenderStream.SendCount(st, req), chans);
  }
}
