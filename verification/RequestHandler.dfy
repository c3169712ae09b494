/** The handler of device I/O requests, proved to take the steps of the two stream models. */
module RequestHandlers {
  import opened Modular
  import opened SampleWindow
  import opened RingBuffers
  import opened FrameAlignment
  import ReceiverStream
  import SenderStream

  /** The network end of a device: an endless input, and the output sent so far. */
  class Transceiver {
    const network: nat -> real
    var pulled: nat
    var sent: seq<real>

    constructor (network: nat -> real)
      ensures this.network == network && pulled == 0 && sent == []
    {
      this.network := network;
      pulled := 0;
      sent := [];
    }

    method Read(samples: array<real>, n: nat)
      requires n <= samples.Length
      modifies this`pulled, samples
      ensures pulled == old(pulled) + n
      ensures forall i :: 0 <= i < n ==> samples[i] == network(old(pulled) + i)
    {
      forall i | 0 <= i < n {
        samples[i] := network(pulled + i);
      }
      pulled := pulled + n;
    }

    method Write(samples: array<real>, n: nat)
      requires n <= samples.Length
      modifies this`sent
      ensures sent == old(sent) + samples[..n]
    {
      sent := sent + samples[..n];
    }
  }

  /** Scales the first `count` samples in place; a gain of one is left out. */
  method ApplyVolume(samples: array<real>, count: nat, gain: real)
    requires count <= samples.Length
    modifies samples
    ensures forall i :: 0 <= i < count ==> samples[i] == old(samples[i]) * gain
    ensures forall i :: count <= i < samples.Length ==> samples[i] == old(samples[i])
  {
    if gain == 1.0 {
      return;
    }
    var i := 0;
    while i < count
      invariant i <= count
      invariant forall k :: 0 <= k < i ==> samples[k] == old(samples[k]) * gain
      invariant forall k :: i <= k < samples.Length ==> samples[k] == old(samples[k])
    {
      samples[i] := samples[i] * gain;
      i := i + 1;
    }
  }

  const BYTES_PER_SAMPLE: nat := 4

  class RequestHandler {
    const chanCount: nat
    const net: Transceiver
    const ringBuf: RingBuffer
    var ringBufPos: nat
    var ioBuf: array<real>
    /** The requests since the stream was started, and what had been pulled and sent before. */
    ghost var readsDone: seq<ReceiverStream.Request>
    ghost var writesDone: seq<SenderStream.Request>
    ghost var pulledBefore: nat
    ghost var sentBefore: seq<real>

    ghost predicate Valid()
      reads this, ringBuf, ringBuf.bufData
    {
      0 < chanCount && ringBuf.Valid() && ioBuf != ringBuf.bufData
    }

    /** This handler as the model of a receiver device. */
    ghost function Receiving(): (r: ReceiverStream.Receiver)
      requires Valid()
      reads this, ringBuf, ringBuf.bufData, net
    {
      ReceiverStream.Receiver(ringBuf.Win(), net.pulled)
    }

    /** This handler as the model of a sender device. */
    ghost function Sending(): (r: SenderStream.Sender)
      requires Valid()
      reads this, ringBuf, ringBuf.bufData, net
    {
      SenderStream.Sender(ringBuf.Win(), ringBufPos, net.sent)
    }

    /** The reference stream of a receiver device, extended by all reads since the start. */
    ghost function Heard(): ReceiverStream.Stream
      reads this, ringBuf
    {
      ReceiverStream.After(ringBuf.bufSize, ReceiverStream.Silent(pulledBefore), readsDone)
    }

    ghost predicate ReadsOk()
      reads this, ringBuf
    {
      ReceiverStream.RunOk(ringBuf.bufSize, ReceiverStream.Silent(pulledBefore), readsDone)
    }

    /** As long as all reads were acceptable, the handler is in step with the reference stream. */
    ghost predicate FollowsReads()
      requires Valid()
      reads this, ringBuf, ringBuf.bufData, net
    {
      ReadsOk() ==> ReceiverStream.InStep(net.network, Receiving(), Heard())
    }

    /** The reference emission of a sender device, extended by all writes since the start. */
    ghost function Emitted(): SenderStream.Emission
      reads this, ringBuf
    {
      SenderStream.After(ringBuf.bufSize, SenderStream.Idle, writesDone)
    }

    ghost predicate WritesOk()
      reads this, ringBuf
    {
      SenderStream.RunOk(ringBuf.bufSize, SenderStream.Idle, writesDone)
    }

    /** As long as all writes were acceptable, exactly the reference emission has been sent since the start. */
    ghost predicate FollowsWrites()
      requires Valid()
      reads this, ringBuf, ringBuf.bufData, net
    {
      WritesOk() ==> SenderStream.InStep(sentBefore, Sending(), Emitted())
    }

    /** Every position kept is on a frame boundary. */
    ghost predicate FrameAligned()
      requires Valid()
      reads this, ringBuf, ringBuf.bufData
    {
      Aligned(ringBuf.Win(), ringBuf.bufOff, chanCount) && OnFrame(ringBufPos, chanCount)
    }

    /** Without a buffer sample or without a channel the handler can be built, but not used. */
    constructor (bufferSamples: nat, chanCount: nat, net: Transceiver)
      ensures this.net == net && this.chanCount == chanCount && ringBuf.bufSize == bufferSamples * chanCount
      ensures fresh(ringBuf) && fresh(ringBuf.bufData) && fresh(ioBuf)
      ensures Valid() <==> bufferSamples > 0 && chanCount > 0
      ensures Valid() ==> ringBuf.Win() == Fresh(bufferSamples * chanCount) && FrameAligned()
      ensures Valid() ==> FollowsReads() && FollowsWrites()
    {
      this.chanCount := chanCount;
      this.net := net;
      var size := bufferSamples * chanCount;
      if bufferSamples > 0 {
        MulAtLeast(bufferSamples, chanCount);
      }
      ringBuf := new RingBuffer(size);
      ringBufPos := 0;
      ioBuf := new real[size](_ => 0.0);
      readsDone, writesDone, pulledBefore, sentBefore := [], [], net.pulled, net.sent;
      new;
      SenderStream.NoBase(net.sent);
      if chanCount > 0 {
        MultipleProduct(bufferSamples, chanCount);
      }
    }

    /** A new stream starts from a clean buffer. */
    method OnStartIO()
      requires Valid()
      modifies this`readsDone, this`writesDone, this`pulledBefore, this`sentBefore, ringBuf, ringBuf.bufData
      ensures Valid()
      ensures ringBuf.Win() == Fresh(ringBuf.bufSize)
      ensures net.pulled == old(net.pulled) && net.sent == old(net.sent)
      ensures readsDone == [] && writesDone == [] && pulledBefore == net.pulled && sentBefore == net.sent
      ensures FollowsReads() && FollowsWrites()
      ensures old(FrameAligned()) ==> FrameAligned()
    {
      ringBuf.Restart();
      readsDone, writesDone, pulledBefore, sentBefore := [], [], net.pulled, net.sent;
      SenderStream.NoBase(net.sent);
    }

    /** Grows the scratch buffer to `n` samples; what it held stays. */
    method ReserveScratch(n: nat)
      requires Valid()
      modifies this`ioBuf
      ensures Valid() && n <= ioBuf.Length
      ensures ioBuf == old(ioBuf) || fresh(ioBuf)
    {
      if ioBuf.Length < n {
        var held := ioBuf[..];
        ioBuf := new real[n](i => if 0 <= i < |held| then held[i] else 0.0);
      }
    }

    /**
     A client of a receiver device reads. `bytes` is the client's memory, `gain` the volume
     in force if samples are pulled.
     */
    method OnReadClientInput(timestamp: nat, bytes: array<real>, bytesCount: nat, gain: real)
      requires Valid()
      requires bytes != ringBuf.bufData && bytes != ioBuf && bytesCount / BYTES_PER_SAMPLE <= bytes.Length
      requires ReceiverStream.PullAllowed(ringBuf.Win(), timestamp * chanCount, bytesCount / BYTES_PER_SAMPLE)
      requires Touches(ReceiverStream.Pull(net.network, Receiving(), timestamp * chanCount,
                                           bytesCount / BYTES_PER_SAMPLE, gain).win,
                       timestamp * chanCount, bytesCount / BYTES_PER_SAMPLE)
      modifies this`readsDone, this`ioBuf, ioBuf, ringBuf, ringBuf.bufData, net`pulled, bytes
      ensures Valid()
      ensures readsDone == old(readsDone) + [ReceiverStream.Request(
                timestamp * chanCount, old(bytes[..bytesCount / BYTES_PER_SAMPLE]), gain)]
      ensures old(FollowsReads()) ==>
                && FollowsReads()
                && (ReadsOk() ==>
                      bytes[..bytesCount / BYTES_PER_SAMPLE]
                      == Heard().Answer(net.network, ringBuf.bufSize, timestamp * chanCount,
                                        bytesCount / BYTES_PER_SAMPLE))
      ensures var ts, n := timestamp * chanCount, bytesCount / BYTES_PER_SAMPLE;
              && Receiving() == ReceiverStream.Pull(net.network, old(Receiving()), ts, n, gain)
              && bytes[..n] == ReadInto(ringBuf.Win(), ts, old(bytes[..n]))
      ensures forall i :: bytesCount / BYTES_PER_SAMPLE <= i < bytes.Length ==> bytes[i] == old(bytes[i])
      ensures old(FrameAligned()) && OnFrame(bytesCount / BYTES_PER_SAMPLE, chanCount) ==> FrameAligned()
    {
      hide ReceiverStream.InStep, ReceiverStream.RunOk, ReceiverStream.After, OffsetAfter, Aligned;
      MultipleProduct(timestamp, chanCount);
      var sampleTs := timestamp * chanCount;
      var sampleCnt := bytesCount / BYTES_PER_SAMPLE;
      ghost var st, off := Receiving(), ringBuf.bufOff;
      PullForRead(sampleTs, sampleCnt, gain);
      PullKeepsAligned(net.network, st, off, sampleTs, sampleCnt, gain, chanCount);
      ghost var req := ReceiverStream.Request(sampleTs, bytes[..sampleCnt], gain);
      ringBuf.Read(sampleTs, bytes, sampleCnt);
      ReadGoesOn(net.network, st, ReceiverStream.Silent(pulledBefore), readsDone, req);
      readsDone := readsDone + [req];
    }

    /** Asks the network for just the samples missing up to the end of the request. */
    method PullForRead(sampleTs: nat, sampleCnt: nat, gain: real)
      requires Valid()
      requires ReceiverStream.PullAllowed(ringBuf.Win(), sampleTs, sampleCnt)
      modifies this`ioBuf, ioBuf, ringBuf, ringBuf.bufData, net`pulled
      ensures Valid() && (ioBuf == old(ioBuf) || fresh(ioBuf))
      ensures Receiving() == ReceiverStream.Pull(net.network, old(Receiving()), sampleTs, sampleCnt, gain)
      ensures ringBuf.bufOff == OffsetAfter(old(ringBuf.Win()), old(ringBuf.bufOff),
                                            ReceiverStream.PullAt(old(ringBuf.Win()), sampleTs),
                                            ReceiverStream.PullCount(old(ringBuf.Win()), sampleTs, sampleCnt))
    {
      hide OffsetAfter, ReceiverStream.Block, SampleWindow.Write, WriteAllowed;
      var first := ringBuf.firstWrite;
      var wrSamples := sampleCnt;
      if !first {
        wrSamples := ringBuf.NeedWriteCount(sampleTs + sampleCnt);
      }
      if wrSamples == 0 {
        NothingPulled(net.network, Receiving(), ringBuf.bufOff, sampleTs, sampleCnt, gain);
      } else {
        FetchBlock(wrSamples, gain);
        ringBuf.Write(if first then sampleTs else ringBuf.tailTs, ioBuf, wrSamples);
      }
    }

    /** Brings the next `n` network samples, at the given volume, into the scratch buffer. */
    method FetchBlock(n: nat, gain: real)
      requires Valid()
      modifies this`ioBuf, ioBuf, net`pulled
      ensures Valid() && (ioBuf == old(ioBuf) || fresh(ioBuf)) && n <= ioBuf.Length
      ensures net.pulled == old(net.pulled) + n
      ensures ioBuf[..n] == ReceiverStream.Block(net.network, old(net.pulled), n, gain)
    {
      ghost var from := net.pulled;
      ReserveScratch(n);
      net.Read(ioBuf, n);
      ApplyVolume(ioBuf, n, gain);
      ScaledIsBlock(net.network, from, ioBuf[..n], gain);
    }

    /**
     The mixed output of all clients of a sender device. `scratch` tells what the handler's
     own buffer held before the samples were read into it.
     */
    method OnWriteMixedOutput(timestamp: nat, bytes: array<real>, bytesCount: nat, gain: real)
      returns (ghost scratch: seq<real>)
      requires Valid()
      requires bytes != ringBuf.bufData && bytes != ioBuf && bytesCount / BYTES_PER_SAMPLE <= bytes.Length
      requires SenderStream.SendAllowed(Sending(), SenderStream.Request(
                 timestamp * chanCount, bytes[..bytesCount / BYTES_PER_SAMPLE], gain))
      modifies this`writesDone, this`ringBufPos, this`ioBuf, ioBuf, ringBuf, ringBuf.bufData, net`sent
      ensures Valid()
      ensures writesDone == old(writesDone) + [SenderStream.Request(
                timestamp * chanCount, old(bytes[..bytesCount / BYTES_PER_SAMPLE]), gain)]
      ensures old(FollowsWrites()) ==> FollowsWrites()
      ensures var req := SenderStream.Request(timestamp * chanCount, old(bytes[..bytesCount / BYTES_PER_SAMPLE]), gain);
              && |scratch| == SenderStream.SendCount(old(Sending()), req)
              && Sending() == SenderStream.Send(old(Sending()), req, scratch)
      ensures old(FrameAligned()) && OnFrame(bytesCount / BYTES_PER_SAMPLE, chanCount) ==> FrameAligned()
    {
      hide SenderStream.Send, SenderStream.InStep, SenderStream.RunOk, SenderStream.After, Aligned, OffsetAfter;
      var sampleTs := timestamp * chanCount;
      var sampleCnt := bytesCount / BYTES_PER_SAMPLE;
      ghost var st, off := Sending(), ringBuf.bufOff;
      ghost var req := SenderStream.Request(sampleTs, bytes[..sampleCnt], gain);
      scratch := StoreAndForward(sampleTs, bytes, sampleCnt, gain);
      MultipleProduct(timestamp, chanCount);
      SendKeepsAligned(st, off, req, scratch, chanCount);
      WriteGoesOn(sentBefore, st, writesDone, req, scratch);
      writesDone := writesDone + [req];
    }

    /** Stores the samples and passes on whatever is new. */
    method StoreAndForward(sampleTs: nat, bytes: array<real>, sampleCnt: nat, gain: real)
      returns (ghost scratch: seq<real>)
      requires Valid()
      requires bytes != ringBuf.bufData && bytes != ioBuf && sampleCnt <= bytes.Length
      requires SenderStream.SendAllowed(Sending(), SenderStream.Request(sampleTs, bytes[..sampleCnt], gain))
      modifies this`ringBufPos, this`ioBuf, ioBuf, ringBuf, ringBuf.bufData, net`sent
      ensures Valid()
      ensures var req := SenderStream.Request(sampleTs, old(bytes[..sampleCnt]), gain);
              && |scratch| == SenderStream.SendCount(old(Sending()), req)
              && Sending() == SenderStream.Send(old(Sending()), req, scratch)
      ensures ringBuf.bufOff == OffsetAfter(old(ringBuf.Win()), old(ringBuf.bufOff), sampleTs, sampleCnt)
    {
      if ringBuf.firstWrite {
        ringBufPos := sampleTs;
      }
      ringBuf.Write(sampleTs, bytes, sampleCnt);
      scratch := ForwardNew(gain);
    }

    /** Reads what is new behind the send position, scales it and passes it on. */
    method ForwardNew(gain: real) returns (ghost scratch: seq<real>)
      requires Valid()
      requires Touches(ringBuf.Win(), ringBufPos, CanRead(ringBuf.Win(), ringBufPos))
      modifies this`ringBufPos, this`ioBuf, ioBuf, net`sent
      ensures Valid() && ringBuf.Win() == old(ringBuf.Win())
      ensures |scratch| == CanRead(ringBuf.Win(), old(ringBufPos))
      ensures ringBufPos == old(ringBufPos) + |scratch|
      ensures net.sent == old(net.sent) + SenderStream.Gained(ReadInto(ringBuf.Win(), old(ringBufPos), scratch), gain)
    {
      var rdSamples := ringBuf.CanReadCount(ringBufPos);
      scratch := [];
      if rdSamples > 0 {
        ReserveScratch(rdSamples);
        scratch := ioBuf[..rdSamples];
        ringBuf.Read(ringBufPos, ioBuf, rdSamples);
        ghost var read := ReadInto(ringBuf.Win(), ringBufPos, scratch);
        ringBufPos := ringBufPos + rdSamples;
        assert ioBuf[..rdSamples] == read;
        ApplyVolume(ioBuf, rdSamples, gain);
        ScaledIsGained(read, ioBuf[..rdSamples], gain);
        net.Write(ioBuf, rdSamples);
      }
    }
  }

  /** Network samples, each scaled, are the block the receiver model pulls. */
  lemma ScaledIsBlock(net: nat -> real, from: nat, got: seq<real>, gain: real)
    requires forall i :: 0 <= i < |got| ==> got[i] == net(from + i) * gain
    ensures got == ReceiverStream.Block(net, from, |got|, gain)
  {
    var block := ReceiverStream.Block(net, from, |got|, gain);
    forall i | 0 <= i < |got|
      ensures got[i] == block[i]
    {
      assert block[i] == Amplified(net(from + i), gain);
    }
  }

  /** Samples read, each scaled, are what the sender model sends. */
  lemma ScaledIsGained(read: seq<real>, got: seq<real>, gain: real)
    requires |got| == |read| && forall i :: 0 <= i < |got| ==> got[i] == read[i] * gain
    ensures got == SenderStream.Gained(read, gain)
  {
    var sent := SenderStream.Gained(read, gain);
    forall i | 0 <= i < |got|
      ensures got[i] == sent[i]
    {
      assert sent[i] == Amplified(read[i], gain);
    }
  }

  lemma NothingPulled(net: nat -> real, st: ReceiverStream.Receiver, off: nat, ts: nat, n: nat, gain: real)
    requires st.win.Valid() && off < st.win.Size() && ReceiverStream.PullAllowed(st.win, ts, n)
    requires ReceiverStream.PullCount(st.win, ts, n) == 0
    ensures ReceiverStream.Pull(net, st, ts, n, gain) == st
    ensures OffsetAfter(st.win, off, ReceiverStream.PullAt(st.win, ts), 0) == off
  {
  }

  /** One more read keeps the handler in step, and is answered from the stream. */
  lemma ReadGoesOn(
      net: nat -> real, st: ReceiverStream.Receiver, start: ReceiverStream.Stream,
      done: seq<ReceiverStream.Request>, req: ReceiverStream.Request)
    requires st.win.Valid() && ReceiverStream.PullAllowed(st.win, req.ts, |req.prior|)
    requires Touches(ReceiverStream.Pull(net, st, req.ts, |req.prior|, req.gain).win, req.ts, |req.prior|)
    ensures var size, all := st.win.Size(), done + [req];
            var st' := ReceiverStream.Pull(net, st, req.ts, |req.prior|, req.gain);
            (ReceiverStream.RunOk(size, start, done) ==>
               ReceiverStream.InStep(net, st, ReceiverStream.After(size, start, done)))
            && ReceiverStream.RunOk(size, start, all)
            ==> && ReceiverStream.InStep(net, st', ReceiverStream.After(size, start, all))
                && ReadInto(st'.win, req.ts, req.prior)
                == ReceiverStream.After(size, start, all).Answer(net, size, req.ts, |req.prior|)
  {
    var size, all := st.win.Size(), done + [req];
    if (ReceiverStream.RunOk(size, start, done) ==>
          ReceiverStream.InStep(net, st, ReceiverStream.After(size, start, done)))
       && ReceiverStream.RunOk(size, start, all) {
      ReceiverStream.RunGoesOn(net, st, start, done, req);
    }
  }

  /** One more write keeps the handler in step. */
  lemma WriteGoesOn(
      base: seq<real>, st: SenderStream.Sender, done: seq<SenderStream.Request>, req: SenderStream.Request,
      scratch: seq<real>)
    requires st.win.Valid() && SenderStream.SendAllowed(st, req) && |scratch| == SenderStream.SendCount(st, req)
    ensures var size, all := st.win.Size(), done + [req];
            (SenderStream.RunOk(size, SenderStream.Idle, done) ==>
               SenderStream.InStep(base, st, SenderStream.After(size, SenderStream.Idle, done)))
            && SenderStream.RunOk(size, SenderStream.Idle, all)
            ==> SenderStream.InStep(base, SenderStream.Send(st, req, scratch),
                                    SenderStream.After(size, SenderStream.Idle, all))
  {
    var size, all := st.win.Size(), done + [req];
    if (SenderStream.RunOk(size, SenderStream.Idle, done) ==>
          SenderStream.InStep(base, st, SenderStream.After(size, SenderStream.Idle, done)))
       && SenderStream.RunOk(size, SenderStream.Idle, all) {
      SenderStream.RunGoesOn(base, st, done, req, scratch);
    }
  }

  /** Whole-frame writes keep the buffer and the send position on frame boundaries. */
  lemma SendKeepsAligned(st: SenderStream.Sender, off: nat, req: SenderStream.Request, scratch: seq<real>, chans: nat)
    requires st.win.Valid() && off < st.win.Size() && chans > 0
    requires SenderStream.SendAllowed(st, req) && |scratch| == SenderStream.SendCount(st, req)
    ensures Aligned(st.win, off, chans) && OnFrame(st.pos, chans) && OnFrame(req.ts, chans) && OnFrame(|req.s|, chans)
            ==> && Aligned(SenderStream.Send(st, req, scratch).win, OffsetAfter(st.win, off, req.ts, |req.s|), chans)
                && OnFrame(SenderStream.Send(st, req, scratch).pos, chans)
  {
    if Aligned(st.win, off, chans) && OnFrame(st.pos, chans) && OnFrame(req.ts, chans) && OnFrame(|req.s|, chans) {
      WriteAligned(st.win, off, req.ts, req.s, chans);
      SendAligned(st, req, chans);
    }
  }

  /** Whole-frame requests pull whole frames to frame boundaries. */
  lemma PullKeepsAligned(
      net: nat -> real, st: ReceiverStream.Receiver, off: nat, ts: nat, n: nat, gain: real, chans: nat)
    requires st.win.Valid() && off < st.win.Size() && chans > 0
    requires ReceiverStream.PullAllowed(st.win, ts, n)
    ensures Aligned(st.win, off, chans) && OnFrame(ts, chans) && OnFrame(n, chans)
            ==> Aligned(ReceiverStream.Pull(net, st, ts, n, gain).win,
                        OffsetAfter(st.win, off, ReceiverStream.PullAt(st.win, ts),
                                    ReceiverStream.PullCount(st.win, ts, n)), chans)
  {
    if Aligned(st.win, off, chans) && OnFrame(ts, chans) && OnFrame(n, chans) {
      PullAligned(st.win, ts, n, chans);
      WriteAligned(st.win, off, ReceiverStream.PullAt(st.win, ts),
                   ReceiverStream.Block(net, st.pulled, ReceiverStream.PullCount(st.win, ts, n), gain), chans);
    }
  }
}
