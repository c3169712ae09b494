/** The circular sample buffer, proved to implement `SampleWindow`. */
module RingBuffers {
  import opened SampleWindow
  import opened Modular

  /** The physical cell `i` places after the cell `off`, going round. */
  function CellIndex(off: nat, i: nat, size: nat): (c: nat)
    requires off < size && i < size
    ensures c < size
  {
    if off + i < size then off + i else off + i - size
  }

  /** How many steps forward, going round, lead from cell `from` to cell `to`. */
  function Distance(from: nat, to: nat, size: nat): (k: nat)
    requires from < size && to < size
    ensures k < size
  {
    if from <= to then to - from else to + size - from
  }

  /** The cells read off in logical order, starting from the one at `off`. */
  function Unrolled(data: seq<real>, off: nat): seq<real>
    requires off < |data|
  {
    seq(|data|, i requires 0 <= i < |data| => data[CellIndex(off, i, |data|)])
  }

  /** The cells after a block has been laid down from cell `begin` on, going round. */
  function Put(data: seq<real>, begin: nat, s: seq<real>): (d: seq<real>)
    requires begin < |data| && |s| <= |data|
    ensures |d| == |data|
  {
    seq(|data|, c requires 0 <= c < |data| =>
      var k := Distance(begin, c, |data|); if k < |s| then s[k] else data[c])
  }

  /** In logical order, laying a block down replaces one stretch of the view. */
  lemma UnrolledPut(data: seq<real>, off: nat, p: nat, s: seq<real>, i: nat)
    requires off < |data| && p < |data| && p + |s| <= |data| && i < |data|
    ensures Unrolled(Put(data, CellIndex(off, p, |data|), s), off)[i]
         == if p <= i < p + |s| then s[i - p] else Unrolled(data, off)[i]
  {
    assert Distance(CellIndex(off, p, |data|), CellIndex(off, i, |data|), |data|)
        == if p <= i then i - p else i + |data| - p;
  }

  /** Rotating the physical offset by `d` moves the view on by `d` times, modulo the size. */
  lemma UnrolledRotated(data: seq<real>, off: nat, d: nat, i: nat)
    requires off < |data| && i < |data|
    ensures Unrolled(data, Rem(off + d, |data|))[i] == Unrolled(data, off)[Rem(d + i, |data|)]
  {
    var size := |data|;
    RoundOnce(Rem(off + d, size), i, size);
    RoundOnce(off, Rem(d + i, size), size);
    RemAdd(off + d, i, size);
    RemAdd(d + i, off, size);
    assert off + d + i == d + i + off;
  }

  /** Within two rounds, the remainder is one conditional subtraction. */
  lemma RoundOnce(off: nat, i: nat, size: nat)
    requires off < size && i < size
    ensures Rem(off + i, size) == CellIndex(off, i, size)
  {
  }

  class RingBuffer {
    const bufSize: nat
    const bufData: array<real>
    var bufOff: nat
    var headTs: nat
    var tailTs: nat
    var firstWrite: bool

    ghost predicate Valid()
      reads this, bufData
    {
      && 0 < bufSize == bufData.Length
      && bufOff < bufSize
      && (firstWrite ==> bufOff == headTs == tailTs == 0 && forall i :: 0 <= i < bufSize ==> bufData[i] == 0.0)
      && (!firstWrite ==> tailTs == headTs + bufSize)
    }

    /** The window this buffer stands for. */
    ghost function Win(): (w: Window)
      requires Valid()
      reads this, bufData
      ensures w.Valid() && w.Size() == bufSize
    {
      if firstWrite then Fresh(bufSize) else Live(headTs, Unrolled(bufData[..], bufOff))
    }

    /** A buffer of no samples can be built, but not used. */
    constructor (n: nat)
      ensures bufSize == n && fresh(bufData) && bufData.Length == n && bufOff == 0
      ensures Valid() <==> n > 0
      ensures n > 0 ==> Win() == Fresh(n)
    {
      bufSize := n;
      bufData := new real[n](_ => 0.0);
      bufOff, headTs, tailTs, firstWrite := 0, 0, 0, true;
    }

    method Restart()
      requires Valid()
      modifies this, bufData
      ensures Valid()
      ensures Win() == Fresh(bufSize)
    {
      forall i | 0 <= i < bufSize {
        bufData[i] := 0.0;
      }
      bufOff := 0;
      headTs := 0;
      tailTs := 0;
      firstWrite := true;
    }

    method NeedWriteCount(ts: nat) returns (n: nat)
      requires Valid()
      ensures n == NeedWrite(Win(), ts)
      ensures n <= bufSize && (firstWrite ==> n == 0)
      ensures n > 0 ==> tailTs + n <= ts
      ensures !firstWrite && n < bufSize ==> ts <= tailTs + n
    {
      if firstWrite || ts < tailTs {
        n := 0;
      } else {
        n := Min(ts - tailTs, bufSize);
      }
    }

    method CanReadCount(ts: nat) returns (n: nat)
      requires Valid()
      ensures n == CanRead(Win(), ts)
      ensures n <= bufSize && (n > 0 <==> !firstWrite && ts < tailTs)
      ensures n > 0 ==> ts + n <= tailTs && (n < bufSize ==> ts + n == tailTs)
    {
      if firstWrite || tailTs <= ts {
        n := 0;
      } else {
        n := Min(tailTs - ts, bufSize);
      }
    }

    method Write(ts: nat, samples: array<real>, count: nat)
      requires Valid()
      requires count <= samples.Length && samples != bufData
      requires WriteAllowed(Win(), ts, count)
      modifies this, bufData
      ensures Valid()
      ensures Win() == SampleWindow.Write(old(Win()), ts, old(samples[..count]))
      ensures bufOff == OffsetAfter(old(Win()), old(bufOff), ts, count)
    {
      hide SampleWindow.Write, ViewAfter, CellsAfter, NextHead;
      ghost var before, data, off, s := Win(), bufData[..], bufOff, samples[..count];
      if count == 0 {
        NothingWritten(before, off, ts, s);
        return;
      }
      assert Holds(before, data, off);
      var committed := MoveWindow(ts, count);
      if !committed {
        NothingWritten(before, off, ts, s);
        return;
      }
      PlacedBlock(before, ts, count);
      var n := Min(count, bufSize);
      CopyToBuffer(ts, samples, n);
      WriteMeaning(before, data, off, ts, s, bufOff, ts - headTs);
    }

    /** Moves head, tail and offset for `count` samples at `ts`, but not for a first block that comes too early. */
    method MoveWindow(ts: nat, count: nat) returns (committed: bool)
      requires Valid() && count > 0
      modifies this
      ensures committed == Commits(old(Win()), ts, count)
      ensures !committed ==> Valid() && Win() == old(Win()) && bufOff == old(bufOff)
      ensures committed ==> !firstWrite && Valid()
      ensures committed ==> headTs == NextHead(old(Win()), ts, count)
      ensures bufOff == OffsetAfter(old(Win()), old(bufOff), ts, count)
    {
      if firstWrite {
        if ts + count < bufSize {
          return false;
        }
        tailTs := ts + count;
        headTs := tailTs - bufSize;
        bufOff := 0;
        firstWrite := false;
      } else {
        var oldHead := headTs;
        tailTs := Max(tailTs, ts + count);
        headTs := Max(headTs, tailTs - bufSize);
        if headTs != oldHead {
          bufOff := Advance(bufOff, headTs - oldHead);
        }
      }
      return true;
    }

    method Read(ts: nat, samples: array<real>, count: nat)
      requires Valid()
      requires count <= samples.Length && samples != bufData
      requires Touches(Win(), ts, count)
      modifies samples
      ensures samples[..count] == ReadInto(Win(), ts, old(samples[..count]))
      ensures forall i :: count <= i < samples.Length ==> samples[i] == old(samples[i])
    {
      if count == 0 {
        return;
      }
      ghost var w, prior := Win(), samples[..count];
      if firstWrite {
        Fill(samples, 0, count);
        SilenceIsRead(w, ts, prior, samples[..count]);
        return;
      }
      var fromTs := Max(ts, headTs);
      var toTs := Min(ts + count, tailTs);
      var fromBuffer := toTs - fromTs;
      var zerosBefore := fromTs - ts;
      var zerosAfter := ts + count - toTs;
      hide PlanRead, ReadInto;
      assert ts + count < TWO_64 && tailTs < TWO_64 ==>
          PlanRead(w, ts, count) == ReadPlan(zerosBefore, fromBuffer, zerosAfter) by {
        PlannedLengths(w, ts, count);
      }
      FillParts(samples, fromTs, zerosBefore, fromBuffer, zerosAfter);
      PartsAreRead(w, ts, prior, samples[..count], zerosBefore, fromBuffer);
    }

    /** Silence, then `n` samples from the buffer, then silence again. */
    method FillParts(samples: array<real>, fromTs: nat, before: nat, n: nat, after: nat)
      requires Valid() && !firstWrite
      requires before + n + after <= samples.Length && samples != bufData
      requires n > 0 ==> headTs <= fromTs && fromTs + n <= tailTs
      modifies samples
      ensures forall i :: 0 <= i < before ==> samples[i] == 0.0
      ensures n < bufSize ==> forall i :: before <= i < before + n ==>
                samples[i] == Unrolled(bufData[..], bufOff)[fromTs - headTs + (i - before)]
      ensures n == bufSize ==> forall i :: before <= i < before + n ==> samples[i] == old(samples[i])
      ensures forall i :: before + n <= i < before + n + after ==> samples[i] == 0.0
      ensures forall i :: before + n + after <= i < samples.Length ==> samples[i] == old(samples[i])
    {
      hide CopiedOut;
      Fill(samples, 0, before);
      if n > 0 {
        CopyFromBuffer(fromTs, samples, before, n);
      }
      Fill(samples, before + n, after);
    }

    method CopyToBuffer(ts: nat, samples: array<real>, n: nat)
      requires Valid() && !firstWrite
      requires n <= samples.Length && samples != bufData
      requires headTs <= ts && ts + n <= tailTs
      modifies bufData
      ensures Valid()
      ensures Win() == Live(headTs, ViewAfter(old(bufData[..]), bufOff, ts - headTs, samples[..n]))
    {
      ghost var data, s := bufData[..], samples[..n];
      var beginOff, endOff := Span(ts, n);
      if beginOff <= endOff {
        CopyN(samples, 0, endOff - beginOff, bufData, beginOff);
      } else {
        CopyN(samples, 0, bufSize - beginOff, bufData, beginOff);
        CopyN(samples, bufSize - beginOff, endOff, bufData, 0);
      }
      if 0 < n < bufSize {
        forall c | 0 <= c < bufSize
          ensures bufData[c] == Put(data, beginOff, s)[c]
        {
        }
      }
      assert bufData[..] == CellsAfter(data, bufOff, ts - headTs, s);
    }

    method CopyFromBuffer(ts: nat, samples: array<real>, start: nat, n: nat)
      requires Valid() && !firstWrite
      requires start + n <= samples.Length && samples != bufData
      requires headTs <= ts && ts + n <= tailTs
      modifies samples
      ensures forall j :: 0 <= j < samples.Length && !(start <= j < start + n) ==> samples[j] == old(samples[j])
      ensures samples[..] == CopiedOut(bufData[..], bufOff, ts - headTs, old(samples[..]), start, n)
      ensures n < bufSize ==> forall j :: start <= j < start + n ==>
                samples[j] == Unrolled(bufData[..], bufOff)[ts - headTs + (j - start)]
      ensures n == bufSize ==> forall j :: start <= j < start + n ==> samples[j] == old(samples[j])
    {
      hide CopiedOut;
      ghost var memory := samples[..];
      var beginOff, endOff := Span(ts, n);
      if beginOff <= endOff {
        CopyN(bufData, beginOff, endOff - beginOff, samples, start);
      } else {
        CopyN(bufData, beginOff, bufSize - beginOff, samples, start);
        CopyN(bufData, 0, endOff, samples, start + bufSize - beginOff);
      }
      CopiedOutAt(bufData[..], bufOff, ts - headTs, memory, samples[..], start, n);
    }

    /** The physical offsets where a copy of `[ts, ts + n)` begins and ends. */
    method Span(ts: nat, n: nat) returns (beginOff: nat, endOff: nat)
      requires Valid() && !firstWrite
      requires headTs <= ts && ts + n <= tailTs
      ensures beginOff < bufSize && endOff < bufSize
      ensures 0 < n ==> beginOff == CellIndex(bufOff, ts - headTs, bufSize)
      ensures 0 < n < bufSize ==> endOff == CellIndex(beginOff, n, bufSize)
      ensures n == 0 || n == bufSize ==> endOff == beginOff
    {
      beginOff := Advance(bufOff, ts - headTs);
      endOff := Advance(beginOff, n);
    }

    method Advance(off: nat, d: nat) returns (r: nat)
      requires 0 < bufSize
      ensures r == Rem(off + d, bufSize)
    {
      r := (off + d) % bufSize;
      RemIsMod(off + d, bufSize);
    }
  }

  /** Nothing has been written yet: silence is the answer. */
  lemma SilenceIsRead(w: Window, ts: nat, prior: seq<real>, got: seq<real>)
    requires w.Fresh? && |got| == |prior| && forall i :: 0 <= i < |got| ==> got[i] == 0.0
    ensures got == ReadInto(w, ts, prior)
  {
    forall i | 0 <= i < |got|
      ensures got[i] == ReadCell(w, ts, prior, i)
    {
    }
  }

  /** Silence, a part of the window that a whole one leaves uncopied, and silence again make the answer. */
  lemma PartsAreRead(w: Window, ts: nat, prior: seq<real>, got: seq<real>, before: nat, n: nat)
    requires w.Valid() && w.Live? && prior != [] && Touches(w, ts, |prior|) && |got| == |prior|
    requires before == Max(ts, w.head) - ts && n == Min(ts + |prior|, w.Tail()) - Max(ts, w.head)
    requires forall i :: 0 <= i < before ==> got[i] == 0.0
    requires n < w.Size() ==>
               forall i :: before <= i < before + n ==> got[i] == w.view[ts + before - w.head + (i - before)]
    requires n == w.Size() ==> forall i :: before <= i < before + n ==> got[i] == prior[i]
    requires forall i :: before + n <= i < |got| ==> got[i] == 0.0
    ensures got == ReadInto(w, ts, prior)
  {
    assert n == w.Size() <==> SpansWindow(w, ts, |prior|);
    forall i | 0 <= i < |got|
      ensures got[i] == ReadCell(w, ts, prior, i)
    {
    }
  }

  method CopyN(src: array<real>, from: nat, n: nat, dst: array<real>, to: nat)
    requires src != dst
    requires from + n <= src.Length && to + n <= dst.Length
    modifies dst
    ensures forall j :: 0 <= j < dst.Length ==>
              dst[j] == if to <= j < to + n then src[from + (j - to)] else old(dst[j])
  {
    forall k | 0 <= k < n {
      dst[to + k] := src[from + k];
    }
  }

  method Fill(samples: array<real>, start: nat, n: nat)
    requires start + n <= samples.Length
    modifies samples
    ensures forall j :: 0 <= j < samples.Length ==>
              samples[j] == if start <= j < start + n then 0.0 else old(samples[j])
  {
    forall k | start <= k < start + n {
      samples[k] := 0.0;
    }
  }

  /** The physical offset after a write: where the cell of the new head is. */
  function OffsetAfter(w: Window, off: nat, ts: nat, n: nat): (r: nat)
    requires w.Valid() && off < w.Size()
    ensures r < w.Size()
  {
    if w.Fresh? then off else Rem(off + (NextHead(w, ts, n) - w.head), w.Size())
  }

  /** Before the copy: rotating the offset turns the view of the old window into that of the new one. */
  lemma RotatedMeaning(w: Window, data: seq<real>, off: nat, ts: nat, n: nat, i: nat)
    requires w.Valid() && Commits(w, ts, n) && WriteAllowed(w, ts, n)
    requires Holds(w, data, off) && i < |data|
    ensures Unrolled(data, OffsetAfter(w, off, ts, n))[i]
         == if w.Fresh? then 0.0 else w.view[Rem(NextHead(w, ts, n) + i - w.head, w.Size())]
  {
    if w.Live? {
      UnrolledRotated(data, off, NextHead(w, ts, n) - w.head, i);
    }
  }

  /** The cells `data`, starting from `off`, hold the window `w`. */
  ghost predicate Holds(w: Window, data: seq<real>, off: nat) {
    && |data| == w.Size()
    && off < |data|
    && (w.Fresh? ==> forall i :: 0 <= i < |data| ==> data[i] == 0.0)
    && (w.Live? ==> w.view == Unrolled(data, off))
  }

  lemma NothingWritten(w: Window, off: nat, ts: nat, s: seq<real>)
    requires w.Valid() && off < w.Size() && WriteAllowed(w, ts, |s|) && !Commits(w, ts, |s|)
    ensures SampleWindow.Write(w, ts, s) == w && OffsetAfter(w, off, ts, |s|) == off
  {
  }

  lemma PlacedBlock(w: Window, ts: nat, n: nat)
    requires w.Valid() && Commits(w, ts, n) && WriteAllowed(w, ts, n)
    ensures NextHead(w, ts, n) <= ts
    ensures ts - NextHead(w, ts, n) + n <= w.Size()
  {
  }

  /** What a copied block, or one of exactly the buffer size, leaves in the cells. */
  function CellsAfter(data: seq<real>, off: nat, p: nat, s: seq<real>): (r: seq<real>)
    requires off < |data| && p + |s| <= |data|
    ensures |r| == |data|
  {
    if 0 < |s| < |data| then Put(data, CellIndex(off, p, |data|), s) else data
  }

  lemma CellsMeaning(data: seq<real>, off: nat, p: nat, s: seq<real>, i: nat)
    requires off < |data| && p + |s| <= |data| && i < |data|
    ensures Unrolled(CellsAfter(data, off, p, s), off)[i]
         == if |s| < |data| && p <= i < p + |s| then s[i - p] else Unrolled(data, off)[i]
  {
    if 0 < |s| < |data| {
      UnrolledPut(data, off, p, s, i);
    }
  }

  /**
   What the caller's memory holds after a copy from the cells at place `p` on; a copy of exactly
   the buffer size leaves it as it was.
   */
  function PickedUp(data: seq<real>, off: nat, p: nat, memory: seq<real>): (r: seq<real>)
    requires off < |data| && p + |memory| <= |data|
    ensures |r| == |memory|
  {
    if |memory| < |data| then
      seq(|memory|, k requires 0 <= k < |memory| => data[CellIndex(off, p + k, |data|)])
    else memory
  }

  lemma PickedUpAll(data: seq<real>, off: nat, p: nat, memory: seq<real>, r: seq<real>)
    requires off < |data| && p + |memory| <= |data| && |r| == |memory|
    requires |memory| < |data| ==> forall k :: 0 <= k < |r| ==> r[k] == Unrolled(data, off)[p + k]
    requires |memory| == |data| ==> r == memory
    ensures r == PickedUp(data, off, p, memory)
  {
  }

  /** The caller's whole memory after `n` samples have been picked up into it from `start` on. */
  function CopiedOut(data: seq<real>, off: nat, p: nat, memory: seq<real>, start: nat, n: nat): (r: seq<real>)
    requires off < |data| && p + n <= |data| && start + n <= |memory|
    ensures |r| == |memory|
  {
    memory[..start] + PickedUp(data, off, p, memory[start..start + n]) + memory[start + n..]
  }

  lemma CopiedOutAt(data: seq<real>, off: nat, p: nat, memory: seq<real>, all: seq<real>, start: nat, n: nat)
    requires off < |data| && p + n <= |data| && start + n <= |memory| == |all|
    requires forall j :: 0 <= j < |all| && !(start <= j < start + n) ==> all[j] == memory[j]
    requires n < |data| ==> forall j :: start <= j < start + n ==> all[j] == Unrolled(data, off)[p + (j - start)]
    requires n == |data| ==> forall j :: start <= j < start + n ==> all[j] == memory[j]
    ensures all == CopiedOut(data, off, p, memory, start, n)
  {
    var r := all[start..start + n];
    assert forall k :: 0 <= k < n ==> r[k] == all[start + k];
    PickedUpAll(data, off, p, memory[start..start + n], r);
    assert all == all[..start] + r + all[start + n..];
    assert all[..start] == memory[..start] && all[start + n..] == memory[start + n..];
  }

  lemma ShortBlockReturns(data: seq<real>, off: nat, p: nat, s: seq<real>, memory: seq<real>)
    requires off < |data| && p + |s| <= |data| && |memory| == |s| < |data|
    ensures PickedUp(CellsAfter(data, off, p, s), off, p, memory) == s
  {
    hide CellsAfter, PickedUp;
    forall k | 0 <= k < |s|
      ensures Unrolled(CellsAfter(data, off, p, s), off)[p + k] == s[k]
    {
      CellsMeaning(data, off, p, s, p + k);
    }
    PickedUpAll(CellsAfter(data, off, p, s), off, p, memory, s);
  }

  /**
   Copying a block to the buffer and back: it returns, whatever the caller's memory held, exactly
   when it is shorter than the buffer.
   */
  lemma CopiesUndoExactly(data: seq<real>, off: nat, p: nat, s: seq<real>)
    requires off < |data| && p + |s| <= |data|
    ensures (forall memory: seq<real> :: |memory| == |s| ==> PickedUp(CellsAfter(data, off, p, s), off, p, memory) == s)
            <==> |s| < |data|
  {
    if |s| < |data| {
      forall memory: seq<real> | |memory| == |s|
        ensures PickedUp(CellsAfter(data, off, p, s), off, p, memory) == s
      {
        ShortBlockReturns(data, off, p, s, memory);
      }
    } else {
      var memory := s[0 := s[0] + 1.0];
      assert memory[0] != s[0];
      assert PickedUp(CellsAfter(data, off, p, s), off, p, memory) == memory;
    }
  }

  /** No cell outside the range changes. */
  lemma OtherCellsStay(data: seq<real>, off: nat, p: nat, s: seq<real>, c: nat)
    requires off < |data| && p + |s| <= |data| && c < |data|
    requires !(p <= Distance(off, c, |data|) < p + |s|)
    ensures CellsAfter(data, off, p, s)[c] == data[c]
  {
    if 0 < |s| < |data| {
      OtherDistance(off, p, c, |data|);
    }
  }

  lemma OtherDistance(off: nat, p: nat, c: nat, size: nat)
    requires off < size && p < size && c < size
    ensures var k := Distance(off, c, size);
            Distance(CellIndex(off, p, size), c, size) == if p <= k then k - p else k + size - p
  {
  }

  lemma WriteView(w: Window, ts: nat, s: seq<real>, i: nat)
    requires w.Valid() && Commits(w, ts, |s|) && WriteAllowed(w, ts, |s|) && i < w.Size()
    ensures SampleWindow.Write(w, ts, s).view[i] == CellAfter(w, ts, s, NextHead(w, ts, |s|) + i)
  {
  }

  /** The view those cells give. */
  function ViewAfter(data: seq<real>, off: nat, p: nat, s: seq<real>): (view: seq<real>)
    requires off < |data| && p + |s| <= |data|
    ensures |view| == |data|
  {
    Unrolled(CellsAfter(data, off, p, s), off)
  }

  /** A block of `n` samples at `ts` goes to place `p` of a window whose head is at offset `off'`. */
  ghost predicate Lands(w: Window, off: nat, ts: nat, n: nat, off': nat, p: nat) {
    && w.Valid() && Commits(w, ts, n) && WriteAllowed(w, ts, n) && off < w.Size()
    && off' == OffsetAfter(w, off, ts, n)
    && p == ts - NextHead(w, ts, n) && p + n <= w.Size()
  }

  lemma CellMeaning(w: Window, data: seq<real>, off: nat, ts: nat, s: seq<real>, off': nat, p: nat, i: nat)
    requires Holds(w, data, off) && Lands(w, off, ts, |s|, off', p) && i < |data|
    ensures ViewAfter(data, off', p, s)[i] == SampleWindow.Write(w, ts, s).view[i]
  {
    RotatedMeaning(w, data, off, ts, |s|, i);
    CellsMeaning(data, off', p, s, i);
    WriteView(w, ts, s, i);
  }

  lemma SameWindow(a: Window, b: Window)
    requires a.Live? && b.Live? && a.head == b.head && |a.view| == |b.view|
    requires forall i: nat :: i < |a.view| ==> a.view[i] == b.view[i]
    ensures a == b
  {
  }

  /** The cells a write leaves behind, read in logical order, are the window the write promises. */
  lemma WriteMeaning(w: Window, data: seq<real>, off: nat, ts: nat, s: seq<real>, off': nat, p: nat)
    requires Holds(w, data, off) && Lands(w, off, ts, |s|, off', p)
    ensures Live(NextHead(w, ts, |s|), ViewAfter(data, off', p, s)) == SampleWindow.Write(w, ts, s)
  {
    var a, b := Live(NextHead(w, ts, |s|), ViewAfter(data, off', p, s)), SampleWindow.Write(w, ts, s);
    forall i: nat | i < |data|
      ensures a.view[i] == b.view[i]
    {
      CellMeaning(w, data, off, ts, s, off', p, i);
    }
    SameWindow(a, b);
  }
}
