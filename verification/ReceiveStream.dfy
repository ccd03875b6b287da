/** The receiving half of a stream: receive_stream.go.

    The mutex is held during Read except while it waits for data; a Read that would wait returns
    MustWait, having changed nothing a caller can see, and is started again later.  Deadlines are
    not modelled. */
module ReceiveStreams {
  import opened Common
  import opened FrameSorting
  import opened FlowControl

  datatype ReadResult = Ok | Eof | Failed | MustWait

  datatype HandleResult = Handled | Rejected(error: ReceiveResult) | TooFragmented

  /** The frame being read, its release callback, how much of it was read, and whether the stream ends with it. */
  datatype CurrentFrame = CurrentFrame(frame: Option<seq<Byte>>, done: Option<Callback>, pos: nat, isLast: bool)

  const NO_FRAME := CurrentFrame(None, None, 0, false)

  function Unread(cur: CurrentFrame): seq<Byte> {
    if cur.frame.Some? && cur.pos <= |cur.frame.value| then cur.frame.value[cur.pos..] else []
  }

  lemma CopyPart(cur: CurrentFrame, n: nat, delivered: seq<Byte>)
    requires n <= |Unread(cur)|
    ensures var cur' := cur.(pos := cur.pos + n);
            && Unread(cur') == Unread(cur)[n..]
            && delivered + Unread(cur)[..n] + Unread(cur') == delivered + Unread(cur)
  {
    hide Unread;
    UnreadRest(cur, n);
    SplitAt(delivered, Unread(cur), n);
  }

  lemma UnreadRest(cur: CurrentFrame, n: nat)
    requires n <= |Unread(cur)|
    ensures Unread(cur.(pos := cur.pos + n)) == Unread(cur)[n..]
    ensures cur.frame.Some? && cur.pos <= |cur.frame.value| ==> cur.pos + n <= |cur.frame.value|
  {
    if cur.frame.Some? && cur.pos <= |cur.frame.value| {
      var f := cur.frame.value;
      assert f[cur.pos..][n..] == f[cur.pos + n..];
    }
  }

  lemma SplitAt(a: seq<Byte>, x: seq<Byte>, n: nat)
    requires n <= |x|
    ensures a + x[..n] + x[n..] == a + x
  {
    assert x[..n] + x[n..] == x;
    assert a + x[..n] + x[n..] == a + (x[..n] + x[n..]);
  }

  /** The stream has released, once each, the buffers that it took from the sorter, except for the one in use. */
  ghost predicate ReleasedAllBut(inUse: Option<Callback>, fate: map<Callback, Fate>, doneCalls: multiset<Callback>) {
    && (inUse.Some? ==> inUse.value in fate && fate[inUse.value].HandedOut?)
    && forall id :: doneCalls[id] == if id in fate && fate[id].HandedOut? && inUse != Some(id) then 1 else 0
  }

  /** The buffer in use is released, and the next one is taken. */
  lemma ReleaseAndTake(inUse: Option<Callback>, fate: map<Callback, Fate>, doneCalls: multiset<Callback>,
                       next: Option<Callback>)
    requires ReleasedAllBut(inUse, fate, doneCalls) && (next.Some? ==> next.value in fate && fate[next.value].Held?)
    ensures var doneCalls' := if inUse.Some? then doneCalls + multiset{inUse.value} else doneCalls;
            ReleasedAllBut(next, if next.Some? then fate[next.value := HandedOut] else fate, doneCalls')
  {
  }

  lemma ReleasedAfterPush(inUse: Option<Callback>, fate: map<Callback, Fate>, doneCalls: multiset<Callback>,
                          fate': map<Callback, Fate>, pushed: Callback)
    requires ReleasedAllBut(inUse, fate, doneCalls) && AfterPush(fate, fate', Some(pushed))
    ensures ReleasedAllBut(inUse, fate', doneCalls) && fate'.Keys == fate.Keys + {pushed}
  {
  }

  class ReceiveStream {
    const flow: StreamFlowController
    const frameQueue: FrameSorter
    var finalOffset: nat // MAX_BYTE_COUNT while it is unknown
    var cur: CurrentFrame
    var finRead: bool
    var shutdown: bool
    var cancelled: bool
    var resetRemotely: bool
    var completions: nat                 // how often the stream was reported complete
    var doneCalls: multiset<Callback>    // buffers this stream has released
    ghost var delivered: seq<Byte>       // what Read calls have returned
    ghost var finalByReset: bool         // the final size was learned from a RESET_STREAM frame

    ghost predicate FinalKnown()
      reads this
    {
      finalOffset != MAX_BYTE_COUNT
    }

    /** Bytes move from the sorter through the current frame to the reader, and no byte gets lost. */
    ghost predicate Positions()
      reads this, frameQueue
    {
      && (cur.frame.Some? ==> cur.pos <= |cur.frame.value|)
      && |delivered| + |Unread(cur)| == frameQueue.readPos
      && (cur.isLast ==> FinalKnown() && frameQueue.readPos == finalOffset)
      && (finRead ==> FinalKnown() && |delivered| == finalOffset)
    }

    /** The flow controller knows what was received and what was read. */
    ghost predicate Charged()
      reads this, frameQueue, flow
    {
      && flow.base.bytesRead == |delivered|
      && flow.base.highestReceived <= MAX_BYTE_COUNT
      && (forall b: nat :: b < MAX_BYTE_COUNT && !Missing(frameQueue.gaps, b) ==> b < flow.base.highestReceived)
      && (FinalKnown() <==> flow.receivedFinalOffset)
      && (FinalKnown() ==> finalOffset == flow.base.highestReceived)
    }

    /** The stream completes once, by reading to the end or by being abandoned; and it is abandoned exactly
        when the final size is known and the reader cancelled, or when a reset revealed the final size. */
    ghost predicate Lifecycle()
      reads this, flow
    {
      && (flow.abandoned <==> finalByReset || (FinalKnown() && cancelled))
      && (finalByReset ==> resetRemotely) && (resetRemotely ==> FinalKnown())
      && !(finRead && flow.abandoned)
      && completions == (if finRead || flow.abandoned then 1 else 0)
    }

    /** The buffer of the frame that is being read. */
    ghost function InUse(): Option<Callback>
      reads this
    {
      if finRead then None else cur.done
    }

    ghost predicate Released()
      reads this, frameQueue
    {
      ReleasedAllBut(InUse(), frameQueue.fate, doneCalls)
    }

    ghost predicate Valid()
      reads this, frameQueue, flow
    {
      && frameQueue.Valid()
      && Released()
      && Positions()
      && Charged()
      && Lifecycle()
    }

    /** Reset after the FIN had arrived, before everything was read, and not cancelled: from here on the stream
        never completes, and what is unread is never given back to the connection. */
    ghost predicate Stuck()
      reads this
    {
      resetRemotely && !finalByReset && !cancelled && !finRead
    }

    /** Everything delivered, about to be delivered or buffered belongs to the stream. */
    ghost predicate Faithful(stream: seq<Byte>)
      reads this, frameQueue
    {
      && frameQueue.readPos <= |stream|
      && delivered + Unread(cur) == stream[..frameQueue.readPos]
      && Carries(frameQueue.queue, stream)
    }

    ghost predicate Pristine()
      reads this, frameQueue, flow
    {
      && delivered == [] && !FinalKnown() && !finRead && !cancelled && !resetRemotely && !finalByReset && !shutdown
      && frameQueue.fate == map[] && frameQueue.gaps == [Interval(0, MAX_BYTE_COUNT)]
      && flow.base.highestReceived == 0 && !flow.abandoned
      && Faithful([])
    }

    constructor (flow: StreamFlowController)
      requires flow.base.bytesRead == 0 && flow.base.highestReceived == 0 && !flow.receivedFinalOffset
      requires !flow.abandoned
      ensures Valid() && Pristine() && this.flow == flow && fresh(frameQueue)
    {
      this.flow := flow;
      frameQueue := new FrameSorter();
      finalOffset := MAX_BYTE_COUNT;
      cur := NO_FRAME;
      finRead, shutdown, cancelled, resetRemotely := false, false, false, false;
      completions, doneCalls := 0, multiset{};
      delivered, finalByReset := [], false;
      new;
      assert frameQueue.gaps[0] == Interval(0, MAX_BYTE_COUNT);
    }

    // ----------------------------------------------------------------
    // Read
    // ----------------------------------------------------------------

    method DequeueNextFrame()
      requires Valid() && !finRead && Unread(cur) == []
      modifies this`cur, this`doneCalls, frameQueue
      ensures Valid() && cur.pos == 0
      ensures cur.frame.Some? ==> |cur.frame.value| > 0
      ensures cur.frame.None? <==> Missing(frameQueue.gaps, |delivered|)
      ensures frameQueue.gaps == old(frameQueue.gaps)
      ensures cur.frame.None? ==> (cur.isLast <==> |delivered| == finalOffset)
      ensures forall stream :: old(Faithful(stream)) ==> Faithful(stream)
      ensures frameQueue.fate.Keys == old(frameQueue.fate).Keys
    {
      hide Linear, Consistent, Missing, Carries, ReleasedAllBut;
      if cur.done.Some? {
        doneCalls := doneCalls + multiset{cur.done.value};
      }
      ghost var q, pos := frameQueue.queue, frameQueue.readPos;
      ghost var fate, released := frameQueue.fate, old(doneCalls);
      var offset, frame, done := frameQueue.Pop();
      ReleaseAndTake(old(cur).done, fate, released, done);
      var isLast := offset + (if frame.Some? then |frame.value| else 0) >= finalOffset;
      cur := CurrentFrame(frame, done, 0, isLast);
      ReadBelowHighest(frameQueue.queue, frameQueue.gaps, frameQueue.readPos, flow.base.highestReceived);
      assert Positions();
      assert Charged();
      forall stream | old(Faithful(stream)) ensures Faithful(stream) {
        if frame.Some? {
          PoppedCarries(q, stream, pos);
        }
      }
    }

    /** Copies part of the current frame to the reader. */
    method CopyOut(space: nat, now: int) returns (out: seq<Byte>)
      requires Valid() && !finRead && !flow.abandoned
      modifies this`cur, this`delivered, flow`base, flow.connection
      ensures Valid()
      ensures out == if |Unread(old(cur))| <= space then Unread(old(cur)) else Unread(old(cur))[..space]
      ensures delivered == old(delivered) + out && Unread(cur) == Unread(old(cur))[|out|..]
      ensures cur == old(cur).(pos := cur.pos)
      ensures forall stream :: old(Faithful(stream)) ==> Faithful(stream)
      ensures flow.OthersCredit() == old(flow.OthersCredit()) && flow.OthersReceived() == old(flow.OthersReceived())
      ensures flow.Windows() == old(flow.Windows()) && (old(flow.WindowsOk()) ==> flow.WindowsOk())
      ensures flow.base.highestReceived == old(flow.base).highestReceived
    {
      hide Linear, Consistent, Missing, Carries, ReleasedAllBut, HasWindowUpdate, Unread;
      var rest := Unread(cur);
      out := if |rest| <= space then rest else rest[..space];
      assert out == rest[..|out|];
      UnreadRest(cur, |out|);
      CopyPart(cur, |out|, delivered);
      cur := cur.(pos := cur.pos + |out|);
      delivered := delivered + out;
      var _ := flow.AddBytesRead(|out|, now);
    }

    /** One pass through the loop of Read; `empty` says that nothing was read so far. */
    method ReadOnce(space: nat, empty: bool, now: int) returns (out: seq<Byte>, r: Option<ReadResult>)
      requires Valid() && !finRead && !cancelled && !resetRemotely && space > 0
      modifies this`cur, this`doneCalls, this`delivered, this`finRead, this`completions, frameQueue, flow`base
      modifies flow.connection
      ensures Valid()
      ensures delivered == old(delivered) + out && |out| <= space
      ensures r == Some(Eof) <==> finRead
      ensures r == Some(Eof) ==> FinalKnown() && |delivered| == finalOffset
      ensures r == Some(MustWait) ==>
                empty && out == [] && Missing(frameQueue.gaps, |delivered|) && |delivered| != finalOffset
      ensures r == Some(Ok) ==> !empty && Missing(frameQueue.gaps, |delivered|)
      ensures r != Some(Failed)
      ensures r.None? ==> |out| > 0
      ensures frameQueue.gaps == old(frameQueue.gaps) && frameQueue.fate.Keys == old(frameQueue.fate).Keys
      ensures forall stream :: old(Faithful(stream)) ==> Faithful(stream)
      ensures flow.OthersCredit() == old(flow.OthersCredit()) && flow.OthersReceived() == old(flow.OthersReceived())
      ensures flow.Windows() == old(flow.Windows()) && (old(flow.WindowsOk()) ==> flow.WindowsOk())
      ensures flow.base.highestReceived == old(flow.base).highestReceived
    {
      hide Linear, Consistent, Missing, Carries, ReleasedAllBut;
      out, r := [], None;
      if cur.frame.None? || cur.pos >= |cur.frame.value| {
        DequeueNextFrame();
      }
      if cur.frame.None? && !empty {
        return [], Some(Ok);
      }
      if cur.frame.None? && !cur.isLast {
        return [], Some(MustWait);
      }
      out := CopyOut(space, now);
      if |Unread(cur)| == 0 && cur.isLast {
        Finish();
        return out, Some(Eof);
      }
    }

    /** The last byte was read: release its buffer and report the stream complete. */
    method Finish()
      requires Valid() && !finRead && !cancelled && !resetRemotely && Unread(cur) == [] && cur.isLast
      modifies this`cur, this`doneCalls, this`finRead, this`completions
      ensures Valid() && finRead && FinalKnown() && |delivered| == finalOffset && cur.frame.None?
      ensures forall stream :: old(Faithful(stream)) ==> Faithful(stream)
    {
      hide Linear, Consistent, Missing, Carries, ReleasedAllBut;
      finRead := true;
      cur := cur.(frame := None);
      ReleaseAndTake(cur.done, frameQueue.fate, doneCalls, None);
      if cur.done.Some? {
        doneCalls := doneCalls + multiset{cur.done.value};
      }
      completions := completions + 1;
    }

    /** Read(p) with room for `space` bytes.  It returns the next bytes of the stream; EOF only once every byte up to
        the final offset has been read; and it waits only if the next byte has not been received. */
    method Read(space: nat, now: int) returns (out: seq<Byte>, r: ReadResult)
      requires Valid()
      modifies this`cur, this`doneCalls, this`delivered, this`finRead, this`completions, frameQueue, flow`base
      modifies flow.connection
      ensures Valid()
      ensures delivered == old(delivered) + out && |out| <= space
      ensures (r == Eof <==> finRead) && (finRead ==> FinalKnown() && |delivered| == finalOffset)
      ensures r == MustWait ==> out == [] && Missing(frameQueue.gaps, |delivered|) && |delivered| != finalOffset
      ensures r == Ok ==> |out| == space || (|out| > 0 && Missing(frameQueue.gaps, |delivered|))
      ensures old(Stuck()) ==> Stuck()
      ensures r == Failed <==> !old(finRead) && (cancelled || resetRemotely || shutdown)
      ensures r == Failed || old(finRead) ==> out == []
      ensures old(finRead) ==> finRead
      ensures frameQueue.gaps == old(frameQueue.gaps) && frameQueue.fate.Keys == old(frameQueue.fate).Keys
      ensures forall stream :: old(Faithful(stream)) ==> Faithful(stream)
      ensures flow.OthersCredit() == old(flow.OthersCredit()) && flow.OthersReceived() == old(flow.OthersReceived())
      ensures flow.Windows() == old(flow.Windows()) && (old(flow.WindowsOk()) ==> flow.WindowsOk())
      ensures flow.base.highestReceived == old(flow.base).highestReceived
    {
      hide Linear, Consistent, Missing, Carries, ReleasedAllBut, Positions, Charged, Lifecycle;
      out := [];
      if finRead {
        EofAgain();
        return out, Eof;
      }
      if cancelled || resetRemotely || shutdown {
        return out, Failed;
      }
      while |out| < space
        invariant Valid() && !finRead
        invariant delivered == old(delivered) + out && |out| <= space
        invariant frameQueue.gaps == old(frameQueue.gaps) && frameQueue.fate.Keys == old(frameQueue.fate).Keys
        invariant forall stream :: old(Faithful(stream)) ==> Faithful(stream)
        invariant flow.OthersCredit() == old(flow.OthersCredit()) && flow.OthersReceived() == old(flow.OthersReceived())
        invariant flow.Windows() == old(flow.Windows()) && (old(flow.WindowsOk()) ==> flow.WindowsOk())
        invariant flow.base.highestReceived == old(flow.base).highestReceived
      {
        var piece, done := ReadOnce(space - |out|, |out| == 0, now);
        out := out + piece;
        if done.Some? {
          return out, done.value;
        }
      }
      return out, Ok;
    }

    // ----------------------------------------------------------------
    // Frames and cancellation
    // ----------------------------------------------------------------

    /** Gives up on a stream whose final size is known. */
    method AbandonAndComplete(now: int)
      requires frameQueue.Valid() && Released() && Positions() && Charged() && !flow.abandoned && completions == 0
      requires !finRead
      modifies flow`abandoned, flow.connection, this`completions
      ensures frameQueue.Valid() && Released() && Positions() && Charged() && flow.abandoned && completions == 1
      ensures flow.OthersCredit() == old(flow.OthersCredit()) && flow.OthersReceived() == old(flow.OthersReceived())
      ensures flow.Windows() == old(flow.Windows()) && (old(flow.WindowsOk()) ==> flow.WindowsOk())
    {
      hide ReleasedAllBut;
      ReadBelowHighest(frameQueue.queue, frameQueue.gaps, frameQueue.readPos, flow.base.highestReceived);
      flow.Abandon(now);
      completions := completions + 1;
    }

    method CancelRead(now: int)
      requires Valid()
      modifies this`cancelled, this`completions, flow`abandoned, flow.connection
      ensures Valid()
      ensures cancelled == (old(cancelled) || (!finRead && !resetRemotely))
      ensures flow.base == old(flow.base)
      ensures old(Stuck()) ==> Stuck()
      ensures flow.OthersCredit() == old(flow.OthersCredit()) && flow.OthersReceived() == old(flow.OthersReceived())
      ensures flow.Windows() == old(flow.Windows()) && (old(flow.WindowsOk()) ==> flow.WindowsOk())
    {
      hide Linear, Consistent, Missing, Carries, ReleasedAllBut;
      if finRead || cancelled || resetRemotely {
        return;
      }
      if finalOffset != MAX_BYTE_COUNT {
        AbandonAndComplete(now);
      }
      cancelled := true;
    }

    /** What a STREAM or RESET_STREAM frame tells about the length of the stream. */
    method Charge(offset: nat, final: bool) returns (err: ReceiveResult, newlyRcvdFinalOffset: bool)
      requires Valid() && offset < MAX_BYTE_COUNT
      modifies this`finalOffset, flow`base, flow`receivedFinalOffset, flow.connection
      ensures err == FinalSizeError <==> Contradicts(old(flow.base), old(FinalKnown()), offset, final)
      ensures err == FlowControlError <==>
                err != FinalSizeError && Exceeds(old(flow.base), old(flow.connection.base), offset)
      ensures newlyRcvdFinalOffset <==> err == Fine && final && !old(FinalKnown())
      ensures err == Fine ==>
                Released() && Positions() && Charged() && finalOffset == if final then offset else old(finalOffset)
      ensures err == Fine ==> old(FinalKnown()) ==> finalOffset == old(finalOffset)
      ensures err == Fine ==>
                flow.base == old(flow.base).(highestReceived := Max(old(flow.base).highestReceived, offset))
      ensures err == Fine ==>
                flow.OthersReceived() == old(flow.OthersReceived()) && flow.OthersCredit() == old(flow.OthersCredit())
                && flow.Windows() == old(flow.Windows()) && (old(flow.WindowsOk()) ==> flow.WindowsOk())
    {
      hide Linear, Consistent, Missing, Carries, ReleasedAllBut, Contradicts, Exceeds;
      newlyRcvdFinalOffset := false;
      err := flow.UpdateHighestReceived(offset, final);
      if err == Fine && final {
        newlyRcvdFinalOffset := finalOffset == MAX_BYTE_COUNT;
        finalOffset := offset;
      }
    }

    /** A STREAM frame.  An error is a violation by the sender, or too many gaps; no promise is made after it. */
    method HandleStreamFrame(offset: nat, data: seq<Byte>, fin: bool, putBack: Callback, now: int)
      returns (r: HandleResult)
      requires Valid() && offset + |data| < MAX_BYTE_COUNT && putBack !in frameQueue.fate
      modifies this`finalOffset, this`completions, frameQueue, flow, flow.connection
      ensures r == Handled ==> Valid()
      ensures r == Handled ==> finalOffset == if fin then offset + |data| else old(finalOffset)
      ensures !r.Rejected? && !cancelled ==> GapsOk(frameQueue.gaps)
      ensures !r.Rejected? && !cancelled ==>
                forall b: nat :: Missing(frameQueue.gaps, b) <==>
                                   Missing(old(frameQueue.gaps), b) && !(offset <= b < offset + |data|)
      ensures !r.Rejected? && cancelled ==> r == Handled && frameQueue.gaps == old(frameQueue.gaps)
      ensures r == Handled ==> frameQueue.fate.Keys <= old(frameQueue.fate).Keys + {putBack}
      ensures r == Handled ==>
                forall stream :: old(Faithful(stream)) && IsSlice(stream, offset, data) ==> Faithful(stream)
      ensures r == Handled && old(Stuck()) ==> Stuck()
      ensures r == Handled ==>
                flow.OthersCredit() == old(flow.OthersCredit()) && flow.OthersReceived() == old(flow.OthersReceived())
      ensures r == Handled ==> flow.base.highestReceived == Max(old(flow.base).highestReceived, offset + |data|)
      ensures r == Handled ==> flow.Windows() == old(flow.Windows()) && (old(flow.WindowsOk()) ==> flow.WindowsOk())
      ensures r == Rejected(FinalSizeError) <==> Contradicts(old(flow.base), old(FinalKnown()), offset + |data|, fin)
      ensures r == Rejected(FlowControlError) <==>
                r != Rejected(FinalSizeError) && Exceeds(old(flow.base), old(flow.connection.base), offset + |data|)
      ensures r.Rejected? ==> r.error != Fine
      ensures r.TooFragmented? <==> !r.Rejected? && |frameQueue.gaps| > MAX_STREAM_FRAME_SORTER_GAPS
    {
      hide Linear, Consistent, Missing, Carries, ReleasedAllBut, IsSlice, Contradicts, Exceeds, AfterPush, GapsOk;
      var err, newlyRcvdFinalOffset := Charge(offset + |data|, fin);
      if err != Fine {
        return Rejected(err);
      }
      if cancelled {
        if newlyRcvdFinalOffset {
          AbandonAndComplete(now);
        }
        return Handled;
      }
      var pushed := frameQueue.Push(data, offset, Some(putBack));
      if pushed == TooManyGaps {
        return TooFragmented;
      }
      ReleasedAfterPush(InUse(), old(frameQueue.fate), doneCalls, frameQueue.fate, putBack);
      return Handled;
    }

    method HandleResetStreamFrame(finalSize: nat, now: int) returns (r: HandleResult)
      requires Valid() && finalSize < MAX_BYTE_COUNT
      modifies this`finalOffset, this`resetRemotely, this`finalByReset, this`completions, flow, flow.connection
      ensures r == Rejected(FinalSizeError) <==>
                !shutdown && Contradicts(old(flow.base), old(FinalKnown()), finalSize, true)
      ensures r == Rejected(FlowControlError) <==>
                !shutdown && r != Rejected(FinalSizeError) &&
                Exceeds(old(flow.base), old(flow.connection.base), finalSize)
      ensures !r.TooFragmented? && (r.Rejected? ==> r.error != Fine)
      ensures shutdown ==>
                && finalOffset == old(finalOffset)
                && resetRemotely == old(resetRemotely)
                && completions == old(completions)
      ensures r == Handled ==> Valid() && (!shutdown ==> resetRemotely)
      ensures r == Handled && !shutdown ==> finalByReset == (old(finalByReset) || !old(FinalKnown()))
      ensures r == Handled && old(Stuck()) ==> Stuck()
      ensures r == Handled && !shutdown ==> flow.base.highestReceived == finalSize >= old(flow.base).highestReceived
      ensures r == Handled && !shutdown && !old(resetRemotely) && !cancelled && !finRead ==>
                if old(FinalKnown()) then Stuck() else completions == 1
      ensures r == Handled ==>
                flow.OthersCredit() == old(flow.OthersCredit()) && flow.OthersReceived() == old(flow.OthersReceived())
      ensures r == Handled ==> flow.Windows() == old(flow.Windows()) && (old(flow.WindowsOk()) ==> flow.WindowsOk())
    {
      hide Linear, Consistent, Missing, Carries, ReleasedAllBut, Contradicts, Exceeds;
      if shutdown {
        return Handled;
      }
      var err, newlyRcvdFinalOffset := Charge(finalSize, true);
      if err != Fine {
        return Rejected(err);
      }
      if resetRemotely {
        return Handled;
      }
      resetRemotely := true;
      if newlyRcvdFinalOffset {
        finalByReset := true;
        AbandonAndComplete(now);
      }
      return Handled;
    }

    /** The connection is closed: reads fail from now on, and resets are ignored. */
    method CloseForShutdown()
      requires Valid()
      modifies this`shutdown
      ensures Valid() && shutdown && (old(Stuck()) ==> Stuck())
      ensures forall stream :: old(Faithful(stream)) ==> Faithful(stream)
    {
      hide Linear, Consistent, Missing, Carries, ReleasedAllBut;
      shutdown := true;
    }

    method GetWindowUpdate(now: int, rtt: nat, allow: bool) returns (offset: nat)
      requires Valid() && flow.WindowsOk()
      modifies flow`base, flow.connection
      ensures Valid() && flow.WindowsOk()
      ensures forall stream :: old(Faithful(stream)) ==> Faithful(stream)
      ensures flow.OthersCredit() == old(flow.OthersCredit()) && flow.OthersReceived() == old(flow.OthersReceived())
      ensures flow.base == if FinalKnown() then old(flow.base) else WithWindowUpdate(old(flow.base), now, rtt, true)
      ensures old(flow.base).receiveWindow <= flow.base.receiveWindow
      ensures flow.base.highestReceived == old(flow.base).highestReceived
      ensures offset == if FinalKnown() || !HasWindowUpdate(old(flow.base)) then 0 else flow.base.receiveWindow
      ensures offset == 0 ==> flow.base.receiveWindow == old(flow.base).receiveWindow
      ensures flow.connection.base.receiveWindow == old(flow.connection.base).receiveWindow
      ensures flow.connection.base.bytesRead == old(flow.connection.base).bytesRead
      ensures old(flow.base).receiveWindowSize <= flow.base.receiveWindowSize
      ensures old(flow.connection.base).receiveWindowSize <= flow.connection.base.receiveWindowSize
    {
      hide Linear, Consistent, Missing, Carries, ReleasedAllBut;
      offset := flow.GetWindowUpdate(now, rtt, allow);
    }

    lemma EofAgain()
      requires Valid() && finRead
      ensures FinalKnown() && |delivered| == finalOffset
    {
    }
  }

  lemma ReadBelowHighest(q: Queue, gaps: seq<Interval>, readPos: nat, highest: nat)
    requires Consistent(q, gaps, readPos)
    requires forall b: nat :: b < MAX_BYTE_COUNT && !Missing(gaps, b) ==> b < highest
    ensures readPos < MAX_BYTE_COUNT && readPos <= highest
  {
    if readPos > 0 {
      var last: nat := readPos - 1;
      assert !Missing(gaps, last);
    }
  }

  lemma PoppedCarries(q: Queue, stream: seq<Byte>, pos: nat)
    requires Carries(q, stream) && pos in q
    ensures End(q, pos) <= |stream| && stream[..pos] + q[pos].data == stream[..End(q, pos)]
    ensures Carries(q - {pos}, stream)
  {
  }

  lemma AllMissing(gaps: seq<Interval>)
    requires gaps == [Interval(0, MAX_BYTE_COUNT)]
    ensures forall b: nat :: Missing(gaps, b) <==> b < MAX_BYTE_COUNT
  {
    assert gaps[0] == Interval(0, MAX_BYTE_COUNT);
  }

  lemma OneGap(gaps: seq<Interval>, n: nat)
    requires GapsOk(gaps) && forall b: nat :: Missing(gaps, b) <==> n <= b < MAX_BYTE_COUNT
    ensures |gaps| == 1
  {
    if |gaps| > 1 {
      assert Missing(gaps, gaps[0].start);
      var atEnd := Missing(gaps, gaps[0].end);
      assert false;
    }
  }

  /** A reset after the FIN, before anything was read: the stream never completes, and the connection never gets its
      credit back. */
  method ResetAfterFin(data: seq<Byte>, now: int) returns (s: ReceiveStream)
    requires 0 < |data| < MAX_BYTE_COUNT
    ensures fresh(s) && s.Valid() && s.Stuck() && s.completions == 0
    ensures s.flow.connection.base.bytesRead == 0 && s.flow.connection.base.highestReceived == |data|
  {
    hide ReceiveStream.Valid, Missing, GapsOk, ReceiveStream.Faithful;
    var conn := new ConnectionFlowController(|data|, |data|);
    var flow := new StreamFlowController(conn, |data|, |data|, 0);
    s := new ReceiveStream(flow);
    AllMissing(s.frameQueue.gaps);
    var r := s.HandleStreamFrame(0, data, true, 0, now);
    OneGap(s.frameQueue.gaps, |data|);
    r := s.HandleResetStreamFrame(|data|, now);
    StuckIsIncomplete(s);
  }

  lemma StuckIsIncomplete(s: ReceiveStream)
    requires s.Valid() && s.Stuck()
    ensures s.completions == 0 && s.flow.Credit() == |s.delivered|
  {
  }
}
