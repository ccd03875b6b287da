/** The sending half of a stream: send_stream.go.

    A Write call holds the mutex except while it waits, so it is modelled by its start and by the
    passes through its loop.  `sendWindow` is what the flow controller grants. */
module SendStreams {
  import opened Common
  import opened StreamFrames

  datatype PopResult =
    | NoFrame(hasMore: bool)
    | Popped(frame: StreamFrame, hasMore: bool)
    | NilDereference

  datatype WriteStart = Refused | NothingToWrite | Started

  /** The result of a callback about a frame: a panic, or whether the stream was reported complete. */
  datatype CallbackResult = Panic | Notified(newlyCompleted: bool)

  datatype WriteOutcome = Done(n: nat) | MustWait

  ghost predicate Has(f: StreamFrame, b: nat) {
    f.offset <= b < f.offset + |f.data|
  }

  /** Frames that are in flight, queued for retransmission, or acknowledged. */
  function Frames(inflight: multiset<StreamFrame>, queue: seq<StreamFrame>, acked: set<StreamFrame>): set<StreamFrame> {
    (set f | f in inflight) + (set f | f in queue) + acked
  }

  /** Every byte up to an offset is in one of the frames. */
  ghost predicate Accounted(frames: set<StreamFrame>, end: nat) {
    forall b: nat :: b < end ==> InSome(frames, b)
  }

  ghost predicate InSome(frames: set<StreamFrame>, b: nat) {
    exists f :: f in frames && Has(f, b)
  }

  ghost predicate HasFin(frames: set<StreamFrame>) {
    exists f :: f in frames && f.fin
  }

  /** A frame carries accepted bytes at their offset, and a FIN only where the stream ends. */
  ghost predicate FrameOk(f: StreamFrame, accepted: seq<Byte>, writeOffset: nat, finSent: bool) {
    && f.offset + |f.data| <= writeOffset <= |accepted|
    && f.data == accepted[f.offset..f.offset + |f.data|]
    && |f.data| <= MAX_PACKET_BUFFER_SIZE
    && (f.fin ==> finSent && f.offset + |f.data| == |accepted|)
  }

  ghost predicate FramesOk(frames: set<StreamFrame>, accepted: seq<Byte>, writeOffset: nat, finSent: bool) {
    forall f :: f in frames ==> FrameOk(f, accepted, writeOffset, finSent)
  }

  /** A split frame is accounted for by its parts. */
  lemma SplitAccounted(frames: set<StreamFrame>, frames': set<StreamFrame>, end: nat, f: StreamFrame,
                       head: StreamFrame, tail: StreamFrame)
    requires Accounted(frames, end) && frames - {f} <= frames' && head in frames' && tail in frames'
    requires head.offset == f.offset && tail.offset == head.offset + |head.data|
    requires |head.data| + |tail.data| == |f.data|
    ensures Accounted(frames', end)
  {
    forall b: nat | b < end ensures InSome(frames', b) {
      assert InSome(frames, b);
      var g :| g in frames && Has(g, b);
      if g == f {
        assert Has(head, b) || Has(tail, b);
      } else {
        assert g in frames';
      }
    }
  }

  lemma NewFrameAccounted(frames: set<StreamFrame>, end: nat, f: StreamFrame)
    requires Accounted(frames, end) && f.offset == end
    ensures Accounted(frames + {f}, end + |f.data|)
  {
    forall b: nat | b < end + |f.data| ensures InSome(frames + {f}, b) {
      if b < end {
        assert InSome(frames, b);
        var g :| g in frames && Has(g, b);
        assert g in frames + {f};
      } else {
        assert f in frames + {f} && Has(f, b);
      }
    }
  }

  class SendStream {
    const streamID: nat
    var numOutstandingFrames: int
    var retransmissionQueue: seq<StreamFrame>
    var writeOffset: nat
    var cancelled: bool
    var shutdown: bool
    var finishedWriting: bool
    var finSent: bool
    var completed: bool
    var dataForWriting: Option<seq<Byte>>
    var nextFrame: Option<StreamFrame>

    ghost var accepted: seq<Byte>                // the bytes accepted by Write calls
    ghost var inflight: multiset<StreamFrame>    // popped, and neither acknowledged nor lost
    ghost var acked: set<StreamFrame>

    ghost function AllFrames(): set<StreamFrame>
      reads this`inflight, this`retransmissionQueue, this`acked
    {
      Frames(inflight, retransmissionQueue, acked)
    }

    /** What was accepted beyond an offset is buffered in the next frame. */
    ghost predicate BufferedFrom(end: nat)
      reads this`accepted, this`nextFrame, this`dataForWriting, this`finishedWriting, this`finSent
    {
      && end <= |accepted|
      && (nextFrame.None? ==> end == |accepted|)
      && (nextFrame.Some? ==>
            && nextFrame.value.offset == end
            && nextFrame.value.data == accepted[end..]
            && 0 < |nextFrame.value.data| <= MAX_PACKET_BUFFER_SIZE
            && !nextFrame.value.fin)
      && (dataForWriting.Some? ==> |dataForWriting.value| > 0)
      && (finSent ==> finishedWriting && dataForWriting.None? && nextFrame.None?)
    }

    ghost predicate Buffered()
      reads this`accepted, this`nextFrame, this`dataForWriting, this`finishedWriting, this`finSent, this`writeOffset
    {
      BufferedFrom(writeOffset)
    }

    /** Frames are counted, and nothing that was sent is forgotten; `extra` is a frame on its way out. */
    ghost predicate TrackedWith(extra: set<StreamFrame>)
      reads this
    {
      && FramesOk(AllFrames() + extra, accepted, writeOffset, finSent)
      && (!cancelled ==>
            && numOutstandingFrames == |inflight|
            && Accounted(AllFrames() + extra, writeOffset)
            && (finSent ==> HasFin(AllFrames() + extra)))
      && (cancelled ==> numOutstandingFrames == 0 && retransmissionQueue == [])
      && (completed ==> (finSent || cancelled) && numOutstandingFrames == 0 && retransmissionQueue == [])
    }

    ghost predicate Valid()
      reads this
    {
      Buffered() && TrackedWith({})
    }

    ghost predicate Pristine()
      reads this
    {
      && accepted == [] && writeOffset == 0 && inflight == multiset{} && acked == {} && dataForWriting.None?
      && nextFrame.None? && retransmissionQueue == []
      && !cancelled && !shutdown && !finishedWriting && !finSent && !completed
    }

    constructor (id: nat)
      ensures Valid() && Pristine() && streamID == id
    {
      streamID := id;
      numOutstandingFrames, retransmissionQueue, writeOffset := 0, [], 0;
      cancelled, shutdown, finishedWriting, finSent, completed := false, false, false, false, false;
      dataForWriting, nextFrame := None, None;
      accepted, inflight, acked := [], multiset{}, {};
    }

    // ----------------------------------------------------------------
    // Write
    // ----------------------------------------------------------------

    predicate CanBufferStreamFrame()
      reads this
    {
      |Held(nextFrame)| + |Pending(dataForWriting)| <= MAX_PACKET_BUFFER_SIZE
    }

    /** The checks at the start of Write; the caller hands over p. */
    method StartWrite(p: seq<Byte>, deadlinePassed: bool) returns (r: WriteStart)
      requires Valid()
      requires dataForWriting.None? || cancelled || shutdown // one Write at a time
      modifies this`dataForWriting
      ensures Valid()
      ensures r.Refused? <==> finishedWriting || cancelled || shutdown || deadlinePassed
      ensures r.Started? <==> !r.Refused? && |p| > 0
      ensures dataForWriting == if r.Started? then Some(p) else old(dataForWriting)
    {
      if finishedWriting || cancelled || shutdown || deadlinePassed {
        return Refused;
      }
      if |p| == 0 {
        return NothingToWrite;
      }
      dataForWriting := Some(p);
      return Started;
    }

    /** Copies what Write still holds into the next frame, to be popped later. */
    method BufferFrame()
      requires Valid() && dataForWriting.Some? && CanBufferStreamFrame()
      modifies this`dataForWriting, this`nextFrame, this`accepted
      ensures Valid() && dataForWriting.None?
      ensures accepted == old(accepted) + old(dataForWriting).value
    {
      var data := dataForWriting.value;
      FramesOkGrow(AllFrames(), accepted, data, writeOffset);
      if nextFrame.None? {
        nextFrame := Some(StreamFrame(writeOffset, data, false));
      } else {
        nextFrame := Some(nextFrame.value.(data := nextFrame.value.data + data));
      }
      dataForWriting := None;
      accepted := accepted + data;
    }

    /** One pass through the loop of Write(p), begun when `base` had been accepted.  When Write is done
        and reports n, exactly the first n bytes of p have been accepted.  The rest is accepted at once exactly if it
        fits into the buffer of the next frame. */
    method ContinueWrite(p: seq<Byte>, deadlinePassed: bool, ghost base: seq<Byte>) returns (r: WriteOutcome)
      requires Valid()
      requires base <= accepted && accepted + Pending(dataForWriting) == base + p
      modifies this`dataForWriting, this`nextFrame, this`accepted
      ensures Valid()
      ensures r.Done? ==> r.n <= |p| && accepted == base + p[..r.n] && (dataForWriting.None? || cancelled || shutdown)
      ensures old(accepted) <= accepted && (finSent ==> accepted == old(accepted)) && writeOffset <= |accepted|
      ensures old(dataForWriting).Some? ==>
                (accepted == old(accepted) + old(dataForWriting).value <==>
                   |Held(old(nextFrame))| + |old(dataForWriting).value| <= 1452)
      ensures if old(CanBufferStreamFrame() && dataForWriting.Some?) then r == Done(|p|) && dataForWriting.None?
              else
                && accepted == old(accepted) && nextFrame == old(nextFrame)
                && dataForWriting == (if deadlinePassed then None else old(dataForWriting))
                && (r.MustWait? <==> dataForWriting.Some? && !cancelled && !shutdown)
    {
      if CanBufferStreamFrame() && |Pending(dataForWriting)| > 0 {
        BufferFrame();
        assert p == p[..|p|];
        return Done(|p|);
      }
      TakenPart(accepted, Pending(dataForWriting), base, p);
      var bytesWritten := |p| - |Pending(dataForWriting)|;
      if deadlinePassed {
        dataForWriting := None;
        return Done(bytesWritten);
      }
      if dataForWriting.None? || cancelled || shutdown {
        return Done(bytesWritten);
      }
      return MustWait;
    }

    // ----------------------------------------------------------------
    // Sending
    // ----------------------------------------------------------------

    /** The frame at the head of the retransmission queue, or as much of it as fits. */
    method MaybeGetRetransmission(maxBytes: nat) returns (f: Option<StreamFrame>, hasMore: bool)
      requires Valid() && !cancelled && retransmissionQueue != []
      modifies this`retransmissionQueue
      ensures Buffered()
      ensures f.Some? ==> TrackedWith({f.value}) && !completed && FitsIn(f.value, maxBytes)
      ensures f.Some? ==> Taken(old(retransmissionQueue), f.value, retransmissionQueue)
      ensures f.None? ==> Valid() && retransmissionQueue == old(retransmissionQueue) && maxBytes < MIN_STREAM_FRAME_SIZE
      ensures hasMore <==> retransmissionQueue != []
      ensures f.Some? && f.value != old(retransmissionQueue)[0] ==>
                TooLong(streamID, f.value.offset, |f.value.data| + 1, maxBytes)
    {
      var first := retransmissionQueue[0];
      ghost var frames := AllFrames();
      assert first in frames && frames + {} == frames;
      hide Frames, Accounted, HasFin, MaybeSplitOff, TooLong;
      assert FrameOk(first, accepted, writeOffset, finSent);
      SplitKeepsContents(streamID, first, maxBytes);
      NoRoomForOneByte(streamID, first.offset, maxBytes);
      match MaybeSplitOff(streamID, first, maxBytes) {
        case NoRoom =>
          return None, true;
        case SplitOff(head, tail) =>
          FramesAfterSplit(inflight, retransmissionQueue, acked, tail);
          retransmissionQueue := retransmissionQueue[0 := tail];
          SplitTracked(frames, AllFrames() + {head}, accepted, writeOffset, finSent, first, head, tail);
          return Some(head), true;
        case Fits =>
          FramesAfterPop(inflight, retransmissionQueue, acked);
          retransmissionQueue := retransmissionQueue[1..];
          return Some(first), |retransmissionQueue| > 0;
      }
    }

    /** The frame is not longer than allowed, provided that there is room for a byte of data. */
    ghost predicate FitsIn(f: StreamFrame, maxBytes: nat) {
      MaxDataLen(streamID, f.offset, maxBytes) > 0 ==> Length(streamID, f) <= maxBytes
    }

    /** A frame with new data is as long as the window and the room allow, unless it took all that was buffered or, if
        nothing was, all that Write holds. */
    ghost predicate Filled(f: StreamFrame, maxBytes: nat, sendWindow: nat, buffered: bool)
      reads this`nextFrame, this`dataForWriting
    {
      (if buffered then nextFrame.Some? else dataForWriting.Some?) && |f.data| < sendWindow ==>
        TooLong(streamID, f.offset, |f.data| + 1, maxBytes)
    }

    /** Nothing is left to send. */
    predicate Idle()
      reads this
    {
      retransmissionQueue == [] && dataForWriting.None? && nextFrame.None? && (finishedWriting ==> finSent)
    }

    /** There is something to send that flow control allows; it does not limit retransmissions and a lone FIN. */
    predicate CanSend(sendWindow: nat)
      reads this
    {
      && !cancelled && !shutdown
      && (retransmissionQueue != [] ||
          (if dataForWriting.None? && nextFrame.None? then finishedWriting && !finSent else sendWindow > 0))
    }

    /** If the stream does not claim to have more, it will not be asked again: then it has nothing to send, or it has
        just reported that it is blocked.  It claims more than it has only after a retransmission, and after new data
        with a FIN. */
    ghost predicate MoreOk(r: PopResult, blocked: bool, retransmitting: bool)
      reads this
    {
      match r
      case NilDereference => true
      case NoFrame(hasMore) => hasMore <==>
                                 !cancelled && !shutdown && !Idle() && (retransmissionQueue != [] || !blocked)
      case Popped(f, hasMore) => if Idle() then hasMore ==> retransmitting || (f.fin && f.data != []) else hasMore
    }

    /** The buffered frame, or as much of it as may be sent. */
    method PopBufferedFrame(maxBytes: nat, sendWindow: nat) returns (f: StreamFrame, hasMore: bool)
      requires Buffered() && nextFrame.Some?
      modifies this`nextFrame
      ensures NewFrame(f) && BufferedFrom(writeOffset + |f.data|) && |f.data| <= sendWindow && FitsIn(f, maxBytes)
      ensures hasMore <==> nextFrame.Some? || dataForWriting.Some?
      ensures sendWindow > 0 && MaxDataLen(streamID, f.offset, maxBytes) > 0 ==> |f.data| > 0
      ensures Filled(f, maxBytes, sendWindow, true)
    {
      hide TooLong, MaxDataLen, Length;
      var next := nextFrame.value;
      var fits := MaxDataLen(streamID, next.offset, maxBytes);
      MaxDataLenIsMost(streamID, next.offset, maxBytes, fits + 1);
      var maxDataLen := if sendWindow < fits then sendWindow else fits;
      if |next.data| > maxDataLen {
        nextFrame := Some(StreamFrame(writeOffset + maxDataLen, next.data[maxDataLen..], false));
        f := next.(data := next.data[..maxDataLen]);
      } else {
        nextFrame := None;
        f := next;
      }
      if fits > 0 {
        MaxDataLenFits(streamID, next.offset, maxBytes, f.data, f.fin);
      }
      hasMore := nextFrame.Some? || dataForWriting.Some?;
    }

    /** Takes at most n bytes of what Write still holds. */
    method GetDataForWriting(n: nat) returns (data: seq<Byte>)
      requires dataForWriting.Some? && 0 < n && |dataForWriting.value| > 0
      modifies this`dataForWriting, this`accepted
      ensures |data| == Min(n, |old(dataForWriting).value|) && accepted == old(accepted) + data
      ensures accepted + Pending(dataForWriting) == old(accepted + Pending(dataForWriting))
      ensures if |old(dataForWriting).value| <= n then dataForWriting.None?
              else dataForWriting == Some(old(dataForWriting).value[n..])
    {
      data := dataForWriting.value;
      if |data| <= n {
        dataForWriting := None;
      } else {
        assert data == data[..n] + data[n..];
        dataForWriting := Some(data[n..]);
        data := data[..n];
      }
      accepted := accepted + data;
    }

    /** A new frame with data that Write still holds; no frame if not even one byte fits. */
    method PopUnbufferedFrame(maxBytes: nat, sendWindow: nat) returns (f: Option<StreamFrame>, hasMore: bool)
      requires Buffered() && nextFrame.None? && dataForWriting.Some?
      requires sendWindow > 0 && maxBytes <= MAX_PACKET_BUFFER_SIZE + 2
      modifies this`dataForWriting, this`accepted
      ensures accepted + Pending(dataForWriting) == old(accepted + Pending(dataForWriting)) && old(accepted) <= accepted
      ensures f.None? <==> MaxDataLen(streamID, writeOffset, maxBytes) == 0
      ensures f.Some? ==>
                NewFrame(f.value) && BufferedFrom(writeOffset + |f.value.data|) && |f.value.data| <= sendWindow
      ensures f.Some? ==> FitsIn(f.value, maxBytes) && |f.value.data| > 0
      ensures f.Some? ==> Filled(f.value, maxBytes, sendWindow, false)
      ensures f.None? ==> unchanged(this)
      ensures hasMore <==> dataForWriting.Some? || finishedWriting
    {
      hide TooLong, MaxDataLen, Length;
      var maxDataLen := MaxDataLen(streamID, writeOffset, maxBytes);
      MaxDataLenIsMost(streamID, writeOffset, maxBytes, maxDataLen + 1);
      if maxDataLen == 0 {
        return None, true;
      }
      var data := GetDataForWriting(if maxDataLen < sendWindow then maxDataLen else sendWindow);
      assert data == accepted[writeOffset..writeOffset + |data|];
      MaxDataLenFits(streamID, writeOffset, maxBytes, data, false);
      f := Some(StreamFrame(writeOffset, data, false));
      hasMore := dataForWriting.Some? || nextFrame.Some? || finishedWriting;
    }

    /** A frame with the next accepted bytes. */
    ghost predicate NewFrame(f: StreamFrame)
      reads this
    {
      && f.offset == writeOffset && writeOffset + |f.data| <= |accepted|
      && f.data == accepted[writeOffset..writeOffset + |f.data|]
      && |f.data| <= MAX_PACKET_BUFFER_SIZE && !f.fin
    }

    /** Sends the FIN along when nothing is left to send, and moves the write offset. */
    method FinishFrame(f: StreamFrame) returns (f': StreamFrame)
      requires TrackedWith({}) && !cancelled && !finSent && NewFrame(f) && BufferedFrom(writeOffset + |f.data|)
      modifies this`writeOffset, this`finSent
      ensures Buffered() && TrackedWith({f'}) && !completed
      ensures f' == f.(fin := finSent) && writeOffset == old(writeOffset) + |f.data|
      ensures finSent <==> finishedWriting && dataForWriting.None? && nextFrame.None?
    {
      ghost var frames := AllFrames();
      assert frames + {} == frames;
      writeOffset := writeOffset + |f.data|;
      f' := f.(fin := finishedWriting && dataForWriting.None? && nextFrame.None? && !finSent);
      if f'.fin {
        finSent := true;
      }
      NewFrameTracked(frames, accepted, old(writeOffset), f', finSent);
    }

    method PopNewOrRetransmittedStreamFrame(maxBytes: nat, sendWindow: nat, newlyBlocked: bool) returns (r: PopResult)
      requires Valid() && maxBytes <= MAX_PACKET_BUFFER_SIZE + 2
      modifies this`retransmissionQueue, this`nextFrame, this`dataForWriting, this`accepted, this`writeOffset
      modifies this`finSent
      ensures r.NilDereference? <==> old(NothingFits(maxBytes, sendWindow))
      ensures Buffered()
      ensures r.Popped? ==> TrackedWith({r.frame}) && !completed && !cancelled
      ensures r.NoFrame? ==> TrackedWith({})
      ensures r.Popped? ==> FitsIn(r.frame, maxBytes)
      ensures MoreOk(r, sendWindow == 0 && newlyBlocked, old(retransmissionQueue) != [])
      ensures maxBytes >= MIN_STREAM_FRAME_SIZE ==> (r.Popped? <==> old(CanSend(sendWindow)))
      ensures r.Popped? && old(retransmissionQueue) == [] ==>
                !old(finSent) && IsNewData(r.frame, old(writeOffset), writeOffset)
      ensures r.Popped? && old(retransmissionQueue) == [] && maxBytes >= MIN_STREAM_FRAME_SIZE ==>
                r.frame.data != [] || r.frame.fin
      ensures if r.Popped? && old(retransmissionQueue) != []
              then Taken(old(retransmissionQueue), r.frame, retransmissionQueue)
              else retransmissionQueue == old(retransmissionQueue)
      ensures r.Popped? ==>
                if old(retransmissionQueue) == [] then Filled(r.frame, maxBytes, sendWindow, old(nextFrame).Some?)
                else r.frame == old(retransmissionQueue)[0] ||
                     TooLong(streamID, r.frame.offset, |r.frame.data| + 1, maxBytes)
      ensures IsNext(r, old(writeOffset), writeOffset) && finSent == (old(finSent) || (r.Popped? && r.frame.fin))
      ensures old(writeOffset) <= writeOffset <= old(writeOffset) + sendWindow && writeOffset <= |accepted|
      ensures old(finSent) ==> finSent && accepted == old(accepted)
      ensures old(dataForWriting).None? ==> dataForWriting.None?
      ensures accepted + Pending(dataForWriting) == old(accepted + Pending(dataForWriting)) && old(accepted) <= accepted
    {
      hide TooLong;
      if cancelled || shutdown {
        return NoFrame(false);
      }
      if |retransmissionQueue| > 0 {
        var f, hasMoreRetransmissions := MaybeGetRetransmission(maxBytes);
        if f.Some? || hasMoreRetransmissions {
          if f.None? {
            return NoFrame(true);
          }
          assert f.value in AllFrames() + {f.value};
          return Popped(f.value, true);
        }
      }
      if |Pending(dataForWriting)| == 0 && nextFrame.None? {
        if finishedWriting && !finSent {
          var f := FinishFrame(StreamFrame(writeOffset, [], false));
          return Popped(f, false);
        }
        return NoFrame(false);
      }
      if sendWindow == 0 {
        return NoFrame(!newlyBlocked);
      }
      NoRoomForOneByte(streamID, writeOffset, maxBytes);
      r := PopNewStreamFrame(maxBytes, sendWindow);
    }

    method PopNewStreamFrame(maxBytes: nat, sendWindow: nat) returns (r: PopResult)
      requires Valid() && !cancelled && maxBytes <= MAX_PACKET_BUFFER_SIZE + 2 && sendWindow > 0
      requires retransmissionQueue == [] && (dataForWriting.Some? || nextFrame.Some?)
      modifies this`nextFrame, this`dataForWriting, this`accepted, this`writeOffset, this`finSent
      ensures r.NilDereference? <==> old(nextFrame.None? && MaxDataLen(streamID, writeOffset, maxBytes) == 0)
      ensures !r.NoFrame? && Buffered()
      ensures r.Popped? ==> TrackedWith({r.frame}) && !completed && FitsIn(r.frame, maxBytes) && MoreOk(r, false, false)
      ensures r.Popped? ==> !old(finSent) && IsNewData(r.frame, old(writeOffset), writeOffset)
      ensures r.Popped? && maxBytes >= MIN_STREAM_FRAME_SIZE ==> |r.frame.data| > 0
      ensures r.Popped? ==> Filled(r.frame, maxBytes, sendWindow, old(nextFrame).Some?)
      ensures old(writeOffset) <= writeOffset <= old(writeOffset) + sendWindow && (old(finSent) ==> finSent)
      ensures IsNext(r, old(writeOffset), writeOffset) && finSent == (old(finSent) || (r.Popped? && r.frame.fin))
      ensures accepted + Pending(dataForWriting) == old(accepted + Pending(dataForWriting)) && old(accepted) <= accepted
    {
      hide MaxDataLen, Accounted, HasFin, Frames, HeaderLen, TooLong;
      var f, hasMore;
      if nextFrame.Some? {
        var g;
        g, hasMore := PopBufferedFrame(maxBytes, sendWindow);
        f := Some(g);
      } else {
        FramesOkGrow(AllFrames() + {}, accepted, Pending(dataForWriting), writeOffset);
        f, hasMore := PopUnbufferedFrame(maxBytes, sendWindow);
        if f.None? {
          return NilDereference;
        }
      }
      NoRoomForOneByte(streamID, writeOffset, maxBytes);
      var g := FinishFrame(f.value);
      return Popped(g, hasMore);
    }

    /** The next STREAM frame to send, if any. */
    method PopStreamFrame(maxBytes: nat, sendWindow: nat, newlyBlocked: bool) returns (r: PopResult)
      requires Valid() && maxBytes <= MAX_PACKET_BUFFER_SIZE + 2
      modifies this
      ensures r.NilDereference? <==> old(NothingFits(maxBytes, sendWindow))
      ensures !r.NilDereference? ==> Valid()
      ensures r.Popped? ==>
                inflight == old(inflight) + multiset{r.frame} && FrameOk(r.frame, accepted, writeOffset, finSent)
      ensures r.NoFrame? ==> inflight == old(inflight)
      ensures r.Popped? ==> FitsIn(r.frame, maxBytes)
      ensures MoreOk(r, sendWindow == 0 && newlyBlocked, old(retransmissionQueue) != [])
      ensures maxBytes >= MIN_STREAM_FRAME_SIZE ==> (r.Popped? <==> old(CanSend(sendWindow)))
      ensures r.Popped? && old(retransmissionQueue) == [] ==>
                !old(finSent) && IsNewData(r.frame, old(writeOffset), writeOffset)
      ensures r.Popped? && old(retransmissionQueue) == [] && maxBytes >= MIN_STREAM_FRAME_SIZE ==>
                r.frame.data != [] || r.frame.fin
      ensures if r.Popped? && old(retransmissionQueue) != []
              then Taken(old(retransmissionQueue), r.frame, retransmissionQueue)
              else retransmissionQueue == old(retransmissionQueue)
      ensures r.Popped? ==>
                if old(retransmissionQueue) == [] then Filled(r.frame, maxBytes, sendWindow, old(nextFrame).Some?)
                else r.frame == old(retransmissionQueue)[0] ||
                     TooLong(streamID, r.frame.offset, |r.frame.data| + 1, maxBytes)
      ensures accepted + Pending(dataForWriting) == old(accepted + Pending(dataForWriting)) && old(accepted) <= accepted
      ensures cancelled == old(cancelled) && shutdown == old(shutdown) && finishedWriting == old(finishedWriting)
      ensures acked == old(acked) && completed == old(completed)
      ensures IsNext(r, old(writeOffset), writeOffset) && finSent == (old(finSent) || (r.Popped? && r.frame.fin))
      ensures old(writeOffset) <= writeOffset <= old(writeOffset) + sendWindow && writeOffset <= |accepted|
      ensures old(finSent) ==> finSent && accepted == old(accepted)
      ensures old(dataForWriting).None? ==> dataForWriting.None?
    {
      hide TrackedWith, BufferedFrom, FrameOk, Taken, FitsIn, CanSend, TooLong;
      r := PopNewOrRetransmittedStreamFrame(maxBytes, sendWindow, newlyBlocked);
      if r.Popped? {
        CountFrame(r.frame);
      }
    }

    method CountFrame(f: StreamFrame)
      requires Buffered() && TrackedWith({f}) && !completed && !cancelled
      modifies this`numOutstandingFrames, this`inflight
      ensures Valid() && inflight == old(inflight) + multiset{f} && FrameOk(f, accepted, writeOffset, finSent)
    {
      assert f in AllFrames() + {f};
      FramesAfterSend(inflight, retransmissionQueue, acked, f);
      numOutstandingFrames := numOutstandingFrames + 1;
      inflight := inflight + multiset{f};
      assert AllFrames() + {} == old(AllFrames()) + {f};
    }

    // ----------------------------------------------------------------
    // Acknowledgement, loss, and the end of the stream
    // ----------------------------------------------------------------

    method IsNewlyCompleted() returns (newly: bool)
      modifies this`completed
      ensures old(Valid()) ==> Valid()
      ensures completed ==
                old(completed || ((finSent || cancelled) && numOutstandingFrames == 0 && retransmissionQueue == []))
      ensures newly <==> completed && !old(completed)
    {
      var done := (finSent || cancelled) && numOutstandingFrames == 0 && |retransmissionQueue| == 0;
      if done && !completed {
        completed := true;
        return true;
      }
      return false;
    }

    /** When nothing is in flight or queued after the FIN was sent, everything was acknowledged. */
    lemma NothingOutstanding()
      requires Valid() && !cancelled && finSent && inflight == multiset{} && retransmissionQueue == []
      ensures Accounted(acked, |accepted|) && HasFin(acked)
    {
      OnlyAcked(acked);
      hide FrameOk, FramesOk, Frames, Accounted, HasFin;
      assert acked + {} == acked;
    }

    /** One frame less is outstanding, unless the stream was cancelled; false if there was none. */
    method CountDown(f: StreamFrame) returns (ok: bool)
      requires Valid()
      modifies this`numOutstandingFrames, this`inflight, this`acked
      ensures ok <==> cancelled || old(inflight) != multiset{}
      ensures numOutstandingFrames == if cancelled then old(numOutstandingFrames) else old(numOutstandingFrames) - 1
      ensures f in old(inflight) ==> Valid() && inflight == old(inflight) - multiset{f} && acked == old(acked) + {f}
    {
      hide FrameOk, FramesOk, Frames, Accounted, HasFin, BufferedFrom;
      if f in inflight {
        FramesAfterAck(inflight, retransmissionQueue, acked, f);
        inflight, acked := inflight - multiset{f}, acked + {f};
      }
      if !cancelled {
        numOutstandingFrames := numOutstandingFrames - 1;
      }
      ok := cancelled || numOutstandingFrames >= 0;
    }

    /** A frame is acknowledged.  The source panics exactly if the stream was not cancelled and no frame is in
        flight.  For a frame in flight, the stream is reported complete at most once, and, unless it was cancelled,
        only when every accepted byte and the FIN have been acknowledged. */
    method OnAcked(f: StreamFrame) returns (r: CallbackResult)
      requires Valid()
      modifies this`numOutstandingFrames, this`completed, this`inflight, this`acked
      ensures r.Panic? <==> !cancelled && old(inflight) == multiset{}
      ensures f in old(inflight) ==> Valid() && inflight == old(inflight) - multiset{f} && acked == old(acked) + {f}
      ensures f in old(inflight) ==>
                (completed <==>
                   old(completed) || (!cancelled && finSent && inflight == multiset{} && retransmissionQueue == []))
      ensures f in old(inflight) ==> (r == Notified(true) <==> completed && !old(completed))
      ensures f in old(inflight) && r == Notified(true) && !cancelled ==> Accounted(acked, |accepted|) && HasFin(acked)
    {
      hide FrameOk, FramesOk, Frames, Accounted, HasFin, BufferedFrom;
      var ok := CountDown(f);
      if cancelled {
        return Notified(false);
      }
      if !ok {
        return Panic;
      }
      var newlyCompleted := IsNewlyCompleted();
      if newlyCompleted && f in old(inflight) {
        NothingOutstanding();
      }
      return Notified(newlyCompleted);
    }

    /** A lost frame is queued for retransmission.  The source panics exactly if the stream was not cancelled and no
        frame is in flight. */
    method OnLost(f: StreamFrame) returns (r: CallbackResult)
      requires Valid()
      modifies this`numOutstandingFrames, this`retransmissionQueue, this`inflight
      ensures r.Panic? <==> !cancelled && old(inflight) == multiset{}
      ensures retransmissionQueue == if cancelled then old(retransmissionQueue) else old(retransmissionQueue) + [f]
      ensures f in old(inflight) ==> Valid() && inflight == old(inflight) - multiset{f}
    {
      hide FrameOk, Frames, Accounted, HasFin, BufferedFrom;
      if f in inflight {
        FramesAfterLoss(inflight, retransmissionQueue, acked, f);
        inflight := inflight - multiset{f};
      }
      if cancelled {
        return Notified(false);
      }
      retransmissionQueue := retransmissionQueue + [f];
      numOutstandingFrames := numOutstandingFrames - 1;
      return if numOutstandingFrames < 0 then Panic else Notified(false);
    }

    method Close() returns (ok: bool)
      requires Valid()
      modifies this`finishedWriting
      ensures Valid()
      ensures finishedWriting == (old(finishedWriting) || (!shutdown && !cancelled))
      ensures ok <==> shutdown || !cancelled
    {
      if shutdown {
        return true;
      }
      if cancelled {
        return false;
      }
      finishedWriting := true;
      return true;
    }

    method CancelWrite() returns (newlyCompleted: bool)
      requires Valid()
      modifies this`cancelled, this`numOutstandingFrames, this`retransmissionQueue, this`completed
      ensures Valid() && cancelled
      ensures completed <==> old(completed) || !old(cancelled)
      ensures newlyCompleted <==> completed && !old(completed)
    {
      if cancelled {
        return false;
      }
      cancelled := true;
      numOutstandingFrames := 0;
      retransmissionQueue := [];
      assert AllFrames() <= old(AllFrames());
      newlyCompleted := IsNewlyCompleted();
    }

    method CloseForShutdown()
      requires Valid()
      modifies this`shutdown
      ensures Valid() && shutdown
    {
      shutdown := true;
    }

    /** Pending data, nothing buffered, and no room for the header of a frame with a single byte. */
    ghost predicate NothingFits(maxBytes: nat, sendWindow: nat)
      reads this
    {
      && !cancelled && !shutdown && retransmissionQueue == [] && nextFrame.None? && dataForWriting.Some?
      && sendWindow > 0
      && MaxDataLen(streamID, writeOffset, maxBytes) == 0
    }
  }

  /** A frame is taken from the front of the queue, whole or split at some byte. */
  ghost predicate Taken(queue: seq<StreamFrame>, f: StreamFrame, queue': seq<StreamFrame>)
    requires queue != []
  {
    || (f == queue[0] && queue' == queue[1..])
    || (|queue'| == |queue| && queue'[1..] == queue[1..] && SplitInto(queue[0], f, queue'[0]))
  }

  ghost predicate SplitInto(f: StreamFrame, head: StreamFrame, tail: StreamFrame) {
    && head.data + tail.data == f.data && 0 < |head.data| < |f.data|
    && head.offset == f.offset && tail.offset == f.offset + |head.data| && !head.fin && tail.fin == f.fin
  }

  /** A frame with exactly the bytes between two write offsets. */
  ghost predicate IsNewData(f: StreamFrame, before: nat, after: nat) {
    f.offset == before && before + |f.data| == after
  }

  /** The write offset moves only by popping a frame with the new bytes. */
  ghost predicate IsNext(r: PopResult, before: nat, after: nat) {
    before == after || (r.Popped? && IsNewData(r.frame, before, after))
  }

  function Pending(data: Option<seq<Byte>>): seq<Byte> {
    if data.Some? then data.value else []
  }

  function Held(f: Option<StreamFrame>): seq<Byte> {
    if f.Some? then f.value.data else []
  }

  /** Accepting more bytes does not disturb the frames that were sent, as long as the FIN was not. */
  lemma FramesOkGrow(frames: set<StreamFrame>, accepted: seq<Byte>, more: seq<Byte>, writeOffset: nat)
    requires FramesOk(frames, accepted, writeOffset, false)
    ensures FramesOk(frames, accepted + more, writeOffset, false)
  {
  }

  lemma FramesAfterSend(inflight: multiset<StreamFrame>, queue: seq<StreamFrame>, acked: set<StreamFrame>,
                        f: StreamFrame)
    ensures Frames(inflight + multiset{f}, queue, acked) == Frames(inflight, queue, acked) + {f}
  {
  }

  lemma FramesAfterAck(inflight: multiset<StreamFrame>, queue: seq<StreamFrame>, acked: set<StreamFrame>,
                       f: StreamFrame)
    requires f in inflight
    ensures Frames(inflight - multiset{f}, queue, acked + {f}) == Frames(inflight, queue, acked)
    ensures |inflight - multiset{f}| == |inflight| - 1
  {
  }

  lemma OnlyAcked(acked: set<StreamFrame>)
    ensures Frames(multiset{}, [], acked) == acked
  {
  }

  lemma FramesAfterLoss(inflight: multiset<StreamFrame>, queue: seq<StreamFrame>, acked: set<StreamFrame>,
                        f: StreamFrame)
    requires f in inflight
    ensures Frames(inflight - multiset{f}, queue + [f], acked) == Frames(inflight, queue, acked)
    ensures Frames(inflight - multiset{f}, queue, acked) <= Frames(inflight, queue, acked)
    ensures |inflight - multiset{f}| == |inflight| - 1
  {
  }

  lemma NewFrameTracked(frames: set<StreamFrame>, accepted: seq<Byte>, writeOffset: nat, f: StreamFrame, finSent: bool)
    requires FramesOk(frames, accepted, writeOffset, false) && Accounted(frames, writeOffset)
    requires f.offset == writeOffset && FrameOk(f, accepted, writeOffset + |f.data|, finSent) && (finSent ==> f.fin)
    ensures FramesOk(frames + {f}, accepted, writeOffset + |f.data|, finSent)
    ensures Accounted(frames + {f}, writeOffset + |f.data|)
    ensures finSent ==> HasFin(frames + {f})
  {
    NewFrameAccounted(frames, writeOffset, f);
    assert f in frames + {f};
  }

  lemma FramesAfterSplit(inflight: multiset<StreamFrame>, queue: seq<StreamFrame>, acked: set<StreamFrame>,
                         tail: StreamFrame)
    requires queue != []
    ensures var before, after := Frames(inflight, queue, acked), Frames(inflight, queue[0 := tail], acked);
            queue[0] in before && tail in after && before - {queue[0]} <= after <= before + {tail}
  {
    var queue' := queue[0 := tail];
    assert queue'[0] == tail;
    forall f | f in queue && f != queue[0] ensures f in queue' {
      var i :| 0 <= i < |queue| && queue[i] == f;
      assert queue'[i] == f;
    }
  }

  lemma FramesAfterPop(inflight: multiset<StreamFrame>, queue: seq<StreamFrame>, acked: set<StreamFrame>)
    requires queue != []
    ensures Frames(inflight, queue[1..], acked) + {queue[0]} == Frames(inflight, queue, acked)
  {
  }

  lemma SplitTracked(frames: set<StreamFrame>, frames': set<StreamFrame>, accepted: seq<Byte>, writeOffset: nat,
                     finSent: bool, f: StreamFrame, head: StreamFrame, tail: StreamFrame)
    requires FramesOk(frames, accepted, writeOffset, finSent) && Accounted(frames, writeOffset)
    requires (finSent ==> HasFin(frames))
    requires f in frames && frames - {f} <= frames' <= frames + {head, tail} && head in frames' && tail in frames'
    requires head.data + tail.data == f.data && head.offset == f.offset && tail.offset == f.offset + |head.data|
    requires !head.fin && tail.fin == f.fin
    ensures FramesOk(frames', accepted, writeOffset, finSent) && Accounted(frames', writeOffset)
    ensures (finSent ==> HasFin(frames'))
  {
    SplitAccounted(frames, frames', writeOffset, f, head, tail);
    assert head.data == f.data[..|head.data|] && tail.data == f.data[|head.data|..];
    assert FrameOk(f, accepted, writeOffset, finSent);
    assert FrameOk(head, accepted, writeOffset, finSent);
    assert FrameOk(tail, accepted, writeOffset, finSent);
    if finSent {
      var g :| g in frames && g.fin;
      assert g in frames' || tail.fin;
    }
  }

  lemma TakenPart(accepted: seq<Byte>, pending: seq<Byte>, base: seq<Byte>, p: seq<Byte>)
    requires accepted + pending == base + p && |base| <= |accepted|
    ensures |pending| <= |p| && accepted == base + p[..|p| - |pending|]
  {
    assert accepted == (accepted + pending)[..|accepted|];
  }

  /** A write that is too long to be buffered, followed by a request for a frame with no room for a byte, ends in a
      nil dereference. */
  method RoomForNothing(id: nat, p: seq<Byte>, maxBytes: nat, sendWindow: nat) returns (r: PopResult)
    requires |p| > MAX_PACKET_BUFFER_SIZE && MaxDataLen(id, 0, maxBytes) == 0 && sendWindow > 0
    ensures r == NilDereference
  {
    hide SendStream.Valid, SendStream.CanSend, MaxDataLen;
    var s := new SendStream(id);
    var started := s.StartWrite(p, false);
    var pass := s.ContinueWrite(p, false, []);
    RoomIsSmall(id, maxBytes);
    r := s.PopStreamFrame(maxBytes, sendWindow, false);
  }

  lemma RoomIsSmall(id: nat, maxBytes: nat)
    requires MaxDataLen(id, 0, maxBytes) == 0
    ensures maxBytes <= MAX_PACKET_BUFFER_SIZE
  {
  }
}
