/** A send stream and a receive stream, with their flow controllers, over a network that loses,
    reorders and duplicates frames.

    `network` remembers every STREAM frame that was sent, `limits` and `connLimits` every window that was
    advertised; any of them can be delivered at any time, any number of times. */
module StreamDelivery {
  import opened Common
  import opened StreamFrames
  import opened SendStreams
  import opened FrameSorting
  import opened FlowControl
  import opened ReceiveStreams
  import opened StreamNetwork

  class Pair {
    const sender: SendStream
    const receiver: ReceiveStream
    const sendFlow: StreamFlowController
    var network: seq<StreamFrame>
    var outstanding: multiset<StreamFrame>
    var limits: seq<nat>
    var connLimits: seq<nat>
    var nextCallback: Callback
    var writing: Option<seq<Byte>>  // the argument of the Write call in progress
    var written: seq<Byte>          // what finished Write calls have reported as written
    var completions: nat            // how often the sender reported the stream complete
    var out: seq<Byte>              // what Read calls have returned
    var eof: bool                   // whether one of them has returned EOF
    ghost var arrived: set<nat>     // the bytes of the frames that were delivered

    ghost function Parts(): set<object>
      reads this
    {
      {this, sender, receiver, sendFlow, sendFlow.connection, receiver.flow, receiver.flow.connection,
       receiver.frameQueue}
    }

    ghost predicate SendSideFor(network: seq<StreamFrame>, outstanding: multiset<StreamFrame>)
      reads this`writing, this`written, this`completions, sender
    {
      && sender.Valid() && !sender.cancelled && !sender.shutdown
      && sender.inflight == outstanding
      && NetworkOk(network, outstanding, sender.accepted, sender.writeOffset, sender.finSent)
      && completions == (if sender.completed then 1 else 0)
      && (sender.finSent && outstanding == multiset{} && sender.retransmissionQueue == [] ==> sender.completed)
      && (writing.None? ==> sender.dataForWriting.None?)
      && written <= sender.accepted
      && sender.accepted + Pending(sender.dataForWriting) == written + Pending(writing)
      && |sender.accepted| + |Pending(sender.dataForWriting)| < MAX_BYTE_COUNT
    }

    ghost predicate SendSide()
      reads this`network, this`outstanding, this`writing, this`written, this`completions, sender
    {
      SendSideFor(network, outstanding)
    }

    /** Every window that the receiver has granted was advertised. */
    ghost predicate FlowSide(writeOffset: nat, windows: (nat, nat, nat, nat))
      reads this`limits, this`connLimits, sendFlow, sendFlow.connection
    {
      && sendFlow.base.bytesSent == sendFlow.connection.base.bytesSent == writeOffset
      && writeOffset <= sendFlow.base.sendWindow <= windows.0
      && writeOffset <= sendFlow.connection.base.sendWindow <= windows.1
      && (forall l :: l in limits ==> l <= windows.0)
      && (forall l :: l in connLimits ==> l <= windows.1)
      && (windows.0 <= sendFlow.base.sendWindow || windows.0 in limits)
      && (windows.1 <= sendFlow.connection.base.sendWindow || windows.1 in connLimits)
    }

    ghost predicate ReceiveSide(accepted: seq<Byte>, writeOffset: nat, finSent: bool)
      reads this`out, this`eof, this`arrived, this`nextCallback, receiver, receiver.flow, receiver.flow.connection
      reads receiver.frameQueue
    {
      && receiver.Valid() && !receiver.cancelled && !receiver.resetRemotely && !receiver.shutdown
      && receiver.Faithful(accepted)
      && receiver.delivered == out && receiver.finRead == eof
      && GapsAre(receiver.frameQueue.gaps, arrived)
      && (receiver.FinalKnown() ==> finSent && receiver.finalOffset == |accepted|)
      && receiver.flow.base.highestReceived <= writeOffset
      && receiver.flow.OthersReceived() == 0 && receiver.flow.OthersCredit() == 0
      && receiver.flow.WindowsOk()
      && (forall id :: id in receiver.frameQueue.fate ==> id < nextCallback)
    }

    ghost predicate Valid()
      reads this, Parts()
    {
      && sendFlow != receiver.flow && sendFlow.connection != receiver.flow.connection
      && SendSide()
      && FlowSide(sender.writeOffset, receiver.flow.Windows())
      && ReceiveSide(sender.accepted, sender.writeOffset, sender.finSent)
    }

    /** Both windows start out as the limits the receiver has granted. */
    constructor (sender: SendStream, receiver: ReceiveStream, sendFlow: StreamFlowController)
      requires sendFlow != receiver.flow && sendFlow.connection != receiver.flow.connection
      requires sender.Valid() && sender.Pristine()
      requires receiver.Valid() && receiver.Pristine() && receiver.flow.WindowsOk()
      requires receiver.flow.OthersReceived() == 0 && receiver.flow.OthersCredit() == 0
      requires sendFlow.base.bytesSent == sendFlow.connection.base.bytesSent == 0
      requires (sendFlow.base.sendWindow, sendFlow.connection.base.sendWindow) ==
                 (receiver.flow.Windows().0, receiver.flow.Windows().1)
      ensures Valid() && Seen() == Ledger([], None, false, [], {}, [], false, 0)
      ensures this.sender == sender && this.receiver == receiver && this.sendFlow == sendFlow
    {
      this.sender, this.receiver, this.sendFlow := sender, receiver, sendFlow;
      network, outstanding, limits, connLimits, nextCallback := [], multiset{}, [], [], 0;
      writing, written, completions, out, eof, arrived := None, [], 0, [], false, {};
      new;
      hide SendStream.Valid, ReceiveStream.Valid, ReceiveStream.Faithful, NetworkOk;
      NothingSent();
    }

    ghost function Seen(): Ledger
      reads this, sender`finishedWriting
    {
      Ledger(written, writing, sender.finishedWriting, network, arrived, out, eof, completions)
    }

    /** A measure of what is left to send. */
    ghost function Left(): int
      reads sender
    {
      Weight(sender.retransmissionQueue) + |sender.accepted + Pending(sender.dataForWriting)| - sender.writeOffset
      + (if sender.finSent then 0 else 1)
    }

    // ----------------------------------------------------------------
    // The sender's side
    // ----------------------------------------------------------------

    /** Stream offsets stay below 2^62 - 1. */
    method DoWrite(p: seq<Byte>) returns (taken: bool)
      requires Valid()
      modifies sender, this`writing
      ensures Valid() && receiver.flow.Windows() == old(receiver.flow.Windows())
      ensures taken <==>
                old(writing).None? && !old(sender.finishedWriting) && 0 < |p| && |old(written)| + |p| < MAX_BYTE_COUNT
      ensures Seen() == if taken then old(Seen()).(writing := Some(p)) else old(Seen())
    {
      hide FrameOk, ReceiveSide, FlowSide, SendStream.Valid, NetworkOk;
      taken := false;
      if writing.None? && |written| + |p| < MAX_BYTE_COUNT {
        var r := sender.StartWrite(p, false);
        if r.Started? {
          writing, taken := Some(p), true;
        }
      }
    }

    method ContinueWriting(deadlinePassed: bool) returns (n: Option<nat>)
      requires SendSide() && writing.Some?
      modifies sender, this`written, this`writing
      ensures SendSide() && old(sender.accepted) <= sender.accepted && sender.writeOffset == old(sender.writeOffset)
      ensures sender.finSent == old(sender.finSent) && (sender.finSent ==> sender.accepted == old(sender.accepted))
      ensures sender.finishedWriting == old(sender.finishedWriting)
      ensures deadlinePassed || old(sender.dataForWriting.None? || sender.CanBufferStreamFrame()) ==> n.Some?
      ensures if n.Some? then n.value <= |old(writing).value| &&
                              written == old(written) + old(writing).value[..n.value] && writing.None?
              else written == old(written) && writing == old(writing)
    {
      hide FrameOk, SendStream.Valid, NetworkOk;
      n := None;
      ghost var accepted := sender.accepted;
      var r := sender.ContinueWrite(writing.value, deadlinePassed, written);
      NetworkMoves(network, outstanding, NoFrame(false), accepted, sender.accepted, sender.writeOffset,
                   sender.writeOffset, sender.finSent, sender.finSent);
      if r.Done? {
        n := Some(r.n);
        written, writing := written + writing.value[..r.n], None;
      }
    }

    method DoContinueWrite(deadlinePassed: bool) returns (n: Option<nat>)
      requires Valid()
      modifies sender, this`written, this`writing
      ensures Valid() && receiver.flow.Windows() == old(receiver.flow.Windows())
      ensures n.Some? ==> old(writing).Some? && n.value <= |old(writing).value|
      ensures old(writing).Some? && n.None? ==>
                !deadlinePassed && old(sender.dataForWriting.Some? && !sender.CanBufferStreamFrame())
      ensures Seen() == if n.Some? then old(Seen()).(written := old(written) + old(writing).value[..n.value],
                                                     writing := None)
                        else old(Seen())
    {
      hide SendSideFor, ReceiveSide, FlowSide;
      n := None;
      if writing.Some? {
        n := ContinueWriting(deadlinePassed);
        SenderMoves(old(sender.accepted), old(sender.writeOffset), old(sender.finSent));
      }
    }

    method DoClose()
      requires Valid()
      modifies sender
      ensures Valid() && receiver.flow.Windows() == old(receiver.flow.Windows())
      ensures Seen() == old(Seen()).(closed := true)
    {
      hide FrameOk, ReceiveSide, FlowSide, SendStream.Valid, NetworkOk;
      var _ := sender.Close();
    }

    /** New bytes are charged to both levels of flow control. */
    method ChargeSent(n: nat, ghost writeOffset: nat, ghost windows: (nat, nat, nat, nat))
      requires FlowSide(writeOffset, windows) && n <= sendFlow.SendLimit()
      modifies sendFlow`base, sendFlow.connection
      ensures FlowSide(writeOffset + n, windows)
    {
      sendFlow.AddBytesSent(n);
    }

    /** A frame that is sent carries a part of what the application has asked to send. */
    lemma SentIsPart(f: StreamFrame)
      requires SendSide() && FrameOk(f, sender.accepted, sender.writeOffset, sender.finSent)
      ensures IsPart(f, Offered(Seen()), sender.finishedWriting)
    {
      hide NetworkOk, SendStream.TrackedWith;
      var offered := sender.accepted + Pending(sender.dataForWriting);
      assert sender.accepted == offered[..|sender.accepted|];
    }

    /** The framer asks for a frame; it leaves at least MIN_STREAM_FRAME_SIZE bytes of room. */
    method PopFrame(maxBytes: nat, newlyBlocked: bool) returns (r: PopResult)
      requires Valid() && MIN_STREAM_FRAME_SIZE <= maxBytes <= MAX_PACKET_BUFFER_SIZE + 2
      modifies sender
      ensures !r.NilDereference?
      ensures if r.Popped? then SendSideFor(network + [r.frame], outstanding + multiset{r.frame}) else SendSide()
      ensures r.Popped? ==> FrameOk(r.frame, sender.accepted, sender.writeOffset, sender.finSent)
      ensures ReceiveSide(sender.accepted, sender.writeOffset, sender.finSent)
      ensures old(sender.writeOffset) <= sender.writeOffset <= old(sender.writeOffset) + sendFlow.SendLimit()
      ensures sender.finishedWriting == old(sender.finishedWriting)
      ensures old(sender.CanSend(sendFlow.SendLimit())) ==> r.Popped? && Left() < old(Left())
    {
      hide FrameOk, ReceiveSide, FlowSide, SendStream.Valid, NetworkOk, IsNext, IsNewData, SendStream.CanSend;
      hide SendStream.MoreOk, SendStream.FitsIn, Taken;
      ghost var accepted, finSent := sender.accepted, sender.finSent;
      ghost var offset := sender.writeOffset;
      NoRoomForOneByte(sender.streamID, sender.writeOffset, maxBytes);
      r := sender.PopStreamFrame(maxBytes, sendFlow.SendLimit(), newlyBlocked);
      SenderMoves(accepted, offset, finSent);
      NetworkMoves(network, outstanding, r, accepted, sender.accepted, offset, sender.writeOffset, finSent,
                   sender.finSent);
      LeftAfterSend(old(sender.retransmissionQueue), sender.retransmissionQueue, r, offset, sender.writeOffset,
                    finSent, sender.finSent);
    }

    method DoSend(maxBytes: nat, newlyBlocked: bool) returns (f: Option<StreamFrame>)
      requires Valid()
      modifies sender, sendFlow, sendFlow.connection, this`network, this`outstanding
      ensures Valid() && receiver.flow.Windows() == old(receiver.flow.Windows())
      ensures Seen() == if f.Some? then old(Seen()).(sent := old(network) + [f.value]) else old(Seen())
      ensures f.Some? ==> IsPart(f.value, Offered(Seen()), sender.finishedWriting)
      ensures MIN_STREAM_FRAME_SIZE <= maxBytes <= MAX_PACKET_BUFFER_SIZE + 2 &&
              old(sender.CanSend(sendFlow.SendLimit())) ==>
                f.Some? && Left() < old(Left())
    {
      hide FrameOk, ReceiveSide, FlowSide, SendSideFor, IsPart, Offered, SendStream.CanSend;
      f := None;
      if MIN_STREAM_FRAME_SIZE <= maxBytes <= MAX_PACKET_BUFFER_SIZE + 2 {
        var offset := sender.writeOffset;
        var r := PopFrame(maxBytes, newlyBlocked);
        ChargeSent(sender.writeOffset - offset, offset, receiver.flow.Windows());
        if r.Popped? {
          f := Some(r.frame);
          network, outstanding := network + [r.frame], outstanding + multiset{r.frame};
          SentIsPart(r.frame);
        }
      }
    }

    method AcknowledgeFrame(f: StreamFrame) returns (newlyCompleted: bool)
      requires SendSide() && f in outstanding
      modifies sender`numOutstandingFrames, sender`completed, sender`inflight, sender`acked, this`outstanding
      modifies this`completions
      ensures SendSide() && outstanding == old(outstanding) - multiset{f}
      ensures completions == old(completions) + (if newlyCompleted then 1 else 0) && (newlyCompleted ==> sender.finSent)
    {
      hide FrameOk, SendStream.Valid, NetworkOk, Accounted, HasFin, Pending;
      NetworkKept(network, outstanding, f, sender.accepted, sender.writeOffset, sender.finSent);
      var r := sender.OnAcked(f);
      outstanding := outstanding - multiset{f};
      newlyCompleted := r == Notified(true);
      if newlyCompleted {
        completions := completions + 1;
      }
    }

    method DoAcknowledge(i: nat) returns (newlyCompleted: bool)
      requires Valid()
      modifies sender, this`outstanding, this`completions
      ensures Valid() && receiver.flow.Windows() == old(receiver.flow.Windows())
      ensures Seen() == old(Seen()).(completions := completions)
      ensures completions == old(completions) + if newlyCompleted then 1 else 0
      ensures newlyCompleted ==> sender.finSent
      ensures i < |network| ==>
                outstanding == if network[i] in old(outstanding) then old(outstanding) - multiset{network[i]}
                               else old(outstanding)
      ensures sender.retransmissionQueue == old(sender.retransmissionQueue) && sender.finSent == old(sender.finSent)
    {
      hide SendSideFor, ReceiveSide, FlowSide;
      newlyCompleted := false;
      if i < |network| && network[i] in outstanding {
        newlyCompleted := AcknowledgeFrame(network[i]);
      }
    }

    method LoseFrame(f: StreamFrame)
      requires SendSide() && f in outstanding
      modifies sender`numOutstandingFrames, sender`retransmissionQueue, sender`inflight, this`outstanding
      ensures SendSide() && outstanding == old(outstanding) - multiset{f}
    {
      hide FrameOk, SendStream.Valid, NetworkOk, Accounted, HasFin, Pending;
      NetworkKept(network, outstanding, f, sender.accepted, sender.writeOffset, sender.finSent);
      var _ := sender.OnLost(f);
      outstanding := outstanding - multiset{f};
    }

    method DoLose(i: nat)
      requires Valid()
      modifies sender, this`outstanding
      ensures Valid() && receiver.flow.Windows() == old(receiver.flow.Windows()) && Seen() == old(Seen())
      ensures i < |network| ==>
                outstanding == if network[i] in old(outstanding) then old(outstanding) - multiset{network[i]}
                               else old(outstanding)
    {
      hide SendSideFor, ReceiveSide, FlowSide;
      if i < |network| && network[i] in outstanding {
        LoseFrame(network[i]);
      }
    }

    method DoDeliverLimit(i: nat, toConnection: bool)
      requires Valid()
      modifies sendFlow, sendFlow.connection
      ensures Valid() && Seen() == old(Seen())
      ensures !toConnection && i < |limits| ==> limits[i] <= sendFlow.base.sendWindow
      ensures toConnection && i < |connLimits| ==> connLimits[i] <= sendFlow.connection.base.sendWindow
      ensures limits == old(limits) && connLimits == old(connLimits)
      ensures old(sendFlow.base).sendWindow <= sendFlow.base.sendWindow
      ensures old(sendFlow.connection.base).sendWindow <= sendFlow.connection.base.sendWindow
      ensures unchanged(sender) && receiver.flow.Windows() == old(receiver.flow.Windows())
      ensures receiver.flow.base.bytesRead == old(receiver.flow.base.bytesRead)
    {
      hide FrameOk, ReceiveSide, SendStream.Valid;
      if !toConnection && i < |limits| {
        assert limits[i] in limits;
        sendFlow.base := WithSendWindow(sendFlow.base, limits[i]);
      } else if toConnection && i < |connLimits| {
        assert connLimits[i] in connLimits;
        sendFlow.connection.base := WithSendWindow(sendFlow.connection.base, connLimits[i]);
      }
    }

    // ----------------------------------------------------------------
    // The receiver's side
    // ----------------------------------------------------------------

    /** A frame of an honest sender neither contradicts the final size nor exceeds a window. */
    lemma FrameIsWelcome(f: StreamFrame)
      requires Valid() && f in network
      ensures f.offset + |f.data| < MAX_BYTE_COUNT
      ensures IsSlice(sender.accepted, f.offset, f.data)
      ensures f.fin ==> sender.finSent && f.offset + |f.data| == |sender.accepted|
      ensures f.offset + |f.data| <= sender.writeOffset
      ensures !Contradicts(receiver.flow.base, receiver.FinalKnown(), f.offset + |f.data|, f.fin)
      ensures !Exceeds(receiver.flow.base, receiver.flow.connection.base, f.offset + |f.data|)
    {
    }

    /** Any frame that was ever sent arrives.  The only possible failure is that the receiver gives up because of too
        many gaps. */
    method DoDeliver(i: nat, now: int) returns (ok: bool)
      requires Valid()
      modifies receiver, receiver.frameQueue, receiver.flow, receiver.flow.connection, this`nextCallback, this`arrived
      ensures ok ==> Valid() && receiver.flow.Windows() == old(receiver.flow.Windows())
      ensures ok <==> i >= |network| || !TooManyHoles(old(arrived) + BytesOf(network[i]))
      ensures Seen() == if ok && i < |network| then old(Seen()).(arrived := old(arrived) + BytesOf(network[i]))
                        else old(Seen())
      ensures unchanged(sender)
      ensures ok && i < |network| ==> (network[i].fin ==> receiver.FinalKnown())
      ensures ok && old(receiver.FinalKnown()) ==> receiver.FinalKnown()
    {
      hide FrameOk, SendSide, FlowSide, SendStream.Valid, ReceiveStream.Valid, ReceiveStream.Faithful, IsSlice, Missing;
      hide GapsAre, TooManyHoles, GapsOk, BytesOf, Contradicts, Exceeds;
      ok := true;
      if i < |network| {
        var f := network[i];
        FrameIsWelcome(f);
        var r := receiver.HandleStreamFrame(f.offset, f.data, f.fin, nextCallback, now);
        nextCallback := nextCallback + 1;
        ok := r == Handled;
        assert r == Handled || r == TooFragmented;
        GapsAfter(old(receiver.frameQueue.gaps), receiver.frameQueue.gaps, old(arrived), f);
        if ok {
          arrived := arrived + BytesOf(f);
        }
      }
    }

    /** All that is below the read position has arrived. */
    lemma ReadHasArrived()
      requires Valid()
      ensures forall b: nat :: b < |out| ==> b in arrived
    {
      hide FrameOk, NetworkOk, FlowSide, SendStream.Valid, Carries, ReceiveStream.Charged, ReceiveStream.Lifecycle;
      ReadBelowHighest(receiver.frameQueue.queue, receiver.frameQueue.gaps, receiver.frameQueue.readPos,
                       MAX_BYTE_COUNT);
    }

    method DoRead(space: nat, now: int) returns (bytes: seq<Byte>, r: ReadResult)
      requires Valid()
      modifies receiver, receiver.frameQueue, receiver.flow, receiver.flow.connection, this`out, this`eof
      ensures Valid() && receiver.flow.Windows() == old(receiver.flow.Windows())
      ensures Seen() == old(Seen()).(out := old(out) + bytes, eof := eof) && |bytes| <= space
      ensures r == Ok ==> |bytes| == space || (|bytes| > 0 && Missing(receiver.frameQueue.gaps, |out|))
      ensures r == ReadResult.MustWait ==>
                bytes == [] && Missing(receiver.frameQueue.gaps, |out|) && |out| != receiver.finalOffset
      ensures (r == Eof <==> eof) && r != Failed && (old(eof) ==> eof)
      ensures receiver.frameQueue.gaps == old(receiver.frameQueue.gaps)
      ensures receiver.finalOffset == old(receiver.finalOffset)
      ensures unchanged(sender)
    {
      hide FrameOk, SendSide, FlowSide, SendStream.Valid, ReceiveStream.Valid, ReceiveStream.Faithful, Missing, GapsAre;
      bytes, r := receiver.Read(space, now);
      out := out + bytes;
      eof := r == Eof;
    }

    /** The first byte that has not arrived is the start of the first gap. */
    lemma FirstGap()
      requires Valid()
      ensures var gaps := receiver.frameQueue.gaps;
              && gaps != [] && gaps[0].start < MAX_BYTE_COUNT && gaps[0].start !in arrived
              && (forall c: nat :: c < gaps[0].start ==> c in arrived)
              && !TooManyHoles(arrived)
    {
      hide FrameOk, NetworkOk, FlowSide, SendStream.Valid, Carries, ReceiveStream.Charged, ReceiveStream.Lifecycle;
      hide Partition, QueueOk;
      var gaps := receiver.frameQueue.gaps;
      assert Missing(gaps, gaps[0].start);
      CountGaps(gaps, arrived);
    }

    /** A frame with a byte that was sent. */
    method FindFrame(b: nat) returns (k: nat)
      requires Valid() && b < sender.writeOffset
      ensures Valid() && k < |network| && Has(network[k], b)
    {
      hide FrameOk, ReceiveSide, FlowSide, SendStream.Valid, InNetwork;
      ghost var j := Carrier(network, sender.writeOffset, sender.finSent, b);
      k := 0;
      while !(network[k].offset <= b < network[k].offset + |network[k].data|)
        invariant k <= j < |network|
        decreases |network| - k
      {
        k := k + 1;
      }
    }

    method FindFin() returns (k: nat)
      requires Valid() && sender.finSent
      ensures Valid() && k < |network| && network[k].fin
    {
      hide FrameOk, ReceiveSide, FlowSide, SendStream.Valid, Accounted;
      ghost var f :| f in network && f.fin;
      ghost var j :| 0 <= j < |network| && network[j] == f;
      k := 0;
      while !network[k].fin
        invariant k <= j < |network|
        decreases |network| - k
      {
        k := k + 1;
      }
    }

    lemma ArrivedWasSent(f: StreamFrame)
      requires Valid() && f in network
      ensures forall b: nat :: Has(f, b) ==> b < sender.writeOffset
      ensures forall b: nat :: b in arrived && b < MAX_BYTE_COUNT ==> b < sender.writeOffset
    {
      hide ReceiveStream.Lifecycle, ReceiveStream.Faithful, FlowSide, SendStream.Valid, InNetwork, FrameSorter.Valid;
    }

    /** Frames arrive so that the first gap closes, and then the FIN; the receiver never gives up. */
    method DeliverAll(now: int)
      requires Valid()
      modifies Parts()
      ensures Valid() && receiver.flow.Windows() == old(receiver.flow.Windows()) && unchanged(sender)
      ensures Seen() == old(Seen()).(arrived := arrived)
      ensures forall b: nat :: b < sender.writeOffset ==> b in arrived
      ensures sender.finSent ==> receiver.FinalKnown()
    {
      hide Valid, TooManyHoles, BytesOf, Holes;
      FirstGap();
      while receiver.frameQueue.gaps[0].start < sender.writeOffset
        invariant Valid() && receiver.flow.Windows() == old(receiver.flow.Windows()) && unchanged(sender)
        invariant Seen() == old(Seen()).(arrived := arrived) && receiver.frameQueue.gaps != []
        invariant forall c: nat :: c < receiver.frameQueue.gaps[0].start ==> c in arrived
        decreases sender.writeOffset - receiver.frameQueue.gaps[0].start
      {
        FirstGap();
        ghost var b := receiver.frameQueue.gaps[0].start;
        var k := FindFrame(receiver.frameQueue.gaps[0].start);
        StillFew(arrived, network[k], b);
        var ok := DoDeliver(k, now);
        FirstGap();
      }
      if sender.finSent {
        var k := FindFin();
        ArrivedWasSent(network[k]);
        FinIsKnown(arrived, network[k], sender.writeOffset);
        FirstGap();
        var ok := DoDeliver(k, now);
      }
    }

    /** Delivers everything that is in the network and reads it: all bytes that were sent come out, followed by EOF
        exactly if the FIN was sent. */
    method Drain(now: int)
      requires Valid()
      modifies Parts()
      ensures Valid() && receiver.flow.Windows() == old(receiver.flow.Windows()) && unchanged(sender)
      ensures Seen() == old(Seen()).(arrived := arrived, out := out, eof := eof)
      ensures sender.writeOffset <= |sender.accepted| && out == sender.accepted[..sender.writeOffset]
      ensures (eof <==> sender.finSent)
    {
      hide Valid, Missing;
      DeliverAll(now);
      AllArrived();
      var _, _ := DoRead(sender.writeOffset + 1, now);
      ReadAllSent();
      var _, _ := DoRead(1, now);
      ReadAllSent();
    }

    /** Once every frame has been delivered, exactly the bytes that were sent have arrived. */
    lemma AllArrived()
      requires Valid() && (forall b: nat :: b < sender.writeOffset ==> b in arrived)
      requires (sender.finSent ==> receiver.FinalKnown())
      ensures forall b: nat :: b < MAX_BYTE_COUNT ==>
                (Missing(receiver.frameQueue.gaps, b) <==> b >= sender.writeOffset)
      ensures sender.finSent <==> receiver.FinalKnown()
    {
      hide FrameOk, Carries, Consistent, Linear, Missing, SendStream.Valid, FlowSide, NetworkOk;
    }

    /** Reading stops at a missing byte, which is then the first that was not sent. */
    lemma ReadAllSent()
      requires Valid()
      requires forall b: nat :: b < MAX_BYTE_COUNT ==>
                (Missing(receiver.frameQueue.gaps, b) <==> b >= sender.writeOffset)
      requires sender.finSent <==> receiver.FinalKnown()
      ensures |out| <= sender.writeOffset <= |sender.accepted| < MAX_BYTE_COUNT && out == sender.accepted[..|out|]
      ensures sender.finSent ==> receiver.finalOffset == |sender.accepted| == sender.writeOffset
      ensures eof ==> sender.finSent && |out| == sender.writeOffset
    {
      hide FrameOk, Carries, Missing, FlowSide, SendStream.TrackedWith;
      ReadBelowHighest(receiver.frameQueue.queue, receiver.frameQueue.gaps, receiver.frameQueue.readPos,
                       receiver.flow.base.highestReceived);
      assert out == sender.accepted[..receiver.frameQueue.readPos][..|out|];
    }

    method DoAdvertise(now: int, rtt: nat, allow: bool)
      requires Valid()
      modifies receiver.flow, receiver.flow.connection, this`limits
      ensures Valid() && Seen() == old(Seen())
      ensures |limits| == |old(limits)| + 1 && limits[|limits| - 1] in {0, receiver.flow.base.receiveWindow}
      ensures unchanged(sender) && receiver.flow.base.bytesRead == old(receiver.flow.base.bytesRead)
      ensures old(receiver.flow.Windows()).2 <= receiver.flow.Windows().2
      ensures old(receiver.flow.Windows()).3 <= receiver.flow.Windows().3
      ensures !receiver.FinalKnown() && old(receiver.flow.Windows()).2 > 0 ==>
                receiver.flow.base.bytesRead < receiver.flow.base.receiveWindow
      ensures receiver.finalOffset == old(receiver.finalOffset)
    {
      hide FrameOk, SendSide, SendStream.Valid, ReceiveStream.Valid, ReceiveStream.Faithful;
      WindowNeverShrinks(receiver.flow.base, now, rtt, true);
      var limit := receiver.GetWindowUpdate(now, rtt, allow);
      limits := limits + [limit];
    }

    method DoAdvertiseConn(now: int, rtt: nat, allow: bool)
      requires Valid()
      modifies receiver.flow.connection, this`connLimits
      ensures Valid() && Seen() == old(Seen())
      ensures |connLimits| == |old(connLimits)| + 1
      ensures connLimits[|connLimits| - 1] in {0, receiver.flow.connection.base.receiveWindow}
      ensures unchanged(sender) && receiver.flow.base == old(receiver.flow.base)
      ensures receiver.flow.connection.base.bytesRead == old(receiver.flow.connection.base.bytesRead)
      ensures old(receiver.flow.Windows()).3 <= receiver.flow.Windows().3
      ensures old(receiver.flow.Windows()).3 > 0 ==>
                receiver.flow.connection.base.bytesRead < receiver.flow.connection.base.receiveWindow
    {
      hide FrameOk, SendSide, SendStream.Valid, ReceiveStream.Valid, ReceiveStream.Faithful;
      WindowNeverShrinks(receiver.flow.connection.base, now, rtt, allow);
      var limit := receiver.flow.connection.GetWindowUpdate(now, rtt, allow);
      connLimits := connLimits + [limit];
    }

    // ----------------------------------------------------------------
    // Progress
    // ----------------------------------------------------------------

    ghost predicate WindowsHaveSize()
      reads this, receiver.flow, receiver.flow.connection
    {
      receiver.flow.Windows().2 > 0 && receiver.flow.Windows().3 > 0
    }

    /** What was read has been given back to both levels. */
    lemma CreditForReads()
      requires Valid()
      ensures receiver.flow.base.bytesRead == receiver.flow.connection.base.bytesRead == |out|
      ensures !sender.finSent ==> !receiver.FinalKnown()
    {
      hide FrameOk, NetworkOk, FlowSide, SendStream.TrackedWith, Carries;
    }

    lemma MaySend()
      requires Valid()
      requires sender.writeOffset < receiver.flow.base.receiveWindow
      requires sender.writeOffset < receiver.flow.connection.base.receiveWindow
      requires forall l :: l in limits ==> l <= sendFlow.base.sendWindow
      requires forall l :: l in connLimits ==> l <= sendFlow.connection.base.sendWindow
      ensures sendFlow.SendLimit() > 0
    {
      hide SendSide, ReceiveSide;
    }

    /** All limits that were ever advertised arrive. */
    method DeliverLimits()
      requires Valid()
      modifies Parts()
      ensures Valid() && unchanged(sender) && Seen() == old(Seen())
      ensures receiver.flow.Windows() == old(receiver.flow.Windows())
      ensures forall l :: l in limits ==> l <= sendFlow.base.sendWindow
      ensures forall l :: l in connLimits ==> l <= sendFlow.connection.base.sendWindow
    {
      hide Valid;
      for i := 0 to |limits|
        invariant Valid() && limits == old(limits) && connLimits == old(connLimits) && unchanged(sender)
        invariant Seen() == old(Seen())
        invariant receiver.flow.Windows() == old(receiver.flow.Windows())
        invariant forall k :: 0 <= k < i ==> limits[k] <= sendFlow.base.sendWindow
      {
        DoDeliverLimit(i, false);
      }
      for i := 0 to |connLimits|
        invariant Valid() && limits == old(limits) && connLimits == old(connLimits) && unchanged(sender)
        invariant Seen() == old(Seen())
        invariant receiver.flow.Windows() == old(receiver.flow.Windows())
        invariant forall k :: 0 <= k < |limits| ==> limits[k] <= sendFlow.base.sendWindow
        invariant forall k :: 0 <= k < i ==> connLimits[k] <= sendFlow.connection.base.sendWindow
      {
        DoDeliverLimit(i, true);
      }
    }

    /** A sender that is blocked by flow control gets new credit once what it sent is read and the windows are
        advertised. */
    method Unblock(now: int)
      requires Valid() && WindowsHaveSize() && !sender.finSent
      modifies Parts()
      ensures unchanged(sender) && Seen() == old(Seen()).(arrived := arrived, out := out, eof := eof)
      ensures Valid() && WindowsHaveSize() && sendFlow.SendLimit() > 0
    {
      hide Valid;
      Drain(now);
      CreditForReads();
      DoAdvertise(now, 0, false);
      CreditForReads();
      DoAdvertiseConn(now, 0, false);
      DeliverLimits();
      MaySend();
    }

    /** Sends until nothing is left to send. */
    method SendAll(now: int)
      requires Valid() && WindowsHaveSize()
      modifies Parts()
      ensures Valid() && sender.Idle()
      ensures Seen() == old(Seen()).(sent := network, arrived := arrived, out := out, eof := eof)
    {
      hide Valid, SendStream.CanSend, SendStream.Idle, IsPart;
      while !sender.Idle()
        invariant Valid() && WindowsHaveSize()
        invariant Seen() == old(Seen()).(sent := network, arrived := arrived, out := out, eof := eof)
        decreases Left(), sendFlow.SendLimit() == 0
      {
        LeftIsNat();
        if sender.CanSend(sendFlow.SendLimit()) {
          var _ := DoSend(MIN_STREAM_FRAME_SIZE, false);
        } else {
          BlockedByFlowControl();
          Unblock(now);
        }
      }
    }

    lemma LeftIsNat()
      requires Valid()
      ensures Left() >= 0
    {
      hide ReceiveSide, FlowSide, NetworkOk;
    }

    lemma BlockedByFlowControl()
      requires Valid() && !sender.Idle() && !sender.CanSend(sendFlow.SendLimit())
      ensures sendFlow.SendLimit() == 0 && !sender.finSent
    {
      hide ReceiveSide, FlowSide, NetworkOk, SendStream.TrackedWith;
    }

    /** Acknowledges everything that is outstanding. */
    method AcknowledgeAll()
      requires Valid() && sender.retransmissionQueue == []
      modifies Parts()
      ensures Valid() && Seen() == old(Seen()).(completions := if old(sender.finSent) then 1 else 0)
    {
      hide Valid, AmongRest;
      StartAcks();
      for i := 0 to |network|
        invariant Valid() && Seen() == old(Seen()).(completions := completions) && sender.finSent == old(sender.finSent)
        invariant sender.retransmissionQueue == [] && AmongRest(outstanding, network, i)
      {
        OneLess(outstanding, network, i);
        var _ := DoAcknowledge(i);
      }
      NoneLeft(outstanding, network);
      AllAcknowledged();
    }

    lemma StartAcks()
      requires Valid()
      ensures AmongRest(outstanding, network, 0)
    {
      hide ReceiveSide, FlowSide, InNetwork;
      assert network[0..] == network;
    }

    lemma AllAcknowledged()
      requires Valid() && sender.retransmissionQueue == [] && outstanding == multiset{}
      ensures completions == if sender.finSent then 1 else 0
    {
      hide ReceiveSide, FlowSide, NetworkOk, FramesOk, Accounted, Frames;
    }

    /** If nothing is left to send, and all that was sent was read, the application got what was written. */
    lemma AllIsDone()
      requires Valid() && sender.Idle() && sender.writeOffset <= |sender.accepted|
      requires out == sender.accepted[..sender.writeOffset]
      ensures out == Offered(Seen()) && (sender.finSent <==> sender.finishedWriting)
    {
      hide ReceiveSide, FlowSide, NetworkOk, FramesOk, Accounted, Frames;
      assert sender.accepted + [] == sender.accepted;
    }

    /** Whatever has happened: if sending goes on, everything is delivered and acknowledged, then the receiver has
        read all that was written, has seen the end of the stream if and only if it was closed, and the sender has
        reported completion if and only if it was closed. */
    method Finish(now: int)
      requires Valid() && WindowsHaveSize()
      modifies Parts()
      ensures Valid()
      ensures Seen() == old(Seen()).(sent := network, arrived := arrived, out := Offered(old(Seen())),
                                     eof := old(sender.finishedWriting),
                                     completions := if old(sender.finishedWriting) then 1 else 0)
    {
      hide Valid, SendStream.Idle;
      SendAll(now);
      Drain(now);
      AllIsDone();
      IdleHasNoQueue();
      AcknowledgeAll();
    }

    lemma IdleHasNoQueue()
      requires sender.Idle()
      ensures sender.retransmissionQueue == []
    {
    }

    lemma MissingIsNotThere(b: nat)
      requires Valid()
      ensures Missing(receiver.frameQueue.gaps, b) ==> b !in arrived
    {
      hide FrameOk, NetworkOk, FlowSide, SendStream.Valid, Carries, ReceiveStream.Charged, ReceiveStream.Lifecycle;
      hide Partition, QueueOk;
    }

    /** What every state guarantees. */
    lemma ValidDelivers()
      requires Valid()
      ensures out <= Offered(Seen()) && (eof ==> sender.finishedWriting && out == Offered(Seen())) && completions <= 1
      ensures sender.finSent ==> sender.finishedWriting
    {
      hide FrameOk, NetworkOk, FlowSide, SendStream.TrackedWith, ReceiveStream.Charged, ReceiveStream.Lifecycle;
      hide Carries;
    }

    /** The receiver's view does not depend on what was accepted or sent later. */
    lemma SenderMoves(accepted: seq<Byte>, writeOffset: nat, finSent: bool)
      requires ReceiveSide(accepted, writeOffset, finSent)
      requires accepted <= sender.accepted && writeOffset <= sender.writeOffset
      requires finSent ==> sender.finSent && accepted == sender.accepted
      ensures ReceiveSide(sender.accepted, sender.writeOffset, sender.finSent)
    {
    }
  }

  method NewReceiver(window: nat, maxWindow: nat, connWindow: nat, maxConnWindow: nat) returns (r: ReceiveStream)
    ensures r.Valid() && r.Pristine() && r.flow.WindowsOk()
    ensures r.flow.Windows() == (window, connWindow, window, connWindow)
    ensures r.flow.OthersReceived() == 0 && r.flow.OthersCredit() == 0
    ensures fresh({r, r.flow, r.flow.connection, r.frameQueue})
  {
    var conn := new ConnectionFlowController(connWindow, maxConnWindow);
    var flow := new StreamFlowController(conn, window, maxWindow, 0);
    r := new ReceiveStream(flow);
  }

  method NewSendFlow(window: nat, connWindow: nat) returns (f: StreamFlowController)
    ensures f.base.bytesSent == f.connection.base.bytesSent == 0
    ensures f.base.sendWindow == window && f.connection.base.sendWindow == connWindow
    ensures fresh({f, f.connection})
  {
    var conn := new ConnectionFlowController(0, 0);
    conn.base := conn.base.(sendWindow := connWindow);
    f := new StreamFlowController(conn, 0, 0, window);
  }

  method NewPair(streamID: nat, window: nat, maxWindow: nat, connWindow: nat, maxConnWindow: nat) returns (pair: Pair)
    ensures pair.Valid() && fresh(pair.Parts()) && pair.Seen() == Ledger([], None, false, [], {}, [], false, 0)
    ensures window > 0 && connWindow > 0 ==> pair.WindowsHaveSize()
  {
    hide SendStream.Valid, ReceiveStream.Valid, ReceiveStream.Faithful, Pair.Valid;
    var receiver := NewReceiver(window, maxWindow, connWindow, maxConnWindow);
    var sender := new SendStream(streamID);
    var sendFlow := NewSendFlow(window, connWindow);
    pair := new Pair(sender, receiver, sendFlow);
  }
}
