/** A send stream on top of loss recovery: the callbacks that the sent packet handler calls for the frames of a stream
    are the ones that the stream relies upon.

    A packet carries at most one frame of the stream.  Its identity in the handler is the number of frames that were
    sent before. */
module StreamRecovery {
  import opened Common
  import opened SentHistory
  import opened SentPackets
  import AckMerge
  import LossTimers
  import opened StreamFrames
  import opened SendStreams
  import L = LossRecovery

  /** The frames that were sent and have not been reported as acknowledged or lost. */
  ghost function Open(n: nat, acked: seq<Frame>, lost: seq<Frame>): set<nat> {
    set i: nat | i < n && Frame(i, true) !in acked && Frame(i, true) !in lost
  }

  ghost function Carriers(carried: seq<StreamFrame>, open: set<nat>, f: StreamFrame): set<nat> {
    set i: nat | i in open && i < |carried| && carried[i] == f
  }

  /** A stream has in flight what is carried by open frames. */
  ghost predicate InflightIs(inflight: multiset<StreamFrame>, carried: seq<StreamFrame>, open: set<nat>) {
    forall f :: inflight[f] == |Carriers(carried, open, f)|
  }

  /** Exactly the first n frames were given to the handler, each once. */
  ghost predicate AllGiven(given: multiset<Frame>, n: nat) {
    forall x :: given[x] == if x.hasHandler && x.id < n then 1 else 0
  }

  ghost predicate Reports(acked: seq<Frame>, lost: seq<Frame>, n: nat) {
    exists given :: AllGiven(given, n) && multiset(acked) + multiset(lost) <= given
  }

  lemma CarriedIsInflight(inflight: multiset<StreamFrame>, carried: seq<StreamFrame>, open: set<nat>, i: nat)
    requires InflightIs(inflight, carried, open) && i in open && i < |carried|
    ensures carried[i] in inflight && InflightIs(inflight - multiset{carried[i]}, carried, open - {i})
  {
    assert i in Carriers(carried, open, carried[i]);
    forall f ensures (inflight - multiset{carried[i]})[f] == |Carriers(carried, open - {i}, f)| {
      var c := Carriers(carried, open, f);
      assert Carriers(carried, open - {i}, f) == c - {i};
      assert i in c <==> f == carried[i];
    }
  }

  lemma OneMoreCarried(inflight: multiset<StreamFrame>, carried: seq<StreamFrame>, open: set<nat>, f: StreamFrame)
    requires InflightIs(inflight, carried, open) && forall i :: i in open ==> i < |carried|
    ensures InflightIs(inflight + multiset{f}, carried + [f], open + {|carried|})
  {
    var n := |carried|;
    forall g ensures (inflight + multiset{f})[g] == |Carriers(carried + [f], open + {n}, g)| {
      var c := Carriers(carried, open, g);
      assert Carriers(carried + [f], open + {n}, g) == if g == f then c + {n} else c;
      assert n !in c;
    }
  }

  lemma CountedTwice(s: seq<Frame>, i: nat)
    requires i < |s|
    ensures multiset(s)[s[i]] >= 1 && (s[i] in s[..i] ==> multiset(s)[s[i]] >= 2)
  {
    var x := s[i];
    assert s == s[..i] + [x] + s[i + 1..];
    assert multiset(s)[x] == multiset(s[..i])[x] + 1 + multiset(s[i + 1..])[x];
  }

  /** Reports are about different frames that were given away. */
  lemma ReportIsNew(acked: seq<Frame>, lost: seq<Frame>, n: nat, i: nat)
    requires Reports(acked, lost, n)
    ensures i < |acked| ==> acked[i].hasHandler && acked[i].id in Open(n, acked[..i], lost)
    ensures i < |lost| ==> lost[i].hasHandler && lost[i].id in Open(n, acked, lost[..i])
  {
    var given :| AllGiven(given, n) && multiset(acked) + multiset(lost) <= given;
    if i < |acked| {
      var x := acked[i];
      CountedTwice(acked, i);
      assert (multiset(acked) + multiset(lost))[x] <= given[x];
      assert x == Frame(x.id, true);
    }
    if i < |lost| {
      var x := lost[i];
      CountedTwice(lost, i);
      assert (multiset(acked) + multiset(lost))[x] <= given[x];
      assert x == Frame(x.id, true);
    }
  }

  lemma OpenShrinks(n: nat, acked: seq<Frame>, lost: seq<Frame>, x: Frame)
    requires x.hasHandler
    ensures Open(n, acked + [x], lost) == Open(n, acked, lost) - {x.id}
    ensures Open(n, acked, lost + [x]) == Open(n, acked, lost) - {x.id}
  {
    assert x == Frame(x.id, true);
  }

  // ------------------------------------------------------------------
  // What completion means
  // ------------------------------------------------------------------

  ghost predicate IsReported(f: StreamFrame, carried: seq<StreamFrame>, acked: seq<Frame>) {
    exists i: nat :: i < |carried| && carried[i] == f && Frame(i, true) in acked
  }

  /** What a stream takes for acknowledged was reported as acknowledged. */
  ghost predicate AllReported(frames: set<StreamFrame>, carried: seq<StreamFrame>, acked: seq<Frame>) {
    forall f :: f in frames ==> IsReported(f, carried, acked)
  }

  lemma ReportedStays(frames: set<StreamFrame>, carried: seq<StreamFrame>, more: seq<StreamFrame>, acked: seq<Frame>,
                      x: seq<Frame>)
    requires AllReported(frames, carried, acked)
    ensures AllReported(frames, carried + more, acked + x)
  {
    forall f | f in frames ensures IsReported(f, carried + more, acked + x) {
      var i: nat :| i < |carried| && carried[i] == f && Frame(i, true) in acked;
      assert (carried + more)[i] == f;
    }
  }

  /** Unless it was cancelled, a stream has completed exactly if its end was sent, and nothing is in flight or waits for
      retransmission; and then all its bytes and its end are acknowledged. */
  ghost predicate DoneOk(s: SendStream)
    reads s`completed, s`cancelled, s`finSent, s`acked, s`accepted, s`inflight, s`retransmissionQueue
  {
    if s.cancelled then s.completed
    else
      && (s.completed <==> s.finSent && s.inflight == multiset{} && s.retransmissionQueue == [])
      && (s.completed ==> Accounted(s.acked, |s.accepted|) && HasFin(s.acked))
  }

  lemma CompletedCannotSend(s: SendStream, window: nat)
    requires s.Valid() && s.finSent && s.retransmissionQueue == []
    ensures !s.CanSend(window)
  {
    hide SendStream.TrackedWith;
  }

  // ------------------------------------------------------------------
  // Callbacks
  // ------------------------------------------------------------------

  lemma NextAck(inflight: multiset<StreamFrame>, carried: seq<StreamFrame>, b: Books, i: nat, losses: nat,
                acked: set<StreamFrame>)
    requires Reports(b.acked, b.lost, |carried|) && i < |b.acked| && losses <= |b.lost|
    requires InflightIs(inflight, carried, Open(|carried|, b.acked[..i], b.lost[..losses]))
    requires AllReported(acked, carried, b.acked[..i])
    ensures var x := b.acked[i];
            && x.id < |carried| && carried[x.id] in inflight
            && InflightIs(inflight - multiset{carried[x.id]}, carried,
                          Open(|carried|, b.acked[..i + 1], b.lost[..losses]))
            && AllReported(acked + {carried[x.id]}, carried, b.acked[..i + 1])
  {
    hide InflightIs, Reports, AllReported;
    var x := b.acked[i];
    ReportIsNew(b.acked, b.lost, |carried|, i);
    assert b.acked[..i + 1] == b.acked[..i] + [x] && x == Frame(x.id, true);
    OpenShrinks(|carried|, b.acked[..i], b.lost[..losses], x);
    CarriedIsInflight(inflight, carried, Open(|carried|, b.acked[..i], b.lost[..losses]), x.id);
    OneMoreReported(acked, carried, b.acked[..i], x);
  }

  lemma OneMoreReported(frames: set<StreamFrame>, carried: seq<StreamFrame>, acked: seq<Frame>, x: Frame)
    requires AllReported(frames, carried, acked) && x.hasHandler && x.id < |carried|
    ensures AllReported(frames + {carried[x.id]}, carried, acked + [x])
  {
    ReportedStays(frames, carried, [], acked, [x]);
    assert carried + [] == carried && x == Frame(x.id, true) && x in acked + [x];
    assert IsReported(carried[x.id], carried, acked + [x]);
  }

  lemma NextLoss(inflight: multiset<StreamFrame>, carried: seq<StreamFrame>, b: Books, i: nat)
    requires Reports(b.acked, b.lost, |carried|) && i < |b.lost|
    requires InflightIs(inflight, carried, Open(|carried|, b.acked, b.lost[..i]))
    ensures var x := b.lost[i];
            && x.id < |carried| && carried[x.id] in inflight
            && InflightIs(inflight - multiset{carried[x.id]}, carried, Open(|carried|, b.acked, b.lost[..i + 1]))
  {
    hide InflightIs, Reports;
    var x := b.lost[i];
    ReportIsNew(b.acked, b.lost, |carried|, i);
    assert b.lost[..i + 1] == b.lost[..i] + [x];
    OpenShrinks(|carried|, b.acked, b.lost[..i], x);
    CarriedIsInflight(inflight, carried, Open(|carried|, b.acked, b.lost[..i]), x.id);
  }

  method PassOnAck(s: SendStream, f: StreamFrame) returns (r: CallbackResult)
    requires s.Valid() && f in s.inflight && DoneOk(s)
    modifies s`numOutstandingFrames, s`completed, s`inflight, s`acked
    ensures s.Valid() && DoneOk(s) && !r.Panic? && s.inflight == old(s.inflight) - multiset{f}
    ensures s.acked == old(s.acked) + {f}
    ensures (old(s.completed) ==> s.completed) && (r == Notified(true) <==> s.completed && !old(s.completed))
  {
    hide SendStream.Valid, Accounted, HasFin;
    r := s.OnAcked(f);
  }

  method PassOnLoss(s: SendStream, f: StreamFrame) returns (r: CallbackResult)
    requires s.Valid() && f in s.inflight && DoneOk(s)
    modifies s`numOutstandingFrames, s`retransmissionQueue, s`inflight
    ensures s.Valid() && DoneOk(s) && !r.Panic? && s.inflight == old(s.inflight) - multiset{f}
  {
    hide SendStream.Valid, Accounted, HasFin;
    r := s.OnLost(f);
  }

  /** The callbacks of one operation of the handler: first the frames that were acknowledged, then those that were
      lost. */
  method PassOn(s: SendStream, carried: seq<StreamFrame>, b: Books, acks: nat, losses: nat)
    returns (panicked: bool, completions: nat)
    requires s.Valid() && DoneOk(s) && Reports(b.acked, b.lost, |carried|) && acks <= |b.acked| && losses <= |b.lost|
    requires InflightIs(s.inflight, carried, Open(|carried|, b.acked[..acks], b.lost[..losses]))
    requires AllReported(s.acked, carried, b.acked[..acks])
    modifies s`numOutstandingFrames, s`completed, s`inflight, s`acked, s`retransmissionQueue
    ensures s.Valid() && DoneOk(s) && !panicked && AllReported(s.acked, carried, b.acked)
    ensures InflightIs(s.inflight, carried, Open(|carried|, b.acked, b.lost))
    ensures (old(s.completed) ==> s.completed) && completions == if s.completed && !old(s.completed) then 1 else 0
  {
    hide SendStream.Valid, InflightIs, Open, AllReported, Reports, DoneOk;
    panicked, completions := false, 0;
    for i := acks to |b.acked|
      invariant s.Valid() && DoneOk(s) && !panicked && AllReported(s.acked, carried, b.acked[..i])
      invariant InflightIs(s.inflight, carried, Open(|carried|, b.acked[..i], b.lost[..losses]))
      invariant (old(s.completed) ==> s.completed) && completions == if s.completed && !old(s.completed) then 1 else 0
      invariant s.retransmissionQueue == old(s.retransmissionQueue)
    {
      var x := b.acked[i];
      NextAck(s.inflight, carried, b, i, losses, s.acked);
      var r := PassOnAck(s, carried[x.id]);
      panicked := panicked || r.Panic?;
      if r == Notified(true) {
        completions := completions + 1;
      }
    }
    assert b.acked[..|b.acked|] == b.acked;
    for i := losses to |b.lost|
      invariant s.Valid() && DoneOk(s) && !panicked && AllReported(s.acked, carried, b.acked)
      invariant InflightIs(s.inflight, carried, Open(|carried|, b.acked, b.lost[..i]))
      invariant (old(s.completed) ==> s.completed) && completions == if s.completed && !old(s.completed) then 1 else 0
    {
      var x := b.lost[i];
      NextLoss(s.inflight, carried, b, i);
      var r := PassOnLoss(s, carried[x.id]);
      panicked := panicked || r.Panic?;
    }
    assert b.lost[..|b.lost|] == b.lost;
  }

  // ------------------------------------------------------------------
  // Stream and handler together
  // ------------------------------------------------------------------

  datatype Event =
    | Write(p: seq<Byte>)
    | Wake(deadlinePassed: bool)
    | Close
    | Cancel
    | Send(maxBytes: nat, window: nat, newlyBlocked: bool, size: nat, random: nat, clock: LossTimers.Clock)
    | Network(input: L.Input)

  lemma GivenIs(h: SentPacketHandler, l: L.Ledger)
    requires L.Matches(h, l)
    ensures h.given == l.given
  {
    hide SentPacketHandler.Valid, L.NumbersMatch;
  }

  lemma BooksReport(h: SentPacketHandler, l: L.Ledger, n: nat)
    requires L.Matches(h, l) && AllGiven(h.given, n)
    ensures Reports(h.books.acked, h.books.lost, n)
  {
    hide SentPacketHandler.SpacesOk, SentPacketHandler.Sum, SentPacketHandler.Stage, L.NumbersMatch;
    assert multiset(h.books.acked) + multiset(h.books.lost) <= h.given;
  }

  lemma GivenStays(l: L.Ledger, e: L.Event, o: L.Outcome)
    requires !e.Send?
    ensures L.Record(l, e, o).given == l.given
  {
  }

  ghost predicate EndCarried(carried: seq<StreamFrame>) {
    exists i :: 0 <= i < |carried| && carried[i].fin
  }

  lemma EndStep(carried: seq<StreamFrame>, f: StreamFrame)
    ensures EndCarried(carried + [f]) <==> EndCarried(carried) || f.fin
  {
    var all := carried + [f];
    if EndCarried(carried) {
      var i :| 0 <= i < |carried| && carried[i].fin;
      assert all[i].fin;
    }
    assert f.fin ==> all[|carried|].fin;
  }

  // ------------------------------------------------------------------
  // What can be seen
  // ------------------------------------------------------------------

  /** The number of the packet that was sent and the frame in it; what the handler answers to an event of the
      network. */
  datatype Outcome = Quiet | Carried(pn: int, frame: StreamFrame) | Net(result: L.Outcome)

  datatype Ledger = Ledger(loss: L.Ledger, carried: seq<StreamFrame>, cancelled: bool)

  const NEW_LEDGER := Ledger(L.NEW_LEDGER, [], false)

  /** The packet with the n-th frame. */
  function PacketWith(e: Event, n: nat): L.Event
    requires e.Send?
  {
    L.Send(OneRTT, e.size, [Frame(n, true)], INVALID_PACKET_NUMBER, false)
  }

  /** The framer asks for a frame only if there is room for one. */
  predicate HasRoom(maxBytes: nat) {
    MIN_STREAM_FRAME_SIZE <= maxBytes <= MAX_PACKET_BUFFER_SIZE + 2
  }

  ghost function Record(l: Ledger, e: Event, o: Outcome): Ledger {
    match o
    case Quiet => if e.Cancel? then l.(cancelled := true) else l
    case Carried(pn, f) =>
      if e.Send? then
        l.(loss := L.Record(l.loss, PacketWith(e, |l.carried|), L.Sent(pn)), carried := l.carried + [f])
      else l
    case Net(r) => if e.Network? then l.(loss := L.Record(l.loss, e.input.event, r)) else l
  }

  /** Which results are right: a frame is sent only if there is room and the stream was not cancelled; numbers and
      acknowledgements are as in runs of the handler alone. */
  ghost predicate Right(l: Ledger, e: Event, o: Outcome) {
    match e
    case Send(_, _, _, _, _, _) =>
      || o == Quiet
      || (o.Carried? && HasRoom(e.maxBytes) && !l.cancelled
          && L.Right(l.loss, PacketWith(e, |l.carried|), L.Sent(o.pn)))
    case Network(x) => if x.event.Send? then o == Quiet else o.Net? && L.Right(l.loss, x.event, o.result)
    case _ => o == Quiet
  }

  lemma NothingCarried()
    ensures AllGiven(multiset{}, 0) && InflightIs(multiset{}, [], Open(0, [], [])) && AllReported({}, [], [])
  {
  }

  predicate AcksValidated(e: Event) {
    e.Network? && e.input.event.ReceiveAck? ==> AckMerge.Validated(e.input.event.ranges)
  }

  /** What the application does to a stream. */
  method UseStream(s: SendStream, e: Event) returns (newlyCompleted: bool)
    requires s.Valid() && DoneOk(s) && (e.Write? || e.Wake? || e.Close? || e.Cancel?)
    modifies s`dataForWriting, s`nextFrame, s`accepted, s`finishedWriting, s`cancelled, s`numOutstandingFrames
    modifies s`retransmissionQueue, s`completed
    ensures s.Valid() && DoneOk(s) && (old(s.completed) ==> s.completed)
    ensures newlyCompleted <==> s.completed && !old(s.completed)
    ensures s.cancelled == (old(s.cancelled) || e.Cancel?)
    ensures s.finishedWriting == (old(s.finishedWriting) || (e.Close? && !s.shutdown && !s.cancelled))
    ensures e.Write? && old(s.dataForWriting.None? && !s.finishedWriting && !s.cancelled && !s.shutdown) ==>
              s.accepted + Pending(s.dataForWriting) == old(s.accepted) + e.p
  {
    hide SendStream.Valid, Accounted, HasFin, SendStream.CanBufferStreamFrame;
    newlyCompleted := false;
    match e
    case Write(p) =>
      if s.dataForWriting.None? || s.cancelled || s.shutdown {
        var started := s.StartWrite(p, false);
        if started.Started? {
          var _ := s.ContinueWrite(p, false, s.accepted);
        }
      }
    case Wake(deadlinePassed) =>
      var _ := s.ContinueWrite(Pending(s.dataForWriting), deadlinePassed, s.accepted);
    case Close =>
      var _ := s.Close();
    case Cancel =>
      newlyCompleted := s.CancelWrite();
  }

  method PopFrom(s: SendStream, e: Event) returns (f: Option<StreamFrame>)
    requires s.Valid() && DoneOk(s) && e.Send? && HasRoom(e.maxBytes)
    modifies s
    ensures s.Valid() && DoneOk(s) && (f.Some? <==> old(s.CanSend(e.window))) && (f.Some? ==> !s.cancelled)
    ensures s.cancelled == old(s.cancelled) && s.completed == old(s.completed) && s.acked == old(s.acked)
    ensures s.inflight == if f.Some? then old(s.inflight) + multiset{f.value} else old(s.inflight)
    ensures s.finSent == (old(s.finSent) || (f.Some? && f.value.fin))
  {
    hide SendStream.Valid, FrameOk, Accounted, HasFin, SendStream.MoreOk, SendStream.FitsIn, Taken, IsNext, IsNewData;
    NoRoomForOneByte(s.streamID, s.writeOffset, e.maxBytes);
    if s.finSent && s.retransmissionQueue == [] {
      CompletedCannotSend(s, e.window);
    }
    var r := s.PopStreamFrame(e.maxBytes, e.window, e.newlyBlocked);
    f := if r.Popped? then Some(r.frame) else None;
  }

  class Sender {
    const handler: SentPacketHandler
    const stream: SendStream
    var carried: seq<StreamFrame> // the frames that were sent
    var panicked: bool            // whether a callback has panicked
    var completions: nat          // how often the stream was reported complete
    ghost var ledger: Ledger

    ghost predicate Agree()
      reads this`carried, handler`books, handler`given, stream`inflight, stream`acked
    {
      && AllGiven(handler.given, |carried|)
      && InflightIs(stream.inflight, carried, Open(|carried|, handler.books.acked, handler.books.lost))
      && AllReported(stream.acked, carried, handler.books.acked)
    }

    ghost predicate StreamOk()
      reads this`panicked, this`completions, stream
    {
      stream.Valid() && DoneOk(stream) && !panicked && completions == if stream.completed then 1 else 0
    }

    /** The end of the stream was sent exactly if a frame has carried it. */
    ghost predicate EndOk()
      reads this`carried, stream`finSent
    {
      stream.finSent <==> EndCarried(carried)
    }

    ghost predicate LedgerOk()
      reads this`ledger, this`carried, stream`cancelled
    {
      ledger.carried == carried && ledger.cancelled == stream.cancelled
    }

    ghost predicate Valid()
      reads this, handler, handler.Objects(), stream
    {
      L.Matches(handler, ledger.loss) && StreamOk() && EndOk() && Agree() && LedgerOk()
    }

    constructor (h: SentPacketHandler, s: SendStream)
      requires L.Matches(h, L.NEW_LEDGER) && h.books == Books(0, [], []) && s.Valid() && s.Pristine()
      ensures Valid() && handler == h && stream == s && ledger == NEW_LEDGER && this !in h.Objects()
    {
      hide L.Matches, SendStream.Valid, AllGiven, InflightIs, AllReported, Open;
      assert forall o :: o in h.Objects() ==> allocated(o);
      handler, stream := h, s;
      carried, panicked, completions, ledger := [], false, 0, NEW_LEDGER;
      GivenIs(h, L.NEW_LEDGER);
      NothingCarried();
    }

    /** An operation of the handler, and the callbacks that it calls. */
    method HandleNetwork(x: L.Input) returns (o: L.Outcome)
      requires Valid() && stream !in handler.Objects() && this !in handler.Objects()
      requires !x.event.Send? && (x.event.ReceiveAck? ==> AckMerge.Validated(x.event.ranges))
      modifies this, handler, handler.Objects(), stream
      ensures fresh(handler.Objects() - old(handler.Objects())) && L.Right(old(ledger).loss, x.event, o)
      ensures o != L.Refused ==> Valid() && ledger == old(ledger).(loss := L.Record(old(ledger).loss, x.event, o))
    {
      hide L.Matches, L.Right, L.Record, SentPacketHandler.Objects, SendStream.Valid, DoneOk, InflightIs, AllReported;
      hide AllGiven, Open;
      ghost var l := ledger.loss;
      var b := handler.books;
      GivenIs(handler, l);
      o := L.Step(handler, x, l);
      if o != L.Refused {
        ledger := ledger.(loss := L.Record(l, x.event, o));
        GivenStays(l, x.event, o);
        GivenIs(handler, ledger.loss);
        CallBack(b);
      }
    }

    /** The handler has gone on since it had the books b. */
    method CallBack(b: Books)
      requires L.Matches(handler, ledger.loss) && StreamOk() && Grown(b, handler.books)
      requires stream !in handler.Objects() && this !in handler.Objects()
      requires AllGiven(handler.given, |carried|) && AllReported(stream.acked, carried, b.acked)
      requires InflightIs(stream.inflight, carried, Open(|carried|, b.acked, b.lost))
      modifies this`panicked, this`completions
      modifies stream`numOutstandingFrames, stream`completed, stream`inflight, stream`acked, stream`retransmissionQueue
      ensures L.Matches(handler, ledger.loss) && StreamOk() && Agree()
    {
      hide SendStream.Valid, DoneOk, InflightIs, AllReported, AllGiven, Open, Reports, L.Matches;
      ghost var b' := handler.books;
      assert b'.acked[..|b.acked|] == b.acked && b'.lost[..|b.lost|] == b.lost;
      BooksReport(handler, ledger.loss, |carried|);
      var p, c := PassOn(stream, carried, handler.books, |b.acked|, |b.lost|);
      panicked, completions := panicked || p, completions + c;
    }

    /** The framer asks for a frame; if there is room for one and something to send, it goes into a packet. */
    method HandleSend(e: Event) returns (o: Outcome)
      requires Valid() && stream !in handler.Objects() && this !in handler.Objects() && e.Send?
      modifies this, handler, handler.Objects(), stream
      ensures Valid() && handler.Objects() == old(handler.Objects())
      ensures Right(old(ledger), e, o) && ledger == Record(old(ledger), e, o)
      ensures o.Carried? <==> HasRoom(e.maxBytes) && old(stream.CanSend(e.window))
    {
      hide L.Matches, L.Right, L.Record, SendStream.Valid, InflightIs, AllReported, AllGiven, Open, EndCarried, DoneOk;
      o := Quiet;
      if HasRoom(e.maxBytes) {
        var f := PopFrom(stream, e);
        if f.Some? {
          assert stream.inflight - multiset{f.value} == old(stream.inflight);
          o := SendCarrying(f.value, e);
        }
      }
    }

    method SendCarrying(f: StreamFrame, e: Event) returns (o: Outcome)
      requires L.Matches(handler, ledger.loss) && StreamOk() && LedgerOk() && e.Send?
      requires stream !in handler.Objects() && this !in handler.Objects()
      requires AllGiven(handler.given, |carried|) && AllReported(stream.acked, carried, handler.books.acked)
      requires f in stream.inflight
      requires InflightIs(stream.inflight - multiset{f}, carried,
                          Open(|carried|, handler.books.acked, handler.books.lost))
      requires stream.finSent <==> EndCarried(carried) || f.fin
      modifies this`carried, this`ledger, handler, handler.Objects()
      ensures Valid() && handler.Objects() == old(handler.Objects())
      ensures o.Carried? && L.Right(old(ledger).loss, PacketWith(e, |old(carried)|), L.Sent(o.pn))
      ensures ledger == Record(old(ledger), e, o)
    {
      hide L.Matches, L.Right, L.Record, SendStream.Valid, InflightIs, AllReported, AllGiven, Open, Reports, DoneOk;
      hide EndCarried, StreamOk, Handled;
      EndStep(carried, f);
      ghost var b, given, l := handler.books, handler.given, ledger.loss;
      BooksReport(handler, l, |carried|);
      GivenIs(handler, l);
      var x := PacketWith(e, |carried|);
      var sent := L.DoSend(handler, L.Input(x, e.clock, 0, e.random), l);
      SendGives(l, x, sent);
      GivenIs(handler, L.Record(l, x, sent));
      CarryOne(stream.inflight - multiset{f}, carried, f, b, given, stream.acked);
      assert stream.inflight - multiset{f} + multiset{f} == stream.inflight;
      o := Carried(sent.pn, f);
      ledger := ledger.(loss := L.Record(l, x, sent), carried := carried + [f]);
      carried := carried + [f];
    }

    method HandleWrite(e: Event)
      requires Valid() && stream !in handler.Objects() && (e.Write? || e.Wake? || e.Close? || e.Cancel?)
      modifies this`completions, this`ledger, stream
      ensures Valid() && handler.Objects() == old(handler.Objects()) && ledger == Record(old(ledger), e, Quiet)
    {
      hide L.Matches, L.Record, SendStream.Valid, DoneOk, Agree, EndOk;
      var newlyCompleted := UseStream(stream, e);
      if newlyCompleted {
        completions := completions + 1;
      }
      ledger := Record(ledger, e, Quiet);
    }

    method Handle(e: Event) returns (o: Outcome)
      requires Valid() && stream !in handler.Objects() && this !in handler.Objects() && AcksValidated(e)
      modifies this, handler, handler.Objects(), stream
      ensures fresh(handler.Objects() - old(handler.Objects())) && Right(old(ledger), e, o)
      ensures o != Net(L.Refused) ==> Valid() && ledger == Record(old(ledger), e, o)
    {
      hide Valid, L.Record, L.Right, SentPacketHandler.Objects, SendStream.CanSend;
      o := Quiet;
      match e
      case Send(_, _, _, _, _, _) => o := HandleSend(e);
      case Network(x) =>
        if !x.event.Send? {
          var r := HandleNetwork(x);
          o := Net(r);
        }
      case _ => HandleWrite(e);
    }
  }

  lemma SendGives(l: L.Ledger, e: L.Event, o: L.Outcome)
    requires e.Send? && o.Sent?
    ensures L.Record(l, e, o).given == l.given + multiset(Handled(e.frames))
  {
    hide Handled;
  }

  lemma CarryOne(inflight: multiset<StreamFrame>, carried: seq<StreamFrame>, f: StreamFrame, b: Books,
                 given: multiset<Frame>, acked: set<StreamFrame>)
    requires AllGiven(given, |carried|) && Reports(b.acked, b.lost, |carried|) && AllReported(acked, carried, b.acked)
    requires InflightIs(inflight, carried, Open(|carried|, b.acked, b.lost))
    ensures AllGiven(given + multiset(Handled([Frame(|carried|, true)])), |carried + [f]|)
    ensures AllReported(acked, carried + [f], b.acked)
    ensures InflightIs(inflight + multiset{f}, carried + [f], Open(|carried + [f]|, b.acked, b.lost))
  {
    var n := |carried|;
    GiveOne(given, n);
    ReportedStays(acked, carried, [f], b.acked, []);
    assert b.acked + [] == b.acked;
    hide InflightIs, AllReported;
    NotYetReported(b.acked, b.lost, n);
    assert Open(n + 1, b.acked, b.lost) == Open(n, b.acked, b.lost) + {n};
    OneMoreCarried(inflight, carried, Open(n, b.acked, b.lost), f);
  }

  lemma GiveOne(given: multiset<Frame>, n: nat)
    requires AllGiven(given, n)
    ensures AllGiven(given + multiset(Handled([Frame(n, true)])), n + 1)
  {
    var x := Frame(n, true);
    assert [x][..0] == [] && Handled([x]) == [x];
    forall y ensures (given + multiset([x]))[y] == if y.hasHandler && y.id < n + 1 then 1 else 0 {
      assert y.hasHandler && y.id == n ==> y == x;
    }
  }

  lemma NotYetReported(acked: seq<Frame>, lost: seq<Frame>, n: nat)
    requires Reports(acked, lost, n)
    ensures Frame(n, true) !in acked && Frame(n, true) !in lost
  {
    var given :| AllGiven(given, n) && multiset(acked) + multiset(lost) <= given;
    var x := Frame(n, true);
    assert (multiset(acked) + multiset(lost))[x] <= given[x] == 0;
    assert x in acked ==> multiset(acked)[x] > 0;
    assert x in lost ==> multiset(lost)[x] > 0;
  }

  // ------------------------------------------------------------------
  // Runs
  // ------------------------------------------------------------------

  /** What can be seen of a sender: which frames it has sent and which were reported as acknowledged or lost; how
      many wait for retransmission; how much of the stream was sent. */
  datatype Report = Report(
    panicked: bool,
    completions: nat,
    cancelled: bool,
    carried: seq<StreamFrame>,
    acked: seq<Frame>,
    lost: seq<Frame>,
    waiting: nat,
    length: nat)

  ghost predicate ByteReported(carried: seq<StreamFrame>, acked: seq<Frame>, b: nat) {
    exists i: nat :: i < |carried| && Has(carried[i], b) && Frame(i, true) in acked
  }

  /** Every byte of a stream of some length, and its end, was in a packet that was acknowledged. */
  ghost predicate AllAcknowledged(carried: seq<StreamFrame>, acked: seq<Frame>, length: nat) {
    && (forall b: nat :: b < length ==> ByteReported(carried, acked, b))
    && exists i: nat :: i < |carried| && carried[i].fin && carried[i].offset + |carried[i].data| == length &&
                        Frame(i, true) in acked
  }

  lemma DoneIsAcknowledged(s: SendStream, carried: seq<StreamFrame>, acked: seq<Frame>)
    requires s.Valid() && DoneOk(s) && s.completed && !s.cancelled && AllReported(s.acked, carried, acked)
    ensures AllAcknowledged(carried, acked, s.writeOffset)
  {
    assert s.writeOffset == |s.accepted|;
    forall b: nat | b < s.writeOffset ensures ByteReported(carried, acked, b) {
      assert InSome(s.acked, b);
      var f :| f in s.acked && Has(f, b);
      assert IsReported(f, carried, acked);
    }
    var f :| f in s.acked && f.fin;
    assert IsReported(f, carried, acked);
    assert f in s.AllFrames() + {};
  }

  /** Every frame was reported. */
  predicate Quiescent(r: Report) {
    forall i :: 0 <= i < |r.carried| ==> Frame(i, true) in r.acked || Frame(i, true) in r.lost
  }

  /** No callback panics.  Unless it is cancelled, a stream is reported complete, once, exactly if its end was sent,
      every frame was reported and none waits for retransmission; and then every byte and the end were acknowledged. */
  ghost predicate ReportOk(r: Report) {
    && !r.panicked && r.completions <= 1
    && (r.cancelled ==> r.completions == 1)
    && (!r.cancelled ==>
          && (r.completions == 1 <==> EndCarried(r.carried) && Quiescent(r) && r.waiting == 0)
          && (r.completions == 1 ==> AllAcknowledged(r.carried, r.acked, r.length)))
  }

  lemma NothingOpen(inflight: multiset<StreamFrame>, r: Report)
    requires InflightIs(inflight, r.carried, Open(|r.carried|, r.acked, r.lost))
    ensures inflight == multiset{} <==> Quiescent(r)
  {
    var open := Open(|r.carried|, r.acked, r.lost);
    if Quiescent(r) {
      assert open == {};
      assert forall f :: Carriers(r.carried, open, f) == {};
      assert forall f :: inflight[f] == 0;
    } else {
      var i :| 0 <= i < |r.carried| && Frame(i, true) !in r.acked && Frame(i, true) !in r.lost;
      CarriedIsInflight(inflight, r.carried, open, i);
    }
  }

  ghost predicate Owns(owned: set<object>, sender: Sender)
    reads sender, sender.handler
  {
    && sender in owned && sender.handler in owned && sender.stream in owned && sender.handler.Objects() <= owned
    && sender.stream !in sender.handler.Objects() && sender !in sender.handler.Objects()
  }

  method Look(sender: Sender) returns (r: Report)
    requires sender.Valid()
    ensures ReportOk(r) && r.carried == sender.ledger.carried && r.cancelled == sender.ledger.cancelled
  {
    hide L.Matches, SendStream.Valid, InflightIs, AllReported, AllGiven, Open, AllAcknowledged, EndCarried, Quiescent;
    hide Accounted, HasFin;
    var s, b := sender.stream, sender.handler.books;
    r := Report(sender.panicked, sender.completions, s.cancelled, sender.carried, b.acked, b.lost,
                |s.retransmissionQueue|, s.writeOffset);
    NothingOpen(s.inflight, r);
    if s.completed && !s.cancelled {
      DoneIsAcknowledged(s, r.carried, r.acked);
    }
  }

  ghost function After(events: seq<Event>, out: seq<Outcome>, k: nat): Ledger
    requires k <= |out| <= |events|
  {
    if k == 0 then NEW_LEDGER else Record(After(events, out, k - 1), events[k - 1], out[k - 1])
  }

  ghost predicate AllRight(events: seq<Event>, out: seq<Outcome>) {
    |out| <= |events| && forall k :: 0 <= k < |out| ==> Right(After(events, out, k), events[k], out[k])
  }

  lemma {:induction false} AfterPrefix(events: seq<Event>, out: seq<Outcome>, o: Outcome, k: nat)
    requires k <= |out| < |events|
    ensures After(events, out + [o], k) == After(events, out, k)
  {
    hide Record;
    if k > 0 {
      AfterPrefix(events, out, o, k - 1);
    }
  }

  lemma OneMoreRight(events: seq<Event>, out: seq<Outcome>, o: Outcome)
    requires AllRight(events, out) && |out| < |events| && Right(After(events, out, |out|), events[|out|], o)
    ensures AllRight(events, out + [o])
    ensures After(events, out + [o], |out| + 1) == Record(After(events, out, |out|), events[|out|], o)
  {
    hide Right, Record;
    forall k | 0 <= k <= |out| ensures After(events, out + [o], k) == After(events, out, k) {
      AfterPrefix(events, out, o, k);
    }
  }

  lemma NothingYet(events: seq<Event>)
    ensures AllRight(events, []) && After(events, [], 0) == NEW_LEDGER
  {
  }

  lemma RefusedChangesNothing(l: Ledger, e: Event)
    requires Right(l, e, Net(L.Refused))
    ensures Record(l, e, Net(L.Refused)) == l
  {
  }

  method Advance(sender: Sender, events: seq<Event>, out: seq<Outcome>, ghost owned: set<object>)
    returns (o: Outcome, ghost owned': set<object>)
    requires |out| < |events| && AllRight(events, out) && AcksValidated(events[|out|])
    requires sender.Valid() && sender.ledger == After(events, out, |out|) && Owns(owned, sender)
    modifies owned
    ensures owned <= owned' && fresh(owned' - owned) && Owns(owned', sender) && AllRight(events, out + [o])
    ensures o != Net(L.Refused) ==> sender.Valid() && sender.ledger == After(events, out + [o], |out| + 1)
    ensures o == Net(L.Refused) ==> After(events, out + [o], |out| + 1) == After(events, out, |out|)
  {
    hide Sender.Valid, SentPacketHandler.Objects, Right, Record, AllRight, After;
    o := sender.Handle(events[|out|]);
    OneMoreRight(events, out, o);
    if o == Net(L.Refused) {
      RefusedChangesNothing(After(events, out, |out|), events[|out|]);
    }
    owned' := owned + sender.handler.Objects();
  }

  method NewSender(id: nat, isClient: bool, addressValidated: bool, initialPN: nat, random: nat)
    returns (sender: Sender, ghost owned: set<object>)
    ensures sender.Valid() && fresh(owned) && Owns(owned, sender) && sender.ledger == NEW_LEDGER
  {
    hide L.Matches, SendStream.Valid, Sender.Valid, SentPacketHandler.Objects;
    var s := new SendStream(id);
    var h := L.Start(isClient, addressValidated, initialPN, random);
    sender := new Sender(h, s);
    owned := {sender, h, s} + h.Objects();
  }

  /** Whatever is written, sent, acknowledged, lost or cancelled, in any order: every result is right, and so is what
      can be seen in the end.  A run ends early only with an ACK that is refused. */
  method Run(id: nat, isClient: bool, addressValidated: bool, initialPN: nat, random: nat, events: seq<Event>)
    returns (out: seq<Outcome>, r: Report)
    requires forall i :: 0 <= i < |events| ==> AcksValidated(events[i])
    ensures AllRight(events, out) && ReportOk(r)
    ensures var l := After(events, out, |out|); r.carried == l.carried && r.cancelled == l.cancelled
    ensures if Net(L.Refused) in out then out[|out| - 1] == Net(L.Refused) && Net(L.Refused) !in out[..|out| - 1]
            else |out| == |events|
  {
    hide Sender.Valid, ReportOk, SentPacketHandler.Objects, AllRight, After;
    var sender;
    ghost var owned;
    sender, owned := NewSender(id, isClient, addressValidated, initialPN, random);
    out := [];
    NothingYet(events);
    r := Look(sender);
    while |out| < |events|
      invariant |out| <= |events| && AllRight(events, out) && Net(L.Refused) !in out
      invariant sender.Valid() && sender.ledger == After(events, out, |out|) && fresh(owned) && Owns(owned, sender)
      invariant ReportOk(r) && r.carried == sender.ledger.carried && r.cancelled == sender.ledger.cancelled
    {
      var o;
      o, owned := Advance(sender, events, out, owned);
      out := out + [o];
      if o == Net(L.Refused) {
        return;
      }
      r := Look(sender);
    }
  }
}
