/** Whole runs of a stream: every script of writes, sends, losses, retransmissions, deliveries, window updates and
    reads. */
module StreamRuns {
  import opened Common
  import opened StreamFrames
  import opened FrameSorting
  import opened ReceiveStreams
  import opened StreamNetwork
  import opened StreamDelivery

  datatype Event =
    | Write(p: seq<Byte>)
    | WriteContinues(deadlinePassed: bool)
    | Close
    | Send(maxBytes: nat, newlyBlocked: bool)
    | Acknowledge(i: nat)
    | Lose(i: nat)
    | Deliver(i: nat, now: int)
    | Read(space: nat, now: int)
    | Advertise(now: int, rtt: nat, allow: bool)
    | AdvertiseConn(now: int, rtt: nat, allow: bool)
    | DeliverLimit(i: nat, toConnection: bool)

  /** What an event has for a result: whether a write has begun; what a write in progress reports, if it ends; the
      frame that is sent; whether the sender reports completion; whether the receiver goes on after a delivery; and
      what a read returns. */
  datatype Outcome =
    | Begun(taken: bool)
    | Reported(n: Option<nat>)
    | SentFrame(frame: Option<StreamFrame>)
    | Acked(newlyCompleted: bool)
    | Delivered(ok: bool)
    | Got(bytes: seq<Byte>, result: ReadResult)
    | Quiet

  ghost function Record(l: Ledger, e: Event, o: Outcome): Ledger {
    match o
    case Begun(taken) => if taken && e.Write? then l.(writing := Some(e.p)) else l
    case Reported(n) =>
      if n.Some? && l.writing.Some? && n.value <= |l.writing.value| then
        l.(written := l.written + l.writing.value[..n.value], writing := None)
      else l
    case SentFrame(f) => if f.Some? then l.(sent := l.sent + [f.value]) else l
    case Acked(newlyCompleted) => if newlyCompleted then l.(completions := l.completions + 1) else l
    case Delivered(ok) => if ok && e.Deliver? && e.i < |l.sent| then l.(arrived := l.arrived + BytesOf(l.sent[e.i]))
                          else l
    case Got(bytes, result) => l.(out := l.out + bytes, eof := result == Eof)
    case Quiet => if e.Close? then l.(closed := true) else l
  }

  /** A read returns bytes of the stream that have arrived, in order; EOF only after Close and when all was read; and
      less than was asked for only if the next byte has not arrived. */
  ghost predicate ReadRight(l: Ledger, space: nat, bytes: seq<Byte>, result: ReadResult) {
    && |bytes| <= space && l.out + bytes <= Offered(l) && (forall b: nat :: b < |l.out + bytes| ==> b in l.arrived)
    && result != Failed && (l.eof ==> result == Eof)
    && (result == Eof ==> l.closed && l.out + bytes == Offered(l))
    && (result == ReadResult.Ok ==> |bytes| == space || |l.out + bytes| !in l.arrived)
    && (result == ReadResult.MustWait ==> bytes == [] && |l.out| !in l.arrived)
  }

  /** Which results are right.  A write begins exactly if there is something to write, no other write is in progress,
      the stream is not closed and offsets suffice.  A write that is past its deadline ends.  Frames carry parts of
      what was written.  Completion is reported once, after Close.  The receiver accepts every frame, unless what has
      arrived then leaves too many gaps. */
  ghost predicate Right(l: Ledger, e: Event, o: Outcome) {
    match e
    case Write(p) => o == Begun(l.writing.None? && !l.closed && 0 < |p| && |l.written| + |p| < MAX_BYTE_COUNT)
    case WriteContinues(deadlinePassed) =>
      && o.Reported? && (o.n.Some? ==> l.writing.Some? && o.n.value <= |l.writing.value|)
      && (deadlinePassed && l.writing.Some? ==> o.n.Some?)
    case Close => o == Quiet
    case Send(_, _) => o.SentFrame? && (o.frame.Some? ==> IsPart(o.frame.value, Offered(l), l.closed))
    case Acknowledge(_) => o.Acked? && (o.newlyCompleted ==> l.closed && l.completions == 0)
    case Lose(_) => o == Quiet
    case Deliver(i, _) => o == Delivered(i >= |l.sent| || !TooManyHoles(l.arrived + BytesOf(l.sent[i])))
    case Read(space, _) => o.Got? && ReadRight(l, space, o.bytes, o.result)
    case Advertise(_, _, _) => o == Quiet
    case AdvertiseConn(_, _, _) => o == Quiet
    case DeliverLimit(_, _) => o == Quiet
  }

  const NOTHING := Ledger([], None, false, [], {}, [], false, 0)

  ghost function After(events: seq<Event>, out: seq<Outcome>, k: nat): Ledger
    requires k <= |events| && k <= |out|
  {
    if k == 0 then NOTHING else Record(After(events, out, k - 1), events[k - 1], out[k - 1])
  }

  lemma {:induction false} AfterPrefix(events: seq<Event>, out: seq<Outcome>, o: Outcome, k: nat)
    requires k <= |events| && k <= |out|
    ensures After(events, out + [o], k) == After(events, out, k)
  {
    if k > 0 {
      AfterPrefix(events, out, o, k - 1);
    }
  }

  ghost predicate AllRight(events: seq<Event>, out: seq<Outcome>)
    requires |out| <= |events|
  {
    forall i :: 0 <= i < |out| ==> Right(After(events, out, i), events[i], out[i])
  }

  lemma OneMoreRight(events: seq<Event>, out: seq<Outcome>, o: Outcome)
    requires |out| < |events| && AllRight(events, out) && Right(After(events, out, |out|), events[|out|], o)
    ensures AllRight(events, out + [o])
    ensures After(events, out + [o], |out| + 1) == Record(After(events, out, |out|), events[|out|], o)
  {
    hide Right, Record;
    var out' := out + [o];
    forall i | 0 <= i < |out'| ensures Right(After(events, out', i), events[i], out'[i]) {
      AfterPrefix(events, out, o, i);
    }
    AfterPrefix(events, out, o, |out|);
  }

  method HandleRead(pair: Pair, space: nat, now: int) returns (o: Outcome)
    requires pair.Valid()
    modifies pair.Parts()
    ensures pair.Valid() && pair.receiver.flow.Windows() == old(pair.receiver.flow.Windows())
    ensures Right(old(pair.Seen()), Read(space, now), o) && pair.Seen() == Record(old(pair.Seen()), Read(space, now), o)
  {
    hide Pair.Valid, Missing;
    var bytes, r := pair.DoRead(space, now);
    pair.ValidDelivers();
    pair.ReadHasArrived();
    pair.MissingIsNotThere(|pair.out|);
    return Got(bytes, r);
  }

  method HandleSender(pair: Pair, e: Event) returns (o: Outcome)
    requires pair.Valid() && !e.Read? && !e.Deliver?
    modifies pair.Parts()
    ensures pair.Valid() && (old(pair.WindowsHaveSize()) ==> pair.WindowsHaveSize())
    ensures Right(old(pair.Seen()), e, o) && pair.Seen() == Record(old(pair.Seen()), e, o)
  {
    hide Pair.Valid, IsPart, Offered;
    pair.ValidDelivers();
    o := Quiet;
    match e
    case Write(p) =>
      var taken := pair.DoWrite(p);
      o := Begun(taken);
    case WriteContinues(deadlinePassed) =>
      var n := pair.DoContinueWrite(deadlinePassed);
      o := Reported(n);
    case Close => pair.DoClose();
    case Send(maxBytes, newlyBlocked) =>
      var f := pair.DoSend(maxBytes, newlyBlocked);
      SameOffer(old(pair.Seen()), pair.Seen());
      o := SentFrame(f);
    case Acknowledge(i) =>
      var newlyCompleted := pair.DoAcknowledge(i);
      pair.ValidDelivers();
      o := Acked(newlyCompleted);
    case Lose(i) => pair.DoLose(i);
    case Advertise(now, rtt, allow) => pair.DoAdvertise(now, rtt, allow);
    case AdvertiseConn(now, rtt, allow) => pair.DoAdvertiseConn(now, rtt, allow);
    case DeliverLimit(i, toConnection) => pair.DoDeliverLimit(i, toConnection);
  }

  lemma SameOffer(l: Ledger, l': Ledger)
    requires l.written == l'.written && l.writing == l'.writing
    ensures Offered(l) == Offered(l')
  {
  }

  method Handle(pair: Pair, e: Event) returns (o: Outcome)
    requires pair.Valid()
    modifies pair.Parts()
    ensures Right(old(pair.Seen()), e, o) && pair.Seen() == Record(old(pair.Seen()), e, o)
    ensures o != Delivered(false) ==> pair.Valid() && (old(pair.WindowsHaveSize()) ==> pair.WindowsHaveSize())
  {
    hide Pair.Valid;
    if e.Read? {
      o := HandleRead(pair, e.space, e.now);
    } else if e.Deliver? {
      var ok := pair.DoDeliver(e.i, e.now);
      o := Delivered(ok);
    } else {
      o := HandleSender(pair, e);
    }
  }

  /** What was read in the end, whether EOF was returned, and how often the sender has reported completion. */
  datatype Ending = Ending(out: seq<Byte>, eof: bool, completions: nat)

  /** Every result of every script is right; in particular no event makes the receiver raise FINAL_SIZE_ERROR or
      FLOW_CONTROL_ERROR, and a run ends early only when the receiver has too many gaps.  From every state that is
      reached, sending, delivering and advertising windows leads to the end: all that was written is read, followed
      by EOF if and only if the stream was closed, and the sender reports completion exactly then.  So neither flow
      control nor loss recovery can get stuck. */
  method Run(streamID: nat, window: nat, maxWindow: nat, connWindow: nat, maxConnWindow: nat, events: seq<Event>)
    returns (out: seq<Outcome>, end: Option<Ending>)
    ensures |out| <= |events| && AllRight(events, out)
    ensures |out| < |events| ==> out != [] && out[|out| - 1] == Delivered(false)
    ensures forall i :: 0 <= i < |out| - 1 ==> out[i] != Delivered(false)
    ensures window > 0 && connWindow > 0 && (out == [] || out[|out| - 1] != Delivered(false)) ==>
              var l := After(events, out, |events|);
              end == Some(Ending(Offered(l), l.closed, if l.closed then 1 else 0))
  {
    hide Pair.Valid, Right, Record, AllRight, Offered;
    var pair := NewPair(streamID, window, maxWindow, connWindow, maxConnWindow);
    out, end := [], None;
    assert AllRight(events, []) by { NothingWrong(events); }
    for n := 0 to |events|
      invariant fresh(pair.Parts()) && pair.Valid() && (window > 0 && connWindow > 0 ==> pair.WindowsHaveSize())
      invariant |out| == n && AllRight(events, out) && pair.Seen() == After(events, out, n)
      invariant forall j :: 0 <= j < n ==> out[j] != Delivered(false)
    {
      var o := Handle(pair, events[n]);
      OneMoreRight(events, out, o);
      out := out + [o];
      if o == Delivered(false) {
        return;
      }
    }
    if window > 0 && connWindow > 0 {
      pair.Finish(0);
      end := Some(Ending(pair.out, pair.eof, pair.completions));
    }
  }

  lemma NothingWrong(events: seq<Event>)
    ensures AllRight(events, [])
  {
  }
}
