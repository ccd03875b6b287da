/** Any number of receive streams that share one connection flow controller.

    What the connection has been charged for is always the sum over the streams, and what it has got back is
    always the sum of what was read on each stream, or of all that was received on it once it was abandoned. */
module FlowSession {
  import opened Common
  import opened FrameSorting
  import opened StreamFrames
  import opened StreamNetwork
  import opened FlowControl
  import opened ReceiveStreams
  import opened FlowLedger

  /** A flow controller has advertised a limit, and its window size has not fallen below the initial one. */
  predicate WindowIs(b: Base, window: nat, size: nat) {
    b.receiveWindow == window && WindowOk(b) && size <= b.receiveWindowSize
  }

  lemma UpdateIsRight(b: Base, window: nat, size: nat, now: int, rtt: nat, allow: bool)
    requires WindowIs(b, window, size)
    ensures var b' := WithWindowUpdate(b, now, rtt, allow);
            var limit := if HasWindowUpdate(b) then b'.receiveWindow else 0;
            WindowIs(b', WithLimit(window, limit), size) && LimitRight(window, b.bytesRead, size, limit)
  {
    WindowNeverShrinks(b, now, rtt, allow);
  }

  /** A stream is in the state that its account shows. */
  ghost predicate AccountOk(s: ReceiveStream, a: Account, c: Config, next: Callback)
    reads s, s.flow, s.frameQueue
  {
    && s.Valid() && !s.shutdown
    && a.highest == s.flow.base.highestReceived && a.final == s.FinalKnown()
    && a.byReset == s.finalByReset && a.reset == s.resetRemotely && a.cancelled == s.cancelled && a.eof == s.finRead
    && a.read == |s.delivered| && GapsAre(s.frameQueue.gaps, a.arrived)
    && WindowIs(s.flow.base, a.window, c.window)
    && forall id :: id in s.frameQueue.fate ==> id < next
  }

  lemma CreditIs(s: ReceiveStream, a: Account, c: Config, next: Callback)
    requires AccountOk(s, a, c, next)
    ensures s.flow.Credit() == Credit(a) && s.flow.base.bytesRead == a.read && s.flow.base.highestReceived == a.highest
    ensures a.final ==> s.finalOffset == a.highest
    ensures s.completions == (if a.eof || a.byReset || (a.final && a.cancelled) then 1 else 0)
  {
    hide Missing, ReceiveStream.Released, GapsAre, WindowIs;
  }

  /** What was read has arrived. */
  lemma ReadHasArrived(s: ReceiveStream, arrived: set<nat>)
    requires s.Valid() && GapsAre(s.frameQueue.gaps, arrived)
    ensures forall b: nat :: b < |s.delivered| ==> b in arrived
  {
    hide ReceiveStream.Released, ReceiveStream.Lifecycle;
    ReadBelowHighest(s.frameQueue.queue, s.frameQueue.gaps, s.frameQueue.readPos, s.flow.base.highestReceived);
    assert forall b: nat :: b < s.frameQueue.readPos ==> !Missing(s.frameQueue.gaps, b);
  }

  /** What all the other streams have received and given back, and the limit for the connection. */
  ghost function Share(s: ReceiveStream): (int, int, nat)
    reads s.flow, s.flow.connection
  {
    (s.flow.OthersReceived(), s.flow.OthersCredit(), s.flow.connection.base.receiveWindow)
  }

  ghost predicate ConnOk(s: ReceiveStream, c: Config)
    reads s.flow.connection
  {
    WindowOk(s.flow.connection.base) && c.connWindow <= s.flow.connection.base.receiveWindowSize
  }

  lemma NothingArrived(gaps: seq<Interval>)
    requires gaps == [Interval(0, MAX_BYTE_COUNT)]
    ensures GapsAre(gaps, {})
  {
    AllMissing(gaps);
  }

  method FeedFrame(s: ReceiveStream, f: StreamFrame, next: Callback, now: int, c: Config, ghost a: Account)
    returns (ok: bool)
    requires AccountOk(s, a, c, next) && ConnOk(s, c) && f.offset + |f.data| < MAX_BYTE_COUNT
    modifies s, s.frameQueue, s.flow, s.flow.connection
    ensures ok <==> !Contradictory(a, f.offset + |f.data|, f.fin)
                    && !Exceeds(old(s.flow.base), old(s.flow.connection.base), f.offset + |f.data|) && !Fragments(a, f)
    ensures ok ==> AccountOk(s, AfterFrame(a, f), c, next + 1) && Share(s) == old(Share(s)) && ConnOk(s, c)
  {
    hide ReceiveStream.Valid, ReceiveStream.Faithful, Missing, GapsAre, GapsOk, TooManyHoles, BytesOf, Exceeds;
    ghost var gaps := s.frameQueue.gaps;
    var r := s.HandleStreamFrame(f.offset, f.data, f.fin, next, now);
    ok := r == Handled;
    if !r.Rejected? && !a.cancelled {
      GapsAfter(gaps, s.frameQueue.gaps, a.arrived, f);
    }
  }

  method FeedReset(s: ReceiveStream, finalSize: nat, now: int, c: Config, ghost a: Account, ghost next: Callback)
    returns (ok: bool)
    requires AccountOk(s, a, c, next) && ConnOk(s, c) && finalSize < MAX_BYTE_COUNT
    modifies s, s.flow, s.flow.connection
    ensures ok <==>
              !Contradictory(a, finalSize, true) && !Exceeds(old(s.flow.base), old(s.flow.connection.base), finalSize)
    ensures ok ==> AccountOk(s, AfterReset(a, finalSize), c, next) && Share(s) == old(Share(s)) && ConnOk(s, c)
  {
    hide ReceiveStream.Valid, ReceiveStream.Faithful, Missing, GapsAre, Exceeds;
    var r := s.HandleResetStreamFrame(finalSize, now);
    ok := r == Handled;
    if ok {
      ResetIsFinal(s);
    }
  }

  lemma ResetIsFinal(s: ReceiveStream)
    requires s.Valid() && s.resetRemotely
    ensures s.FinalKnown()
  {
  }

  method FeedRead(s: ReceiveStream, space: nat, now: int, c: Config, ghost a: Account, ghost next: Callback)
    returns (out: seq<Byte>, r: ReadResult)
    requires AccountOk(s, a, c, next) && ConnOk(s, c)
    modifies s, s.frameQueue, s.flow, s.flow.connection
    ensures ReadRight(a, space, |out|, r)
    ensures AccountOk(s, AfterRead(a, |out|, r), c, next) && Share(s) == old(Share(s)) && ConnOk(s, c)
  {
    hide ReceiveStream.Valid, ReceiveStream.Faithful, Missing;
    CreditIs(s, a, c, next);
    out, r := s.Read(space, now);
    ReadHasArrived(s, a.arrived);
    Ended(s);
  }

  lemma Ended(s: ReceiveStream)
    requires s.Valid()
    ensures s.FinalKnown() ==> s.finalOffset == s.flow.base.highestReceived
    ensures |s.delivered| < MAX_BYTE_COUNT && (!s.FinalKnown() ==> s.finalOffset == MAX_BYTE_COUNT)
  {
    hide ReceiveStream.Released, ReceiveStream.Lifecycle;
    ReadBelowHighest(s.frameQueue.queue, s.frameQueue.gaps, s.frameQueue.readPos, s.flow.base.highestReceived);
  }

  method FeedCancel(s: ReceiveStream, now: int, c: Config, ghost a: Account, ghost next: Callback)
    requires AccountOk(s, a, c, next) && ConnOk(s, c)
    modifies s, s.flow, s.flow.connection
    ensures AccountOk(s, AfterCancel(a), c, next) && Share(s) == old(Share(s)) && ConnOk(s, c)
  {
    hide ReceiveStream.Valid, ReceiveStream.Faithful, Missing, GapsAre;
    s.CancelRead(now);
  }

  method FeedUpdate(s: ReceiveStream, now: int, rtt: nat, allow: bool, c: Config, ghost a: Account,
                    ghost next: Callback)
    returns (limit: nat)
    requires AccountOk(s, a, c, next) && ConnOk(s, c)
    modifies s.flow, s.flow.connection
    ensures if a.final then limit == 0 else LimitRight(a.window, a.read, c.window, limit)
    ensures AccountOk(s, a.(window := WithLimit(a.window, limit)), c, next) && Share(s) == old(Share(s)) && ConnOk(s, c)
  {
    hide ReceiveStream.Valid, ReceiveStream.Faithful, Missing, GapsAre;
    CreditIs(s, a, c, next);
    UpdateIsRight(s.flow.base, a.window, c.window, now, rtt, true);
    limit := s.GetWindowUpdate(now, rtt, allow);
  }

  class Session {
    const conn: ConnectionFlowController
    const config: Config
    var streams: seq<ReceiveStream>
    var nextCallback: Callback
    ghost var book: Balance

    ghost function Parts(): set<object>
      reads this, streams
    {
      {this, conn}
      + (set i | 0 <= i < |streams| :: streams[i] as object)
      + (set i | 0 <= i < |streams| :: streams[i].flow as object)
      + (set i | 0 <= i < |streams| :: streams[i].frameQueue as object)
    }

    /** No two streams share a part. */
    ghost predicate Separate()
      reads this
    {
      && (forall i :: 0 <= i < |streams| ==> streams[i].flow.connection == conn)
      && (forall i, j :: 0 <= i < j < |streams| ==>
            streams[i] != streams[j] && streams[i].flow != streams[j].flow &&
            streams[i].frameQueue != streams[j].frameQueue)
    }

    ghost predicate StreamOk(i: nat)
      requires i < |streams| == |book.accounts|
      reads this, streams[i], streams[i].flow, streams[i].frameQueue
    {
      AccountOk(streams[i], book.accounts[i], config, nextCallback)
    }

    ghost predicate Valid()
      reads this, Parts()
    {
      && |streams| == |book.accounts|
      && Separate()
      && (forall i :: 0 <= i < |streams| ==> StreamOk(i))
      && conn.base.highestReceived == TotalReceived(book.accounts)
      && conn.base.bytesRead == TotalCredit(book.accounts)
      && WindowIs(conn.base, book.window, config.connWindow)
    }

    constructor (config: Config)
      ensures Valid() && streams == [] && book == NewBalance(config, 0) && this.config == config && fresh(Parts())
    {
      conn := new ConnectionFlowController(config.connWindow, config.maxConnWindow);
      this.config := config;
      streams, nextCallback, book := [], 0, NewBalance(config, 0);
    }

    method NewStream() returns (stream: ReceiveStream)
      ensures fresh(stream) && fresh(stream.flow) && fresh(stream.frameQueue) && stream.flow.connection == conn
      ensures AccountOk(stream, NewAccount(config), config, nextCallback)
    {
      hide ReceiveStream.Valid;
      var flow := new StreamFlowController(conn, config.window, config.maxWindow, 0);
      stream := new ReceiveStream(flow);
      NothingArrived(stream.frameQueue.gaps);
    }

    twostate lemma Opened(new stream: ReceiveStream)
      requires old(Valid()) && streams == old(streams) + [stream] && book.window == old(book).window
      requires book.accounts == old(book).accounts + [NewAccount(config)] && nextCallback == old(nextCallback)
      requires forall i :: 0 <= i < |old(streams)| ==>
                 unchanged(old(streams)[i]) && unchanged(old(streams)[i].flow) && unchanged(old(streams)[i].frameQueue)
      requires unchanged(conn) && stream.flow.connection == conn
      requires AccountOk(stream, NewAccount(config), config, nextCallback)
      requires forall i :: 0 <= i < |old(streams)| ==>
                 stream != old(streams)[i] && stream.flow != old(streams)[i].flow &&
                 stream.frameQueue != old(streams)[i].frameQueue
      ensures Valid()
    {
      hide AccountOk, TotalReceived, TotalCredit;
      TotalsAppend(old(book).accounts, NewAccount(config));
      forall j | 0 <= j < |streams| ensures StreamOk(j) {
        if j < |old(streams)| {
          assert old(StreamOk(j));
        }
      }
    }

    method Open()
      requires Valid()
      modifies this
      ensures Valid() && |streams| == |old(streams)| + 1 && fresh(Parts() - old(Parts()))
      ensures book == old(book).(accounts := old(book).accounts + [NewAccount(config)])
    {
      hide AccountOk, TotalReceived, TotalCredit, WindowIs;
      var stream := NewStream();
      streams, book := streams + [stream], book.(accounts := book.accounts + [NewAccount(config)]);
      Opened(stream);
    }

    /** After a step of stream i that left the other streams' shares of the connection alone. */
    twostate lemma StepOf(i: nat)
      requires old(Valid()) && i < |streams| && streams == old(streams) && nextCallback >= old(nextCallback)
      requires |book.accounts| == |streams| && book == Put(old(book), i, book.accounts[i]) && StreamOk(i)
      requires forall j :: 0 <= j < |streams| && j != i ==>
                 unchanged(streams[j]) && unchanged(streams[j].flow) && unchanged(streams[j].frameQueue)
      requires ConnOk(streams[i], config) && Share(streams[i]) == old(Share(streams[i]))
      ensures Valid()
    {
      hide ReceiveStream.Valid, GapsAre, TotalReceived, TotalCredit, Credit, StreamFlowController.Credit;
      assert old(StreamOk(i));
      CreditIs(streams[i], book.accounts[i], config, nextCallback);
      CreditWas(i);
      TotalsUpdate(old(book).accounts, i, book.accounts[i]);
      forall j | 0 <= j < |streams| ensures StreamOk(j) {
        assert old(StreamOk(j));
      }
    }

    twostate lemma CreditWas(i: nat)
      requires old(Valid()) && i < |old(streams)|
      ensures old(streams[i].flow.Credit()) == Credit(old(book).accounts[i])
    {
      hide TotalReceived, TotalCredit, GapsAre, WindowIs, Missing, ReceiveStream.Released;
      assert old(StreamOk(i));
    }

    method HandleFrame(i: nat, f: StreamFrame, now: int) returns (ok: bool)
      requires Valid() && i < |streams| && f.offset + |f.data| < MAX_BYTE_COUNT
      modifies Parts()
      ensures streams == old(streams)
      ensures ok <==> !Offends(old(book), i, f.offset + |f.data|, f.fin) && !Fragments(old(book).accounts[i], f)
      ensures ok ==> Valid() && book == Put(old(book), i, AfterFrame(old(book).accounts[i], f))
    {
      hide ReceiveStream.Valid, GapsAre, TotalReceived, TotalCredit, Fragments, AfterFrame;
      ghost var a := book.accounts[i];
      assert StreamOk(i);
      ok := FeedFrame(streams[i], f, nextCallback, now, config, a);
      if ok {
        nextCallback := nextCallback + 1;
        book := Put(book, i, AfterFrame(a, f));
        StepOf(i);
      }
    }

    method HandleReset(i: nat, finalSize: nat, now: int) returns (ok: bool)
      requires Valid() && i < |streams| && finalSize < MAX_BYTE_COUNT
      modifies Parts()
      ensures streams == old(streams) && (ok <==> !Offends(old(book), i, finalSize, true))
      ensures ok ==> Valid() && book == Put(old(book), i, AfterReset(old(book).accounts[i], finalSize))
    {
      hide ReceiveStream.Valid, GapsAre, TotalReceived, TotalCredit, AfterReset;
      ghost var a := book.accounts[i];
      assert StreamOk(i);
      ok := FeedReset(streams[i], finalSize, now, config, a, nextCallback);
      if ok {
        book := Put(book, i, AfterReset(a, finalSize));
        StepOf(i);
      }
    }

    method ReadFrom(i: nat, space: nat, now: int) returns (out: seq<Byte>, r: ReadResult)
      requires Valid() && i < |streams|
      modifies Parts()
      ensures streams == old(streams) && ReadRight(old(book).accounts[i], space, |out|, r)
      ensures Valid() && book == Put(old(book), i, AfterRead(old(book).accounts[i], |out|, r))
    {
      hide ReceiveStream.Valid, GapsAre, TotalReceived, TotalCredit, ReadRight, AfterRead;
      ghost var a := book.accounts[i];
      assert StreamOk(i);
      out, r := FeedRead(streams[i], space, now, config, a, nextCallback);
      book := Put(book, i, AfterRead(a, |out|, r));
      StepOf(i);
    }

    method CancelReading(i: nat, now: int)
      requires Valid() && i < |streams|
      modifies Parts()
      ensures streams == old(streams) && Valid() && book == Put(old(book), i, AfterCancel(old(book).accounts[i]))
    {
      hide ReceiveStream.Valid, GapsAre, TotalReceived, TotalCredit, AfterCancel;
      ghost var a := book.accounts[i];
      assert StreamOk(i);
      FeedCancel(streams[i], now, config, a, nextCallback);
      book := Put(book, i, AfterCancel(a));
      StepOf(i);
    }

    /** A MAX_STREAM_DATA update: the stream's limit does not shrink, the connection's stays as it is. */
    method UpdateStreamWindow(i: nat, now: int, rtt: nat, allow: bool) returns (limit: nat)
      requires Valid() && i < |streams|
      modifies Parts()
      ensures streams == old(streams) && Valid()
      ensures var a := old(book).accounts[i];
              && (if a.final then limit == 0 else LimitRight(a.window, a.read, config.window, limit))
              && book == Put(old(book), i, a.(window := WithLimit(a.window, limit)))
    {
      hide ReceiveStream.Valid, GapsAre, TotalReceived, TotalCredit, LimitRight, WithLimit;
      ghost var a := book.accounts[i];
      assert StreamOk(i);
      limit := FeedUpdate(streams[i], now, rtt, allow, config, a, nextCallback);
      book := Put(book, i, a.(window := WithLimit(a.window, limit)));
      StepOf(i);
    }

    /** A MAX_DATA update: the connection's limit does not shrink. */
    method UpdateConnectionWindow(now: int, rtt: nat, allow: bool) returns (limit: nat)
      requires Valid()
      modifies Parts()
      ensures streams == old(streams) && Valid()
      ensures LimitRight(old(book).window, TotalCredit(old(book).accounts), config.connWindow, limit)
      ensures book == old(book).(window := WithLimit(old(book).window, limit))
    {
      hide ReceiveStream.Valid, GapsAre, TotalReceived, TotalCredit, LimitRight;
      UpdateIsRight(conn.base, book.window, config.connWindow, now, rtt, allow);
      WindowNeverShrinks(conn.base, now, rtt, allow);
      limit := conn.GetWindowUpdate(now, rtt, allow);
      book := book.(window := WithLimit(book.window, limit));
      forall j | 0 <= j < |streams| ensures StreamOk(j) {
        assert old(StreamOk(j));
      }
    }

    /** An event about a stream that does not exist, or beyond the largest possible offset, has no effect. */
    method Handle(e: Event) returns (o: Outcome)
      requires Valid()
      modifies Parts()
      ensures streams == old(streams) && Parts() == old(Parts()) && Right(config, old(book), e, o)
      ensures o != Refused ==> Valid() && book == Record(old(book), e, o)
    {
      assert |book.accounts| == |streams|;
      hide Valid, Offends, Fragments, ReadRight, LimitRight, AfterFrame, AfterReset, AfterRead, AfterCancel, WithLimit;
      o := Done;
      match e
      case Frame(i, offset, data, fin, now) =>
        if i < |streams| && offset + |data| < MAX_BYTE_COUNT {
          var ok := HandleFrame(i, FrameOf(e), now);
          o := if ok then Done else Refused;
        }
      case Reset(i, finalSize, now) =>
        if i < |streams| && finalSize < MAX_BYTE_COUNT {
          var ok := HandleReset(i, finalSize, now);
          o := if ok then Done else Refused;
        }
      case Read(i, space, now) =>
        if i < |streams| {
          var out, r := ReadFrom(i, space, now);
          o := Data(|out|, r);
        }
      case Cancel(i, now) =>
        if i < |streams| {
          CancelReading(i, now);
        }
      case UpdateStream(i, now, rtt, allow) =>
        if i < |streams| {
          var limit := UpdateStreamWindow(i, now, rtt, allow);
          o := Limit(limit);
        }
      case UpdateConnection(now, rtt, allow) =>
        var limit := UpdateConnectionWindow(now, rtt, allow);
        o := Limit(limit);
    }

    /** Reads the books of all streams. */
    method Audit() returns (b: Books)
      requires Valid()
      ensures Balanced(b, book)
    {
      hide TotalReceived, TotalCredit, AccountOk;
      b := Books(conn.base.highestReceived, conn.base.bytesRead, [], [], []);
      for n := 0 to |streams|
        invariant b.connReceived == conn.base.highestReceived && b.connRead == conn.base.bytesRead
        invariant |b.received| == |b.read| == |b.completions| == n
        invariant forall i :: 0 <= i < n ==> Matches(b, book.accounts[i], i)
      {
        var s := streams[n];
        assert StreamOk(n);
        CreditIs(s, book.accounts[n], config, nextCallback);
        b := b.(received := b.received + [s.flow.base.highestReceived], read := b.read + [s.flow.base.bytesRead],
                completions := b.completions + [s.completions]);
      }
    }
  }

  datatype Books = Books(connReceived: nat, connRead: nat, received: seq<nat>, read: seq<nat>, completions: seq<nat>)

  /** A stream completes once, by being read to its end or by being abandoned. */
  predicate Matches(b: Books, a: Account, i: nat)
    requires i < |b.received| == |b.read| == |b.completions|
  {
    && b.received[i] == a.highest && b.read[i] == a.read
    && b.completions[i] == if a.eof || a.byReset || (a.final && a.cancelled) then 1 else 0
  }

  /** The connection is charged with what all streams have received, and gets back what each of them gives back. */
  ghost predicate Balanced(b: Books, l: Balance) {
    && |b.received| == |b.read| == |b.completions| == |l.accounts|
    && b.connReceived == TotalReceived(l.accounts) && b.connRead == TotalCredit(l.accounts)
    && forall i :: 0 <= i < |l.accounts| ==> Matches(b, l.accounts[i], i)
  }

  method NewSession(numStreams: nat, config: Config) returns (session: Session)
    ensures session.Valid() && fresh(session.Parts()) && session.config == config
    ensures session.book == NewBalance(config, numStreams)
  {
    hide Session.Valid;
    session := new Session(config);
    for n := 0 to numStreams
      invariant session.Valid() && fresh(session.Parts()) && session.config == config
      invariant session.book == NewBalance(config, n)
    {
      session.Open();
      assert NewBalance(config, n + 1).accounts == NewBalance(config, n).accounts + [NewAccount(config)];
    }
  }

  /** For any number of streams and every script, all answers are right, and the run ends early only with a frame
      that is refused. If there is none, the books balance, and each stream is charged with the highest offset its
      frames have reached. */
  method Run(numStreams: nat, config: Config, events: seq<Event>) returns (out: seq<Outcome>, b: Books)
    ensures AllRight(config, NewBalance(config, numStreams), events, out)
    ensures if Refused in out then out[|out| - 1] == Refused && Refused !in out[..|out| - 1]
            else
              && |out| == |events| && Balanced(b, After(NewBalance(config, numStreams), events, out, |out|))
              && b.received == seq(numStreams, i requires 0 <= i => Highest(events, i))
  {
    hide Session.Valid, Session.Parts, Balanced, Right, Record, NewBalance, AllRight, After;
    var session := NewSession(numStreams, config);
    ghost var l := NewBalance(config, numStreams);
    b := Books(0, 0, [], [], []);
    out := [];
    NothingYet(config, l, events);
    while |out| < |events|
      invariant |out| <= |events| && AllRight(config, l, events, out) && Refused !in out
      invariant session.Valid() && fresh(session.Parts()) && session.config == config
      invariant session.book == After(l, events, out, |out|)
    {
      var o := session.Handle(events[|out|]);
      OneMoreRight(config, l, events, out, o);
      out := out + [o];
      if o == Refused {
        return;
      }
    }
    b := session.Audit();
    ReceivedAll(config, numStreams, events, out, b);
  }

  lemma NothingYet(c: Config, l: Balance, events: seq<Event>)
    ensures AllRight(c, l, events, []) && After(l, events, [], 0) == l
  {
  }

  lemma ReceivedAll(c: Config, n: nat, events: seq<Event>, out: seq<Outcome>, b: Books)
    requires AllRight(c, NewBalance(c, n), events, out) && |out| == |events| && Refused !in out
    requires Balanced(b, After(NewBalance(c, n), events, out, |out|))
    ensures b.received == seq(n, i requires 0 <= i => Highest(events, i))
  {
    hide Right, Record, AllRight;
    assert events[..|events|] == events && out[..|out|] == out;
    LimitsOnlyGrow(c, NewBalance(c, n), events, out, 0, |out|);
    forall i: nat | i < n ensures b.received[i] == Highest(events, i) {
      ChargedToTheHighest(c, n, events, out, |out|, i);
      assert Matches(b, After(NewBalance(c, n), events, out, |out|).accounts[i], i);
    }
  }
}
