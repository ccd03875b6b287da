/** Two-level flow control: internal/flowcontrol.

    Stream controllers report to one connection controller.  Times are integers; the two float
    factors are the fractions 3/4 and 3/2.  `allow` is the verdict of the application's
    allowWindowIncrease callback. */
module FlowControl {
  import opened Common

  datatype Base = Base(
    bytesSent: nat,
    sendWindow: nat,
    lastBlockedAt: nat,
    bytesRead: nat,
    highestReceived: nat,
    receiveWindow: nat,
    receiveWindowSize: nat,
    maxReceiveWindowSize: nat,
    epochStartTime: int,
    epochStartOffset: nat
  )

  function SendWindowSize(b: Base): nat {
    if b.bytesSent > b.sendWindow then 0 else b.sendWindow - b.bytesSent
  }

  predicate Violated(b: Base) {
    b.highestReceived > b.receiveWindow
  }

  function NewEpoch(b: Base, now: int): Base {
    b.(epochStartTime := now, epochStartOffset := b.bytesRead)
  }

  function WithBytesRead(b: Base, n: nat, now: int): Base {
    var b' := if b.bytesRead == 0 then NewEpoch(b, now) else b;
    b'.(bytesRead := b.bytesRead + n)
  }

  /** More than a quarter of the window has been consumed. */
  predicate HasWindowUpdate(b: Base) {
    b.receiveWindow - b.bytesRead <= 3 * b.receiveWindowSize / 4
  }

  /** Auto-tuning: double the window if more than half of it was consumed within four round trips per window. */
  function Adjusted(b: Base, now: int, rtt: nat, allow: bool): Base {
    var inEpoch := b.bytesRead - b.epochStartOffset;
    if inEpoch <= b.receiveWindowSize / 2 || rtt == 0 then b
    else
      var newSize := Min(2 * b.receiveWindowSize, b.maxReceiveWindowSize);
      var fast := b.receiveWindowSize > 0 && now - b.epochStartTime < 4 * inEpoch * rtt / b.receiveWindowSize;
      NewEpoch(if fast && newSize > b.receiveWindowSize && allow then b.(receiveWindowSize := newSize) else b, now)
  }

  function WithWindowUpdate(b: Base, now: int, rtt: nat, allow: bool): Base {
    if !HasWindowUpdate(b) then b
    else var b' := Adjusted(b, now, rtt, allow); b'.(receiveWindow := b'.bytesRead + b'.receiveWindowSize)
  }

  lemma MulMono(a: int, b: int, d: nat)
    requires a <= b
    ensures a * d <= b * d
  {
  }

  /** A quotient that is rounded down is above x exactly if the dividend is at least x + 1 divisors. */
  lemma BelowQuotient(x: int, dividend: nat, divisor: nat)
    requires divisor > 0
    ensures x < dividend / divisor <==> (x + 1) * divisor <= dividend
  {
    var q := dividend / divisor;
    assert q * divisor <= dividend < (q + 1) * divisor;
    if x < q {
      MulMono(x + 1, q, divisor);
    } else {
      MulMono(q + 1, x + 1, divisor);
    }
  }

  /** The window doubles, up to its maximum, exactly if more than half of it was read since the epoch began, at a
      rate of more than a quarter of a window per round trip.  A new epoch begins whenever more than half was read. */
  lemma AutoTuning(b: Base, now: int, rtt: nat, allow: bool)
    requires b.epochStartOffset <= b.bytesRead
    ensures var b', read := Adjusted(b, now, rtt, allow), b.bytesRead - b.epochStartOffset;
            var due := rtt > 0 && 2 * read > b.receiveWindowSize;
            var fast := 0 < b.receiveWindowSize && (now - b.epochStartTime + 1) * b.receiveWindowSize <= 4 * read * rtt;
            && b'.receiveWindowSize == (if due && fast && allow && b.receiveWindowSize < b.maxReceiveWindowSize
                                        then Min(2 * b.receiveWindowSize, b.maxReceiveWindowSize)
                                        else b.receiveWindowSize)
            && (if due then b'.epochStartTime == now && b'.epochStartOffset == b.bytesRead
                else b'.epochStartTime == b.epochStartTime && b'.epochStartOffset == b.epochStartOffset)
  {
    var read := b.bytesRead - b.epochStartOffset;
    if b.receiveWindowSize > 0 {
      BelowQuotient(now - b.epochStartTime, 4 * read * rtt, b.receiveWindowSize);
    }
  }

  /** The first epoch begins with the first read. */
  lemma FirstEpoch(b: Base, n: nat, start: int, now: int, rtt: nat)
    requires b.bytesRead == 0 && 0 < b.receiveWindowSize < b.maxReceiveWindowSize && rtt > 0
    requires 2 * n > b.receiveWindowSize && (now - start + 1) * b.receiveWindowSize <= 4 * n * rtt
    ensures Adjusted(WithBytesRead(b, n, start), now, rtt, true).receiveWindowSize ==
              Min(2 * b.receiveWindowSize, b.maxReceiveWindowSize)
  {
    AutoTuning(WithBytesRead(b, n, start), now, rtt, true);
  }

  /** After an update, the next one is due exactly when a quarter of the window has been read. */
  lemma NextUpdateDue(b: Base, n: nat, now: int)
    requires b.receiveWindow == b.bytesRead + b.receiveWindowSize
    ensures HasWindowUpdate(WithBytesRead(b, n, now)) <==> 4 * n >= b.receiveWindowSize
  {
  }

  /** The advertised window never reaches further than the window size allows. */
  predicate WindowOk(b: Base) {
    b.receiveWindow <= b.bytesRead + b.receiveWindowSize
  }

  /** A window update never takes back credit, and adds some whenever the window has a size. */
  lemma WindowNeverShrinks(b: Base, now: int, rtt: nat, allow: bool)
    requires WindowOk(b)
    ensures var b' := WithWindowUpdate(b, now, rtt, allow);
            && WindowOk(b')
            && b.receiveWindow <= b'.receiveWindow
            && b.receiveWindowSize <= b'.receiveWindowSize
            && (HasWindowUpdate(b) && b.receiveWindowSize > 0 ==> b.receiveWindow < b'.receiveWindow)
            && (b.receiveWindowSize > 0 ==> b'.bytesRead < b'.receiveWindow)
            && b'.(receiveWindow := b.receiveWindow, receiveWindowSize := b.receiveWindowSize,
                   epochStartTime := b.epochStartTime, epochStartOffset := b.epochStartOffset) == b
  {
  }

  /** When a stream's window grows, the connection's window size follows, up to its maximum and if the application
      allows it. */
  function WithMinimumWindow(b: Base, inc: nat, now: int, allow: bool): Base {
    if inc <= b.receiveWindowSize then b
    else
      var larger := allow && b.receiveWindowSize < b.maxReceiveWindowSize;
      NewEpoch(if larger then b.(receiveWindowSize := Min(inc, b.maxReceiveWindowSize)) else b, now)
  }

  lemma MinimumWindow(b: Base, inc: nat, now: int, allow: bool)
    requires WindowOk(b)
    ensures var b' := WithMinimumWindow(b, inc, now, allow);
            && WindowOk(b')
            && b.receiveWindowSize <= b'.receiveWindowSize
            && (allow ==> b'.receiveWindowSize >= Min(inc, b.maxReceiveWindowSize))
            && b'.receiveWindowSize <= Max(b.receiveWindowSize, inc)
            && (inc <= b.receiveWindowSize || !allow || b.receiveWindowSize >= b.maxReceiveWindowSize ==>
                  b'.receiveWindowSize == b.receiveWindowSize)
            && (b.receiveWindowSize <= b.maxReceiveWindowSize ==> b'.receiveWindowSize <= b.maxReceiveWindowSize)
            && (if inc <= b.receiveWindowSize then b' == b
                else b'.epochStartTime == now && b'.epochStartOffset == b.bytesRead)
            && b'.(receiveWindowSize := b.receiveWindowSize, epochStartTime := b.epochStartTime,
                   epochStartOffset := b.epochStartOffset) == b
  {
  }

  /** A MAX_DATA or MAX_STREAM_DATA frame; late ones have no effect. */
  function WithSendWindow(b: Base, offset: nat): Base {
    if offset > b.sendWindow then b.(sendWindow := offset) else b
  }

  class ConnectionFlowController {
    var base: Base

    constructor (receiveWindow: nat, maxReceiveWindow: nat)
      ensures base == Base(0, 0, 0, 0, 0, receiveWindow, receiveWindow, maxReceiveWindow, 0, 0)
    {
      base := Base(0, 0, 0, 0, 0, receiveWindow, receiveWindow, maxReceiveWindow, 0, 0);
    }

    method IncrementHighestReceived(increment: nat) returns (ok: bool)
      modifies this
      ensures base == old(base).(highestReceived := old(base).highestReceived + increment)
      ensures ok <==> !Violated(base)
    {
      base := base.(highestReceived := base.highestReceived + increment);
      ok := !Violated(base);
    }

    method AddBytesRead(n: nat, now: int) returns (queueWindowUpdate: bool)
      modifies this
      ensures base == WithBytesRead(old(base), n, now)
      ensures queueWindowUpdate <==> HasWindowUpdate(base)
    {
      base := WithBytesRead(base, n, now);
      queueWindowUpdate := HasWindowUpdate(base);
    }

    /** The new limit to advertise, or 0. */
    method GetWindowUpdate(now: int, rtt: nat, allow: bool) returns (offset: nat)
      requires WindowOk(base)
      modifies this
      ensures base == WithWindowUpdate(old(base), now, rtt, allow) && WindowOk(base)
      ensures offset == if HasWindowUpdate(old(base)) then base.receiveWindow else 0
      ensures old(base).receiveWindow <= base.receiveWindow
    {
      WindowNeverShrinks(base, now, rtt, allow);
      offset := 0;
      if HasWindowUpdate(base) {
        base := Adjusted(base, now, rtt, allow);
        base := base.(receiveWindow := base.bytesRead + base.receiveWindowSize);
        offset := base.receiveWindow;
      }
    }

    /** Keeps the connection's window ahead of the streams' windows. */
    method EnsureMinimumWindowSize(inc: nat, now: int, allow: bool)
      requires WindowOk(base)
      modifies this
      ensures base == WithMinimumWindow(old(base), inc, now, allow) && WindowOk(base)
    {
      if inc > base.receiveWindowSize {
        var newSize := Min(inc, base.maxReceiveWindowSize);
        if newSize > base.receiveWindowSize && allow {
          base := base.(receiveWindowSize := newSize);
        }
        base := NewEpoch(base, now);
      }
    }
  }

  datatype ReceiveResult = Fine | FinalSizeError | FlowControlError

  /** An offset beyond a known final size, or a final size that differs from it or lies below what was received. */
  predicate Contradicts(b: Base, finalKnown: bool, offset: nat, final: bool) {
    || (finalKnown && (offset > b.highestReceived || (final && offset != b.highestReceived)))
    || (final && offset < b.highestReceived)
  }

  /** A new highest offset beyond the stream's window, or too much for the connection's. */
  predicate Exceeds(b: Base, conn: Base, offset: nat) {
    && offset > b.highestReceived
    && (offset > b.receiveWindow || conn.highestReceived + (offset - b.highestReceived) > conn.receiveWindow)
  }

  class StreamFlowController {
    var base: Base
    var receivedFinalOffset: bool
    const connection: ConnectionFlowController
    ghost var abandoned: bool

    constructor (conn: ConnectionFlowController, receiveWindow: nat, maxReceiveWindow: nat, initialSendWindow: nat)
      ensures base == Base(0, initialSendWindow, 0, 0, 0, receiveWindow, receiveWindow, maxReceiveWindow, 0, 0)
      ensures !receivedFinalOffset && !abandoned && connection == conn
    {
      connection := conn;
      base := Base(0, initialSendWindow, 0, 0, 0, receiveWindow, receiveWindow, maxReceiveWindow, 0, 0);
      receivedFinalOffset, abandoned := false, false;
    }

    /** What this stream has given back to the connection: the bytes read, or everything once it is abandoned. */
    ghost function Credit(): nat
      reads this
    {
      if abandoned then base.highestReceived else base.bytesRead
    }

    /** What all the other streams have given back, and what was received on them. */
    ghost function OthersCredit(): int
      reads this, connection
    {
      connection.base.bytesRead - Credit()
    }

    /** The advertised windows of both levels, and their sizes. */
    ghost function Windows(): (nat, nat, nat, nat)
      reads this, connection
    {
      (base.receiveWindow, connection.base.receiveWindow, base.receiveWindowSize, connection.base.receiveWindowSize)
    }

    ghost predicate WindowsOk()
      reads this, connection
    {
      WindowOk(base) && WindowOk(connection.base)
    }

    ghost function OthersReceived(): int
      reads this, connection
    {
      connection.base.highestReceived - base.highestReceived
    }

    /** The final size, once known, binds; received bytes are charged to the connection, each once. */
    method UpdateHighestReceived(offset: nat, final: bool) returns (r: ReceiveResult)
      modifies this`base, this`receivedFinalOffset, connection
      ensures r == FinalSizeError <==> Contradicts(old(base), old(receivedFinalOffset), offset, final)
      ensures r == FlowControlError <==> r != FinalSizeError && Exceeds(old(base), old(connection.base), offset)
      ensures r == Fine ==> receivedFinalOffset == (old(receivedFinalOffset) || final)
      ensures r == Fine ==> base == old(base).(highestReceived := Max(old(base).highestReceived, offset))
      ensures r == Fine ==>
                (final ==> base.highestReceived == offset) && (receivedFinalOffset ==> offset <= base.highestReceived)
      ensures r == Fine && old(receivedFinalOffset) ==> base.highestReceived == old(base).highestReceived
      ensures r == Fine ==> connection.base == old(connection.base).(highestReceived :=
                old(connection.base).highestReceived + (base.highestReceived - old(base).highestReceived))
    {
      if receivedFinalOffset {
        if final && offset != base.highestReceived {
          return FinalSizeError;
        }
        if offset > base.highestReceived {
          return FinalSizeError;
        }
      }
      if final {
        receivedFinalOffset := true;
      }
      if offset == base.highestReceived {
        return Fine;
      }
      if offset <= base.highestReceived {
        if final {
          return FinalSizeError;
        }
        return Fine;
      }
      var increment := offset - base.highestReceived;
      base := base.(highestReceived := offset);
      if Violated(base) {
        return FlowControlError;
      }
      var ok := connection.IncrementHighestReceived(increment);
      return if ok then Fine else FlowControlError;
    }

    /** What may be sent is limited by both levels. */
    function SendLimit(): (n: nat)
      reads this, connection
      ensures base.bytesSent + n <= base.sendWindow || n == 0
      ensures connection.base.bytesSent + n <= connection.base.sendWindow || n == 0
    {
      var own, conn := SendWindowSize(base), SendWindowSize(connection.base);
      if own < conn then own else conn
    }

    /** No more was sent than the peer allows, on the stream and on the connection. */
    ghost predicate WithinLimits()
      reads this, connection
    {
      base.bytesSent <= base.sendWindow && connection.base.bytesSent <= connection.base.sendWindow
    }

    method AddBytesSent(n: nat)
      modifies this`base, connection
      ensures base == old(base).(bytesSent := old(base).bytesSent + n)
      ensures connection.base == old(connection.base).(bytesSent := old(connection.base).bytesSent + n)
      ensures n <= old(SendLimit()) ==> SendLimit() == old(SendLimit()) - n && (old(WithinLimits()) ==> WithinLimits())
    {
      base := base.(bytesSent := base.bytesSent + n);
      connection.base := connection.base.(bytesSent := connection.base.bytesSent + n);
    }

    method AddBytesRead(n: nat, now: int) returns (queueWindowUpdate: bool)
      modifies this`base, connection
      ensures base == WithBytesRead(old(base), n, now)
      ensures connection.base == WithBytesRead(old(connection.base), n, now)
      ensures queueWindowUpdate <==> !receivedFinalOffset && HasWindowUpdate(base)
    {
      base := WithBytesRead(base, n, now);
      queueWindowUpdate := !receivedFinalOffset && HasWindowUpdate(base);
      var _ := connection.AddBytesRead(n, now);
    }

    /** Gives the unread bytes back to the connection; there will be no further reads. */
    method Abandon(now: int)
      requires !abandoned && base.bytesRead <= base.highestReceived
      modifies this`abandoned, connection
      ensures abandoned
      ensures connection.base.bytesRead == old(connection.base).bytesRead + (Credit() - old(Credit()))
      ensures connection.base.highestReceived == old(connection.base).highestReceived
      ensures Windows() == old(Windows()) && (old(WindowsOk()) ==> WindowsOk())
    {
      var unread := base.highestReceived - base.bytesRead;
      if unread > 0 {
        var _ := connection.AddBytesRead(unread, now);
      }
      abandoned := true;
    }

    method GetWindowUpdate(now: int, rtt: nat, allow: bool) returns (offset: nat)
      requires WindowOk(base) && WindowOk(connection.base)
      modifies this`base, connection
      ensures WindowOk(base) && WindowOk(connection.base)
      ensures base == if receivedFinalOffset then old(base) else WithWindowUpdate(old(base), now, rtt, true)
      ensures offset == if receivedFinalOffset || !HasWindowUpdate(old(base)) then 0 else base.receiveWindow
      ensures connection.base == if base.receiveWindowSize == old(base).receiveWindowSize then old(connection.base)
                                 else
                                   WithMinimumWindow(old(connection.base), 3 * base.receiveWindowSize / 2, now, allow)
      ensures old(base).receiveWindow <= base.receiveWindow
      ensures base.bytesRead == old(base).bytesRead && base.highestReceived == old(base).highestReceived
      ensures connection.base.receiveWindow == old(connection.base).receiveWindow
      ensures connection.base.bytesRead == old(connection.base).bytesRead
      ensures connection.base.highestReceived == old(connection.base).highestReceived
    {
      if receivedFinalOffset {
        return 0;
      }
      WindowNeverShrinks(base, now, rtt, true);
      var oldWindowSize := base.receiveWindowSize;
      offset := 0;
      if HasWindowUpdate(base) {
        base := Adjusted(base, now, rtt, true); // streams have no allowWindowIncrease callback
        base := base.(receiveWindow := base.bytesRead + base.receiveWindowSize);
        offset := base.receiveWindow;
      }
      if base.receiveWindowSize > oldWindowSize {
        connection.EnsureMinimumWindowSize(3 * base.receiveWindowSize / 2, now, allow);
      }
    }
  }
}
