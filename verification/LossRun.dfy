/** Whole runs of the sent packet handler: packets are sent in three packet number spaces, acknowledged, lost by loss
    detection or for a probe, dropped with their keys or given up on a Retry, in any order. */
module LossRecovery {
  import opened Common
  import opened SentHistory
  import opened AckMerge
  import opened LossTimers
  import opened SentPackets

  datatype Event =
    | Send(level: Level, size: nat, frames: seq<Frame>, largestAcked: int, isMtuProbe: bool)
    | ReceiveAck(ackLevel: Level, ranges: seq<AckRange>)
    | Timeout
    | Probe(probeLevel: Level)
    | Drop(dropLevel: Level)
    | Retry
    | ReceiveBytes(n: nat)
    | ReceivePacket(packetLevel: Level)
    | ConfirmHandshake
    | Ask(canSend: bool, hasPacingBudget: bool)

  /** An event together with the time, the loss delay and the random number it happens to see. */
  datatype Input = Input(event: Event, clock: Clock, lossDelay: nat, random: nat)

  /** What an event has for a result: the number of the packet that was sent; whether an ACK is accepted; whether a
      Retry is acted upon; what may be sent. */
  datatype Outcome = Quiet | Sent(pn: int) | Accepted | Refused | Restarted | Mode(mode: SendMode)

  /** The numbers that were used in a packet number space since it was started, and all that ever were. */
  datatype Space = Gone | Space(used: set<int>, ever: set<int>)

  /** What can be seen from outside: the three spaces, the frames that were given away, and whether no keys were
      dropped. */
  datatype Ledger = Ledger(initial: Space, handshake: Space, app: Space, given: multiset<Frame>, complete: bool)

  function SpaceFor(l: Ledger, level: Level): Space {
    match level
    case InitialLevel => l.initial
    case HandshakeLevel => l.handshake
    case ZeroRTT => l.app
    case OneRTT => l.app
  }

  function Using(s: Space, pn: int): Space {
    if s.Gone? then s else Space(s.used + {pn}, s.ever + {pn})
  }

  function Renewed(s: Space): Space {
    if s.Gone? then s else s.(used := {})
  }

  function WithNumber(l: Ledger, level: Level, pn: int): Ledger {
    match level
    case InitialLevel => l.(initial := Using(l.initial, pn))
    case HandshakeLevel => l.(handshake := Using(l.handshake, pn))
    case ZeroRTT => l.(app := Using(l.app, pn))
    case OneRTT => l.(app := Using(l.app, pn))
  }

  function Record(l: Ledger, e: Event, o: Outcome): Ledger {
    match e
    case Send(level, _, frames, _, _) =>
      if o.Sent? then WithNumber(l, level, o.pn).(given := l.given + multiset(Handled(frames))) else l
    case Drop(level) =>
      (match level
       case InitialLevel => l.(initial := Gone, complete := false)
       case HandshakeLevel => l.(handshake := Gone, complete := false)
       case ZeroRTT => l.(complete := false)
       case OneRTT => l)
    case Retry => if o.Restarted? then l.(initial := Renewed(l.initial), app := Renewed(l.app)) else l
    case _ => l
  }

  /** Which results are right.  A packet is sent exactly if the keys of its space are not dropped, with a number
      above all that were used there.  An ACK is an error only if it covers a number that was not used since the
      space was started.  Probes are asked for only where there are keys. */
  ghost predicate Right(l: Ledger, e: Event, o: Outcome) {
    match e
    case Send(level, _, _, _, _) =>
      var s := SpaceFor(l, level);
      if s.Gone? then o == Quiet else o.Sent? && forall p :: p in s.ever ==> p < o.pn
    case ReceiveAck(level, ranges) =>
      var s := SpaceFor(l, level);
      if s.Gone? then o == Quiet else o == Accepted || (o == Refused && CoversUnused(ranges, s.used))
    case Retry => o == Quiet || (o == Restarted && l.initial.Space?)
    case Ask(canSend, hasPacingBudget) =>
      && o.Mode?
      && (o.mode == SendPTOInitial ==> l.initial.Space?)
      && (o.mode == SendPTOHandshake ==> l.handshake.Space?)
      && (o.mode == SendPTOAppData ==> l.initial.Gone? && l.handshake.Gone?)
      && (o.mode == SendAny ==> canSend && hasPacingBudget)
    case _ => o == Quiet
  }

  /** The bytes that were sent and received, and whether the peer's address is validated. */
  datatype Traffic = Traffic(server: bool, sent: nat, received: nat, validated: bool)

  function Counted(t: Traffic, e: Event, o: Outcome): Traffic {
    match e
    case Send(_, size, _, _, _) => if o.Sent? then t.(sent := t.sent + size) else t
    case ReceiveBytes(n) => t.(received := t.received + n)
    case ReceivePacket(level) => t.(validated := t.validated || (t.server && level == HandshakeLevel))
    case _ => t
  }

  /** A peer whose address is not validated has been sent three times what it sent. */
  predicate AtLimit(t: Traffic) {
    !t.validated && t.sent >= 3 * t.received
  }

  // ------------------------------------------------------------------
  // The handler and the ledger
  // ------------------------------------------------------------------

  ghost predicate SpaceMatches(n: Option<SpaceNumbers>, s: Space) {
    if n.None? then s.Gone? else s.Space? && s.used == n.value.used && forall p :: p in s.ever ==> p < n.value.next
  }

  ghost predicate NumbersMatch(n: Numbers, l: Ledger) {
    SpaceMatches(n.initial, l.initial) && SpaceMatches(n.handshake, l.handshake) && SpaceMatches(Some(n.app), l.app)
  }

  ghost predicate Matches(h: SentPacketHandler, l: Ledger)
    reads h, h.Objects()
  {
    h.Valid() && NumbersMatch(h.Next(), l) && h.given == l.given && (l.complete ==> h.dropped == multiset{})
  }

  function TrafficOf(h: SentPacketHandler): Traffic
    reads h
  {
    Traffic(!h.isClient, h.rec.bytesSent, h.rec.bytesReceived, h.rec.peerAddressValidated)
  }

  lemma PresentMatches(n: Numbers, l: Ledger, level: Level)
    requires NumbersMatch(n, l)
    ensures NumbersAt(n, level).Some? <==> SpaceFor(l, level).Space?
    ensures NumbersAt(n, level).Some? ==> SpaceFor(l, level).used == UsedAt(n, level)
    ensures NumbersAt(n, level).Some? ==> forall p :: p in SpaceFor(l, level).ever ==> p < NextAt(n, level).value
  {
  }

  /** No space comes or goes. */
  predicate SameSpaces(n: Numbers, n': Numbers) {
    (n.initial.Some? <==> n'.initial.Some?) && (n.handshake.Some? <==> n'.handshake.Some?)
  }

  /** A number that was ever used stays below the next one. */
  lemma EverBelow(n: Numbers, n': Numbers, l: Ledger, level: Level)
    requires NumbersMatch(n, l) && Grow(n, n') && NumbersAt(n', level).Some?
    ensures SpaceFor(l, level).Space?
    ensures forall p :: p in SpaceFor(l, level).ever ==> p < NumbersAt(n', level).value.next
  {
    assert NextAt(n', level).Some?;
  }

  lemma SendMatches(n: Numbers, n': Numbers, l: Ledger, e: Event, pn: int)
    requires NumbersMatch(n, l) && e.Send? && SpaceFor(l, e.level).Space?
    requires Grow(n, n') && SameSpaces(n, n') && UsesMore(n, n', e.level, {pn}) && NextAt(n', e.level) == Some(pn + 1)
    ensures NumbersMatch(n', Record(l, e, Sent(pn)))
  {
    hide Grow;
    if n'.initial.Some? {
      EverBelow(n, n', l, InitialLevel);
      assert NumbersAt(n', InitialLevel).Some?;
    }
    if n'.handshake.Some? {
      EverBelow(n, n', l, HandshakeLevel);
      assert NumbersAt(n', HandshakeLevel).Some?;
    }
    EverBelow(n, n', l, OneRTT);
    assert NumbersAt(n', OneRTT).Some?;
  }

  lemma QuietMatches(n: Numbers, n': Numbers, l: Ledger)
    requires NumbersMatch(n, l) && Grow(n, n') && SameSpaces(n, n') && SameUsed(n, n')
    ensures NumbersMatch(n', l)
  {
    hide Grow;
    if n'.initial.Some? {
      EverBelow(n, n', l, InitialLevel);
      assert NumbersAt(n', InitialLevel).Some?;
    }
    if n'.handshake.Some? {
      EverBelow(n, n', l, HandshakeLevel);
      assert NumbersAt(n', HandshakeLevel).Some?;
    }
    EverBelow(n, n', l, OneRTT);
    assert NumbersAt(n', OneRTT).Some?;
  }

  lemma DropMatches(n: Numbers, n': Numbers, l: Ledger, level: Level)
    requires NumbersMatch(n, l)
    requires n' == match level
                   case InitialLevel => n.(initial := None)
                   case HandshakeLevel => n.(handshake := None)
                   case _ => n
    ensures NumbersMatch(n', Record(l, Drop(level), Quiet))
  {
  }

  lemma RetryMatches(n: Numbers, n': Numbers, l: Ledger)
    requires NumbersMatch(n, l) && Grow(n, n') && SameSpaces(n, n') && n.initial.Some?
    requires UsedAt(n', InitialLevel) == UsedAt(n', OneRTT) == {} && n'.handshake == n.handshake
    ensures Right(l, Retry, Restarted) && NumbersMatch(n', Record(l, Retry, Restarted))
  {
    hide Grow;
    EverBelow(n, n', l, InitialLevel);
    EverBelow(n, n', l, OneRTT);
  }

  // ------------------------------------------------------------------
  // One event
  // ------------------------------------------------------------------

  method DoSend(h: SentPacketHandler, x: Input, ghost l: Ledger) returns (o: Outcome)
    requires Matches(h, l) && x.event.Send? && h.SpaceOf(x.event.level) != null
    modifies h, h.Objects()
    ensures h.Objects() == old(h.Objects()) && Right(l, x.event, o) && Matches(h, Record(l, x.event, o)) && o.Sent?
    ensures h.books.acked == old(h.books).acked && h.books.lost == old(h.books).lost
    ensures TrafficOf(h) == Counted(old(TrafficOf(h)), x.event, o)
  {
    hide SentPacketHandler.Valid, View, SentPacketHandler.Stage, Grow, UsesMore, NumbersMatch, SendEffect;
    var e := x.event;
    PresentMatches(h.Next(), l, e.level);
    ghost var n := h.Next();
    var pn := h.SendPacket(e.level, e.size, e.frames, e.largestAcked, e.isMtuProbe, x.random, x.clock);
    SendMatches(n, h.Next(), l, e, pn);
    return Sent(pn);
  }

  method DoDrop(h: SentPacketHandler, level: Level, c: Clock, ghost l: Ledger)
    requires Matches(h, l)
    modifies h, h.Objects()
    ensures h.Objects() <= old(h.Objects()) && Matches(h, Record(l, Drop(level), Quiet)) && Grown(old(h.books), h.books)
    ensures TrafficOf(h) == old(TrafficOf(h))
  {
    hide SentPacketHandler.Valid, EarlyDataGone, View, SentPacketHandler.Stage, SentPacketHandler.TimerSet;
    hide NumbersMatch;
    match level {
      case InitialLevel => h.DropCryptoSpace(level, c);
      case HandshakeLevel => h.DropCryptoSpace(level, c);
      case ZeroRTT => h.Drop0RTT(c);
      case OneRTT =>
    }
    DropMatches(old(h.Next()), h.Next(), l, level);
  }

  predicate CanRetry(h: SentPacketHandler)
    reads h`initial, h`handshake, if h.handshake == null then {} else {h.handshake.history}
  {
    h.initial != null && (h.handshake == null || h.handshake.history.packets == [])
  }

  /** A Retry is acted upon only as long as nothing is tracked in the Handshake space. */
  method DoRetry(h: SentPacketHandler, random: nat, ghost l: Ledger) returns (o: Outcome)
    requires Matches(h, l)
    modifies h, h.Objects()
    ensures fresh(h.Objects() - old(h.Objects())) && Right(l, Retry, o) && Matches(h, Record(l, Retry, o))
    ensures Grown(old(h.books), h.books) && TrafficOf(h) == old(TrafficOf(h))
    ensures if old(CanRetry(h)) then o == Restarted else o == Quiet
    ensures o == Restarted ==>
              h.At(InitialLevel).tracked == map[] && h.At(OneRTT).tracked == map[] && h.books.bytesInFlight == 0
  {
    hide SentPacketHandler.Valid, View, ViewOf, SentPacketHandler.Stage, SentPacketHandler.SpacesOk;
    hide SentPacketHandler.AlarmSet;
    hide NumbersMatch, Grow, UsedAt;
    if CanRetry(h) {
      h.ResetForRetry(random);
      RetryMatches(old(h.Next()), h.Next(), l);
      return Restarted;
    }
    return Quiet;
  }

  method DoOther(h: SentPacketHandler, x: Input, ghost l: Ledger)
    requires Matches(h, l) && (x.event.ReceiveBytes? || x.event.ReceivePacket? || x.event.ConfirmHandshake?)
    modifies h, h.Objects()
    ensures h.Objects() == old(h.Objects()) && Matches(h, l) && h.books == old(h.books)
    ensures x.event.ConfirmHandshake? && h.initial == null && h.handshake == null ==> h.rec.handshakeConfirmed
    ensures TrafficOf(h) == Counted(old(TrafficOf(h)), x.event, Quiet)
  {
    hide SentPacketHandler.Valid, View, SentPacketHandler.Stage, NumbersMatch;
    match x.event
    case ReceiveBytes(n) => h.ReceivedBytes(n, x.clock);
    case ReceivePacket(level) => h.ReceivedPacket(level, x.clock);
    case ConfirmHandshake =>
      if h.initial == null && h.handshake == null {
        h.SetHandshakeConfirmed(x.clock);
      }
  }

  /** An ACK that is refused covers a number that was not used. */
  method DoAck(h: SentPacketHandler, x: Input, ghost l: Ledger) returns (o: Outcome)
    requires Matches(h, l) && x.event.ReceiveAck? && Validated(x.event.ranges) && h.SpaceOf(x.event.ackLevel) != null
    modifies h, h.Objects()
    ensures h.Objects() == old(h.Objects()) && Right(l, x.event, o)
    ensures (o != Refused ==> Matches(h, l) && Grown(old(h.books), h.books) && TrafficOf(h) == old(TrafficOf(h)))
    ensures exists r: AckResult :: (o == Refused <==> !r.Acked?) &&
              AckEffect(old(h.At(x.event.ackLevel)), h.At(x.event.ackLevel), old(h.books), h.books,
                        x.event.ranges, x.clock.now, x.lossDelay, r)
  {
    hide SentPacketHandler.Valid, View, SentPacketHandler.Stage, SentPacketHandler.TimerSet, AckEffect, NumbersMatch;
    hide CoversUnused;
    PresentMatches(h.Next(), l, x.event.ackLevel);
    var r := h.ReceivedAck(x.event.ackLevel, x.event.ranges, x.lossDelay, x.clock);
    o := if r.Acked? then Accepted else Refused;
  }

  /** What a timeout does: either the overdue packets of a space are lost, or a probe is asked for. */
  ghost predicate TimeoutEffect(times: Times, r: Recovery, r': Recovery, b: Books, b': Books, c: Clock) {
    && b'.acked == b.acked
    && if LossTimeAndSpace(times).0.Some? then r' == r.(alarm := r'.alarm)
       else b' == b && r' == Probed(r, ProbeFor(times, r, b.bytesInFlight, c)).(alarm := r'.alarm)
  }

  /** Probes do not count before they are sent. */
  lemma TimeoutTraffic(times: Times, r: Recovery, r': Recovery, b: Books, b': Books, c: Clock)
    requires TimeoutEffect(times, r, r', b, b', c)
    ensures r'.bytesSent == r.bytesSent && r'.bytesReceived == r.bytesReceived
    ensures r'.peerAddressValidated == r.peerAddressValidated
  {
    hide LossTimeAndSpace, ProbeFor;
  }

  method DoTimeout(h: SentPacketHandler, x: Input, ghost l: Ledger)
    requires Matches(h, l) && h.rec.alarm.Some?
    modifies h, h.Objects()
    ensures h.Objects() == old(h.Objects()) && Matches(h, l) && h.TimerSet(x.clock) && Grown(old(h.books), h.books)
    ensures TimeoutEffect(old(h.CurrentTimes()), old(h.rec), h.rec, old(h.books), h.books, x.clock)
    ensures TrafficOf(h) == old(TrafficOf(h))
    ensures var (lossTime, level) := LossTimeAndSpace(old(h.CurrentTimes()));
            lossTime.Some? ==> LossEffect(old(h.At(level)), h.At(level), x.clock.now, x.lossDelay)
  {
    hide SentPacketHandler.Valid, View, ViewOf, SentPacketHandler.Stage, SentPacketHandler.TimerSet, NumbersMatch;
    hide LossEffect, SkipEffect, ProbeFor, Probed, SentPacketHandler.CurrentTimes, LossTimeAndSpace, Grow, SameUsed;
    h.OnLossDetectionTimeout(x.lossDelay, x.random, x.clock);
    QuietMatches(old(h.Next()), h.Next(), l);
    TimeoutTraffic(old(h.CurrentTimes()), old(h.rec), h.rec, old(h.books), h.books, x.clock);
  }

  /** An endpoint that has reached the limit is told to send nothing. */
  method DoAsk(h: SentPacketHandler, e: Event, ghost l: Ledger) returns (o: Outcome)
    requires Matches(h, l) && e.Ask?
    ensures Right(l, e, o) && (AtLimit(TrafficOf(h)) ==> o == Mode(SendNone))
  {
    hide SentPacketHandler.Valid, View, ViewOf, NumbersMatch;
    PresentMatches(h.Next(), l, InitialLevel);
    PresentMatches(h.Next(), l, HandshakeLevel);
    var mode := h.NextSendMode(e.canSend, e.hasPacingBudget);
    return Mode(mode);
  }

  /** Everything but sending. */
  method StepOther(h: SentPacketHandler, x: Input, ghost l: Ledger) returns (o: Outcome)
    requires Matches(h, l) && !x.event.Send? && (x.event.ReceiveAck? ==> Validated(x.event.ranges))
    modifies h, h.Objects()
    ensures fresh(h.Objects() - old(h.Objects())) && Right(l, x.event, o)
    ensures (o != Refused ==> Matches(h, Record(l, x.event, o)))
    ensures o != Refused ==> Grown(old(h.books), h.books) && TrafficOf(h) == Counted(old(TrafficOf(h)), x.event, o)
    ensures x.event.Ask? && AtLimit(old(TrafficOf(h))) ==> o == Mode(SendNone)
    ensures x.event.ReceiveAck? && old(h.SpaceOf(x.event.ackLevel)) != null ==>
              exists r: AckResult :: (o == Refused <==> !r.Acked?) &&
                AckEffect(old(h.At(x.event.ackLevel)), h.At(x.event.ackLevel), old(h.books), h.books,
                          x.event.ranges, x.clock.now, x.lossDelay, r)
    ensures x.event.Timeout? && old(h.rec.alarm).Some? ==>
              && TimeoutEffect(old(h.CurrentTimes()), old(h.rec), h.rec, old(h.books), h.books, x.clock)
              && h.TimerSet(x.clock)
              && var (lossTime, level) := LossTimeAndSpace(old(h.CurrentTimes()));
                 lossTime.Some? ==> LossEffect(old(h.At(level)), h.At(level), x.clock.now, x.lossDelay)
    ensures x.event.Timeout? && old(h.rec.alarm).None? ==> h.books == old(h.books) && h.rec == old(h.rec)
    ensures x.event.Probe? && old(h.SpaceOf(x.event.probeLevel)) != null ==>
              exists queued :: ProbeEffect(old(h.At(x.event.probeLevel)), h.At(x.event.probeLevel), queued)
  {
    hide SentPacketHandler.Valid, View, ViewOf, SentPacketHandler.Stage, SentPacketHandler.TimerSet, NumbersMatch;
    hide AckEffect, ProbeEffect, TimeoutEffect, LossEffect, SentPacketHandler.CurrentTimes, LossTimeAndSpace, CanRetry;
    o := Quiet;
    match x.event
    case Send(_, _, _, _, _) =>
    case ReceiveAck(level, ranges) =>
      PresentMatches(h.Next(), l, level);
      if h.SpaceOf(level) != null {
        o := DoAck(h, x, l);
      }
    case Timeout =>
      if h.rec.alarm.Some? {
        DoTimeout(h, x, l);
      }
    case Probe(level) =>
      if h.SpaceOf(level) != null {
        var queued := h.QueueProbePacket(level);
      }
    case Drop(level) => DoDrop(h, level, x.clock, l);
    case Retry => o := DoRetry(h, x.random, l);
    case Ask(_, _) => o := DoAsk(h, x.event, l);
    case _ => DoOther(h, x, l);
  }

  /** Events that cannot happen in a state are ignored. */
  method Step(h: SentPacketHandler, x: Input, ghost l: Ledger) returns (o: Outcome)
    requires Matches(h, l) && (x.event.ReceiveAck? ==> Validated(x.event.ranges))
    modifies h, h.Objects()
    ensures fresh(h.Objects() - old(h.Objects())) && Right(l, x.event, o)
    ensures (o != Refused ==> Matches(h, Record(l, x.event, o)))
    ensures o != Refused ==> Grown(old(h.books), h.books) && TrafficOf(h) == Counted(old(TrafficOf(h)), x.event, o)
    ensures x.event.Ask? && AtLimit(old(TrafficOf(h))) ==> o == Mode(SendNone)
  {
    hide SentPacketHandler.Valid, View, ViewOf, SentPacketHandler.TimerSet, NumbersMatch, AckEffect, ProbeEffect;
    hide TimeoutEffect;
    if x.event.Send? {
      PresentMatches(h.Next(), l, x.event.level);
      if h.SpaceOf(x.event.level) == null {
        return Quiet;
      }
      o := DoSend(h, x, l);
    } else {
      o := StepOther(h, x, l);
    }
  }

  // ------------------------------------------------------------------
  // Runs
  // ------------------------------------------------------------------

  const NEW_LEDGER := Ledger(Space({}, {}), Space({}, {}), Space({}, {}), multiset{}, true)

  ghost function LedgerAfter(inputs: seq<Input>, out: seq<Outcome>, k: nat): Ledger
    requires k <= |out| <= |inputs|
  {
    if k == 0 then NEW_LEDGER else Record(LedgerAfter(inputs, out, k - 1), inputs[k - 1].event, out[k - 1])
  }

  ghost predicate AllRight(inputs: seq<Input>, out: seq<Outcome>) {
    && |out| <= |inputs|
    && forall k :: 0 <= k < |out| ==> Right(LedgerAfter(inputs, out, k), inputs[k].event, out[k])
  }

  lemma {:induction false} AfterPrefix(inputs: seq<Input>, out: seq<Outcome>, o: Outcome, k: nat)
    requires k <= |out| < |inputs|
    ensures LedgerAfter(inputs, out + [o], k) == LedgerAfter(inputs, out, k)
  {
    if k > 0 {
      AfterPrefix(inputs, out, o, k - 1);
    }
  }

  lemma OneMoreRight(inputs: seq<Input>, out: seq<Outcome>, o: Outcome)
    requires AllRight(inputs, out) && |out| < |inputs| && Right(LedgerAfter(inputs, out, |out|), inputs[|out|].event, o)
    ensures AllRight(inputs, out + [o])
    ensures LedgerAfter(inputs, out + [o], |out| + 1) == Record(LedgerAfter(inputs, out, |out|), inputs[|out|].event, o)
  {
    hide Right, Record;
    forall k | 0 <= k <= |out| ensures LedgerAfter(inputs, out + [o], k) == LedgerAfter(inputs, out, k) {
      AfterPrefix(inputs, out, o, k);
    }
  }

  predicate EverUsed(s: Space, pn: int) {
    s.Space? ==> pn in s.ever
  }

  lemma IsNoted(l: Ledger, e: Event, pn: int)
    requires e.Send?
    ensures EverUsed(SpaceFor(Record(l, e, Sent(pn)), e.level), pn)
  {
    hide Handled;
  }

  lemma EverGrows(l: Ledger, e: Event, o: Outcome, level: Level, pn: int)
    requires EverUsed(SpaceFor(l, level), pn)
    ensures EverUsed(SpaceFor(Record(l, e, o), level), pn)
  {
    hide Handled;
  }

  /** A number that was used stays in the ledger of its space for as long as the space is there. */
  lemma {:induction false} NumberStays(inputs: seq<Input>, out: seq<Outcome>, i: nat, j: nat)
    requires AllRight(inputs, out) && i < j <= |out| && inputs[i].event.Send? && out[i].Sent?
    ensures EverUsed(SpaceFor(LedgerAfter(inputs, out, j), inputs[i].event.level), out[i].pn)
  {
    hide Right, Record, SpaceFor;
    var level, pn := inputs[i].event.level, out[i].pn;
    if i + 1 < j {
      NumberStays(inputs, out, i, j - 1);
      EverGrows(LedgerAfter(inputs, out, j - 1), inputs[j - 1].event, out[j - 1], level, pn);
    } else {
      IsNoted(LedgerAfter(inputs, out, i), inputs[i].event, pn);
    }
  }

  /** Within a packet number space no packet number is used twice: they ascend, also across a Retry. */
  lemma NumbersAscend(inputs: seq<Input>, out: seq<Outcome>, i: nat, j: nat)
    requires AllRight(inputs, out) && i < j < |out| && out[i].Sent? && out[j].Sent?
    requires inputs[i].event.Send? && inputs[j].event.Send? && SameSpace(inputs[i].event.level, inputs[j].event.level)
    ensures out[i].pn < out[j].pn
  {
    NumberStays(inputs, out, i, j);
    assert Right(LedgerAfter(inputs, out, j), inputs[j].event, out[j]);
  }

  ghost function TotalOf(windows: seq<Slots>): Load
    requires |windows| == 3
  {
    Plus(Plus(Total(windows[0]), Total(windows[1])), Total(windows[2]))
  }

  /** The bytes in flight are those of the packets in the three windows, and no frame gets more callbacks than it was
      given away for; unless keys were dropped, every frame that was given away got its callback or is still in a
      window. */
  ghost predicate Balanced(l: Ledger, books: Books, windows: seq<Slots>) {
    && |windows| == 3
    && books.bytesInFlight == TotalOf(windows).bytes
    && multiset(books.acked) + multiset(books.lost) + TotalOf(windows).frames <= l.given
    && (l.complete ==> multiset(books.acked) + multiset(books.lost) + TotalOf(windows).frames == l.given)
  }

  // ------------------------------------------------------------------
  // The limit before address validation
  // ------------------------------------------------------------------

  ghost function TrafficAfter(start: Traffic, inputs: seq<Input>, out: seq<Outcome>, k: nat): Traffic
    requires k <= |out| <= |inputs|
  {
    if k == 0 then start else Counted(TrafficAfter(start, inputs, out, k - 1), inputs[k - 1].event, out[k - 1])
  }

  /** At the limit, nothing may be sent. */
  ghost predicate LimitKept(start: Traffic, inputs: seq<Input>, out: seq<Outcome>) {
    && |out| <= |inputs|
    && forall k :: 0 <= k < |out| && inputs[k].event.Ask? && AtLimit(TrafficAfter(start, inputs, out, k)) ==>
         out[k] == Mode(SendNone)
  }

  lemma {:induction false} TrafficPrefix(start: Traffic, inputs: seq<Input>, out: seq<Outcome>, o: Outcome, k: nat)
    requires k <= |out| < |inputs|
    ensures TrafficAfter(start, inputs, out + [o], k) == TrafficAfter(start, inputs, out, k)
  {
    if k > 0 {
      TrafficPrefix(start, inputs, out, o, k - 1);
    }
  }

  lemma OneMoreCounted(start: Traffic, inputs: seq<Input>, out: seq<Outcome>, o: Outcome)
    requires LimitKept(start, inputs, out) && |out| < |inputs|
    requires inputs[|out|].event.Ask? && AtLimit(TrafficAfter(start, inputs, out, |out|)) ==> o == Mode(SendNone)
    ensures LimitKept(start, inputs, out + [o])
    ensures TrafficAfter(start, inputs, out + [o], |out| + 1) ==
              Counted(TrafficAfter(start, inputs, out, |out|), inputs[|out|].event, o)
  {
    hide Counted, AtLimit;
    forall k | 0 <= k <= |out|
      ensures TrafficAfter(start, inputs, out + [o], k) == TrafficAfter(start, inputs, out, k)
    {
      TrafficPrefix(start, inputs, out, o, k);
    }
  }

  function PacketSize(e: Event): nat {
    if e.Send? then e.size else 0
  }

  ghost function Sizes(inputs: seq<Input>, i: nat, k: nat): nat
    requires i <= k <= |inputs|
  {
    if i == k then 0 else Sizes(inputs, i, k - 1) + PacketSize(inputs[k - 1].event)
  }

  /** The packets from the one after `j` to `i` are sent in one datagram of at most `m` bytes, after the handler was
      asked and did not refuse. */
  ghost predicate InDatagram(inputs: seq<Input>, out: seq<Outcome>, j: nat, i: nat, m: nat)
    requires |out| <= |inputs|
  {
    && j < i < |out|
    && inputs[j].event.Ask? && out[j].Mode? && out[j].mode != SendNone
    && (forall x :: j < x <= i ==> inputs[x].event.Send?)
    && Sizes(inputs, j + 1, i + 1) <= m
  }

  /** Nothing is sent without asking. */
  ghost predicate Obedient(inputs: seq<Input>, out: seq<Outcome>, m: nat)
    requires |out| <= |inputs|
  {
    forall i :: 0 <= i < |out| && inputs[i].event.Send? && out[i].Sent? ==>
              exists j: nat :: InDatagram(inputs, out, j, i, m)
  }

  lemma {:induction false} OnlySending(start: Traffic, inputs: seq<Input>, out: seq<Outcome>, j: nat, k: nat)
    requires j <= k <= |out| <= |inputs| && forall x :: j <= x < k ==> inputs[x].event.Send?
    ensures var t, t' := TrafficAfter(start, inputs, out, j), TrafficAfter(start, inputs, out, k);
            t'.sent <= t.sent + Sizes(inputs, j, k) && t' == t.(sent := t'.sent)
  {
    if j < k {
      OnlySending(start, inputs, out, j, k - 1);
    }
  }

  /** In every run in which each datagram is sent only after the handler was asked and did not refuse, a peer whose
      address is not validated is never sent as much as three times what it sent and one more datagram. */
  lemma {:induction false} AmplificationLimit(start: Traffic, inputs: seq<Input>, out: seq<Outcome>, m: nat, k: nat)
    requires LimitKept(start, inputs, out) && Obedient(inputs, out, m) && k <= |out| && m > 0 && start.sent == 0
    ensures var t := TrafficAfter(start, inputs, out, k); t.validated || t.sent < 3 * t.received + m
  {
    if k > 0 {
      AmplificationLimit(start, inputs, out, m, k - 1);
      if inputs[k - 1].event.Send? && out[k - 1].Sent? {
        var j: nat :| InDatagram(inputs, out, j, k - 1, m);
        OnlySending(start, inputs, out, j + 1, k);
        assert !AtLimit(TrafficAfter(start, inputs, out, j));
      }
    }
  }

  method Start(isClient: bool, addressValidated: bool, initialPN: nat, random: nat) returns (h: SentPacketHandler)
    ensures fresh(h) && fresh(h.Objects()) && Matches(h, NEW_LEDGER) && h.books == Books(0, [], [])
    ensures TrafficOf(h) == Traffic(!isClient, 0, 0, isClient || addressValidated)
  {
    hide SentPacketHandler.Valid;
    h := new SentPacketHandler(initialPN, isClient, addressValidated, random);
  }

  lemma BooksBalance(l: Ledger, books: Books, windows: seq<Slots>, given: multiset<Frame>, dropped: multiset<Frame>)
    requires |windows| == 3 && BooksOk(books, TotalOf(windows), given, dropped)
    requires given == l.given && (l.complete ==> dropped == multiset{})
    ensures Balanced(l, books, windows)
  {
  }

  method Result(h: SentPacketHandler, ghost l: Ledger) returns (books: Books, windows: seq<Slots>)
    requires Matches(h, l)
    ensures Balanced(l, books, windows)
  {
    hide NumbersMatch, Balanced, BooksOk, SentPacketHandler.SpacesOk, Plus;
    books := h.books;
    windows := [if h.initial == null then [] else h.initial.history.packets,
                if h.handshake == null then [] else h.handshake.history.packets,
                h.app.history.packets];
    BooksBalance(l, books, windows, h.given, h.dropped);
  }

  method Advance(h: SentPacketHandler, inputs: seq<Input>, out: seq<Outcome>, ghost start: Traffic,
                 ghost owned: set<object>)
    returns (o: Outcome, ghost owned': set<object>)
    requires |out| < |inputs| && AllRight(inputs, out) && Matches(h, LedgerAfter(inputs, out, |out|))
    requires inputs[|out|].event.ReceiveAck? ==> Validated(inputs[|out|].event.ranges)
    requires LimitKept(start, inputs, out) && TrafficOf(h) == TrafficAfter(start, inputs, out, |out|)
    requires h in owned && h.Objects() <= owned
    modifies owned
    ensures owned <= owned' && h.Objects() <= owned' && fresh(owned' - owned) && AllRight(inputs, out + [o])
    ensures o != Refused ==> Matches(h, LedgerAfter(inputs, out + [o], |out| + 1))
    ensures LimitKept(start, inputs, out + [o])
    ensures o != Refused ==> TrafficOf(h) == TrafficAfter(start, inputs, out + [o], |out| + 1)
  {
    hide Matches, Right, Record, LedgerAfter, AllRight, SentPacketHandler.Objects;
    hide LimitKept, TrafficAfter, TrafficOf, Counted, AtLimit;
    o := Step(h, inputs[|out|], LedgerAfter(inputs, out, |out|));
    owned' := owned + h.Objects();
    OneMoreRight(inputs, out, o);
    OneMoreCounted(start, inputs, out, o);
  }

  /** Every packet number and every refusal is right, and the run ends early only with an ACK that is refused.  If
      there is none, the books balance.  At the limit before address validation, nothing may be sent. */
  method Run(isClient: bool, addressValidated: bool, initialPN: nat, random: nat, inputs: seq<Input>)
    returns (out: seq<Outcome>, books: Books, windows: seq<Slots>)
    requires forall i :: 0 <= i < |inputs| && inputs[i].event.ReceiveAck? ==> Validated(inputs[i].event.ranges)
    ensures AllRight(inputs, out) && LimitKept(Traffic(!isClient, 0, 0, isClient || addressValidated), inputs, out)
    ensures if Refused in out then out[|out| - 1] == Refused && Refused !in out[..|out| - 1]
            else |out| == |inputs| && Balanced(LedgerAfter(inputs, out, |out|), books, windows)
  {
    hide Matches, Right, Record, Balanced, LedgerAfter, AllRight, SentPacketHandler.Objects;
    hide LimitKept, TrafficAfter, TrafficOf;
    ghost var start := Traffic(!isClient, 0, 0, isClient || addressValidated);
    var h := Start(isClient, addressValidated, initialPN, random);
    ghost var owned := {h} + h.Objects();
    out := [];
    assert LedgerAfter(inputs, out, 0) == NEW_LEDGER && AllRight(inputs, out) && LimitKept(start, inputs, out) &&
           TrafficAfter(start, inputs, out, 0) == start by {
      NothingYet(start, inputs);
    }
    while |out| < |inputs|
      invariant |out| <= |inputs| && h in owned && h.Objects() <= owned && fresh(owned)
      invariant AllRight(inputs, out) && Refused !in out
      invariant Matches(h, LedgerAfter(inputs, out, |out|))
      invariant LimitKept(start, inputs, out) && TrafficOf(h) == TrafficAfter(start, inputs, out, |out|)
    {
      var o;
      o, owned := Advance(h, inputs, out, start, owned);
      out := out + [o];
      if o == Refused {
        return out, h.books, [];
      }
    }
    books, windows := Result(h, LedgerAfter(inputs, out, |out|));
  }

  lemma NothingYet(start: Traffic, inputs: seq<Input>)
    ensures LedgerAfter(inputs, [], 0) == NEW_LEDGER && AllRight(inputs, [])
    ensures LimitKept(start, inputs, []) && TrafficAfter(start, inputs, [], 0) == start
  {
  }
}
