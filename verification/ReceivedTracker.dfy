/** When ACKs are sent for application data: internal/ackhandler/received_packet_tracker.go.  Times are in
    nanoseconds. */
module ReceivedPackets {
  import opened Common
  import opened AckMerge
  import opened ReceivedHistory

  const PACKETS_BEFORE_ACK := 2
  const MAX_ACK_DELAY := 25 * 1000 * 1000

  datatype AckFrame = AckFrame(ranges: seq<AckRange>, delayTime: int)

  /** Looks a packet number up in the ranges of an ACK frame by binary search (internal/wire/ack_frame.go). */
  method AcksPacket(ranges: seq<AckRange>, p: int) returns (r: bool)
    requires Validated(ranges)
    ensures r <==> Acks(ranges, p)
  {
    hide Acks;
    if p < ranges[|ranges| - 1].smallest || p > ranges[0].largest {
      Outside(ranges, p);
      return false;
    }
    var lo, hi := 0, |ranges|;
    while lo < hi
      invariant 0 <= lo <= hi <= |ranges|
      invariant forall i :: 0 <= i < lo ==> p < ranges[i].smallest
      invariant hi < |ranges| ==> ranges[hi].smallest <= p
    {
      var mid := (lo + hi) / 2;
      if p >= ranges[mid].smallest {
        hi := mid;
      } else {
        forall i | 0 <= i <= mid ensures p < ranges[i].smallest {
          if i < mid {
            Descending(ranges, i, mid);
          }
        }
        lo := mid + 1;
      }
    }
    FoundAt(ranges, lo, p);
    return p <= ranges[lo].largest;
  }

  lemma FoundAt(ranges: seq<AckRange>, k: nat, p: int)
    requires Validated(ranges) && k < |ranges| && ranges[k].smallest <= p
    requires forall i :: 0 <= i < k ==> p < ranges[i].smallest
    ensures Acks(ranges, p) <==> p <= ranges[k].largest
  {
    if Acks(ranges, p) {
      var i :| 0 <= i < |ranges| && Covers(ranges[i], p);
      if i > k {
        Descending(ranges, k, i);
      }
    }
    if p <= ranges[k].largest {
      assert Covers(ranges[k], p);
    }
  }

  /** What is pending: whether an ACK is queued, how many ack-eliciting packets wait for one, and the alarm. */
  datatype AckState = AckState(queued: bool, elicitingSinceLastAck: nat, alarm: Option<int>)

  /** Either an ACK is queued, or at most one packet waits, and the alarm is set to its arrival plus the maximum
      delay. */
  ghost predicate DelayBounded(s: AckState, pending: seq<int>) {
    && s.elicitingSinceLastAck == |pending|
    && (pending != [] ==> s.queued || (|pending| == 1 && s.alarm == Some(pending[0] + MAX_ACK_DELAY)))
    && (s.queued ==> s.alarm.None? && pending != [])
    && (pending == [] ==> s.alarm.None?)
  }

  /** The largest of the received numbers; 0 before the first. */
  ghost predicate IsLargest(received: set<int>, largest: int, any: bool) {
    if any then largest in received && forall p :: p in received ==> p <= largest else received == {} && largest == 0
  }

  lemma NoneNewer(received: set<int>, largest: int)
    requires forall p :: p in received ==> p <= largest
    ensures Newer(received, largest) == 0
  {
    assert (set q | q in received && q > largest) == {};
  }

  class AppDataTracker {
    const history: ReceivedPacketHistory
    var lastAck: Option<seq<AckRange>>
    var hasNewAck: bool
    var state: AckState
    var largestObserved: int
    var largestObservedRcvdTime: Option<int>
    var ignoreBelow: int

    /** The arrival times of the ack-eliciting packets since the last ACK. */
    ghost var pending: seq<int>

    constructor ()
      ensures Valid() && fresh(history) && pending == [] && history.received == {}
      ensures ignoreBelow == history.deletedBelow == 0
    {
      history := new ReceivedPacketHistory();
      lastAck, hasNewAck, state := None, false, AckState(false, 0, None);
      largestObserved, largestObservedRcvdTime, ignoreBelow, pending := 0, None, 0, [];
    }

    ghost predicate Valid()
      reads this, history
    {
      && history.Valid() && DelayBounded(state, pending)
      && (lastAck.Some? ==> Validated(lastAck.value))
      && (hasNewAck <==> pending != [])
      && history.deletedBelow >= 0 && IsLargest(history.received, largestObserved, largestObservedRcvdTime.Some?)
      && (largestObservedRcvdTime.None? ==> pending == [])
    }

    /** Something is left to acknowledge exactly if the cut-off is at most the largest number that was observed. */
    lemma SomethingLeft()
      requires Valid()
      ensures history.ranges != [] <==> largestObservedRcvdTime.Some? && history.deletedBelow <= largestObserved
    {
      hide DelayBounded;
      if history.ranges != [] {
        LastIsIn(history.ranges);
      }
      if largestObservedRcvdTime.Some? {
        NoneNewer(history.received, largestObserved);
      }
    }

    /** The last ACK left a gap at this number. */
    ghost predicate ReportedMissing(p: int)
      requires lastAck.Some? ==> Validated(lastAck.value)
      reads this`lastAck, this`ignoreBelow
    {
      lastAck.Some? && p >= ignoreBelow && p < lastAck.value[0].largest && !Acks(lastAck.value, p)
    }

    /** Whether a packet was reported missing in the last ACK. */
    method IsMissing(p: int) returns (r: bool)
      requires lastAck.Some? ==> Validated(lastAck.value)
      ensures r <==> ReportedMissing(p)
    {
      if lastAck.None? || p < ignoreBelow {
        return false;
      }
      var acked := AcksPacket(lastAck.value, p);
      return p < lastAck.value[0].largest && !acked;
    }

    predicate HasNewMissingPackets()
      requires lastAck.Some? ==> Validated(lastAck.value)
      reads this`lastAck, history`ranges
    {
      lastAck.Some? && history.ranges != [] &&
      var highest := history.ranges[|history.ranges| - 1];
      highest.start > lastAck.value[0].largest + 1 && highest.start == highest.end
    }

    /** The highest number that is represented stands alone behind a gap that the last ACK did not report. */
    lemma RevealsGap(p: int)
      requires Valid() && lastAck.Some? && Has(history.ranges, p) && forall q :: Has(history.ranges, q) ==> q <= p
      ensures HasNewMissingPackets() <==> p > lastAck.value[0].largest + 1 && !Has(history.ranges, p - 1)
    {
      var n := |history.ranges| - 1;
      LastIsIn(history.ranges);
      assert history.ranges[n].end == p;
      if history.ranges[n].start < p {
        assert Within(history.ranges[n], p - 1);
      }
    }

    predicate ShouldQueueACK(isCE: bool, wasMissing: bool)
      requires lastAck.Some? ==> Validated(lastAck.value)
      reads this`lastAck, this`state, history`ranges
    {
      lastAck.None? || wasMissing || state.elicitingSinceLastAck >= PACKETS_BEFORE_ACK || HasNewMissingPackets() || isCE
    }

    /** An error says that the packet is old or a duplicate.  An ACK is queued for the first packet, for every second
        one, for one that was reported missing or reveals a gap, and for one marked as having experienced congestion. */
    method ReceivedPacket(pn: int, isCE: bool, rcvTime: int, ackEliciting: bool) returns (ok: bool)
      requires Valid()
      modifies this, history
      ensures Valid() && lastAck == old(lastAck) && ignoreBelow == old(ignoreBelow)
      ensures history.deletedBelow == old(history.deletedBelow)
      ensures ok <==> pn >= old(history.deletedBelow) && !Has(old(history.ranges), pn)
      ensures ok ==> history.ranges != [] && history.received == old(history.received) + {pn}
      ensures pending == if ok && ackEliciting then old(pending) + [rcvTime] else old(pending)
      ensures ok && pn >= old(largestObserved) ==> largestObserved == pn && largestObservedRcvdTime == Some(rcvTime)
      ensures !ok || pn < old(largestObserved) ==>
                largestObserved == old(largestObserved) && largestObservedRcvdTime == old(largestObservedRcvdTime)
      ensures !ok || !ackEliciting ==> state == old(state)
      ensures ok && ackEliciting ==>
                (state.queued <==> old(state).queued || lastAck.None? || |pending| >= 2 || ReportedMissing(pn) ||
                                   HasNewMissingPackets() || isCE)
    {
      hide Has;
      var isNew := history.ReceivedPacket(pn);
      if !isNew {
        return false;
      }
      hide ReceivedPacketHistory.Valid, DelayBounded, ReportedMissing, HasNewMissingPackets;
      if pn >= largestObserved {
        largestObserved, largestObservedRcvdTime := pn, Some(rcvTime);
      }
      if ackEliciting {
        QueueOrDelay(pn, isCE, rcvTime);
      }
      return true;
    }

    /** An ack-eliciting packet was registered: an ACK is queued, or the alarm is set. */
    method QueueOrDelay(pn: int, isCE: bool, rcvTime: int)
      requires DelayBounded(state, pending) && (lastAck.Some? ==> Validated(lastAck.value))
      modifies this`hasNewAck, this`pending, this`state
      ensures hasNewAck && pending == old(pending) + [rcvTime] && DelayBounded(state, pending)
      ensures state.queued <==>
                old(state).queued || lastAck.None? || |pending| >= 2 || ReportedMissing(pn) || HasNewMissingPackets() ||
                isCE
    {
      hasNewAck, pending := true, pending + [rcvTime];
      state := state.(elicitingSinceLastAck := state.elicitingSinceLastAck + 1);
      var wasMissing := IsMissing(pn);
      if !state.queued && ShouldQueueACK(isCE, wasMissing) {
        state := state.(queued := true, alarm := None);
      }
      if !state.queued {
        state := state.(alarm := Some(rcvTime + MAX_ACK_DELAY));
      }
    }

    /** Packets below a number are no longer acknowledged. */
    method IgnoreBelow(pn: int)
      requires Valid() && ignoreBelow == history.deletedBelow
      modifies this`ignoreBelow, history
      ensures Valid() && ignoreBelow == history.deletedBelow == Max(old(ignoreBelow), pn)
      ensures history.received == old(history.received)
      ensures forall q :: Has(history.ranges, q) <==> Has(old(history.ranges), q) && q >= pn
    {
      hide Has, DelayBounded;
      if pn <= ignoreBelow {
        return;
      }
      ignoreBelow := pn;
      history.DeleteBelow(pn);
    }

    /** An ACK frame lists exactly the numbers that are represented.  None is returned exactly if nothing is pending,
        or if the caller can wait and neither is an ACK queued nor has the alarm expired.  A frame without ranges is
        returned exactly if the cut-off has passed the largest number that was observed; whoever asks for its length
        or its largest number then panics. */
    method GetAckFrame(onlyIfQueued: bool, now: int) returns (ack: Option<AckFrame>)
      requires Valid()
      modifies this`lastAck, this`hasNewAck, this`state, this`pending
      ensures ack.None? <==>
                old(pending) == [] || (onlyIfQueued && !old(state).queued && now < old(pending)[0] + MAX_ACK_DELAY)
      ensures ack.None? ==> pending == old(pending) && state == old(state)
      ensures ack.Some? ==>
                && pending == []
                && lastAck == Some(ack.value.ranges)
                && (ack.value.ranges != [] ==> Validated(ack.value.ranges))
      ensures ack.Some? ==> (ack.value.ranges == [] <==> history.deletedBelow > largestObserved)
      ensures Valid() <==> ack.None? || ack.value.ranges != []
      ensures ack.Some? ==> forall p :: Acks(ack.value.ranges, p) <==> Has(history.ranges, p)
      ensures ack.Some? ==>
                largestObservedRcvdTime.Some? && ack.value.delayTime == Max(0, now - largestObservedRcvdTime.value)
    {
      hide Has, Acks;
      if onlyIfQueued && !state.queued && (state.alarm.None? || state.alarm.value > now) {
        return None;
      }
      if !hasNewAck {
        return None;
      }
      SomethingLeft();
      var ranges := history.AppendAckRanges();
      hide ReceivedPacketHistory.Valid;
      lastAck, hasNewAck, pending := Some(ranges), false, [];
      var delay := Max(0, now - largestObservedRcvdTime.value);
      state := AckState(false, 0, None);
      return Some(AckFrame(ranges, delay));
    }
  }

  // ------------------------------------------------------------------
  // Whole runs
  // ------------------------------------------------------------------

  /** A packet is registered, and then the number is raised below which packets are ignored: `ignoreBelow` is above
      all numbers that are confirmed to be acknowledged (internal/ackhandler/received_packet_handler.go). */
  datatype Event =
    | Receive(pn: int, isCE: bool, rcvTime: int, ackEliciting: bool, ignoreBelow: int)
    | GetAck(onlyIfQueued: bool, now: int)

  datatype Outcome = Handled(accepted: bool) | NoAck | Sent(ack: AckFrame) | EmptyAck

  /** What can be seen from outside: the accepted numbers, the cut-off, and the arrivals of the packets that wait for
      an ACK. */
  datatype Ledger = Ledger(accepted: set<int>, cutOff: int, waiting: seq<int>)

  function Record(l: Ledger, e: Event, o: Outcome): Ledger {
    match e
    case Receive(pn, _, rcvTime, ackEliciting, ignoreBelow) =>
      if o == Handled(true) then
        Ledger(l.accepted + {pn}, Max(l.cutOff, ignoreBelow), if ackEliciting then l.waiting + [rcvTime] else l.waiting)
      else l
    case GetAck(_, _) => if o.Sent? then l.(waiting := []) else l
  }

  ghost function After(events: seq<Event>, out: seq<Outcome>, k: nat): Ledger
    requires k <= |events| && k <= |out|
  {
    if k == 0 then Ledger({}, 0, []) else Record(After(events, out, k - 1), events[k - 1], out[k - 1])
  }

  lemma {:induction false} AfterPrefix(events: seq<Event>, out: seq<Outcome>, o: Outcome, k: nat)
    requires k <= |events| && k <= |out|
    ensures After(events, out + [o], k) == After(events, out, k)
  {
    if k > 0 {
      AfterPrefix(events, out, o, k - 1);
    }
  }

  /** The numbers an ACK has to contain: those that were accepted and not cut off, except that old ones can be
      forgotten. */
  ghost predicate AcksWhatArrived(l: Ledger, ranges: seq<AckRange>) {
    && Validated(ranges)
    && (forall p :: Acks(ranges, p) ==> p in l.accepted && p >= l.cutOff)
    && (forall p :: p in l.accepted && p >= l.cutOff && !Acks(ranges, p) ==> Newer(l.accepted, p) >= MAX_NUM_ACK_RANGES)
  }

  /** The cut-off has not passed all accepted numbers. */
  ghost predicate SomeLeft(l: Ledger) {
    exists p :: p in l.accepted && p >= l.cutOff
  }

  /** Only old packets and duplicates are rejected, and a duplicate is accepted only if it is old enough to be
      forgotten. No ACK is sent only if nothing waits, or if one packet waits that is younger than the maximum delay.
      An ACK has no ranges exactly if nothing is left to acknowledge. */
  ghost predicate Right(l: Ledger, e: Event, o: Outcome) {
    match e
    case Receive(pn, _, _, _, _) =>
      && o.Handled?
      && (o.accepted ==> pn >= l.cutOff && (pn in l.accepted ==> Newer(l.accepted, pn) >= MAX_NUM_ACK_RANGES))
      && (!o.accepted ==> pn < l.cutOff || pn in l.accepted)
    case GetAck(onlyIfQueued, now) =>
      && (o.NoAck? ==> l.waiting == [] || (onlyIfQueued && |l.waiting| == 1 && now < l.waiting[0] + MAX_ACK_DELAY))
      && (o.Sent? ==> l.waiting != [] && SomeLeft(l) && AcksWhatArrived(l, o.ack.ranges))
      && (o.EmptyAck? ==> l.waiting != [] && !SomeLeft(l))
      && !o.Handled?
  }

  ghost predicate Matches(t: AppDataTracker, l: Ledger)
    reads t, t.history
  {
    && t.Valid() && t.pending == l.waiting && t.history.received == l.accepted
    && t.ignoreBelow == t.history.deletedBelow == l.cutOff
  }

  method HandlePacket(t: AppDataTracker, e: Event, ghost l: Ledger) returns (o: Outcome)
    requires Matches(t, l) && e.Receive?
    modifies t, t.history
    ensures Matches(t, Record(l, e, o)) && Right(l, e, o)
  {
    hide Has, Newer, DelayBounded, IsLargest;
    var duplicate := t.history.IsPotentiallyDuplicate(e.pn);
    if duplicate {
      return Handled(false);
    }
    var ok := t.ReceivedPacket(e.pn, e.isCE, e.rcvTime, e.ackEliciting);
    if ok {
      t.IgnoreBelow(e.ignoreBelow);
    }
    return Handled(ok);
  }

  method SendAck(t: AppDataTracker, e: Event, ghost l: Ledger) returns (o: Outcome)
    requires Matches(t, l) && e.GetAck?
    modifies t`lastAck, t`hasNewAck, t`state, t`pending
    ensures Right(l, e, o) && (!o.EmptyAck? ==> Matches(t, Record(l, e, o)))
  {
    hide Has, Newer, Acks;
    var ack := t.GetAckFrame(e.onlyIfQueued, e.now);
    return if ack.None? then NoAck else if ack.value.ranges == [] then EmptyAck else Sent(ack.value);
  }

  ghost predicate AllRight(events: seq<Event>, out: seq<Outcome>)
    requires |out| <= |events|
  {
    forall i :: 0 <= i < |out| ==> Right(After(events, out, i), events[i], out[i])
  }

  lemma OneMoreRight(events: seq<Event>, out: seq<Outcome>, o: Outcome)
    requires |out| < |events| && AllRight(events, out) && Right(After(events, out, |out|), events[|out|], o)
    ensures AllRight(events, out + [o])
    ensures After(events, out + [o], |out| + 1) == Record(After(events, out, |out|), events[|out|], o)
  {
    hide Right, Record;
    var out' := out + [o];
    forall i | 0 <= i < |out'| ensures Right(After(events, out', i), events[i], out'[i]) {
      AfterPrefix(events, out, o, i);
    }
    AfterPrefix(events, out, o, |out|);
  }

  /** Packets arrive in any order and with any duplicates, and ACKs are asked for at any time.  The run ends with an
      ACK that has no ranges, which cannot be sent. */
  method Run(events: seq<Event>) returns (out: seq<Outcome>)
    ensures |out| <= |events| && AllRight(events, out)
    ensures |out| < |events| ==> out != [] && out[|out| - 1].EmptyAck?
    ensures forall i :: 0 <= i < |out| - 1 ==> !out[i].EmptyAck?
  {
    hide Right, Record, AllRight, Matches;
    var t := new AppDataTracker();
    out := [];
    Start(t, events);
    for i := 0 to |events|
      invariant |out| == i && fresh(t) && fresh(t.history) && Matches(t, After(events, out, i)) && AllRight(events, out)
      invariant forall j :: 0 <= j < i ==> !out[j].EmptyAck?
    {
      ghost var l := After(events, out, i);
      var o;
      if events[i].Receive? {
        o := HandlePacket(t, events[i], l);
        NotEmpty(l, events[i], o);
      } else {
        o := SendAck(t, events[i], l);
      }
      OneMoreRight(events, out, o);
      out := out + [o];
      if o.EmptyAck? {
        return;
      }
    }
  }

  lemma Start(t: AppDataTracker, events: seq<Event>)
    requires t.Valid() && t.pending == [] && t.history.received == {} && t.ignoreBelow == t.history.deletedBelow == 0
    ensures Matches(t, After(events, [], 0)) && AllRight(events, [])
  {
  }

  lemma NotEmpty(l: Ledger, e: Event, o: Outcome)
    requires Right(l, e, o) && e.Receive?
    ensures !o.EmptyAck?
  {
  }

  /** As long as anything was accepted, something is left, and nothing waits before. */
  ghost predicate StaysBelow(l: Ledger) {
    if l.accepted == {} then l.waiting == [] else SomeLeft(l)
  }

  /** After a packet is registered, something is left exactly if it does not raise the cut-off above all accepted
      numbers. */
  lemma LeftExactly(l: Ledger, e: Event)
    requires e.Receive? && e.pn >= l.cutOff
    ensures SomeLeft(Record(l, e, Handled(true))) <==> ReachedBy(l.accepted + {e.pn}, e.ignoreBelow)
  {
    var l' := Record(l, e, Handled(true));
    if ReachedBy(l'.accepted, e.ignoreBelow) {
      var p :| p in l'.accepted && p >= e.ignoreBelow;
      assert Max(p, e.pn) in l'.accepted && Max(p, e.pn) >= l'.cutOff;
    }
  }

  lemma StaysBelowStep(l: Ledger, e: Event, o: Outcome)
    requires StaysBelow(l) && Right(l, e, o)
    requires e.Receive? && o == Handled(true) ==> ReachedBy(l.accepted + {e.pn}, e.ignoreBelow)
    ensures StaysBelow(Record(l, e, o)) && !o.EmptyAck?
  {
    hide Newer, AcksWhatArrived;
    if e.Receive? && o == Handled(true) {
      LeftExactly(l, e);
    }
  }

  /** If no packet raises the cut-off above all numbers that were accepted, its own included, something is always
      left to acknowledge. */
  lemma {:induction false} CutOffStaysBelow(events: seq<Event>, out: seq<Outcome>, k: nat)
    requires k <= |out| <= |events| && AllRight(events, out)
    requires forall i :: 0 <= i < k && events[i].Receive? && out[i] == Handled(true) ==>
               ReachedBy(After(events, out, i).accepted + {events[i].pn}, events[i].ignoreBelow)
    ensures StaysBelow(After(events, out, k)) && forall i :: 0 <= i < k ==> !out[i].EmptyAck?
  {
    hide Right, StaysBelow, ReachedBy, Record;
    if k == 0 {
      NothingYet();
    } else {
      CutOffStaysBelow(events, out, k - 1);
      StaysBelowStep(After(events, out, k - 1), events[k - 1], out[k - 1]);
    }
  }

  lemma NothingYet()
    ensures StaysBelow(Ledger({}, 0, []))
  {
  }

  ghost predicate ReachedBy(accepted: set<int>, cutOff: int) {
    exists p :: p in accepted && p >= cutOff
  }

  /** Packet 100 is acknowledged, and packet 50 confirms that ACK: nothing is left, but packet 50 waits for an ACK. */
  method ConfirmationFromBelow() returns (out: seq<Outcome>)
    ensures |out| == 4 && out[2] == Handled(true) && out[3] == EmptyAck
  {
    hide Newer, AcksWhatArrived;
    var events := [Receive(100, false, 0, true, 0), GetAck(false, 1),
                   Receive(50, false, 2, true, 101), GetAck(false, 3)];
    out := Run(events);
    assert Right(After(events, out, 0), events[0], out[0]);
    assert out[0] == Handled(true) && After(events, out, 1) == Ledger({100}, 0, [0]);
    assert Right(After(events, out, 1), events[1], out[1]);
    assert SomeLeft(After(events, out, 1)) by { assert 100 in {100}; }
    assert After(events, out, 2) == Ledger({100}, 0, []);
    assert Right(After(events, out, 2), events[2], out[2]);
    assert After(events, out, 3) == Ledger({100, 50}, 101, [2]);
    assert Right(After(events, out, 3), events[3], out[3]);
  }
}
