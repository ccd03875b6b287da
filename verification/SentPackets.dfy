/** Loss recovery for the three packet number spaces: internal/ackhandler/sent_packet_handler.go. */
module SentPackets {
  import opened Common
  import opened SentHistory
  import opened PacketNumbers
  import opened AckMerge
  import opened LossTimers

  const PACKET_THRESHOLD := 3

  ghost predicate Submap(v': map<int, Packet>, v: map<int, Packet>) {
    forall q :: q in v' ==> q in v && v'[q] == v[q]
  }

  /** A packet is lost if it was sent too long before or too many numbers below the largest acknowledged one. */
  predicate IsLost(p: Packet, largestAcked: int, lostSendTime: int) {
    p.pn <= largestAcked &&
    (p.sendTime.None? || p.sendTime.value < lostSendTime || largestAcked >= p.pn + PACKET_THRESHOLD)
  }

  /** What is left when the lost packets below a number are gone. */
  ghost function Surviving(v: map<int, Packet>, upTo: int, largestAcked: int, lostSendTime: int): map<int, Packet> {
    map q | q in v && !(q < upTo && IsLost(v[q], largestAcked, lostSendTime)) :: v[q]
  }

  /** The time at which the first of the remaining packets below the largest acknowledged one will be lost. */
  ghost predicate IsLossTime(t: Option<int>, v: map<int, Packet>, largestAcked: int, lossDelay: nat) {
    if t.None? then forall q :: q in v ==> q > largestAcked
    else exists q :: q in v && q <= largestAcked && v[q].sendTime == Some(t.value - lossDelay) &&
                     forall r :: r in v ==> q <= r
  }

  /** A packet that was sent is overdue if it is not above the largest acknowledged one, and was sent more than the loss
      delay ago or at least three numbers below it. */
  predicate Overdue(pn: int, sent: int, largestAcked: int, now: int, lossDelay: nat) {
    pn <= largestAcked && (now - sent > lossDelay || pn + 3 <= largestAcked)
  }

  ghost predicate WasSent(v: map<int, Packet>, q: int) {
    q in v && v[q].pn == q && !v[q].skipped && v[q].sendTime.Some?
  }

  /** Of the packets that were sent exactly the overdue ones are gone. */
  ghost predicate LosesOverdue(v: map<int, Packet>, v': map<int, Packet>, largestAcked: int, now: int, lossDelay: nat) {
    && Submap(v', v)
    && forall q :: WasSent(v, q) ==> (q in v' <==> !Overdue(q, v[q].sendTime.value, largestAcked, now, lossDelay))
  }

  /** What is left of a window if losses are detected at a point in time. */
  ghost function Detected(v: map<int, Packet>, upTo: int, largestAcked: int, now: int, lossDelay: nat): map<int, Packet>
  {
    Surviving(v, upTo, largestAcked, now - lossDelay)
  }

  lemma DetectionLosesOverdue(v: map<int, Packet>, upTo: int, largestAcked: int, now: int, lossDelay: nat)
    requires forall q :: q in v ==> q < upTo
    ensures LosesOverdue(v, Detected(v, upTo, largestAcked, now, lossDelay), largestAcked, now, lossDelay)
  {
  }

  /** A packet is lost by detection after a point in time, and not before. */
  ghost predicate LostAfter(v: map<int, Packet>, q: int, upTo: int, largestAcked: int, lossDelay: nat, t: int) {
    q in v && forall now :: q in Detected(v, upTo, largestAcked, now, lossDelay) <==> now <= t
  }

  /** The loss time that detection leaves is the moment at which the first packet that is left below the largest
      acknowledged one is lost; if there is none, time makes no further loss. */
  lemma MomentOfLoss(v0: map<int, Packet>, upTo: int, largestAcked: int, now0: int, lossDelay: nat, t: Option<int>)
    requires forall q :: q in v0 ==> q < upTo && v0[q].pn == q
    requires IsLossTime(t, Detected(v0, upTo, largestAcked, now0, lossDelay), largestAcked, lossDelay)
    ensures var v := Detected(v0, upTo, largestAcked, now0, lossDelay);
            if t.Some? then
              exists q :: (forall r :: r in v ==> q <= r) && LostAfter(v, q, upTo, largestAcked, lossDelay, t.value)
            else forall now :: Detected(v, upTo, largestAcked, now, lossDelay) == v
  {
    var v := Detected(v0, upTo, largestAcked, now0, lossDelay);
    if t.Some? {
      var q :|
        q in v && q <= largestAcked && v[q].sendTime == Some(t.value - lossDelay) && forall r :: r in v ==> q <= r;
      assert LostAfter(v, q, upTo, largestAcked, lossDelay, t.value);
    }
  }

  /** What an operation can see of a packet number space. */
  datatype SpaceView = SpaceView(
    packets: Slots,
    tracked: map<int, Packet>,
    next: int,
    largestSent: int,
    largestAcked: int,
    lossTime: Option<int>,
    lastAckEliciting: Option<int>,
    used: set<int>)

  ghost function ViewOf(s: PacketNumberSpace?): SpaceView
    reads Repr(s)
  {
    if s == null then SpaceView([], map[], 0, 0, 0, None, None, {})
    else
      SpaceView(s.history.packets, s.history.Tracked(), s.pns.next, s.largestSent, s.largestAcked, s.lossTime,
                s.lastAckElicitingTime, s.pns.used)
  }

  /** If the generator skips a number, the one before the popped one is marked. */
  ghost function Popping(v: map<int, Packet>, next: int, pn: int): map<int, Packet> {
    if pn > next then v[pn - 1 := Skipped(pn - 1)] else v
  }

  /** A packet that was sent is tracked with everything about it, if it has frames. */
  ghost predicate SendEffect(s: SpaceView, s': SpaceView, pn: int, p: Packet) {
    && s.next <= pn <= s.next + 1 && s'.next == pn + 1 && s'.used == s.used + {pn}
    && s'.largestSent == pn && s'.largestAcked == s.largestAcked && s'.lossTime == s.lossTime
    && s'.lastAckEliciting == (if p.frames != [] then p.sendTime else s.lastAckEliciting)
    && var v := Popping(s.tracked, s.next, pn);
       s'.tracked == if p.frames != [] then v[pn := p.(pn := pn)] else v
  }

  /** The number that is used up is marked, as is one that the generator skips. */
  ghost predicate SkipEffect(s: SpaceView, s': SpaceView) {
    && s.next < s'.next <= s.next + 2 && s' == s.(packets := s'.packets, tracked := s'.tracked, next := s'.next)
    && s'.tracked == Popping(s.tracked, s.next, s'.next - 1)[s'.next - 1 := Skipped(s'.next - 1)]
  }

  class PacketNumberSpace {
    const history: SentPacketHistory
    const pns: PacketNumberGenerator
    var lossTime: Option<int>
    var lastAckElicitingTime: Option<int>
    var largestAcked: int
    var largestSent: int

    constructor (initial: int, skip: bool, random: nat)
      requires initial >= 0
      ensures Valid() && fresh(history) && fresh(pns) && pns.next == initial && pns.skipping == skip && pns.used == {}
      ensures history.Tracked() == map[] && Total(history.packets) == NO_LOAD
      ensures lossTime == None && lastAckElicitingTime == None
    {
      if skip {
        pns := new PacketNumberGenerator.Skipping(initial, SKIP_PACKET_INITIAL_PERIOD, SKIP_PACKET_MAX_PERIOD, random);
      } else {
        pns := new PacketNumberGenerator.Sequential(initial);
      }
      history := new SentPacketHistory();
      lossTime, lastAckElicitingTime := None, None;
      largestAcked, largestSent := INVALID_PACKET_NUMBER, INVALID_PACKET_NUMBER;
    }

    ghost predicate Consistent()
      reads this, history, pns
    {
      && history.Valid() && pns.Valid()
      && pns.next >= 0 && largestAcked <= largestSent < pns.next && UsedOk(pns.used, largestSent, history.Tracked())
      && (lastAckElicitingTime.None? ==>
            lossTime.None? && !history.HasOutstandingPackets() && OnlySkipped(history.Tracked()))
    }

    /** Between two operations the next number to pop is the next one to register. */
    ghost predicate Valid()
      reads this, history, pns
    {
      Consistent() &&
      (history.highestPacketNumber == INVALID_PACKET_NUMBER || pns.next == history.highestPacketNumber + 1)
    }

    /** A number was popped and has yet to be registered. */
    ghost predicate Popped(pn: int)
      reads this, history, pns
    {
      Consistent() && history.IsNext(pn) && pns.next == pn + 1 && largestSent < pn
    }

    method PopPacketNumber(random: nat) returns (pn: int)
      requires Valid()
      modifies history, pns`next, pns`nextToSkip, pns`period
      ensures Popped(pn) && pn == old(pns.Peek()) >= old(pns.next)
      ensures pn <= old(pns.next) + 1 && history.Tracked() == Popping(old(history.Tracked()), old(pns.next), pn)
      ensures Total(history.packets) == old(Total(history.packets))
    {
      hide View, Total, PacketOk, Dense;
      var skipped;
      skipped, pn := pns.Pop(random);
      if skipped {
        history.SkippedPacket(pn - 1);
      }
    }

    method RegisterSkipped(pn: int)
      requires Popped(pn)
      modifies history
      ensures Valid() && history.Tracked() == old(history.Tracked())[pn := Skipped(pn)]
      ensures Total(history.packets) == old(Total(history.packets))
    {
      hide View, Total, PacketOk, Dense;
      history.SkippedPacket(pn);
    }

    /** Uses up a packet number, in order to elicit an immediate ACK. */
    method SkipPacketNumber(random: nat)
      requires Valid()
      modifies history, pns`next, pns`nextToSkip, pns`period
      ensures Valid() && Total(history.packets) == old(Total(history.packets))
      ensures SkipEffect(old(ViewOf(this)), ViewOf(this))
    {
      hide View, Total, SentPacketHistory.Valid;
      var pn := PopPacketNumber(random);
      RegisterSkipped(pn);
    }

    /** Registers a packet that was sent; packets that elicit no ACK are not tracked. */
    method RegisterSent(pn: int, p: Option<Packet>)
      requires Popped(pn) && (p.Some? ==> PacketOk(p.value) && p.value.pn == pn && !p.value.skipped)
      modifies history, this`largestSent, this`lastAckElicitingTime
      ensures Valid() && largestSent == pn && (pn in history.Tracked() ==> p.Some?)
      ensures history.Tracked() == if p.Some? then old(history.Tracked())[pn := p.value] else old(history.Tracked())
      ensures Total(history.packets) ==
                if p.Some? then Plus(old(Total(history.packets)), LoadOf(p.value)) else old(Total(history.packets))
      ensures lastAckElicitingTime == if p.Some? then p.value.sendTime else old(lastAckElicitingTime)
    {
      hide View, Total, PacketOk, Dense, Plus, LoadOf;
      history.NextIsNew(pn);
      largestSent := pn;
      match p
      case Some(packet) =>
        assert packet.sendTime.Some? by { SentTime(packet); }
        lastAckElicitingTime := packet.sendTime;
        history.SentAckElicitingPacket(packet);
      case None =>
        history.SentNonAckElicitingPacket(pn);
    }

    ghost method NoteUsed(pn: int)
      requires Valid() && largestSent == pn && (pn in history.Tracked() ==> !history.Tracked()[pn].skipped)
      modifies pns`used
      ensures Valid() && pns.used == old(pns.used) + {pn}
    {
      hide View, Total;
      pns.used := pns.used + {pn};
    }

    /** Pops a packet number and registers a packet with it; only a packet with frames elicits an ACK. */
    method Send(p: Packet, random: nat) returns (pn: int)
      requires Valid() && !p.skipped && p.inFlight && p.sendTime.Some?
      modifies history, pns, this`largestSent, this`lastAckElicitingTime
      ensures Valid() && SendEffect(old(ViewOf(this)), ViewOf(this), pn, p)
      ensures Total(history.packets) ==
                if p.frames != [] then Plus(old(Total(history.packets)), LoadOf(p)) else old(Total(history.packets))
    {
      hide View, Total, Plus, Consistent, SentPacketHistory.Valid;
      pn := PopPacketNumber(random);
      RegisterSent(pn, if p.frames == [] then None else Some(p.(pn := pn)));
      NoteUsed(pn);
      assert LoadOf(p.(pn := pn)) == LoadOf(p);
    }
  }

  /** No number above the largest one that was sent is in use, and no skipped number. */
  ghost predicate UsedOk(used: set<int>, largestSent: int, v: map<int, Packet>) {
    (forall q :: q in used ==> q <= largestSent) && (forall q :: q in v && v[q].skipped ==> q !in used)
  }

  ghost predicate OnlySkipped(v: map<int, Packet>) {
    forall q :: q in v ==> v[q].skipped
  }

  lemma SentTime(p: Packet)
    requires PacketOk(p) && !p.skipped
    ensures p.sendTime.Some?
  {
  }

  // ------------------------------------------------------------------
  // Bytes in flight and the fate of frames
  // ------------------------------------------------------------------

  /** The bytes in flight, and the frames for which OnAcked and OnLost were called. */
  datatype Books = Books(bytesInFlight: int, acked: seq<Frame>, lost: seq<Frame>)

  /** Packets left a window of a certain load; their bytes are no longer in flight and their frames were reported as
      lost. */
  ghost predicate Lost(b: Books, t: Load, b': Books, t': Load) {
    && b'.bytesInFlight - t'.bytes == b.bytesInFlight - t.bytes
    && multiset(b'.lost) + t'.frames == multiset(b.lost) + t.frames
    && b'.acked == b.acked && b.lost <= b'.lost
  }

  /** Further callbacks were called. */
  predicate Grown(b: Books, b': Books) {
    b.acked <= b'.acked && b.lost <= b'.lost
  }

  lemma LostOne(b: Books, t: Load, b': Books, t': Load, p: Packet)
    requires Plus(t', LoadOf(p)) == t
    requires b' == Books(b.bytesInFlight - LoadOf(p).bytes, b.acked, b.lost + Handled(p.frames))
    ensures Lost(b, t, b', t') && t'.bytes <= t.bytes
  {
  }

  lemma FewerOutstanding(t: Load, t': Load, x: Load)
    requires Plus(t', x) == t
    ensures t'.outstanding <= t.outstanding && t'.bytes + x.bytes == t.bytes && t'.frames + x.frames == t.frames
  {
  }

  lemma LoadFits(t: Load, t': Load, p: Packet)
    requires Plus(t', LoadOf(p)) == t
    ensures t'.bytes + LoadOf(p).bytes == t.bytes && t'.outstanding <= t.outstanding
    ensures (p.inFlight ==> LoadOf(p).bytes == p.length)
  {
  }

  lemma LostNothing(b: Books, t: Load)
    ensures Lost(b, t, b, t)
  {
  }

  lemma LostMore(b: Books, t: Load, b': Books, t': Load, b'': Books, t'': Load)
    requires Lost(b, t, b', t') && Lost(b', t', b'', t'') && t'.bytes <= b'.bytesInFlight
    ensures Lost(b, t, b'', t'') && t''.bytes <= b''.bytesInFlight
  {
  }

  // ------------------------------------------------------------------
  // Which packets are lost
  // ------------------------------------------------------------------

  lemma ViewNumbers(base: int, s: Slots)
    requires Dense(base, s)
    ensures forall q :: q in View(base, s) ==>
              base <= q < base + |s| && View(base, s)[q].pn == q && PacketOk(View(base, s)[q])
  {
  }

  lemma SlotIsTracked(base: int, s: Slots, x: Option<Packet>)
    requires Dense(base, s) && x in s && x.Some?
    ensures x.value.pn in View(base, s) && View(base, s)[x.value.pn] == x.value
  {
    var i :| 0 <= i < |s| && s[i] == x;
    assert x.value.pn == base + i;
  }

  lemma SurvivingStart(v: map<int, Packet>, n: int, largestAcked: int, lostSendTime: int)
    requires forall q :: q in v ==> n <= q
    ensures Surviving(v, n, largestAcked, lostSendTime) == v
  {
  }

  lemma SurvivingStep(v: map<int, Packet>, n: int, largestAcked: int, lostSendTime: int)
    ensures Surviving(v, n + 1, largestAcked, lostSendTime) ==
              if n in v && IsLost(v[n], largestAcked, lostSendTime)
              then Surviving(v, n, largestAcked, lostSendTime) - {n}
              else Surviving(v, n, largestAcked, lostSendTime)
    ensures n in v ==>
              n in Surviving(v, n, largestAcked, lostSendTime) && Surviving(v, n, largestAcked, lostSendTime)[n] == v[n]
    ensures Submap(Surviving(v, n, largestAcked, lostSendTime), v)
  {
  }

  lemma SurvivingEnd(v: map<int, Packet>, n: int, m: int, largestAcked: int, lostSendTime: int)
    requires n <= m && forall q :: q in v ==> v[q].pn == q && (n <= q < m ==> q > largestAcked)
    ensures Surviving(v, n, largestAcked, lostSendTime) == Surviving(v, m, largestAcked, lostSendTime)
  {
  }

  /** The loss time is that of the first packet among those that were looked at and survived. */
  ghost predicate LossTimeSoFar(t: Option<int>, v: map<int, Packet>, upTo: int, largestAcked: int, lossDelay: nat,
                                first: int) {
    if t.None? then forall q :: q in v ==> q >= upTo
    else first in v && first < upTo && first <= largestAcked && v[first].sendTime == Some(t.value - lossDelay) &&
         forall r :: r in v ==> first <= r
  }

  lemma LossTimeDone(t: Option<int>, v: map<int, Packet>, upTo: int, largestAcked: int, lossDelay: nat, first: int)
    requires LossTimeSoFar(t, v, upTo, largestAcked, lossDelay, first)
    requires forall q :: q in v && q >= upTo ==> q > largestAcked
    ensures IsLossTime(t, v, largestAcked, lossDelay)
  {
  }

  lemma SurvivorWasSent(p: Packet, largestAcked: int, lostSendTime: int)
    requires PacketOk(p) && p.pn <= largestAcked && !IsLost(p, largestAcked, lostSendTime)
    ensures !p.skipped && p.sendTime.Some?
  {
  }

  // ------------------------------------------------------------------
  // Which packets are acknowledged
  // ------------------------------------------------------------------

  function LoadSum(ps: seq<Packet>): Load {
    if ps == [] then NO_LOAD else Plus(LoadSum(ps[..|ps| - 1]), LoadOf(ps[|ps| - 1]))
  }

  /** The frames that get a callback, packet by packet. */
  function FramesOf(ps: seq<Packet>): seq<Frame> {
    if ps == [] then [] else FramesOf(ps[..|ps| - 1]) + Handled(ps[|ps| - 1].frames)
  }

  /** The acknowledged packets, and only skipped numbers besides them, left the window. */
  ghost predicate Acknowledged(v: map<int, Packet>, v': map<int, Packet>, ranges: seq<AckRange>) {
    Submap(v', v) && forall q :: q in v && !v[q].skipped ==> (q in v' <==> !Acks(ranges, q))
  }

  /** Distinct packets that are tracked. */
  ghost predicate Ascending(v: map<int, Packet>, ps: seq<Packet>) {
    && (forall i :: 0 <= i < |ps| ==> ps[i].pn in v && v[ps[i].pn] == ps[i] && !ps[i].skipped)
    && (forall i, j :: 0 <= i < j < |ps| ==> ps[i].pn < ps[j].pn)
  }

  /** The first n packets of a list, and only skipped numbers besides them, left the window. */
  ghost predicate FirstGone(v: map<int, Packet>, v': map<int, Packet>, ps: seq<Packet>, n: nat)
    requires n <= |ps|
  {
    && Submap(v', v)
    && (forall q :: q in v && !v[q].skipped ==> (q in v' <==> forall i :: 0 <= i < n ==> ps[i].pn != q))
  }

  lemma NoneGone(v: map<int, Packet>, ps: seq<Packet>)
    ensures FirstGone(v, v, ps, 0)
  {
  }

  lemma NextGone(v: map<int, Packet>, v': map<int, Packet>, ps: seq<Packet>, n: nat)
    requires n < |ps| && Ascending(v, ps) && FirstGone(v, v', ps, n)
    ensures ps[n].pn in v' && v'[ps[n].pn] == ps[n]
    ensures FirstGone(v, v' - {ps[n].pn} - SkippedBefore(v', ps[n].pn), ps, n + 1)
  {
  }

  lemma AllGone(base: int, s: Slots, v': map<int, Packet>, ranges: seq<AckRange>)
    requires Dense(base, s) && FirstGone(View(base, s), v', AckedIn(s, ranges), |AckedIn(s, ranges)|)
    ensures Acknowledged(View(base, s), v', ranges)
  {
    hide View, Acks, Dense, AckedIn;
    AckedExactly(base, s, ranges);
    ViewNumbers(base, s);
    var v, ps := View(base, s), AckedIn(s, ranges);
    forall q | q in v && !v[q].skipped ensures q in v' <==> !Acks(ranges, q) {
      assert Acks(ranges, q) <==> v[q] in ps;
      assert v[q] in ps <==> exists i :: 0 <= i < |ps| && ps[i].pn == q;
    }
  }

  lemma {:induction false} FramesOfSum(ps: seq<Packet>)
    ensures LoadSum(ps).frames == multiset(FramesOf(ps))
  {
    if ps != [] {
      var n := |ps| - 1;
      FramesOfSum(ps[..n]);
      assert multiset(FramesOf(ps)) == multiset(FramesOf(ps[..n])) + multiset(Handled(ps[n].frames));
    }
  }

  lemma SumOneMore(t: Load, t1: Load, t2: Load, ps: seq<Packet>, n: nat)
    requires n < |ps| && Plus(t1, LoadSum(ps[..n])) == t && Plus(t2, LoadOf(ps[n])) == t1
    ensures Plus(t2, LoadSum(ps[..n + 1])) == t
  {
    hide Plus, LoadOf;
    assert ps[..n + 1][..n] == ps[..n];
    PlusSwap(t2, LoadOf(ps[n]), LoadSum(ps[..n]));
    PlusAssociative(t2, LoadSum(ps[..n]), LoadOf(ps[n]));
  }

  // ------------------------------------------------------------------
  // The books of a connection
  // ------------------------------------------------------------------

  /** The bytes in flight are those of the tracked packets; every frame that was given away is acknowledged, lost,
      dropped with its keys or still waiting in a tracked packet. */
  ghost predicate BooksOk(b: Books, sum: Load, given: multiset<Frame>, dropped: multiset<Frame>) {
    && b.bytesInFlight == sum.bytes
    && given == multiset(b.acked) + multiset(b.lost) + dropped + sum.frames
  }

  /** Packets left a window; their bytes are no longer in flight and their frames were reported as acknowledged or
      lost. */
  ghost predicate Settled(b: Books, t: Load, b': Books, t': Load) {
    && b'.bytesInFlight - t'.bytes == b.bytesInFlight - t.bytes
    && multiset(b'.acked) + multiset(b'.lost) + t'.frames == multiset(b.acked) + multiset(b.lost) + t.frames
    && Grown(b, b')
  }

  lemma LostIsSettled(b: Books, t: Load, b': Books, t': Load)
    requires Lost(b, t, b', t')
    ensures b'.acked == b.acked
    ensures Settled(b, t, b', t')
  {
    var a := multiset(b.acked);
    assert a + multiset(b'.lost) + t'.frames == a + (multiset(b'.lost) + t'.frames);
    assert a + multiset(b.lost) + t.frames == a + (multiset(b.lost) + t.frames);
  }

  lemma BooksCover(b: Books, rest: Load, t: Load, given: multiset<Frame>, dropped: multiset<Frame>)
    requires BooksOk(b, Plus(rest, t), given, dropped)
    ensures t.bytes <= b.bytesInFlight
  {
  }

  lemma BooksAfter(b: Books, b': Books, rest: Load, t: Load, t': Load, given: multiset<Frame>, dropped: multiset<Frame>)
    requires BooksOk(b, Plus(rest, t), given, dropped) && Settled(b, t, b', t')
    ensures BooksOk(b', Plus(rest, t'), given, dropped) && Grown(b, b')
  {
    var a, l, a', l' := multiset(b.acked), multiset(b.lost), multiset(b'.acked), multiset(b'.lost);
    assert a' + l' + dropped + (rest.frames + t'.frames) == dropped + rest.frames + (a' + l' + t'.frames);
    assert a + l + dropped + (rest.frames + t.frames) == dropped + rest.frames + (a + l + t.frames);
  }

  lemma BooksAfterSend(b: Books, rest: Load, t: Load, p: Packet, given: multiset<Frame>, dropped: multiset<Frame>)
    requires BooksOk(b, Plus(rest, t), given, dropped) && p.inFlight
    ensures p.frames == [] ==> BooksOk(b, Plus(rest, t), given + multiset(Handled(p.frames)), dropped)
    ensures BooksOk(b.(bytesInFlight := b.bytesInFlight + p.length), Plus(rest, Plus(t, LoadOf(p))),
                    given + multiset(Handled(p.frames)), dropped)
  {
  }

  lemma BooksAfterDrop(b: Books, rest: Load, t: Load, t': Load, x: Load, given: multiset<Frame>,
                       dropped: multiset<Frame>)
    requires BooksOk(b, Plus(rest, t), given, dropped) && Plus(t', x) == t
    ensures BooksOk(b.(bytesInFlight := b.bytesInFlight - x.bytes), Plus(rest, t'), given, dropped + x.frames)
  {
  }

  lemma EmptyBooks()
    ensures BooksOk(Books(0, [], []), Plus(Plus(NO_LOAD, NO_LOAD), NO_LOAD), multiset{}, multiset{})
  {
  }

  ghost function Repr(s: PacketNumberSpace?): set<object> {
    if s == null then {} else {s, s.history, s.pns}
  }

  ghost function Generators(s: PacketNumberSpace?): set<PacketNumberGenerator> {
    if s == null then {} else {s.pns}
  }

  /** The next number of a space, and the numbers that were given to packets since it was started. */
  datatype SpaceNumbers = SpaceNumbers(next: int, used: set<int>)

  datatype Numbers = Numbers(initial: Option<SpaceNumbers>, handshake: Option<SpaceNumbers>, app: SpaceNumbers)

  function NumbersAt(n: Numbers, level: Level): Option<SpaceNumbers> {
    match level
    case InitialLevel => n.initial
    case HandshakeLevel => n.handshake
    case ZeroRTT => Some(n.app)
    case OneRTT => Some(n.app)
  }

  function NextAt(n: Numbers, level: Level): Option<int> {
    var s := NumbersAt(n, level);
    if s.Some? then Some(s.value.next) else None
  }

  function UsedAt(n: Numbers, level: Level): set<int> {
    var s := NumbersAt(n, level);
    if s.Some? then s.value.used else {}
  }

  predicate SameSpace(l: Level, m: Level) {
    l == m || (l in {ZeroRTT, OneRTT} && m in {ZeroRTT, OneRTT})
  }

  /** Of the spaces that are left, one has given away some more numbers. */
  predicate UsesMore(n: Numbers, n': Numbers, level: Level, more: set<int>) {
    forall l :: NumbersAt(n', l).Some? ==>
                  UsedAt(n', l) == if SameSpace(l, level) then UsedAt(n, l) + more else UsedAt(n, l)
  }

  predicate SameUsed(n: Numbers, n': Numbers) {
    forall l :: NumbersAt(n', l).Some? ==> UsedAt(n', l) == UsedAt(n, l)
  }

  /** No packet number is used twice: the next number of a space never decreases. */
  predicate Grow(n: Numbers, n': Numbers) {
    forall l :: NextAt(n', l).Some? ==> NextAt(n, l).Some? && NextAt(n, l).value <= NextAt(n', l).value
  }

  /** Everything but the packet number generator. */
  ghost function Tracking(s: PacketNumberSpace?): set<object> {
    if s == null then {} else {s, s.history}
  }

  ghost predicate SpaceOk(s: PacketNumberSpace?)
    reads Repr(s)
  {
    s != null ==> s.Valid()
  }

  ghost function LoadAt(s: PacketNumberSpace?): Load
    reads Repr(s)
  {
    if s == null then NO_LOAD else Total(s.history.packets)
  }

  function TimesAt(s: PacketNumberSpace): SpaceTimes
    reads s, s.history
  {
    SpaceTimes(s.lossTime, s.lastAckElicitingTime, s.history.HasOutstandingPackets())
  }

  class SentPacketHandler {
    const isClient: bool
    var initial: PacketNumberSpace?
    var handshake: PacketNumberSpace?
    var app: PacketNumberSpace
    var books: Books
    var rec: Recovery

    ghost var given: multiset<Frame>
    ghost var dropped: multiset<Frame>

    constructor (initialPN: int, isClient: bool, clientAddressValidated: bool, random: nat)
      requires initialPN >= 0
      ensures Valid() && initial != null && handshake != null
      ensures fresh(Repr(initial)) && fresh(Repr(handshake)) && fresh(Repr(app))
      ensures books == Books(0, [], []) && given == dropped == multiset{} && this.isClient == isClient
      ensures rec == Recovery(None, 0, SendNone, 0, 0, 0, isClient || clientAddressValidated, !isClient, false)
      ensures !initial.pns.skipping && !handshake.pns.skipping && app.pns.skipping
      ensures Next() == Numbers(Some(SpaceNumbers(initialPN, {})), Some(SpaceNumbers(0, {})), SpaceNumbers(0, {}))
    {
      hide Plus, Total, View, BooksOk, PacketNumberSpace.Valid;
      this.isClient := isClient;
      initial := new PacketNumberSpace(initialPN, false, 0);
      handshake := new PacketNumberSpace(0, false, 0);
      app := new PacketNumberSpace(0, true, random);
      books := Books(0, [], []);
      rec := Recovery(None, 0, SendNone, 0, 0, 0, isClient || clientAddressValidated, !isClient, false);
      given, dropped := multiset{}, multiset{};
      EmptyBooks();
    }

    ghost predicate Apart()
      reads this`initial, this`handshake, this`app
    {
      Repr(initial) !! Repr(handshake) && Repr(initial) !! Repr(app) && Repr(handshake) !! Repr(app)
    }

    ghost function Objects(): (r: set<object>)
      reads this`initial, this`handshake, this`app
      ensures this !in r
    {
      Repr(initial) + Repr(handshake) + Repr(app)
    }

    function SpaceOf(level: Level): PacketNumberSpace?
      reads this`initial, this`handshake, this`app
    {
      match level
      case InitialLevel => initial
      case HandshakeLevel => handshake
      case ZeroRTT => app
      case OneRTT => app
    }

    ghost function At(level: Level): SpaceView
      reads this`initial, this`handshake, this`app, Repr(SpaceOf(level))
    {
      ViewOf(SpaceOf(level))
    }

    ghost function Sum(): Load
      reads this`initial, this`handshake, this`app, Objects()
    {
      Plus(Plus(LoadAt(initial), LoadAt(handshake)), LoadAt(app))
    }

    /** The load of the other two spaces. */
    ghost function Rest(level: Level): Load
      reads this`initial, this`handshake, this`app, Objects()
    {
      match level
      case InitialLevel => Plus(LoadAt(handshake), LoadAt(app))
      case HandshakeLevel => Plus(LoadAt(initial), LoadAt(app))
      case ZeroRTT => Plus(LoadAt(initial), LoadAt(handshake))
      case OneRTT => Plus(LoadAt(initial), LoadAt(handshake))
    }

    function CurrentTimes(): Times
      reads this`initial, this`handshake, this`app, Objects()
    {
      Times(if initial == null then None else Some(TimesAt(initial)),
            if handshake == null then None else Some(TimesAt(handshake)),
            TimesAt(app))
    }

    ghost predicate Valid()
      reads this, Objects()
    {
      && SpacesOk()
      && BooksOk(books, Sum(), given, dropped)
      && Stage() && AlarmSet()
    }

    ghost predicate Stage()
      reads this`initial, this`handshake, this`rec
    {
      && (handshake == null || !isClient ==> rec.peerCompletedAddressValidation)
      && (rec.handshakeConfirmed ==> initial == null && handshake == null)
      && ProbesOk(rec, initial != null, handshake != null)
    }

    ghost predicate AlarmSet()
      reads this`rec, this`app, app`lastAckElicitingTime
    {
      rec.alarm.Some? && rec.handshakeConfirmed ==> app.lastAckElicitingTime.Some?
    }

    method RemoveFromBytesInFlight(p: Packet)
      requires p.inFlight ==> p.length <= books.bytesInFlight
      modifies this`books
      ensures books == old(books).(bytesInFlight := old(books).bytesInFlight - LoadOf(p).bytes)
    {
      if p.inFlight {
        books := books.(bytesInFlight := books.bytesInFlight - p.length);
      }
    }

    method NotifyAcked(frames: seq<Frame>)
      modifies this`books
      ensures books == old(books).(acked := old(books).acked + Handled(frames))
    {
      var acked := [];
      for i := 0 to |frames|
        invariant acked == Handled(frames[..i])
      {
        assert frames[..i + 1][..i] == frames[..i];
        if frames[i].hasHandler {
          acked := acked + [frames[i]];
        }
      }
      assert frames[..|frames|] == frames;
      books := books.(acked := books.acked + acked);
    }

    method QueueFramesForRetransmission(p: Packet)
      requires p.frames != []
      modifies this`books
      ensures books == old(books).(lost := old(books).lost + Handled(p.frames))
    {
      var lost := [];
      for i := 0 to |p.frames|
        invariant lost == Handled(p.frames[..i])
      {
        assert p.frames[..i + 1][..i] == p.frames[..i];
        if p.frames[i].hasHandler {
          lost := lost + [p.frames[i]];
        }
      }
      assert p.frames[..|p.frames|] == p.frames;
      books := books.(lost := books.lost + lost);
    }

    /** A packet is taken out of the window; unless it marks a skipped number, its frames are lost. */
    method LosePacket(space: PacketNumberSpace, p: Packet)
      requires space.history.Valid() && p.pn in space.history.Tracked() && space.history.Tracked()[p.pn] == p
      requires PacketOk(p)
      requires Total(space.history.packets).bytes <= books.bytesInFlight
      modifies space.history`packets, space.history`numOutstanding, this`books
      ensures space.history.Valid() && space.history.Tracked() == old(space.history.Tracked()) - {p.pn}
      ensures Lost(old(books), old(Total(space.history.packets)), books, Total(space.history.packets))
      ensures space.history.HasOutstandingPackets() ==> old(space.history.HasOutstandingPackets())
    {
      hide View, Total, Plus, LoadOf, Lost;
      ghost var t := Total(space.history.packets);
      space.history.DeclareLost(p.pn);
      ghost var t' := Total(space.history.packets);
      LoadFits(t, t', p);
      if p.skipped {
        SkippedLoad(p);
        PlusZero(t');
      } else {
        RemoveFromBytesInFlight(p);
        QueueFramesForRetransmission(p);
      }
      LostOne(old(books), t, books, t', p);
    }

    /** Loss detection looks at one packet. */
    method Examine(space: PacketNumberSpace, p: Packet, lostSendTime: int, lossDelay: nat, ghost first: int)
      returns (ghost first': int)
      requires space.Valid() && Total(space.history.packets).bytes <= books.bytesInFlight
      requires p.pn in space.history.Tracked() && space.history.Tracked()[p.pn] == p && PacketOk(p)
      requires p.pn <= space.largestAcked
      requires LossTimeSoFar(space.lossTime, space.history.Tracked(), p.pn, space.largestAcked, lossDelay, first)
      modifies space`lossTime, space.history`packets, space.history`numOutstanding, this`books
      ensures space.Valid() && Total(space.history.packets).bytes <= books.bytesInFlight
      ensures Lost(old(books), old(Total(space.history.packets)), books, Total(space.history.packets))
      ensures LossTimeSoFar(space.lossTime, space.history.Tracked(), p.pn + 1, space.largestAcked, lossDelay, first')
      ensures space.history.Tracked() ==
                if IsLost(p, space.largestAcked, lostSendTime) then old(space.history.Tracked()) - {p.pn}
                else old(space.history.Tracked())
    {
      hide View, Total, Plus, LoadOf, Lost, PacketOk, Dense;
      first' := first;
      LostNothing(books, Total(space.history.packets));
      if IsLost(p, space.largestAcked, lostSendTime) {
        LosePacket(space, p);
        LostMore(old(books), old(Total(space.history.packets)), old(books), old(Total(space.history.packets)), books,
                 Total(space.history.packets));
      } else {
        SurvivorWasSent(p, space.largestAcked, lostSendTime);
        if space.lossTime.None? {
          space.lossTime := Some(p.sendTime.value + lossDelay);
          first' := p.pn;
        }
      }
    }

    /** The window after loss detection holds exactly the packets that are not lost. */
    method DetectLostPackets(space: PacketNumberSpace, now: int, lossDelay: nat)
      requires space.Valid() && Total(space.history.packets).bytes <= books.bytesInFlight
      modifies space`lossTime, space.history`packets, space.history`numOutstanding, this`books
      ensures space.Valid() && Total(space.history.packets).bytes <= books.bytesInFlight
      ensures space.history.Tracked() ==
                Surviving(old(space.history.Tracked()), space.pns.next, space.largestAcked, now - lossDelay)
      ensures LosesOverdue(old(space.history.Tracked()), space.history.Tracked(), space.largestAcked, now, lossDelay)
      ensures IsLossTime(space.lossTime, space.history.Tracked(), space.largestAcked, lossDelay)
      ensures Lost(old(books), old(Total(space.history.packets)), books, Total(space.history.packets))
    {
      hide View, Total, Plus, LoadOf, Lost, Surviving, PacketOk, Dense, IsLost, IsLossTime, LosesOverdue;
      SpaceLosesOverdue(space, now, lossDelay);
      var packets := space.history.packets;
      ghost var v, t, base := space.history.Tracked(), Total(packets), space.history.Base();
      ghost var largest, before, first := space.largestAcked, now - lossDelay, base;
      space.lossTime := None;
      LostNothing(books, t);
      ViewNumbers(base, packets);
      SurvivingStart(v, base, largest, before);
      hide LossTimeSoFar;
      var i := 0;
      while i < |packets|
        invariant i <= |packets| && space.Valid()
        invariant space.history.Tracked() == Surviving(v, base + i, largest, before)
        invariant LossTimeSoFar(space.lossTime, space.history.Tracked(), base + i, largest, lossDelay, first)
        invariant Lost(old(books), t, books, Total(space.history.packets))
        invariant Total(space.history.packets).bytes <= books.bytesInFlight
      {
        ViewAt(base, packets, i);
        SurvivingStep(v, base + i, largest, before);
        if packets[i].Some? {
          var p := packets[i].value;
          if p.pn > space.largestAcked {
            break;
          }
          ghost var books1, t1 := books, Total(space.history.packets);
          first := Examine(space, p, now - lossDelay, lossDelay, first);
          LostMore(old(books), t, books1, t1, books, Total(space.history.packets));
        } else {
          NoneHere(space.lossTime, space.history.Tracked(), base + i, largest, lossDelay, first);
        }
        i := i + 1;
      }
      SurvivingStep(v, base + i, largest, before);
      LossTimeDone(space.lossTime, space.history.Tracked(), base + i, largest, lossDelay, first);
      SurvivingEnd(v, base + i, space.pns.next, largest, before);
    }

    method RemoveOne(space: PacketNumberSpace, p: Packet)
      requires space.Valid() && p.pn in space.history.Tracked() && space.history.Tracked()[p.pn] == p
      modifies space.history`packets, space.history`numOutstanding
      ensures space.Valid() && Plus(Total(space.history.packets), LoadOf(p)) == old(Total(space.history.packets))
      ensures space.history.Tracked() ==
                old(space.history.Tracked()) - {p.pn} - SkippedBefore(old(space.history.Tracked()), p.pn)
    {
      hide View, Total, LoadOf, Plus, SkippedBefore;
      ghost var t := Total(space.history.packets);
      var ok := space.history.Remove(p.pn);
      assert ok;
      FewerOutstanding(t, Total(space.history.packets), LoadOf(p));
    }

    /** Calls OnAcked for the frames of acknowledged packets and takes the packets out of the window.  Their bytes
        stay in flight. */
    method RemoveAcked(space: PacketNumberSpace, acked: seq<Packet>)
      requires space.Valid() && Ascending(space.history.Tracked(), acked)
      modifies space.history`packets, space.history`numOutstanding, this`books
      ensures space.Valid() && FirstGone(old(space.history.Tracked()), space.history.Tracked(), acked, |acked|)
      ensures Plus(Total(space.history.packets), LoadSum(acked)) == old(Total(space.history.packets))
      ensures books == old(books).(acked := old(books).acked + FramesOf(acked))
      ensures acked == [] ==> space.history.packets == old(space.history.packets)
    {
      hide View, Total, LoadOf, Plus, SkippedBefore, Handled, Ascending, PacketNumberSpace.Valid;
      ghost var v, t := space.history.Tracked(), Total(space.history.packets);
      PlusZero(t);
      NoneGone(v, acked);
      hide FirstGone;
      for i := 0 to |acked|
        invariant space.Valid() && FirstGone(v, space.history.Tracked(), acked, i)
        invariant Plus(Total(space.history.packets), LoadSum(acked[..i])) == t
        invariant books == old(books).(acked := old(books).acked + FramesOf(acked[..i]))
        invariant i == 0 ==> space.history.packets == old(space.history.packets)
      {
        NextGone(v, space.history.Tracked(), acked, i);
        ghost var b1, t1 := books.acked, Total(space.history.packets);
        NotifyAcked(acked[i].frames);
        RemoveOne(space, acked[i]);
        SumOneMore(t, t1, Total(space.history.packets), acked, i);
        assert acked[..i + 1][..i] == acked[..i];
        assert b1 + Handled(acked[i].frames) == old(books).acked + FramesOf(acked[..i + 1]);
      }
      assert acked[..|acked|] == acked;
    }

    lemma SumSplit(level: Level)
      ensures Sum() == Plus(Rest(level), LoadAt(SpaceOf(level)))
    {
      hide Plus;
      PlusSwap(LoadAt(initial), LoadAt(handshake), LoadAt(app));
      PlusSwap(LoadAt(handshake), LoadAt(initial), LoadAt(app));
      PlusCommutes(LoadAt(initial), LoadAt(handshake));
    }

    ghost predicate SpacesOk()
      reads this`initial, this`handshake, this`app, Objects()
    {
      Apart() && SpaceOk(initial) && SpaceOk(handshake) && SpaceOk(app)
    }

    lemma TimesAreOk()
      requires SpacesOk()
      ensures TimesOk(CurrentTimes())
    {
    }

    /** The alarm is the one that the state calls for. */
    ghost predicate TimerSet(c: Clock)
      reads this`initial, this`handshake, this`app, this`rec, Objects()
    {
      rec.alarm == AlarmFor(CurrentTimes(), rec, c)
    }

    method SetLossDetectionTimer(c: Clock)
      requires SpacesOk() && Stage()
      modifies this`rec
      ensures rec == old(rec).(alarm := rec.alarm) && TimerSet(c)
      ensures Stage() && AlarmSet()
    {
      hide AlarmFor, TimesOk, SpacesOk, PacketNumberSpace.Valid;
      TimesAreOk();
      AlarmIsOk(CurrentTimes(), rec, c);
      AlarmIsFresh(CurrentTimes(), rec, AlarmFor(CurrentTimes(), rec, c), c);
      rec := rec.(alarm := AlarmFor(CurrentTimes(), rec, c));
    }

    /** Closes an operation. */
    method Settle(books': Books, rec': Recovery, ghost given': multiset<Frame>, ghost dropped': multiset<Frame>,
                  setTimer: bool, c: Clock)
      requires SpacesOk() && BooksOk(books', Sum(), given', dropped')
      requires handshake == null || !isClient ==> rec'.peerCompletedAddressValidation
      requires rec'.handshakeConfirmed ==> initial == null && handshake == null
      requires ProbesOk(rec', initial != null, handshake != null)
      requires setTimer || (rec'.alarm.Some? && rec'.handshakeConfirmed ==> app.lastAckElicitingTime.Some?)
      modifies this`books, this`rec, this`given, this`dropped
      ensures Valid() && books == books' && given == given' && dropped == dropped'
      ensures rec == rec'.(alarm := rec.alarm) && if setTimer then TimerSet(c) else rec.alarm == rec'.alarm
    {
      hide BooksOk, SpacesOk, Sum, AlarmFor, CurrentTimes, ProbesOk;
      assert this !in Objects() && forall o :: o in Objects() ==> allocated(o);
      hide Objects;
      books, rec, given, dropped := books', rec', given', dropped';
      if setTimer {
        SetLossDetectionTimer(c);
      }
    }

    lemma SpaceIsValid(level: Level)
      requires SpacesOk() && SpaceOf(level) != null
      ensures SpaceOf(level).Valid() && LoadAt(SpaceOf(level)) == Total(SpaceOf(level).history.packets)
    {
    }

    /** The next packet number of each space. */
    ghost function Next(): Numbers
      reads this`initial, this`handshake, this`app, Generators(initial), Generators(handshake), Generators(app)
    {
      Numbers(if initial == null then None else Some(SpaceNumbers(initial.pns.next, initial.pns.used)),
              if handshake == null then None else Some(SpaceNumbers(handshake.pns.next, handshake.pns.used)),
              SpaceNumbers(app.pns.next, app.pns.used))
    }

    lemma GeneratorsApart()
      requires SpacesOk()
      ensures initial != null ==> initial.pns != app.pns
      ensures handshake != null ==> handshake.pns != app.pns
      ensures initial != null && handshake != null ==> initial.pns != handshake.pns
    {
    }

    /** The other two spaces are as they were. */
    twostate lemma OthersUntouched(level: Level)
      requires old(SpacesOk()) && unchanged(this`initial) && unchanged(this`handshake) && unchanged(this`app)
      requires SpaceOf(level) != null && SpaceOf(level).Valid()
      requires forall o :: o in Objects() && o !in Repr(SpaceOf(level)) ==> unchanged(o)
      ensures SpacesOk() && Rest(level) == old(Rest(level))
    {
      hide PacketNumberSpace.Valid, Total, Plus;
    }

    method Register(level: Level, p: Packet, random: nat) returns (pn: int)
      requires Valid() && SpaceOf(level) != null && !p.skipped && p.inFlight && p.sendTime.Some?
      modifies Repr(SpaceOf(level))
      ensures SpacesOk() && AlarmSet()
      ensures BooksOk(books.(bytesInFlight := books.bytesInFlight + if p.frames == [] then 0 else p.length), Sum(),
                      given + multiset(Handled(p.frames)), dropped)
      ensures NextAt(Next(), level) == Some(pn + 1) && pn >= NextAt(old(Next()), level).value
      ensures Grow(old(Next()), Next())
      ensures UsesMore(old(Next()), Next(), level, {pn})
      ensures SendEffect(old(At(level)), At(level), pn, p)
    {
      hide View, Total, Plus, BooksOk, LoadOf, PacketNumberSpace.Valid, SpacesOk, Sum, Rest, Popping, Handled;
      var space := SpaceOf(level);
      ghost var rest, t := Rest(level), LoadAt(space);
      GeneratorsApart();
      SpaceIsValid(level);
      SumSplit(level);
      BooksAfterSend(books, rest, t, p, given, dropped);
      pn := space.Send(p, random);
      OthersUntouched(level);
      SumSplit(level);
    }

    /** Only packets with frames elicit an ACK and are tracked. */
    method SendPacket(level: Level, size: nat, frames: seq<Frame>, largestAcked: int, isMtuProbe: bool, random: nat,
                      c: Clock)
      returns (pn: int)
      requires Valid() && SpaceOf(level) != null
      modifies this`books, this`rec, this`given, this`dropped, Repr(SpaceOf(level))
      ensures Valid() && NextAt(Next(), level) == Some(pn + 1) && pn >= NextAt(old(Next()), level).value
      ensures Grow(old(Next()), Next())
      ensures given == old(given) + multiset(Handled(frames)) && dropped == old(dropped)
      ensures UsesMore(old(Next()), Next(), level, {pn})
      ensures books == old(books).(bytesInFlight := old(books.bytesInFlight) + if frames == [] then 0 else size)
      ensures SendEffect(old(At(level)), At(level), pn,
                         Packet(0, Some(c.now), frames, largestAcked, size, level, isMtuProbe, true, false))
      ensures rec ==
                old(rec).(bytesSent := old(rec).bytesSent + size, numProbesToSend := rec.numProbesToSend,
                          alarm := rec.alarm)
      ensures rec.numProbesToSend ==
                if frames == [] then old(rec).numProbesToSend else Max(old(rec).numProbesToSend - 1, 0)
      ensures if frames != [] || !rec.peerCompletedAddressValidation then TimerSet(c) else rec.alarm == old(rec).alarm
    {
      hide View, ViewOf, BooksOk, SpacesOk, Sum, TimerSet, Grow, UsesMore, SendEffect, Handled;
      assert forall o :: o in Repr(SpaceOf(level)) ==> o != this;
      pn := Register(level, Packet(0, Some(c.now), frames, largestAcked, size, level, isMtuProbe, true, false), random);
      ghost var n, v := Next(), At(level);
      Settle(books.(bytesInFlight := books.bytesInFlight + if frames == [] then 0 else size),
             rec.(bytesSent := rec.bytesSent + size, numProbesToSend := ProbesLeft(rec, frames)),
             given + multiset(Handled(frames)), dropped, frames != [] || !rec.peerCompletedAddressValidation, c);
      assert Next() == n && At(level) == v;
    }

    /** Finds the acknowledged packets and takes them out of the window.  An error says that a skipped number was
        acknowledged. */
    method DetectAndRemoveAckedPackets(space: PacketNumberSpace, ranges: seq<AckRange>)
      returns (acked: seq<Packet>, skipped: Option<int>)
      requires space.Valid() && Validated(ranges)
      modifies space.history`packets, space.history`numOutstanding, this`books
      ensures space.Valid()
      ensures Plus(Total(space.history.packets), LoadSum(acked)) == old(Total(space.history.packets))
      ensures books == old(books).(acked := old(books).acked + FramesOf(acked))
      ensures skipped.Some? <==> AnySkippedAcked(old(space.history.packets), ranges)
      ensures skipped.None? ==> acked == AckedIn(old(space.history.packets), ranges)
      ensures skipped.None? ==> Acknowledged(old(space.history.Tracked()), space.history.Tracked(), ranges)
      ensures acked == [] ==> space.history.packets == old(space.history.packets)
    {
      hide View, Total, Plus, LoadOf, Dense, PacketOk, Acks, AckedIn, Acknowledged;
      ghost var base, slots, v := space.history.Base(), space.history.packets, space.history.Tracked();
      acked, skipped := FindAcked(base, space.history.packets, ranges);
      AckedAreTracked(base, slots, if skipped.None? then |slots| else skipped.value - base, ranges);
      assert slots[..|slots|] == slots;
      RemoveAcked(space, acked);
      if skipped.None? {
        AllGone(base, slots, space.history.Tracked(), ranges);
      }
    }

    /** Subtracts the bytes of acknowledged packets. */
    method SubtractAcked(acked: seq<Packet>) returns (acked1RTTPacket: bool)
      requires LoadSum(acked).bytes <= books.bytesInFlight
      modifies this`books
      ensures books == old(books).(bytesInFlight := old(books).bytesInFlight - LoadSum(acked).bytes)
      ensures acked1RTTPacket <==> exists p :: p in acked && p.level == OneRTT
    {
      hide LoadOf;
      acked1RTTPacket := false;
      for i := 0 to |acked|
        invariant books == old(books).(bytesInFlight := old(books).bytesInFlight - LoadSum(acked[..i]).bytes)
        invariant acked1RTTPacket <==> exists p :: p in acked[..i] && p.level == OneRTT
      {
        assert acked[..i + 1][..i] == acked[..i];
        LengthsGrow(acked, i + 1);
        LoadBytes(acked[i]);
        if acked[i].level == OneRTT {
          acked1RTTPacket := true;
        }
        RemoveFromBytesInFlight(acked[i]);
      }
      assert acked[..|acked|] == acked;
    }

    /** The part of ReceivedAck that deals with one packet number space. */
    method ProcessAck(space: PacketNumberSpace, ranges: seq<AckRange>, now: int, lossDelay: nat)
      returns (r: AckResult, any: bool)
      requires space.Valid() && Validated(ranges) && ranges[0].largest <= space.largestSent
      requires Total(space.history.packets).bytes <= books.bytesInFlight
      modifies space`lossTime, space`largestAcked, space.history, this`books
      ensures space.Valid() && !r.UnsentNumber?
      ensures (r.Acked? ==> (any <==> AckedIn(old(space.history.packets), ranges) != []))
      ensures r.SkippedNumber? || Settled(old(books), old(Total(space.history.packets)), books,
                                          Total(space.history.packets))
      ensures AckEffect(old(ViewOf(space)), ViewOf(space), old(books), books, ranges, now, lossDelay, r)
    {
      hide View, Total, Plus, LoadOf, Dense, PacketOk, Acks, AckedIn, LoadSum, FramesOf, Lost;
      ghost var v, t, b := space.history.Tracked(), Total(space.history.packets), books;
      var acked, skipped := DetectAndRemoveAckedPackets(space, ranges);
      if skipped.Some? {
        return SkippedNumber, false;
      }
      if acked == [] {
        SettledNothing(b, t, Total(space.history.packets));
        return Acked(false), false;
      }
      space.largestAcked := Max(space.largestAcked, ranges[0].largest);
      ghost var v1, t1, b1 := space.history.Tracked(), Total(space.history.packets), books;
      NumbersBelowNext(space);
      FewerOutstanding(t, t1, LoadSum(acked));
      DetectLostPackets(space, now, lossDelay);
      AckThenLoss(v, v1, space.history.Tracked(), ranges, space.pns.next, space.largestAcked, now - lossDelay);
      SettledAck(b, t, b1, t1, books, Total(space.history.packets), acked);
      var contains1RTT := SubtractAcked(acked);
      return Acked(contains1RTT), true;
    }

    method ApplyAck(level: Level, ranges: seq<AckRange>, now: int, lossDelay: nat) returns (r: AckResult, any: bool)
      requires Valid() && SpaceOf(level) != null && Validated(ranges) && ranges[0].largest <= SpaceOf(level).largestSent
      modifies this`books, Tracking(SpaceOf(level))
      ensures !r.UnsentNumber? && (r.Acked? ==> SpacesOk() && AlarmSet() && BooksOk(books, Sum(), given, dropped))
      ensures r.Acked? ==> Grown(old(books), books)
      ensures r.Acked? ==> (any <==> AckedIn(old(At(level)).packets, ranges) != [])
      ensures AckEffect(old(At(level)), At(level), old(books), books, ranges, now, lossDelay, r)
    {
      hide View, Total, Plus, BooksOk, PacketNumberSpace.Valid, SpacesOk, Sum, Rest, AckEffect, Settled, AckedIn;
      var space := SpaceOf(level);
      ghost var rest, t := Rest(level), LoadAt(space);
      SpaceIsValid(level);
      SumSplit(level);
      BooksCover(books, rest, t, given, dropped);
      r, any := ProcessAck(space, ranges, now, lossDelay);
      if r.Acked? {
        BooksAfter(old(books), books, rest, t, Total(space.history.packets), given, dropped);
        OthersUntouched(level);
        SumSplit(level);
      }
    }

    /** An ACK that is an error covers a number that was given to no packet since the space was started. */
    lemma BadAck(level: Level, ranges: seq<AckRange>)
      requires SpacesOk() && SpaceOf(level) != null && Validated(ranges)
      requires ranges[0].largest > At(level).largestSent || AnySkippedAcked(At(level).packets, ranges)
      ensures CoversUnused(ranges, UsedAt(Next(), level))
    {
      hide View, Total, Plus;
      var space := SpaceOf(level);
      SpaceIsValid(level);
      if ranges[0].largest > space.largestSent {
        assert Covers(ranges[0], ranges[0].largest);
        assert Acks(ranges, ranges[0].largest);
      } else {
        var x :| x in space.history.packets && SkippedAcked(x, ranges);
        SlotIsTracked(space.history.Base(), space.history.packets, x);
        assert Acks(ranges, x.value.pn);
      }
    }

    /** The part of ReceivedAck up to the recovery state. */
    method CheckedAck(level: Level, ranges: seq<AckRange>, now: int, lossDelay: nat) returns (r: AckResult, any: bool)
      requires Valid() && SpaceOf(level) != null && Validated(ranges)
      modifies this`books, Tracking(SpaceOf(level))
      ensures r.UnsentNumber? ==> Valid()
      ensures r.Acked? ==> SpacesOk() && AlarmSet() && BooksOk(books, Sum(), given, dropped) && Grown(old(books), books)
      ensures r.Acked? ==> (any <==> AckedIn(old(At(level)).packets, ranges) != [])
      ensures AckEffect(old(At(level)), At(level), old(books), books, ranges, now, lossDelay, r)
      ensures !r.Acked? ==> CoversUnused(ranges, UsedAt(old(Next()), level))
    {
      hide View, BooksOk, SpacesOk, Sum, AckEffect, AckedIn, AnySkippedAcked, CoversUnused, UsedAt, Next;
      if ranges[0].largest > At(level).largestSent || AnySkippedAcked(At(level).packets, ranges) {
        BadAck(level, ranges);
      }
      if ranges[0].largest > SpaceOf(level).largestSent {
        UnsentEffect(At(level), books, ranges, now, lossDelay);
        return UnsentNumber, false;
      }
      r, any := ApplyAck(level, ranges, now, lossDelay);
      SkippedEffect(old(At(level)), At(level), old(books), books, ranges, now, lossDelay, r);
    }

    /** An ACK frame.  ACKs of numbers that were never sent or were skipped are errors, after which the connection is
        closed. */
    method ReceivedAck(level: Level, ranges: seq<AckRange>, lossDelay: nat, c: Clock) returns (r: AckResult)
      requires Valid() && SpaceOf(level) != null && Validated(ranges)
      modifies this`books, this`rec, this`given, this`dropped, Tracking(SpaceOf(level))
      ensures (!r.SkippedNumber? ==> Valid()) && (r.Acked? ==> Grown(old(books), books))
      ensures given == old(given) && dropped == old(dropped) && Next() == old(Next())
      ensures AckEffect(old(At(level)), At(level), old(books), books, ranges, c.now, lossDelay, r)
      ensures r.Acked? ==>
                var any, validated := AckedIn(old(At(level)).packets,
                                              ranges) != [], isClient && (level == HandshakeLevel || level == OneRTT);
                && AckRecovery(old(rec), rec, any, validated)
                && (any || (validated && !old(rec).peerCompletedAddressValidation) ==> TimerSet(c))
      ensures r.UnsentNumber? ==> rec == old(rec)
      ensures !r.Acked? ==> CoversUnused(ranges, UsedAt(old(Next()), level))
    {
      hide View, BooksOk, SpacesOk, Sum, AckEffect, TimerSet, AckedIn, CoversUnused, UsedAt, AckRecovery;
      var any;
      r, any := CheckedAck(level, ranges, c.now, lossDelay);
      if r.Acked? {
        var validated := isClient && (level == HandshakeLevel || level == OneRTT);
        Settle(books, AfterAck(rec, any, validated), given, dropped,
               any || (validated && !rec.peerCompletedAddressValidation), c);
        AckRecovers(old(rec), any, validated, rec.alarm);
      }
    }

    method ProbeSpace(space: PacketNumberSpace) returns (queued: bool)
      requires space.Valid() && Total(space.history.packets).bytes <= books.bytesInFlight
      modifies space.history`packets, space.history`numOutstanding, this`books
      ensures space.Valid() && ProbeEffect(old(ViewOf(space)), ViewOf(space), queued)
      ensures books.acked == old(books).acked && (!queued ==> books == old(books))
      ensures Settled(old(books), old(Total(space.history.packets)), books, Total(space.history.packets))
    {
      hide View, Total, Plus, Lost, Settled, PacketOk, Dense;
      ghost var t := Total(space.history.packets);
      var p := space.history.FirstOutstanding();
      queued := p.Some?;
      LostNothing(books, t);
      if queued {
        ViewNumbers(space.history.Base(), space.history.packets);
        assert IsFirstOutstanding(space.history.Tracked(), p.value.pn);
        LosePacket(space, p.value);
      }
      LostIsSettled(old(books), t, books, Total(space.history.packets));
    }

    /** To have something to send as a probe, the frames of the first outstanding packet are queued, and the packet
        is given up. */
    method QueueProbePacket(level: Level) returns (queued: bool)
      requires Valid() && SpaceOf(level) != null
      modifies this`books, this`rec, this`given, this`dropped, Tracking(SpaceOf(level))
      ensures Valid() && rec == old(rec) && given == old(given) && dropped == old(dropped) && Next() == old(Next())
      ensures ProbeEffect(old(At(level)), At(level), queued)
      ensures books.acked == old(books).acked && Grown(old(books), books) && (!queued ==> books == old(books))
    {
      hide View, Total, Plus, BooksOk, SpacesOk, Sum, Rest, Settled, PacketNumberSpace.Valid, ProbeEffect;
      var space := SpaceOf(level);
      ghost var rest, t := Rest(level), LoadAt(space);
      SpaceIsValid(level);
      SumSplit(level);
      BooksCover(books, rest, t, given, dropped);
      queued := ProbeSpace(space);
      BooksAfter(old(books), books, rest, t, Total(space.history.packets), given, dropped);
      OthersUntouched(level);
      SumSplit(level);
    }

    method LoseOverdue(level: Level, now: int, lossDelay: nat)
      requires Valid() && SpaceOf(level) != null
      modifies this`books, Tracking(SpaceOf(level))
      ensures SpacesOk() && BooksOk(books, Sum(), given, dropped) && books.acked == old(books).acked
      ensures Grown(old(books), books)
      ensures LossEffect(old(At(level)), At(level), now, lossDelay)
    {
      hide View, Total, Plus, BooksOk, SpacesOk, Sum, Rest, Settled, PacketNumberSpace.Valid, Surviving;
      var space := SpaceOf(level);
      ghost var rest, t := Rest(level), LoadAt(space);
      SpaceIsValid(level);
      SumSplit(level);
      BooksCover(books, rest, t, given, dropped);
      DetectLostPackets(space, now, lossDelay);
      LostIsSettled(old(books), t, books, Total(space.history.packets));
      BooksAfter(old(books), books, rest, t, Total(space.history.packets), given, dropped);
      OthersUntouched(level);
      SumSplit(level);
    }

    /** The loss timer fires for a packet number space. */
    method OnLossTimer(level: Level, lossDelay: nat, c: Clock)
      requires Valid() && SpaceOf(level) != null
      modifies this`books, this`rec, this`given, this`dropped, Tracking(SpaceOf(level))
      ensures Valid() && given == old(given) && dropped == old(dropped)
      ensures books.acked == old(books).acked && Grown(old(books), books)
      ensures rec == old(rec).(alarm := rec.alarm) && TimerSet(c)
      ensures LossEffect(old(At(level)), At(level), c.now, lossDelay)
    {
      hide View, BooksOk, SpacesOk, Sum, TimerSet, LossEffect;
      LoseOverdue(level, c.now, lossDelay);
      Settle(books, rec, given, dropped, true, c);
    }

    /** A probe is requested; in the application data space this uses up a packet number. */
    method RequestProbe(level: Level, random: nat, c: Clock)
      requires Valid() && ProbesOk(Probed(rec, Some((level, 2))), initial != null, handshake != null)
      modifies this`books, this`rec, this`given, this`dropped, Repr(app)
      ensures Valid() && given == old(given) && dropped == old(dropped) && books == old(books)
      ensures rec == Probed(old(rec), Some((level, 2))).(alarm := rec.alarm) && TimerSet(c)
      ensures if level == OneRTT then SkipEffect(old(At(OneRTT)), At(OneRTT)) else At(OneRTT) == old(At(OneRTT))
    {
      hide View, Total, Plus, BooksOk, SpacesOk, Sum, Rest, PacketNumberSpace.Valid, TimerSet;
      SpaceIsValid(OneRTT);
      SumSplit(OneRTT);
      if level == OneRTT {
        app.SkipPacketNumber(random);
      }
      OthersUntouched(OneRTT);
      SumSplit(OneRTT);
      Settle(books, Probed(rec, Some((level, 2))), given, dropped, true, c);
    }

    /** The alarm fires in probe timeout mode; there is always a space to probe. */
    method OnProbeTimeout(random: nat, c: Clock)
      requires Valid() && rec.alarm.Some?
      modifies this`books, this`rec, this`given, this`dropped, Repr(app)
      ensures Valid() && given == old(given) && dropped == old(dropped) && books == old(books)
      ensures rec ==
                Probed(old(rec), ProbeFor(old(CurrentTimes()), old(rec), books.bytesInFlight, c)).(alarm := rec.alarm)
      ensures TimerSet(c)
      ensures var probe := ProbeFor(old(CurrentTimes()), old(rec), books.bytesInFlight, c);
              if probe == Some((OneRTT, 2)) then SkipEffect(old(At(OneRTT)), At(OneRTT))
              else At(OneRTT) == old(At(OneRTT))
    {
      hide View, Total, Plus, BooksOk, SpacesOk, Sum, Rest, PacketNumberSpace.Valid, TimerSet, PtoTimeAndSpace, TimesOk;
      var times := CurrentTimes();
      if books.bytesInFlight == 0 && !rec.peerCompletedAddressValidation {
        assert initial == null ==> handshake != null; // the source reports an internal error otherwise
        Settle(books, Probed(rec, Some((if initial != null then InitialLevel else HandshakeLevel, 1))), given, dropped,
               true, c);
        return;
      }
      TimesAreOk();
      ProbeIsPossible(times, rec, c);
      ProbesStayOk(times, rec, books.bytesInFlight, c);
      var pto := PtoTimeAndSpace(times, rec, c);
      if pto.None? ||
         (!SpaceOf(pto.value.1.value).history.HasOutstandingPackets() && !rec.peerCompletedAddressValidation) {
        Settle(books, rec, given, dropped, true, c);
      } else {
        RequestProbe(pto.value.1.value, random, c);
      }
    }

    /** The alarm fires.  Either the packets of one space that are overdue are lost, or probes are requested and
        nothing is lost. */
    method OnLossDetectionTimeout(lossDelay: nat, random: nat, c: Clock)
      requires Valid() && rec.alarm.Some?
      modifies this`books, this`rec, this`given, this`dropped, Objects()
      ensures Valid() && given == old(given) && dropped == old(dropped) && books.acked == old(books).acked
      ensures Grow(old(Next()), Next())
      ensures TimerSet(c) && SameUsed(old(Next()), Next()) && Grown(old(books), books)
      ensures var (lossTime, level) := LossTimeAndSpace(old(CurrentTimes()));
              if lossTime.Some?
              then rec == old(rec).(alarm := rec.alarm) && LossEffect(old(At(level)), At(level), c.now, lossDelay)
              else
                var probe := ProbeFor(old(CurrentTimes()), old(rec), books.bytesInFlight, c);
                && books == old(books) && rec == Probed(old(rec), probe).(alarm := rec.alarm)
                && if probe == Some((OneRTT, 2)) then SkipEffect(old(At(OneRTT)), At(OneRTT))
                   else At(OneRTT) == old(At(OneRTT))
    {
      hide View, Total, Plus, BooksOk, SpacesOk, Sum, Rest, PacketNumberSpace.Valid, TimerSet, LossTimeAndSpace;
      hide LossEffect;
      hide ProbeFor, Probed;
      GeneratorsApart();
      EarliestLossTime(CurrentTimes());
      var (lossTime, lossLevel) := LossTimeAndSpace(CurrentTimes());
      if lossTime.Some? {
        OnLossTimer(lossLevel, lossDelay, c);
      } else {
        OnProbeTimeout(random, c);
      }
    }

    method SubtractAll(packets: Slots)
      requires Total(packets).bytes <= books.bytesInFlight
      modifies this`books
      ensures books == old(books).(bytesInFlight := old(books).bytesInFlight - Total(packets).bytes)
    {
      hide LoadOf;
      for i := 0 to |packets|
        invariant books == old(books).(bytesInFlight := old(books).bytesInFlight - Total(packets[..i]).bytes)
      {
        TotalGrows(packets, i);
        if packets[i].Some? {
          LoadBytes(packets[i].value);
          RemoveFromBytesInFlight(packets[i].value);
        }
      }
      assert packets[..|packets|] == packets;
    }

    method CloseSpace(level: Level)
      requires Valid() && (level == InitialLevel || level == HandshakeLevel) && SpaceOf(level) != null
      modifies this`books, this`initial, this`handshake
      ensures SpacesOk() && BooksOk(books, Sum(), given, dropped + old(LoadAt(SpaceOf(level))).frames)
      ensures SpaceOf(level) == null
      ensures level == InitialLevel ==> handshake == old(handshake)
      ensures level == HandshakeLevel ==> initial == old(initial)
      ensures books.acked == old(books).acked && books.lost == old(books).lost
    {
      hide View, Total, Plus, BooksOk, SpacesOk, Sum, PacketNumberSpace.Valid;
      var space := SpaceOf(level);
      ghost var rest, t := Rest(level), LoadAt(space);
      SumSplit(level);
      BooksCover(books, rest, t, given, dropped);
      PlusZero(t);
      BooksAfterDrop(books, rest, t, NO_LOAD, t, given, dropped);
      SubtractAll(space.history.packets);
      if level == InitialLevel {
        initial := null;
      } else {
        handshake := null;
      }
      SpaceDropped(level);
      PlusZero(rest);
    }

    /** The keys of an early space are dropped, and its packets with them. */
    method DropCryptoSpace(level: Level, c: Clock)
      requires Valid() && (level == InitialLevel || level == HandshakeLevel)
      modifies this`books, this`rec, this`given, this`dropped, this`initial, this`handshake
      ensures Valid() && SpaceOf(level) == null && given == old(given)
      ensures level == InitialLevel ==> handshake == old(handshake)
      ensures level == HandshakeLevel ==> initial == old(initial)
      ensures books.acked == old(books).acked && books.lost == old(books).lost
      ensures dropped == old(dropped) + old(LoadAt(SpaceOf(level))).frames
      ensures Grow(old(Next()), Next()) && SameUsed(old(Next()), Next())
      ensures if old(SpaceOf(level)) == null then rec == old(rec)
              else
                && TimerSet(c)
                && rec == old(rec).(peerCompletedAddressValidation := rec.peerCompletedAddressValidation,
                                    ptoCount := 0, numProbesToSend := 0, ptoMode := SendNone, alarm := rec.alarm)
                && (rec.peerCompletedAddressValidation <==>
                      old(rec).peerCompletedAddressValidation || (isClient && level == HandshakeLevel))
    {
      hide Total, BooksOk, SpacesOk, Sum, TimerSet;
      var space := SpaceOf(level);
      if space == null {
        assert dropped + multiset{} == dropped;
        return;
      }
      ghost var t := LoadAt(space);
      CloseSpace(level);
      Settle(books, AfterDrop(rec, isClient && level == HandshakeLevel), given, dropped + t.frames, true, c);
    }

    twostate lemma SpaceDropped(level: Level)
      requires old(SpacesOk()) && SpaceOf(level) == null
      requires (level == InitialLevel && unchanged(this`handshake)) ||
               (level == HandshakeLevel && unchanged(this`initial))
      requires unchanged(this`app) && unchanged(old(Objects()))
      ensures SpacesOk() && Sum() == old(Rest(level))
    {
      hide PacketNumberSpace.Valid, Total, Plus;
      PlusZero(LoadAt(handshake));
      PlusZero(LoadAt(initial));
    }

    /** Forgets a packet without telling the frame handlers. */
    method ForgetPacket(space: PacketNumberSpace, p: Packet)
      requires space.history.Valid() && p.pn in space.history.Tracked() && space.history.Tracked()[p.pn] == p
      requires Total(space.history.packets).bytes <= books.bytesInFlight
      modifies space.history`packets, space.history`numOutstanding, this`books
      ensures space.history.Valid()
      ensures space.history.Tracked() ==
                old(space.history.Tracked()) - {p.pn} - SkippedBefore(old(space.history.Tracked()), p.pn)
      ensures Plus(Total(space.history.packets), LoadOf(p)) == old(Total(space.history.packets))
      ensures books == old(books).(bytesInFlight := old(books).bytesInFlight - LoadOf(p).bytes)
      ensures space.history.HasOutstandingPackets() ==> old(space.history.HasOutstandingPackets())
    {
      hide View, Total, LoadOf, Plus, PacketOk, Dense, SkippedBefore;
      var ok := space.history.Remove(p.pn);
      FewerOutstanding(old(Total(space.history.packets)), Total(space.history.packets), LoadOf(p));
      LoadBytes(p);
      RemoveFromBytesInFlight(p);
    }

    /** The server rejected 0-RTT: the packets at the front of the window that were sent with 0-RTT keys are
        forgotten. */
    method RemoveEarlyData(space: PacketNumberSpace) returns (ghost x: Load)
      requires space.Valid() && Total(space.history.packets).bytes <= books.bytesInFlight
      modifies space.history`packets, space.history`numOutstanding, this`books
      ensures space.Valid() && EarlyDataGone(old(space.history.Tracked()), space.history.Tracked())
      ensures Plus(Total(space.history.packets), x) == old(Total(space.history.packets))
      ensures books == old(books).(bytesInFlight := old(books).bytesInFlight - x.bytes)
    {
      hide View, Total, LoadOf, Plus, PacketOk, Dense, SkippedBefore, Above;
      var packets := space.history.packets;
      ghost var v, t, base := space.history.Tracked(), Total(packets), space.history.Base();
      x := NO_LOAD;
      PlusZero(t);
      ViewNumbers(base, packets);
      AboveStart(v, base);
      var i := 0;
      while i < |packets|
        invariant i <= |packets| && space.Valid() && space.history.Tracked() == Above(v, base + i)
        invariant Plus(Total(space.history.packets), x) == t
        invariant books == old(books).(bytesInFlight := old(books).bytesInFlight - x.bytes)
        invariant forall q :: q in v && q < base + i ==> v[q].skipped || v[q].level == ZeroRTT
      {
        ViewAt(base, packets, i);
        AboveNext(v, base + i);
        if packets[i].Some? {
          var p := packets[i].value;
          if p.level != ZeroRTT && !p.skipped {
            break;
          }
          ghost var t1 := Total(space.history.packets);
          FewerOutstanding(t, t1, x);
          ForgetPacket(space, p);
          PlusShift(t, t1, Total(space.history.packets), x, LoadOf(p));
          x := Plus(x, LoadOf(p));
        }
        i := i + 1;
      }
      AboveEnd(v, base + |packets|);
    }

    method Drop0RTT(c: Clock)
      requires Valid()
      modifies this`books, this`rec, this`given, this`dropped, Tracking(app)
      ensures Valid() && given == old(given) && EarlyDataGone(old(At(ZeroRTT)).tracked, At(ZeroRTT).tracked)
      ensures books.acked == old(books).acked && books.lost == old(books).lost && Next() == old(Next())
      ensures TimerSet(c)
      ensures rec == old(rec).(ptoCount := 0, numProbesToSend := 0, ptoMode := SendNone, alarm := rec.alarm)
    {
      hide View, Total, Plus, BooksOk, SpacesOk, Sum, Rest, PacketNumberSpace.Valid, TimerSet, EarlyDataGone;
      ghost var rest, t := Rest(ZeroRTT), LoadAt(app);
      SpaceIsValid(ZeroRTT);
      SumSplit(ZeroRTT);
      BooksCover(books, rest, t, given, dropped);
      ghost var x := RemoveEarlyData(app);
      BooksAfterDrop(old(books), rest, t, Total(app.history.packets), x, given, dropped);
      OthersUntouched(ZeroRTT);
      SumSplit(ZeroRTT);
      Settle(books, AfterDrop(rec, false), given, dropped + x.frames, true, c);
    }

    /** Reports the frames of all packets of a window as lost. */
    method QueueAll(packets: Slots, ghost base: int)
      requires Dense(base, packets)
      modifies this`books
      ensures books == old(books).(lost := books.lost) && old(books).lost <= books.lost
      ensures multiset(books.lost) == multiset(old(books).lost) + Total(packets).frames
    {
      hide Plus, LoadOf, Handled;
      for i := 0 to |packets|
        invariant books == old(books).(lost := books.lost) && old(books).lost <= books.lost
        invariant multiset(books.lost) == multiset(old(books).lost) + Total(packets[..i]).frames
      {
        ghost var l := books.lost;
        FramesGrow(packets, i, multiset(old(books).lost), l);
        if packets[i].Some? && !packets[i].value.skipped {
          QueueFramesForRetransmission(packets[i].value);
        }
      }
      assert packets[..|packets|] == packets;
    }

    method ReportRetryLosses()
      requires SpacesOk() && initial != null
      modifies this`books
      ensures books == old(books).(bytesInFlight := 0, lost := books.lost) && old(books).lost <= books.lost
      ensures multiset(books.lost) == multiset(old(books).lost) + LoadAt(initial).frames + LoadAt(app).frames
    {
      hide View, Total, Plus, PacketNumberSpace.Valid, Dense;
      RetrySlots(initial);
      RetrySlots(app);
      books := books.(bytesInFlight := 0);
      QueueAll(initial.history.packets, initial.history.Base());
      QueueAll(app.history.packets, app.history.Base());
    }

    method RestartSpaces(random: nat)
      requires SpacesOk() && initial != null
      modifies this`initial, this`app
      ensures SpacesOk() && initial != null && fresh(Repr(initial)) && fresh(Repr(app))
      ensures LoadAt(initial) == NO_LOAD && LoadAt(app) == NO_LOAD && LoadAt(handshake) == old(LoadAt(handshake))
      ensures !initial.pns.skipping && app.pns.skipping
      ensures Grow(old(Next()), Next()) && UsedAt(Next(), InitialLevel) == UsedAt(Next(), OneRTT) == {}
      ensures Next().initial.Some? && Next().handshake == old(Next()).handshake
      ensures At(InitialLevel).tracked == map[] && At(OneRTT).tracked == map[]
    {
      hide View, Total, Plus, PacketNumberSpace.Valid, Dense;
      RetrySlots(initial);
      RetrySlots(app);
      var initialPN, appPN := initial.pns.Peek(), app.pns.Peek();
      var initial' := new PacketNumberSpace(initialPN, false, 0);
      var app' := new PacketNumberSpace(appPN, true, random);
      initial, app := initial', app';
    }

    /** A Retry packet: all Initial and 0-RTT packets are lost, and their spaces start afresh, with higher packet
        numbers. The bytes in flight are set to zero, which is right exactly if the Handshake space has no packets in
        flight. */
    method ResetForRetry(random: nat)
      requires Valid() && initial != null
      modifies this
      ensures SpacesOk() && Stage() && AlarmSet() && initial != null && handshake == old(handshake)
      ensures fresh(Repr(initial)) && fresh(Repr(app)) && !initial.pns.skipping && app.pns.skipping
      ensures Valid() <==> LoadAt(handshake).bytes == 0
      ensures given == old(given) && dropped == old(dropped) && books.acked == old(books).acked
      ensures Grown(old(books), books)
      ensures multiset(books.lost) == multiset(old(books).lost) + old(LoadAt(initial).frames) + old(LoadAt(app).frames)
      ensures Grow(old(Next()), Next()) && UsedAt(Next(), InitialLevel) == UsedAt(Next(), OneRTT) == {}
      ensures Next().initial.Some? && Next().handshake == old(Next()).handshake
      ensures rec == old(rec).(alarm := None, ptoCount := 0) && books.bytesInFlight == 0
      ensures At(InitialLevel).tracked == map[] && At(OneRTT).tracked == map[]
    {
      hide View, ViewOf, Total, Plus, BooksOk, SpacesOk, Grow, UsedAt, PacketNumberSpace.Valid;
      assert this !in Objects() && forall o :: o in Objects() ==> allocated(o);
      ReportRetryLosses();
      BooksAfterRetry(old(books), LoadAt(initial), LoadAt(handshake), LoadAt(app), books, given, dropped);
      rec := rec.(alarm := None, ptoCount := 0);
      assert Next() == old(Next()) && LoadAt(handshake) == old(LoadAt(handshake));
      RestartSpaces(random);
    }

    function NumTracked(): nat
      reads this`initial, this`handshake, this`app, Objects()
    {
      |app.history.packets| + (if initial == null then 0 else |initial.history.packets|) +
      if handshake == null then 0 else |handshake.history.packets|
    }

    /** What may be sent next.  The congestion controller and the pacer are inputs.  Nothing is sent exactly if an
        unvalidated peer has been sent three times what it sent, or too many packets are tracked; probes come before
        everything else, and there are keys for them. */
    method NextSendMode(canSend: bool, hasPacingBudget: bool) returns (mode: SendMode)
      requires Valid()
      ensures mode == SendNone <==>
                || (!rec.peerAddressValidated && rec.bytesSent >= 3 * rec.bytesReceived)
                || NumTracked() >= 25000
      ensures mode != SendNone && rec.numProbesToSend > 0 ==>
                mode == rec.ptoMode && mode in {SendPTOInitial, SendPTOHandshake, SendPTOAppData}
      ensures mode != SendNone && rec.numProbesToSend == 0 ==>
                mode == if !canSend || NumTracked() >= 20000 then SendAck
                        else if hasPacingBudget then SendAny else SendPacingLimited
      ensures match mode
              case SendPTOInitial => initial != null
              case SendPTOHandshake => handshake != null
              case SendPTOAppData => rec.handshakeConfirmed && initial == null && handshake == null
              case _ => true
    {
      var numTracked := |app.history.packets|;
      if initial != null {
        numTracked := numTracked + |initial.history.packets|;
      }
      if handshake != null {
        numTracked := numTracked + |handshake.history.packets|;
      }
      if IsAmplificationLimited(rec) || numTracked >= MAX_TRACKED_SENT_PACKETS {
        return SendNone;
      }
      if rec.numProbesToSend > 0 {
        return rec.ptoMode;
      }
      if !canSend || numTracked >= MAX_OUTSTANDING_SENT_PACKETS {
        return SendAck;
      }
      return if hasPacingBudget then SendAny else SendPacingLimited;
    }

    method ReceivedBytes(n: nat, c: Clock)
      requires Valid()
      modifies this`books, this`rec, this`given, this`dropped
      ensures Valid() && books == old(books) && given == old(given) && dropped == old(dropped)
      ensures rec == old(rec).(bytesReceived := old(rec).bytesReceived + n, alarm := rec.alarm)
      ensures if IsAmplificationLimited(old(rec)) && !IsAmplificationLimited(rec) then TimerSet(c)
              else rec.alarm == old(rec).alarm
    {
      hide BooksOk, SpacesOk, Sum, TimerSet;
      var rec' := rec.(bytesReceived := rec.bytesReceived + n);
      Settle(books, rec', given, dropped, IsAmplificationLimited(rec) && !IsAmplificationLimited(rec'), c);
    }

    method ReceivedPacket(level: Level, c: Clock)
      requires Valid()
      modifies this`books, this`rec, this`given, this`dropped
      ensures Valid() && books == old(books) && given == old(given) && dropped == old(dropped)
      ensures rec.peerAddressValidated <==> old(rec).peerAddressValidated || (!isClient && level == HandshakeLevel)
      ensures rec == old(rec).(peerAddressValidated := rec.peerAddressValidated, alarm := rec.alarm)
      ensures rec.peerAddressValidated && !old(rec).peerAddressValidated ==> TimerSet(c)
    {
      hide BooksOk, SpacesOk, Sum, TimerSet;
      if !isClient && level == HandshakeLevel && !rec.peerAddressValidated {
        Settle(books, rec.(peerAddressValidated := true), given, dropped, true, c);
      }
    }

    method SetHandshakeConfirmed(c: Clock)
      requires Valid() && initial == null && handshake == null
      modifies this`books, this`rec, this`given, this`dropped
      ensures Valid() && books == old(books) && given == old(given) && dropped == old(dropped)
      ensures rec == old(rec).(handshakeConfirmed := true, alarm := rec.alarm) && TimerSet(c)
    {
      hide BooksOk, SpacesOk, Sum, TimerSet;
      Settle(books, rec.(handshakeConfirmed := true), given, dropped, true, c);
    }
  }

  lemma RetrySlots(s: PacketNumberSpace)
    requires s.Valid()
    ensures Dense(s.history.Base(), s.history.packets) && s.pns.Peek() >= s.pns.next >= 0
  {
  }

  lemma BooksAfterRetry(b: Books, i: Load, h: Load, a: Load, b': Books, given: multiset<Frame>,
                        dropped: multiset<Frame>)
    requires BooksOk(b, Plus(Plus(i, h), a), given, dropped)
    requires b'.bytesInFlight == 0 && b'.acked == b.acked && multiset(b'.lost) == multiset(b.lost) + i.frames + a.frames
    ensures BooksOk(b', Plus(Plus(NO_LOAD, h), NO_LOAD), given, dropped) <==> h.bytes == 0
  {
  }

  lemma FramesGrow(s: Slots, i: nat, before: multiset<Frame>, l: seq<Frame>)
    requires i < |s| && multiset(l) == before + Total(s[..i]).frames && (s[i].Some? ==> PacketOk(s[i].value))
    ensures s[i].Some? && !s[i].value.skipped ==>
              multiset(l + Handled(s[i].value.frames)) == before + Total(s[..i + 1]).frames
    ensures s[i].None? || s[i].value.skipped ==> multiset(l) == before + Total(s[..i + 1]).frames
  {
    assert s[..i + 1][..i] == s[..i];
    var f := SlotLoad(s[i]).frames;
    assert before + (Total(s[..i]).frames + f) == before + Total(s[..i]).frames + f;
  }

  lemma PlusShift(t: Load, t1: Load, t2: Load, x: Load, y: Load)
    requires Plus(t1, x) == t && Plus(t2, y) == t1
    ensures Plus(t2, Plus(x, y)) == t && Plus(x, y).bytes == x.bytes + y.bytes
  {
  }

  ghost function Above(v: map<int, Packet>, n: int): map<int, Packet> {
    map q | q in v && n <= q :: v[q]
  }

  ghost predicate EarlyDataGone(v: map<int, Packet>, v': map<int, Packet>) {
    exists n ::
      && v' == Above(v, n)
      && (forall q :: q in v && q < n ==> v[q].skipped || v[q].level == ZeroRTT)
      && (v' == map[] || (n in v' && !v'[n].skipped && v'[n].level != ZeroRTT))
  }

  lemma AboveNext(v: map<int, Packet>, n: int)
    ensures n !in v ==> Above(v, n + 1) == Above(v, n)
    ensures n in v ==> n in Above(v, n) && Above(v, n)[n] == v[n]
    ensures n in v ==> Above(v, n) - {n} - SkippedBefore(Above(v, n), n) == Above(v, n + 1)
    ensures Submap(Above(v, n + 1), Above(v, n))
  {
  }

  lemma AboveStart(v: map<int, Packet>, n: int)
    requires forall q :: q in v ==> n <= q
    ensures Above(v, n) == v
  {
  }

  lemma AboveEnd(v: map<int, Packet>, n: int)
    requires forall q :: q in v ==> q < n
    ensures Above(v, n) == map[]
  {
  }

  lemma TotalGrows(s: Slots, i: nat)
    requires i < |s|
    ensures Total(s[..i + 1]).bytes == Total(s[..i]).bytes + SlotLoad(s[i]).bytes
    ensures Total(s[..i + 1]).bytes <= Total(s).bytes
  {
    hide LoadOf;
    assert s[..i + 1][..i] == s[..i] && s == s[..i + 1] + s[i + 1..];
    TotalConcat(s[..i + 1], s[i + 1..]);
  }

  /** Exactly the packets that are lost are taken out of the window. */
  ghost predicate LossEffect(s: SpaceView, s': SpaceView, now: int, lossDelay: nat) {
    && s'.tracked == Surviving(s.tracked, s.next, s.largestAcked, now - lossDelay)
    && IsLossTime(s'.lossTime, s'.tracked, s.largestAcked, lossDelay)
    && s' == s.(packets := s'.packets, tracked := s'.tracked, lossTime := s'.lossTime)
  }

  /** After the loss timer fired, of the packets that were sent exactly those are left that are not overdue. */
  lemma TimerLosesOverdue(s: SpaceView, s': SpaceView, now: int, lossDelay: nat)
    requires LossEffect(s, s', now, lossDelay) && forall q :: q in s.tracked ==> q < s.next
    ensures LosesOverdue(s.tracked, s'.tracked, s.largestAcked, now, lossDelay)
  {
    DetectionLosesOverdue(s.tracked, s.next, s.largestAcked, now, lossDelay);
  }

  /** The outstanding packet with the lowest number, if there is one, is taken out of the window. */
  ghost predicate ProbeEffect(s: SpaceView, s': SpaceView, queued: bool) {
    && (queued <==> exists q :: IsFirstOutstanding(s.tracked, q))
    && (if queued then exists q :: IsFirstOutstanding(s.tracked, q) && s'.tracked == s.tracked - {q}
        else s'.tracked == s.tracked)
    && s' == s.(packets := s'.packets, tracked := s'.tracked)
  }

  function ProbesLeft(r: Recovery, frames: seq<Frame>): nat {
    if frames != [] && r.numProbesToSend > 0 then r.numProbesToSend - 1 else r.numProbesToSend
  }

  ghost predicate IsFirstOutstanding(v: map<int, Packet>, q: int) {
    q in v && Outstanding(v[q]) && forall r :: r in v && r < q ==> !Outstanding(v[r])
  }

  ghost predicate CoversUnused(ranges: seq<AckRange>, used: set<int>) {
    exists p :: Acks(ranges, p) && p !in used
  }

  ghost predicate AnySkippedAcked(packets: Slots, ranges: seq<AckRange>) {
    exists x :: x in packets && SkippedAcked(x, ranges)
  }

  /** What an ACK does: OnAcked is called for exactly the frames of the acknowledged packets, in ascending order, and
      of the tracked packets exactly those remain that are neither acknowledged nor lost.  An ACK that acknowledges
      nothing new changes nothing. */
  ghost predicate AckEffect(s: SpaceView, s': SpaceView, b: Books, b': Books, ranges: seq<AckRange>, now: int,
                            lossDelay: nat, r: AckResult)
    requires ranges != []
  {
    var acked := AckedIn(s.packets, ranges);
    && s'.next == s.next && s'.largestSent == s.largestSent && s'.lastAckEliciting == s.lastAckEliciting
    && s'.used == s.used
    && (r.UnsentNumber? <==> ranges[0].largest > s.largestSent)
    && (r.SkippedNumber? <==> !r.UnsentNumber? && AnySkippedAcked(s.packets, ranges))
    && (r.UnsentNumber? || (r.Acked? && acked == []) ==> b' == b && s' == s)
    && (r.Acked? ==> (r.contains1RTT <==> exists p :: p in acked && p.level == OneRTT))
    && (r.Acked? && acked != [] ==>
          && b'.acked == b.acked + FramesOf(acked)
          && s'.largestAcked == Max(s.largestAcked, ranges[0].largest)
          && AckOutcome(s.tracked, s'.tracked, ranges, s'.largestAcked, now - lossDelay)
          && IsLossTime(s'.lossTime, s'.tracked, s'.largestAcked, lossDelay))
  }

  /** After an ACK of something new, of the packets that were sent exactly those are left that are neither acknowledged
      nor overdue. */
  lemma AckLosesOverdue(s: SpaceView, s': SpaceView, b: Books, b': Books, ranges: seq<AckRange>, now: int,
                        lossDelay: nat, r: AckResult)
    requires ranges != [] && AckEffect(s, s', b, b', ranges, now, lossDelay, r) && r.Acked?
    requires AckedIn(s.packets, ranges) != []
    ensures Submap(s'.tracked, s.tracked)
    ensures forall q :: WasSent(s.tracked, q) ==>
              (q in s'.tracked <==>
                 !Acks(ranges, q) &&
                 !Overdue(q, s.tracked[q].sendTime.value, Max(s.largestAcked, ranges[0].largest), now, lossDelay))
  {
  }

  /** An ACK shows a client that its address is validated; new acknowledgements end the probing, and with a validated
      address the next timeout is not backed off. */
  ghost predicate AckRecovery(r: Recovery, r': Recovery, any: bool, validated: bool) {
    && r' == r.(peerCompletedAddressValidation := r'.peerCompletedAddressValidation, ptoCount := r'.ptoCount,
                numProbesToSend := r'.numProbesToSend, alarm := r'.alarm)
    && (r'.peerCompletedAddressValidation <==> r.peerCompletedAddressValidation || validated)
    && (any ==> r'.numProbesToSend == 0 && (r'.peerCompletedAddressValidation ==> r'.ptoCount == 0))
    && (!any ==> r'.numProbesToSend == r.numProbesToSend)
    && (!any || !r'.peerCompletedAddressValidation ==> r'.ptoCount == r.ptoCount)
  }

  lemma AckRecovers(r: Recovery, any: bool, validated: bool, alarm: Option<int>)
    ensures AckRecovery(r, AfterAck(r, any, validated).(alarm := alarm), any, validated)
  {
  }

  function AfterAck(r: Recovery, any: bool, validated: bool): Recovery {
    var completed := r.peerCompletedAddressValidation || validated;
    r.(peerCompletedAddressValidation := completed,
       ptoCount := if any && completed then 0 else r.ptoCount,
       numProbesToSend := if any then 0 else r.numProbesToSend)
  }

  /** Dropping keys ends the probing; a client that drops its Handshake keys no longer waits for address validation. */
  function AfterDrop(r: Recovery, completed: bool): Recovery {
    r.(peerCompletedAddressValidation := r.peerCompletedAddressValidation || completed,
       ptoCount := 0, numProbesToSend := 0, ptoMode := SendNone)
  }

  lemma SkippedEffect(s: SpaceView, s': SpaceView, b: Books, b': Books, ranges: seq<AckRange>, now: int,
                      lossDelay: nat, r: AckResult)
    requires ranges != [] && AckEffect(s, s', b, b', ranges, now, lossDelay, r)
    ensures r.SkippedNumber? ==> AnySkippedAcked(s.packets, ranges)
  {
  }

  lemma UnsentEffect(s: SpaceView, b: Books, ranges: seq<AckRange>, now: int, lossDelay: nat)
    requires ranges != [] && ranges[0].largest > s.largestSent
    ensures AckEffect(s, s, b, b, ranges, now, lossDelay, UnsentNumber)
  {
  }

  datatype AckResult = Acked(contains1RTT: bool) | UnsentNumber | SkippedNumber

  /** Of the packets that were tracked, those that are neither acknowledged nor lost remain. */
  ghost predicate AckOutcome(v: map<int, Packet>, v': map<int, Packet>, ranges: seq<AckRange>, largestAcked: int,
                             lostSendTime: int) {
    && Submap(v', v)
    && forall q :: q in v && !v[q].skipped ==>
                     (q in v' <==> !Acks(ranges, q) && !IsLost(v[q], largestAcked, lostSendTime))
  }

  lemma SpaceLosesOverdue(space: PacketNumberSpace, now: int, lossDelay: nat)
    requires space.Valid()
    ensures var v := space.history.Tracked();
            LosesOverdue(v, Surviving(v, space.pns.next, space.largestAcked, now - lossDelay), space.largestAcked, now,
                         lossDelay)
  {
    hide View, Total, LosesOverdue;
    NumbersBelowNext(space);
    DetectionLosesOverdue(space.history.Tracked(), space.pns.next, space.largestAcked, now, lossDelay);
  }

  lemma NumbersBelowNext(space: PacketNumberSpace)
    requires space.Valid()
    ensures forall q :: q in space.history.Tracked() ==> q < space.pns.next
  {
  }

  lemma AckThenLoss(v: map<int, Packet>, v1: map<int, Packet>, v2: map<int, Packet>, ranges: seq<AckRange>, next: int,
                    largestAcked: int, lostSendTime: int)
    requires Acknowledged(v, v1, ranges) && v2 == Surviving(v1, next, largestAcked, lostSendTime)
    requires forall q :: q in v1 ==> q < next
    ensures AckOutcome(v, v2, ranges, largestAcked, lostSendTime)
  {
  }

  lemma SettledAck(b: Books, t: Load, b1: Books, t1: Load, b2: Books, t2: Load, acked: seq<Packet>)
    requires Plus(t1, LoadSum(acked)) == t && b1 == b.(acked := b.acked + FramesOf(acked))
    requires Lost(b1, t1, b2, t2) && t.bytes <= b.bytesInFlight
    ensures LoadSum(acked).bytes <= b2.bytesInFlight && b2.acked == b.acked + FramesOf(acked)
    ensures Settled(b, t, b2.(bytesInFlight := b2.bytesInFlight - LoadSum(acked).bytes), t2)
  {
    hide LoadSum;
    FramesOfSum(acked);
    var a, l, x := multiset(b.acked), multiset(b.lost), multiset(FramesOf(acked));
    assert multiset(b1.acked) == a + x;
    assert (a + x) + multiset(b2.lost) + t2.frames == (a + x) + (multiset(b2.lost) + t2.frames);
    assert (a + x) + (l + t1.frames) == a + l + (t1.frames + x);
  }

  lemma SettledNothing(b: Books, t: Load, t1: Load)
    requires Plus(t1, LoadSum([])) == t
    ensures Settled(b, t, b, t1) && b.acked + FramesOf([]) == b.acked
  {
  }

  lemma LoadBytes(p: Packet)
    ensures p.inFlight ==> LoadOf(p).bytes == p.length
  {
  }

  lemma {:induction false} LengthsGrow(ps: seq<Packet>, n: nat)
    requires n <= |ps|
    ensures LoadSum(ps[..n]).bytes <= LoadSum(ps).bytes
    ensures n > 0 ==> LoadSum(ps[..n]).bytes == LoadSum(ps[..n - 1]).bytes + LoadOf(ps[n - 1]).bytes
  {
    hide LoadOf;
    if n > 0 {
      assert ps[..n][..n - 1] == ps[..n - 1];
    }
    if n == |ps| {
      assert ps[..n] == ps;
    } else {
      var m := |ps| - 1;
      LengthsGrow(ps[..m], n);
      assert ps[..m][..n] == ps[..n];
    }
  }

  lemma AckedAreTracked(base: int, s: Slots, n: nat, ranges: seq<AckRange>)
    requires Dense(base, s) && n <= |s|
    ensures Ascending(View(base, s), AckedIn(s[..n], ranges))
  {
    hide Acks, AckedIn;
    AckedExactly(base, s[..n], ranges);
    forall q | q in View(base, s[..n]) ensures q in View(base, s) && View(base, s)[q] == View(base, s[..n])[q] {
      assert Lookup(base, s[..n], q) == Lookup(base, s, q);
    }
  }

  lemma PlusCommutes(a: Load, b: Load)
    ensures Plus(a, b) == Plus(b, a)
  {
  }

  lemma NoneHere(t: Option<int>, v: map<int, Packet>, n: int, largestAcked: int, lossDelay: nat, first: int)
    requires LossTimeSoFar(t, v, n, largestAcked, lossDelay, first) && n !in v
    ensures LossTimeSoFar(t, v, n + 1, largestAcked, lossDelay, first)
  {
  }

  lemma BytesInFlight(h: SentPacketHandler)
    requires h.Valid()
    ensures h.Apart()
    ensures h.books.bytesInFlight == LoadAt(h.initial).bytes + LoadAt(h.handshake).bytes + LoadAt(h.app).bytes
  {
    hide PacketNumberSpace.Valid, Total;
  }

  /** A Retry while a Handshake packet is in flight: its bytes are not counted any more. */
  method RetryForgetsHandshake(size: nat, frames: seq<Frame>, random: nat, c: Clock) returns (h: SentPacketHandler)
    requires size > 0 && frames != []
    ensures fresh(h) && h.books.bytesInFlight == 0 && LoadAt(h.handshake).bytes == size && !h.Valid()
  {
    hide View, ViewOf, Total, SentPacketHandler.Valid, SentPacketHandler.SpacesOk, SendEffect, Grow, UsesMore;
    hide SentPacketHandler.TimerSet, SentPacketHandler.Next, SentPacketHandler.Stage, SentPacketHandler.AlarmSet;
    hide Handled;
    h := new SentPacketHandler(0, true, true, random);
    BytesInFlight(h);
    var pn := h.SendPacket(HandshakeLevel, size, frames, INVALID_PACKET_NUMBER, false, random, c);
    BytesInFlight(h);
    h.ResetForRetry(random);
  }
}
