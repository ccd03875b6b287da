/** Two endpoints running the key update over a network that loses, reorders,
    duplicates and forges packets.

    `sent` remembers every packet an endpoint ever sealed, so a packet can be
    delivered any number of times, in any order, or never.  `seen` is the set
    of packet numbers of the peer that were opened; an acknowledgement names
    one of those.
  */
module KeyUpdateProtocol {
  import opened Common
  import opened KeyUpdate

  datatype Packet = Packet(bit: bool, gen: Generation, ack: Option<nat>)

  datatype Endpoint = Endpoint(aead: Aead, sent: map<nat, Packet>, seen: set<nat>)

  datatype System = System(a: Endpoint, b: Endpoint)

  datatype Event =
    | Confirm
    | Poll
    | Send(pn: nat, ack: Option<nat>)
    | Deliver(pn: nat, now: int, dropDelay: int, newlyAcks: bool)
    | Forge(pn: nat, bit: bool, now: int, dropDelay: int)

  /** Packet numbers only go up; acknowledgements are honest; only sealed packets are delivered. */
  predicate Enabled(me: Endpoint, peer: Endpoint, e: Event) {
    match e
    case Send(pn, ack) => (forall q :: q in me.sent ==> q < pn) && (ack.Some? ==> ack.value in me.seen)
    case Deliver(pn, _, _, _) => pn in peer.sent
    case _ => true
  }

  /** The result of opening the packet an event brings, if it brings one. */
  function OpenOutcome(me: Endpoint, peer: Endpoint, e: Event): OpenResult
    requires Enabled(me, peer, e)
  {
    match e
    case Deliver(pn, now, d, _) => AfterOpen(me.aead, now, pn, peer.sent[pn].bit, Some(peer.sent[pn].gen), d).1
    case Forge(pn, bit, now, d) => AfterOpen(me.aead, now, pn, bit, None, d).1
    case _ => Opened
  }

  function Opening(me: Endpoint, peer: Endpoint, pn: nat, now: int, d: int): Aead
    requires pn in peer.sent
  {
    AfterOpen(me.aead, now, pn, peer.sent[pn].bit, Some(peer.sent[pn].gen), d).0
  }

  /** The acknowledgement of an opened packet reaches SetLargestAcked only if it acknowledges something new. */
  predicate ProcessesAck(me: Endpoint, peer: Endpoint, e: Event)
    requires Enabled(me, peer, e)
  {
    e.Deliver? && e.newlyAcks && peer.sent[e.pn].ack.Some? && OpenOutcome(me, peer, e) == Opened
  }

  function Step(me: Endpoint, peer: Endpoint, e: Event): Endpoint
    requires Enabled(me, peer, e)
  {
    match e
    case Confirm => me.(aead := me.aead.(handshakeConfirmed := true))
    case Poll => me.(aead := AfterKeyPhase(me.aead))
    case Send(pn, ack) =>
      var s := AfterKeyPhase(me.aead);
      me.(aead := AfterSeal(s, pn), sent := me.sent[pn := Packet(KeyPhaseBit(s.keyPhase), s.keys.send, ack)])
    case Deliver(pn, now, d, _) =>
      var s := Opening(me, peer, pn, now, d);
      me.(aead := if ProcessesAck(me, peer, e) then AfterAck(s, peer.sent[pn].ack.value) else s,
          seen := if OpenOutcome(me, peer, e) == Opened then me.seen + {pn} else me.seen)
    case Forge(pn, bit, now, d) =>
      me.(aead := AfterOpen(me.aead, now, pn, bit, None, d).0)
  }

  /** KEY_UPDATE_ERROR, raised while opening or while processing an acknowledgement. */
  predicate RaisesKeyUpdateError(me: Endpoint, peer: Endpoint, e: Event)
    requires Enabled(me, peer, e)
  {
    || OpenOutcome(me, peer, e) == KeyUpdateError
    || (ProcessesAck(me, peer, e) &&
        AckIsTooEarly(Opening(me, peer, e.pn, e.now, e.dropDelay), peer.sent[e.pn].ack.value))
  }

  // ------------------------------------------------------------------
  // Runs
  // ------------------------------------------------------------------

  datatype Turn = ByA(e: Event) | ByB(e: Event)

  function Initial(limitA: nat, limitB: nat): System {
    System(Endpoint(Fresh(limitA), map[], {}), Endpoint(Fresh(limitB), map[], {}))
  }

  predicate Possible(s: System, t: Turn) {
    match t
    case ByA(e) => Enabled(s.a, s.b, e)
    case ByB(e) => Enabled(s.b, s.a, e)
  }

  function Taken(s: System, t: Turn): System
    requires Possible(s, t)
  {
    match t
    case ByA(e) => s.(a := Step(s.a, s.b, e))
    case ByB(e) => s.(b := Step(s.b, s.a, e))
  }

  predicate IsRun(s: System, turns: seq<Turn>)
    decreases |turns|
  {
    turns == [] || (Possible(s, turns[0]) && IsRun(Taken(s, turns[0]), turns[1..]))
  }

  function After(s: System, turns: seq<Turn>): System
    requires IsRun(s, turns)
    decreases |turns|
  {
    if turns == [] then s else After(Taken(s, turns[0]), turns[1..])
  }

  // ------------------------------------------------------------------
  // The invariant
  // ------------------------------------------------------------------

  /** Facts about one endpoint alone: its keys follow its key phase. */
  predicate Local(me: Endpoint) {
    var s := me.aead;
    && s.keys.rcv == s.keys.send == s.keyPhase
    && s.keys.nextRcv == s.keys.nextSend == s.keyPhase + 1
    && (s.keys.prevRcv.Some? ==> s.keyPhase > 0 && s.keys.prevRcv.value == s.keyPhase - 1)
    && (s.keys.prevRcv.None? ==> s.prevRcvExpiry.None?)
    // the previous read key stays, without a timer, until the peer has confirmed
    && (s.keyPhase > 0 && s.use.firstRcvd == INVALID_PN ==> s.keys.prevRcv.Some? && s.prevRcvExpiry.None?)
    && s.use.firstSent >= INVALID_PN
    && s.use.firstRcvd >= INVALID_PN
  }

  /** Sealed packets: key phases ascend with packet numbers, and firstSent separates the current phase. */
  ghost predicate Sealed(me: Endpoint) {
    && (me.aead.use.firstSent != INVALID_PN ==> me.aead.use.firstSent in me.sent)
    && (forall p :: p in me.sent ==>
                      me.sent[p].bit == KeyPhaseBit(me.sent[p].gen) && me.sent[p].gen <= me.aead.keyPhase)
    && (forall p, q :: p in me.sent && q in me.sent && p < q ==> me.sent[p].gen <= me.sent[q].gen)
    && (forall p :: p in me.sent ==>
          (me.sent[p].gen == me.aead.keyPhase <==> me.aead.use.firstSent != INVALID_PN && p >= me.aead.use.firstSent))
  }

  /** Opened packets: only sealed ones, none ahead of the own phase, and firstRcvd is one of the current phase. */
  ghost predicate Received(me: Endpoint, peer: Endpoint) {
    var s := me.aead;
    && (forall p :: p in me.seen ==> p in peer.sent && peer.sent[p].gen <= s.keyPhase)
    && (forall p :: p in me.seen && peer.sent[p].gen == s.keyPhase ==> s.use.firstRcvd != INVALID_PN)
    && (s.use.firstRcvd != INVALID_PN ==>
          && s.use.firstRcvd in me.seen && s.use.firstRcvd in peer.sent
          && peer.sent[s.use.firstRcvd].gen == s.keyPhase)
  }

  /** An acknowledgement is sealed no earlier than the phase of the packet it acknowledges. */
  ghost predicate AcksFollow(me: Endpoint, peer: Endpoint) {
    && (forall p :: p in me.sent && me.sent[p].ack.Some? ==>
          me.sent[p].ack.value in me.seen && me.sent[p].ack.value in peer.sent &&
          peer.sent[me.sent[p].ack.value].gen <= me.sent[p].gen)
    && (me.aead.largestAcked != INVALID_PN ==>
          var n := me.aead.largestAcked;
          && n in me.sent && n in peer.seen
          && (peer.aead.keyPhase > me.sent[n].gen || peer.aead.use.firstSent != INVALID_PN))
  }

  /** The peer moves ahead only after hearing from this endpoint in this endpoint's phase. */
  predicate PeerWaited(me: Endpoint, peer: Endpoint) {
    && me.aead.keyPhase <= peer.aead.keyPhase + 1
    && (me.aead.keyPhase > 0 && peer.aead.keyPhase > me.aead.keyPhase ==>
          me.aead.use.firstSent != INVALID_PN && me.aead.use.firstRcvd != INVALID_PN)
  }

  ghost predicate OneSided(me: Endpoint, peer: Endpoint) {
    Local(me) && Sealed(me) && Received(me, peer) && AcksFollow(me, peer) && PeerWaited(me, peer)
  }

  ghost predicate Inv(s: System) {
    OneSided(s.a, s.b) && OneSided(s.b, s.a)
  }

  // ------------------------------------------------------------------
  // Every step keeps it
  // ------------------------------------------------------------------

  /** A local roll is only allowed once the peer has caught up and answered. */
  lemma RollKeepsInv(me: Endpoint, peer: Endpoint)
    requires OneSided(me, peer) && OneSided(peer, me)
    requires UpdateAllowed(me.aead)
    ensures OneSided(me.(aead := Rolled(me.aead)), peer)
    ensures OneSided(peer, me.(aead := Rolled(me.aead)))
  {
  }

  ghost predicate SealStep(me: Endpoint, me': Endpoint, pn: nat, ack: Option<nat>) {
    && (forall q :: q in me.sent ==> q < pn)
    && (ack.Some? ==> ack.value in me.seen)
    && me' == me.(aead := AfterSeal(me.aead, pn),
                  sent := me.sent[pn := Packet(KeyPhaseBit(me.aead.keyPhase), me.aead.keys.send, ack)])
  }

  lemma SealKeepsOwnSide(me: Endpoint, peer: Endpoint, me': Endpoint, pn: nat, ack: Option<nat>)
    requires OneSided(me, peer) && SealStep(me, me', pn, ack)
    ensures OneSided(me', peer)
  {
    assert Sealed(me');
    assert AcksFollow(me', peer);
  }

  lemma SealKeepsPeerSide(me: Endpoint, peer: Endpoint, me': Endpoint, pn: nat, ack: Option<nat>)
    requires OneSided(peer, me) && SealStep(me, me', pn, ack)
    ensures OneSided(peer, me')
  {
  }

  /** A genuine packet of the previous, current or next phase is tried under exactly the generation that sealed it. */
  lemma RightKeyIsTried(me: Endpoint, peer: Endpoint, pn: nat, s: Aead)
    requires OneSided(me, peer) && OneSided(peer, me)
    requires pn in peer.sent && exists now :: s == Expired(me.aead, now)
    ensures var p := peer.sent[pn];
            && p.gen <= s.keyPhase + 1
            && (p.gen == s.keyPhase + 1 ==> Select(s, pn, p.bit) == Next && s.keys.nextRcv == p.gen)
            && (p.gen == s.keyPhase ==> Select(s, pn, p.bit) == Current && s.keys.rcv == p.gen)
            && (p.gen == s.keyPhase - 1 ==> Select(s, pn, p.bit) == Previous)
            && (p.gen == s.keyPhase - 1 && s.keys.prevRcv.Some? ==> s.keys.prevRcv.value == p.gen)
  {
    hide Sealed, AcksFollow;
    SealedAt(peer, pn);
    var first := s.use.firstRcvd;
    if first != INVALID_PN && pn < first {
      SealedOrder(peer, pn, first);
    } else if first != INVALID_PN && first < pn {
      SealedOrder(peer, first, pn);
    }
  }

  lemma SealedAt(me: Endpoint, p: nat)
    requires Sealed(me) && p in me.sent
    ensures me.sent[p].bit == KeyPhaseBit(me.sent[p].gen) && me.sent[p].gen <= me.aead.keyPhase
  {
  }

  lemma SealedOrder(me: Endpoint, p: nat, q: nat)
    requires Sealed(me) && p in me.sent && q in me.sent && p < q
    ensures me.sent[p].gen <= me.sent[q].gen
  {
  }

  /** No key that is still held opens a packet two or more phases old. */
  lemma OldPacketFails(me: Endpoint, peer: Endpoint, pn: nat, s: Aead)
    requires OneSided(me, peer) && OneSided(peer, me)
    requires pn in peer.sent && exists now :: s == Expired(me.aead, now)
    requires peer.sent[pn].gen < s.keyPhase - 1
    ensures var p := peer.sent[pn];
            && Select(s, pn, p.bit) != Next
            && s.keys.rcv != p.gen
            && s.keys.prevRcv != Some(p.gen)
  {
  }

  /** What opening a genuine packet does, by the generation that sealed it. */
  lemma GenuinePacket(me: Endpoint, peer: Endpoint, pn: nat, now: int, d: int)
    requires OneSided(me, peer) && OneSided(peer, me)
    requires pn in peer.sent
    ensures var s := Expired(me.aead, now);
            var p := peer.sent[pn];
            var o := OpenedWith(s, now, pn, p.bit, Some(p.gen), d);
            && p.gen <= s.keyPhase + 1
            && (p.gen == s.keyPhase + 1 ==>
                  o == (Rolled(s).(prevRcvExpiry := Some(now + d), use := UNUSED.(firstRcvd := pn)), Opened))
            && (p.gen == s.keyPhase ==> o.1 == Opened && Select(s, pn, p.bit) == Current)
            && (p.gen == s.keyPhase - 1 ==> o == (s, if s.keys.prevRcv.Some? then Opened else KeysDropped))
            && (p.gen < s.keyPhase - 1 ==> o.0 == s && o.1 in {KeysDropped, DecryptionFailed})
  {
    var s := Expired(me.aead, now);
    var p := peer.sent[pn];
    RightKeyIsTried(me, peer, pn, s);
    if p.gen < s.keyPhase - 1 {
      OldPacketFails(me, peer, pn, s);
    } else if p.gen == s.keyPhase + 1 {
      assert s.keyPhase > 0 ==> s.use.firstSent != INVALID_PN;
    }
  }

  lemma ExpiryKeepsInv(me: Endpoint, peer: Endpoint, now: int)
    requires OneSided(me, peer) && OneSided(peer, me)
    ensures OneSided(me.(aead := Expired(me.aead, now)), peer) && OneSided(peer, me.(aead := Expired(me.aead, now)))
  {
  }

  /** Opening with the next key: the peer started this update. */
  lemma PeerUpdateKeepsInv(me: Endpoint, peer: Endpoint, me': Endpoint, pn: nat, expiry: int)
    requires OneSided(me, peer) && OneSided(peer, me)
    requires pn in peer.sent && peer.sent[pn].gen == me.aead.keyPhase + 1
    requires me' ==
               Endpoint(Rolled(me.aead).(prevRcvExpiry := Some(expiry), use := UNUSED.(firstRcvd := pn)), me.sent,
                        me.seen + {pn})
    ensures OneSided(me', peer) && OneSided(peer, me')
  {
  }

  /** Opening with the current key: possibly the confirmation of an update started here. */
  lemma CurrentKeyKeepsInv(me: Endpoint, peer: Endpoint, me': Endpoint, pn: nat, expiry: int)
    requires OneSided(me, peer) && OneSided(peer, me)
    requires pn in peer.sent && peer.sent[pn].gen == me.aead.keyPhase
    requires me'.sent == me.sent && me'.seen == me.seen + {pn}
    requires var use := me.aead.use;
             me'.aead == if use.firstRcvd != INVALID_PN then me.aead.(use := use.(numRcvd := use.numRcvd + 1))
                         else me.aead.(prevRcvExpiry := if me.aead.keyPhase > 0 then Some(expiry)
                                                        else me.aead.prevRcvExpiry,
                                       use := use.(numRcvd := use.numRcvd + 1, firstRcvd := pn))
    ensures OneSided(me', peer) && OneSided(peer, me')
  {
    assert Received(me', peer);
    assert AcksFollow(me', peer);
    assert AcksFollow(peer, me');
  }

  lemma PreviousKeyKeepsInv(me: Endpoint, peer: Endpoint, pn: nat)
    requires OneSided(me, peer) && OneSided(peer, me)
    requires pn in peer.sent && peer.sent[pn].gen < me.aead.keyPhase
    ensures OneSided(me.(seen := me.seen + {pn}), peer) && OneSided(peer, me.(seen := me.seen + {pn}))
  {
  }

  /** Counters that no decision of the protocol reads. */
  lemma CountersDoNotMatter(me: Endpoint, peer: Endpoint, count: nat, highest: int)
    requires OneSided(me, peer) && OneSided(peer, me)
    ensures var me' := me.(aead := me.aead.(invalidPacketCount := count, highestRcvdPN := highest));
            OneSided(me', peer) && OneSided(peer, me')
  {
  }

  /** The endpoint after opening a genuine packet, before its acknowledgement is looked at. */
  function AfterDelivery(me: Endpoint, peer: Endpoint, pn: nat, now: int, d: int): Endpoint
    requires pn in peer.sent
  {
    var (s, r) := AfterOpen(me.aead, now, pn, peer.sent[pn].bit, Some(peer.sent[pn].gen), d);
    me.(aead := s, seen := if r == Opened then me.seen + {pn} else me.seen)
  }

  lemma OpeningKeepsInv(me: Endpoint, peer: Endpoint, pn: nat, now: int, d: int)
    requires OneSided(me, peer) && OneSided(peer, me)
    requires pn in peer.sent
    ensures var me' := AfterDelivery(me, peer, pn, now, d); OneSided(me', peer) && OneSided(peer, me')
    ensures AfterOpen(me.aead, now, pn, peer.sent[pn].bit, Some(peer.sent[pn].gen), d).1 != KeyUpdateError
  {
    hide OneSided;
    ExpiryKeepsInv(me, peer, now);
    GenuinePacket(me, peer, pn, now, d);
    var p := peer.sent[pn];
    var me0 := me.(aead := Expired(me.aead, now));
    var (s, r) := OpenedWith(me0.aead, now, pn, p.bit, Some(p.gen), d);
    var me1 := me0.(aead := s, seen := if r == Opened then me.seen + {pn} else me.seen);
    if r == Opened {
      if p.gen == me0.aead.keyPhase + 1 {
        PeerUpdateKeepsInv(me0, peer, me1, pn, now + d);
      } else if p.gen == me0.aead.keyPhase {
        CurrentKeyKeepsInv(me0, peer, me1, pn, now + d);
      } else {
        PreviousKeyKeepsInv(me0, peer, pn);
      }
    }
    var s2 := AfterOpen(me.aead, now, pn, p.bit, Some(p.gen), d).0;
    CountersDoNotMatter(me1, peer, s2.invalidPacketCount, s2.highestRcvdPN);
    assert s2 == s.(invalidPacketCount := s2.invalidPacketCount, highestRcvdPN := s2.highestRcvdPN);
  }

  /** An acknowledgement never comes too early: whoever acknowledged a phase has sealed in it. */
  lemma AckIsTimely(me: Endpoint, peer: Endpoint, pn: nat, now: int, d: int)
    requires OneSided(me, peer) && OneSided(peer, me)
    requires pn in peer.sent && peer.sent[pn].ack.Some?
    requires AfterOpen(me.aead, now, pn, peer.sent[pn].bit, Some(peer.sent[pn].gen), d).1 == Opened
    ensures !AckIsTooEarly(AfterDelivery(me, peer, pn, now, d).aead, peer.sent[pn].ack.value)
  {
    GenuinePacket(me, peer, pn, now, d);
    var n := peer.sent[pn].ack.value;
    assert n in me.sent && me.sent[n].gen <= peer.sent[pn].gen;
  }

  lemma AckKeepsInv(me: Endpoint, peer: Endpoint, pn: nat)
    requires OneSided(me, peer) && OneSided(peer, me)
    requires pn in peer.sent && peer.sent[pn].ack.Some?
    ensures var me' := me.(aead := me.aead.(largestAcked := peer.sent[pn].ack.value));
            OneSided(me', peer) && OneSided(peer, me')
  {
  }

  lemma ForgeryKeepsInv(me: Endpoint, peer: Endpoint, pn: nat, bit: bool, now: int, d: int)
    requires OneSided(me, peer) && OneSided(peer, me)
    ensures var (s, r) := AfterOpen(me.aead, now, pn, bit, None, d);
            r != Opened && r != KeyUpdateError && OneSided(me.(aead := s), peer) && OneSided(peer, me.(aead := s))
  {
    hide OneSided;
    ExpiryKeepsInv(me, peer, now);
    var me0 := me.(aead := Expired(me.aead, now));
    var s := AfterOpen(me.aead, now, pn, bit, None, d).0;
    CountersDoNotMatter(me0, peer, s.invalidPacketCount, s.highestRcvdPN);
    assert s == me0.aead.(invalidPacketCount := s.invalidPacketCount, highestRcvdPN := s.highestRcvdPN);
  }

  lemma DeliveryKeepsInv(me: Endpoint, peer: Endpoint, e: Event)
    requires OneSided(me, peer) && OneSided(peer, me)
    requires e.Deliver? && Enabled(me, peer, e)
    ensures OneSided(Step(me, peer, e), peer) && OneSided(peer, Step(me, peer, e))
    ensures !RaisesKeyUpdateError(me, peer, e)
  {
    hide OneSided;
    OpeningKeepsInv(me, peer, e.pn, e.now, e.dropDelay);
    if ProcessesAck(me, peer, e) {
      AckIsTimely(me, peer, e.pn, e.now, e.dropDelay);
      AckKeepsInv(AfterDelivery(me, peer, e.pn, e.now, e.dropDelay), peer, e.pn);
    }
  }

  lemma ConfirmKeepsInv(me: Endpoint, peer: Endpoint)
    requires OneSided(me, peer) && OneSided(peer, me)
    ensures var me' := me.(aead := me.aead.(handshakeConfirmed := true)); OneSided(me', peer) && OneSided(peer, me')
  {
  }

  lemma StepKeepsInv(me: Endpoint, peer: Endpoint, e: Event)
    requires OneSided(me, peer) && OneSided(peer, me)
    requires Enabled(me, peer, e)
    ensures OneSided(Step(me, peer, e), peer) && OneSided(peer, Step(me, peer, e))
    ensures !RaisesKeyUpdateError(me, peer, e)
  {
    hide OneSided;
    match e
    case Confirm => ConfirmKeepsInv(me, peer);
    case Poll =>
      if ShouldInitiate(me.aead) { RollKeepsInv(me, peer); }
    case Send(pn, ack) =>
      if ShouldInitiate(me.aead) { RollKeepsInv(me, peer); }
      var me1 := me.(aead := AfterKeyPhase(me.aead));
      SealKeepsOwnSide(me1, peer, Step(me, peer, e), pn, ack);
      SealKeepsPeerSide(me1, peer, Step(me, peer, e), pn, ack);
    case Deliver(pn, now, d, _) =>
      DeliveryKeepsInv(me, peer, e);
    case Forge(pn, bit, now, d) =>
      ForgeryKeepsInv(me, peer, pn, bit, now, d);
  }

  lemma {:induction false} RunKeepsInv(s: System, turns: seq<Turn>)
    requires Inv(s) && IsRun(s, turns)
    ensures Inv(After(s, turns))
    decreases |turns|
  {
    hide OneSided;
    if turns != [] {
      match turns[0] {
        case ByA(e) => StepKeepsInv(s.a, s.b, e);
        case ByB(e) => StepKeepsInv(s.b, s.a, e);
      }
      RunKeepsInv(Taken(s, turns[0]), turns[1..]);
    }
  }

  // ------------------------------------------------------------------
  // The theorems, for every run
  // ------------------------------------------------------------------

  lemma InitialInv(limitA: nat, limitB: nat)
    ensures Inv(Initial(limitA, limitB))
  {
  }

  /** The two key phases never differ by more than one. */
  lemma PhasesStayTogether(limitA: nat, limitB: nat, turns: seq<Turn>)
    requires IsRun(Initial(limitA, limitB), turns)
    ensures var s := After(Initial(limitA, limitB), turns);
            -1 <= s.a.aead.keyPhase - s.b.aead.keyPhase <= 1
  {
    InitialInv(limitA, limitB);
    RunKeepsInv(Initial(limitA, limitB), turns);
  }

  /** Whatever happens next, neither side raises KEY_UPDATE_ERROR. */
  lemma NoKeyUpdateError(limitA: nat, limitB: nat, turns: seq<Turn>, e: Event)
    requires IsRun(Initial(limitA, limitB), turns)
    ensures var s := After(Initial(limitA, limitB), turns);
            && (Enabled(s.a, s.b, e) ==> !RaisesKeyUpdateError(s.a, s.b, e))
            && (Enabled(s.b, s.a, e) ==> !RaisesKeyUpdateError(s.b, s.a, e))
  {
    InitialInv(limitA, limitB);
    RunKeepsInv(Initial(limitA, limitB), turns);
    var s := After(Initial(limitA, limitB), turns);
    if Enabled(s.a, s.b, e) { StepKeepsInv(s.a, s.b, e); }
    if Enabled(s.b, s.a, e) { StepKeepsInv(s.b, s.a, e); }
  }

  function Mine(s: System, byA: bool): Endpoint { if byA then s.a else s.b }
  function Theirs(s: System, byA: bool): Endpoint { if byA then s.b else s.a }

  /** What opening a packet `p` with number pn results in. */
  ghost predicate RecentOpens(me: Aead, p: Packet, pn: nat, now: int, d: int) {
    var r := AfterOpen(me, now, pn, p.bit, Some(p.gen), d).1;
    && p.gen <= me.keyPhase + 1
    && (p.gen >= me.keyPhase ==> r == Opened)
    && (p.gen == me.keyPhase - 1 ==> r == (if Expired(me, now).keys.prevRcv.Some? then Opened else KeysDropped))
    && (p.gen == me.keyPhase - 1 && r == KeysDropped ==> me.use.firstRcvd != INVALID_PN)
    && (p.gen < me.keyPhase - 1 ==> r in {KeysDropped, DecryptionFailed, AeadLimitReached})
  }

  /** Either endpoint can open every genuine packet that is at most one phase old, however late it
      comes: only a packet of the previous phase can find its key gone, and then only because the
      peer had confirmed the update and the timer ran out.  Packets two or more phases old never open. */
  lemma EveryRecentPacketOpens(limitA: nat, limitB: nat, turns: seq<Turn>, byA: bool, pn: nat, now: int, d: int)
    requires IsRun(Initial(limitA, limitB), turns)
    requires pn in Theirs(After(Initial(limitA, limitB), turns), byA).sent
    ensures RecentOpens(Mine(After(Initial(limitA, limitB), turns), byA).aead,
                        Theirs(After(Initial(limitA, limitB), turns), byA).sent[pn], pn, now, d)
  {
    InitialInv(limitA, limitB);
    RunKeepsInv(Initial(limitA, limitB), turns);
    hide *;
    RecentPacketOpens(After(Initial(limitA, limitB), turns), byA, pn, now, d);
  }

  lemma RecentPacketOpens(s: System, byA: bool, pn: nat, now: int, d: int)
    requires Inv(s) && pn in Theirs(s, byA).sent
    ensures RecentOpens(Mine(s, byA).aead, Theirs(s, byA).sent[pn], pn, now, d)
  {
    hide OpenedWith, Sealed, Received, AcksFollow, PeerWaited, Select;
    GenuinePacket(Mine(s, byA), Theirs(s, byA), pn, now, d);
  }

  /** The previous read key is kept until the peer confirms an update started here. */
  lemma PreviousKeyIsKept(limitA: nat, limitB: nat, turns: seq<Turn>, byA: bool, now: int)
    requires IsRun(Initial(limitA, limitB), turns)
    ensures var me := Mine(After(Initial(limitA, limitB), turns), byA).aead;
            me.keyPhase > 0 && me.use.firstRcvd == INVALID_PN ==> Expired(me, now).keys.prevRcv == Some(me.keyPhase - 1)
  {
    InitialInv(limitA, limitB);
    RunKeepsInv(Initial(limitA, limitB), turns);
  }

  // ------------------------------------------------------------------
  // How long the previous read key is held
  // ------------------------------------------------------------------

  lemma {:induction false} RunPrefix(s: System, turns: seq<Turn>, k: nat)
    requires IsRun(s, turns) && k <= |turns|
    ensures IsRun(s, turns[..k])
    decreases |turns|
  {
    if k > 0 {
      assert turns[..k][1..] == turns[1..][..k - 1];
      RunPrefix(Taken(s, turns[0]), turns[1..], k - 1);
    }
  }

  /** The state before the k-th turn. */
  ghost function At(s: System, turns: seq<Turn>, k: nat): System
    requires IsRun(s, turns) && k <= |turns|
  {
    RunPrefix(s, turns, k);
    After(s, turns[..k])
  }

  lemma {:induction false} AtNext(s: System, turns: seq<Turn>, k: nat)
    requires IsRun(s, turns) && k < |turns|
    ensures Possible(At(s, turns, k), turns[k]) && At(s, turns, k + 1) == Taken(At(s, turns, k), turns[k])
    decreases |turns|
  {
    hide Possible, Taken;
    RunPrefix(s, turns, k);
    RunPrefix(s, turns, k + 1);
    assert turns[..k + 1][1..] == turns[1..][..k];
    if k == 0 {
      assert turns[..1][1..] == [] && turns[..1][0] == turns[0];
      assert After(s, turns[..1]) == After(Taken(s, turns[0]), []);
    } else {
      assert turns[..k][1..] == turns[1..][..k - 1];
      AtNext(Taken(s, turns[0]), turns[1..], k - 1);
    }
  }

  /** A packet, genuine or not, is handled by one of the endpoints. */
  predicate Handles(t: Turn, byA: bool) {
    t.ByA? == byA && (t.e.Deliver? || t.e.Forge?)
  }

  /** The turn opens the first packet of a generation. */
  predicate OpensFirst(s: System, t: Turn, byA: bool, gen: nat) {
    && t.ByA? == byA && t.e.Deliver? && Possible(s, t)
    && Theirs(s, byA).sent[t.e.pn].gen == gen
    && OpenOutcome(Mine(s, byA), Theirs(s, byA), t.e) == Opened
    && forall p :: p in Mine(s, byA).seen && p in Theirs(s, byA).sent ==> Theirs(s, byA).sent[p].gen != gen
  }

  /** Since the i-th turn a packet was handled after a point in time. */
  ghost predicate HandledLate(turns: seq<Turn>, i: nat, byA: bool, limit: int) {
    exists j :: i < j < |turns| && Handles(turns[j], byA) && turns[j].e.now > limit
  }

  /** The previous read key of an endpoint that has heard from its peer in the current phase: held with a timer, or
      dropped. */
  ghost predicate KeyState(me: Endpoint, phase: nat, limit: int, dropped: bool) {
    && me.aead.keyPhase == phase > 0 && me.aead.use.firstRcvd != INVALID_PN
    && if dropped then me.aead.keys.prevRcv == None
       else me.aead.keys.prevRcv == Some(phase - 1) && me.aead.prevRcvExpiry == Some(limit)
  }

  lemma FirstPacketStartsTimer(s: System, t: Turn, byA: bool, phase: nat)
    requires Inv(s) && phase > 0 && OpensFirst(s, t, byA, phase) && Mine(Taken(s, t), byA).aead.keyPhase == phase
    ensures KeyState(Mine(Taken(s, t), byA), phase, t.e.now + t.e.dropDelay, false)
  {
    hide Sealed, AcksFollow, PeerWaited;
    GenuinePacket(Mine(s, byA), Theirs(s, byA), t.e.pn, t.e.now, t.e.dropDelay);
  }

  lemma TimerRuns(me: Endpoint, peer: Endpoint, e: Event, phase: nat, limit: int, dropped: bool)
    requires Enabled(me, peer, e) && KeyState(me, phase, limit, dropped) && Step(me, peer, e).aead.keyPhase == phase
    ensures KeyState(Step(me, peer, e), phase, limit, dropped || ((e.Deliver? || e.Forge?) && e.now > limit))
  {
  }

  lemma {:induction false} AtInv(s: System, turns: seq<Turn>, k: nat)
    requires Inv(s) && IsRun(s, turns) && k <= |turns|
    ensures Inv(At(s, turns, k))
  {
    hide Inv;
    RunPrefix(s, turns, k);
    RunKeepsInv(s, turns[..k]);
  }

  lemma PhaseOnlyRises(me: Endpoint, peer: Endpoint, e: Event)
    requires Enabled(me, peer, e)
    ensures me.aead.keyPhase <= Step(me, peer, e).aead.keyPhase
  {
  }

  lemma {:induction false} PhasesRise(s: System, turns: seq<Turn>, byA: bool, j: nat, k: nat)
    requires IsRun(s, turns) && j <= k <= |turns|
    ensures Mine(At(s, turns, j), byA).aead.keyPhase <= Mine(At(s, turns, k), byA).aead.keyPhase
    decreases k
  {
    hide At, IsRun, Enabled, Step;
    if j < k {
      PhasesRise(s, turns, byA, j, k - 1);
      AtNext(s, turns, k - 1);
      var t, c := turns[k - 1], At(s, turns, k - 1);
      if t.ByA? == byA {
        PhaseOnlyRises(Mine(c, byA), Theirs(c, byA), t.e);
      }
    }
  }

  /** The turn that opens the first packet of the phase an endpoint is in at the end. */
  ghost predicate BeginsPhase(s: System, turns: seq<Turn>, byA: bool, i: nat)
    requires IsRun(s, turns)
  {
    && i < |turns|
    && OpensFirst(At(s, turns, i), turns[i], byA, Mine(After(s, turns), byA).aead.keyPhase)
  }

  /** As long as the last phase lasts, the key is held until a packet is handled too late. */
  lemma {:induction false} HeldUntilLate(s: System, turns: seq<Turn>, byA: bool, i: nat, k: nat)
    requires Inv(s) && IsRun(s, turns) && BeginsPhase(s, turns, byA, i) && i < k <= |turns|
    requires Mine(After(s, turns), byA).aead.keyPhase > 0
    ensures var limit := turns[i].e.now + turns[i].e.dropDelay;
            KeyState(Mine(At(s, turns, k), byA), Mine(After(s, turns), byA).aead.keyPhase, limit,
                     HandledLate(turns[..k], i, byA, limit))
    decreases k
  {
    hide Inv, IsRun, At, KeyState, Step, Enabled, OpenOutcome;
    var phase, limit := Mine(After(s, turns), byA).aead.keyPhase, turns[i].e.now + turns[i].e.dropDelay;
    var c, t := At(s, turns, k - 1), turns[k - 1];
    AtNext(s, turns, k - 1);
    PhaseLasts(s, turns, byA, i, k);
    LateStep(turns, i, byA, limit, k - 1);
    if i + 1 == k {
      AtInv(s, turns, i);
      FirstPacketStartsTimer(c, t, byA, phase);
    } else {
      HeldUntilLate(s, turns, byA, i, k - 1);
      if t.ByA? == byA {
        TimerRuns(Mine(c, byA), Theirs(c, byA), t.e, phase, limit, HandledLate(turns[..k - 1], i, byA, limit));
      }
    }
  }

  lemma LateStep(turns: seq<Turn>, i: nat, byA: bool, limit: int, k: nat)
    requires i <= k < |turns|
    ensures HandledLate(turns[..k + 1], i, byA, limit) <==>
              HandledLate(turns[..k], i, byA, limit) ||
              (i < k && Handles(turns[k], byA) && turns[k].e.now > limit)
  {
    assert forall j :: 0 <= j < k ==> turns[..k + 1][j] == turns[..k][j];
    assert turns[..k + 1][k] == turns[k];
  }

  /** After its first packet was opened, the endpoint is in the phase. */
  lemma PhaseLasts(s: System, turns: seq<Turn>, byA: bool, i: nat, k: nat)
    requires Inv(s) && IsRun(s, turns) && BeginsPhase(s, turns, byA, i) && i < k <= |turns|
    ensures Mine(At(s, turns, k), byA).aead.keyPhase == Mine(After(s, turns), byA).aead.keyPhase
  {
    hide Inv, IsRun, Step, Enabled, OpenOutcome;
    AtInv(s, turns, i);
    AtNext(s, turns, i);
    OpenedIsReached(At(s, turns, i), turns[i], byA, Mine(After(s, turns), byA).aead.keyPhase);
    PhasesRise(s, turns, byA, i + 1, k);
    PhasesRise(s, turns, byA, k, |turns|);
    assert turns[..|turns|] == turns;
  }

  lemma OpenedIsReached(s: System, t: Turn, byA: bool, gen: nat)
    requires Inv(s) && OpensFirst(s, t, byA, gen)
    ensures Mine(Taken(s, t), byA).aead.keyPhase >= gen
  {
    hide Sealed, AcksFollow, PeerWaited;
    GenuinePacket(Mine(s, byA), Theirs(s, byA), t.e.pn, t.e.now, t.e.dropDelay);
  }

  /** A packet of the previous phase finds its key exactly if neither it nor any packet since was handled later than
      the drop delay after the first packet of the current phase was opened. */
  lemma PreviousPacketOpens(limitA: nat, limitB: nat, turns: seq<Turn>, byA: bool, i: nat, pn: nat, now: int, d: int)
    requires var s := Initial(limitA, limitB);
             && IsRun(s, turns) && BeginsPhase(s, turns, byA, i)
             && pn in Theirs(After(s, turns), byA).sent
             && Theirs(After(s, turns), byA).sent[pn].gen == Mine(After(s, turns), byA).aead.keyPhase - 1
    ensures var s := After(Initial(limitA, limitB), turns);
            var p, limit := Theirs(s, byA).sent[pn], turns[i].e.now + turns[i].e.dropDelay;
            AfterOpen(Mine(s, byA).aead, now, pn, p.bit, Some(p.gen), d).1 ==
            if now > limit || HandledLate(turns, i, byA, limit) then KeysDropped else Opened
  {
    var s, limit := Initial(limitA, limitB), turns[i].e.now + turns[i].e.dropDelay;
    hide *;
    InitialInv(limitA, limitB);
    RunKeepsInv(s, turns);
    LastPhase(s, turns, byA, i);
    PreviousKeyOpens(After(s, turns), byA, pn, now, d, limit, HandledLate(turns, i, byA, limit));
  }

  lemma LastPhase(s: System, turns: seq<Turn>, byA: bool, i: nat)
    requires Inv(s) && IsRun(s, turns) && BeginsPhase(s, turns, byA, i)
    requires Mine(After(s, turns), byA).aead.keyPhase > 0
    ensures var limit := turns[i].e.now + turns[i].e.dropDelay;
            KeyState(Mine(After(s, turns), byA), Mine(After(s, turns), byA).aead.keyPhase, limit,
                     HandledLate(turns, i, byA, limit))
  {
    hide Inv, KeyState, HandledLate, OpensFirst;
    HeldUntilLate(s, turns, byA, i, |turns|);
    assert turns[..|turns|] == turns;
  }

  lemma PreviousKeyOpens(s: System, byA: bool, pn: nat, now: int, d: int, limit: int, dropped: bool)
    requires Inv(s) && pn in Theirs(s, byA).sent && Theirs(s, byA).sent[pn].gen == Mine(s, byA).aead.keyPhase - 1
    requires KeyState(Mine(s, byA), Mine(s, byA).aead.keyPhase, limit, dropped)
    ensures var p := Theirs(s, byA).sent[pn];
            AfterOpen(Mine(s, byA).aead, now, pn, p.bit, Some(p.gen), d).1 ==
            if now > limit || dropped then KeysDropped else Opened
  {
    hide OpenedWith, Sealed, Received, AcksFollow, PeerWaited, Select;
    GenuinePacket(Mine(s, byA), Theirs(s, byA), pn, now, d);
  }

  /** An endpoint has opened a packet of a generation. */
  ghost predicate HeardIn(me: Endpoint, peer: Endpoint, gen: nat) {
    exists p :: p in me.seen && p in peer.sent && peer.sent[p].gen == gen
  }

  /** As long as nothing of its phase was heard, an endpoint opens the packets of the previous phase at any time. */
  lemma UnconfirmedPacketOpens(limitA: nat, limitB: nat, turns: seq<Turn>, byA: bool, pn: nat, now: int, d: int)
    requires var s := Initial(limitA, limitB);
             && IsRun(s, turns) && pn in Theirs(After(s, turns), byA).sent
             && var me, peer := Mine(After(s, turns), byA), Theirs(After(s, turns), byA);
                !HeardIn(me, peer, me.aead.keyPhase) && peer.sent[pn].gen == me.aead.keyPhase - 1
    ensures var s := After(Initial(limitA, limitB), turns);
            var p := Theirs(s, byA).sent[pn];
            AfterOpen(Mine(s, byA).aead, now, pn, p.bit, Some(p.gen), d).1 == Opened
  {
    hide *;
    InitialInv(limitA, limitB);
    RunKeepsInv(Initial(limitA, limitB), turns);
    UnconfirmedKeyOpens(After(Initial(limitA, limitB), turns), byA, pn, now, d);
  }

  lemma UnconfirmedKeyOpens(s: System, byA: bool, pn: nat, now: int, d: int)
    requires Inv(s) && pn in Theirs(s, byA).sent && Theirs(s, byA).sent[pn].gen == Mine(s, byA).aead.keyPhase - 1
    requires !HeardIn(Mine(s, byA), Theirs(s, byA), Mine(s, byA).aead.keyPhase)
    ensures var p := Theirs(s, byA).sent[pn];
            AfterOpen(Mine(s, byA).aead, now, pn, p.bit, Some(p.gen), d).1 == Opened
  {
    hide OpenedWith, Sealed, AcksFollow, PeerWaited, Select;
    GenuinePacket(Mine(s, byA), Theirs(s, byA), pn, now, d);
  }

  lemma HeardStep(s: System, t: Turn, byA: bool, gen: nat)
    requires Inv(s) && Possible(s, t)
    ensures HeardIn(Mine(Taken(s, t), byA), Theirs(Taken(s, t), byA), gen) <==>
              HeardIn(Mine(s, byA), Theirs(s, byA), gen) || OpensFirst(s, t, byA, gen)
  {
    hide Local, Sealed, AcksFollow, PeerWaited, AfterOpen;
    var me, peer, me', peer' := Mine(s, byA), Theirs(s, byA), Mine(Taken(s, t), byA), Theirs(Taken(s, t), byA);
    assert me.seen <= me'.seen && forall p :: p in peer.sent ==> p in peer'.sent && peer'.sent[p] == peer.sent[p];
    if OpensFirst(s, t, byA, gen) {
      assert t.e.pn in me'.seen && t.e.pn in peer'.sent;
    }
  }

  /** One of the first k turns has opened the first packet of a generation. */
  ghost predicate BegunBefore(s: System, turns: seq<Turn>, byA: bool, gen: nat, k: nat)
    requires IsRun(s, turns) && k <= |turns|
  {
    exists i: nat :: i < k && OpensFirst(At(s, turns, i), turns[i], byA, gen)
  }

  lemma BegunStep(s: System, turns: seq<Turn>, byA: bool, gen: nat, k: nat)
    requires IsRun(s, turns) && k < |turns|
    ensures BegunBefore(s, turns, byA, gen, k + 1) <==>
              BegunBefore(s, turns, byA, gen, k) || OpensFirst(At(s, turns, k), turns[k], byA, gen)
  {
    hide OpensFirst, At, IsRun;
  }

  lemma NothingHeard(s: System, turns: seq<Turn>, byA: bool, gen: nat)
    requires IsRun(s, turns) && Mine(s, byA).seen == {}
    ensures !HeardIn(Mine(At(s, turns, 0), byA), Theirs(At(s, turns, 0), byA), gen)
    ensures !BegunBefore(s, turns, byA, gen, 0)
  {
  }

  lemma {:induction false} HeardIsBegun(s: System, turns: seq<Turn>, byA: bool, gen: nat, k: nat)
    requires Inv(s) && IsRun(s, turns) && Mine(s, byA).seen == {} && k <= |turns|
    ensures HeardIn(Mine(At(s, turns, k), byA), Theirs(At(s, turns, k), byA), gen) <==>
              BegunBefore(s, turns, byA, gen, k)
  {
    hide *;
    if k == 0 {
      NothingHeard(s, turns, byA, gen);
    } else {
      HeardIsBegun(s, turns, byA, gen, k - 1);
      AtInv(s, turns, k - 1);
      AtNext(s, turns, k - 1);
      HeardStep(At(s, turns, k - 1), turns[k - 1], byA, gen);
      BegunStep(s, turns, byA, gen, k - 1);
    }
  }

  /** So one of the two cases always applies: an endpoint has heard in its phase if and only if some turn began it. */
  lemma PhaseHasBegun(limitA: nat, limitB: nat, turns: seq<Turn>, byA: bool)
    requires IsRun(Initial(limitA, limitB), turns)
    ensures var s := After(Initial(limitA, limitB), turns);
            HeardIn(Mine(s, byA), Theirs(s, byA), Mine(s, byA).aead.keyPhase) <==>
            exists i: nat :: BeginsPhase(Initial(limitA, limitB), turns, byA, i)
  {
    hide OpensFirst, HeardIn, IsRun;
    var s := Initial(limitA, limitB);
    InitialInv(limitA, limitB);
    assert turns[..|turns|] == turns;
    var gen := Mine(After(s, turns), byA).aead.keyPhase;
    HeardIsBegun(s, turns, byA, gen, |turns|);
    hide After;
    if BegunBefore(s, turns, byA, gen, |turns|) {
      var i: nat :| i < |turns| && OpensFirst(At(s, turns, i), turns[i], byA, gen);
      assert BeginsPhase(s, turns, byA, i);
    }
  }
}
