/** The 1-RTT key update of section 6 of RFC 9001, as implemented by
    internal/handshake/updatable_aead.go.

    The AEAD is ideal: a ciphertext opens exactly under the key generation that
    sealed it, and a forged ciphertext opens under none.  A key is therefore
    identified with its generation number, and deriving the next traffic secret
    adds one.
  */
module KeyUpdate {
  import opened Common

  /** protocol.InvalidPacketNumber */
  const INVALID_PN := -1

  const KEY_UPDATE_INTERVAL: nat := 100 * 1000
  const FIRST_KEY_UPDATE_INTERVAL: nat := 100

  type Generation = nat

  datatype OpenResult =
    | Opened
    | KeysDropped
    | DecryptionFailed
    | KeyUpdateError
    | AeadLimitReached

  /** The read and write keys held at one time. */
  datatype Keys = Keys(
    prevRcv: Option<Generation>,
    rcv: Generation,
    send: Generation,
    nextRcv: Generation,
    nextSend: Generation
  )

  /** What is recorded about the current key phase; every roll starts afresh. */
  datatype Use = Use(firstRcvd: int, firstSent: int, numRcvd: nat, numSent: nat)

  /** The fields of updatableAEAD. */
  datatype Aead = Aead(
    keyPhase: nat,
    largestAcked: int,
    firstPacketNumber: int,
    handshakeConfirmed: bool,
    invalidPacketLimit: nat,
    invalidPacketCount: nat,
    prevRcvExpiry: Option<int>,
    highestRcvdPN: int,
    keys: Keys,
    use: Use
  )

  function KeyPhaseBit(phase: nat): bool {
    phase % 2 == 1
  }

  /** Opening under an ideal AEAD; `seal` is the generation that sealed the ciphertext, if any did. */
  predicate Opens(key: Generation, seal: Option<Generation>) {
    seal == Some(key)
  }

  // ------------------------------------------------------------------
  // What each operation does to the state
  // ------------------------------------------------------------------

  const UNUSED := Use(INVALID_PN, INVALID_PN, 0, 0)

  function Fresh(limit: nat): Aead {
    Aead(0, INVALID_PN, INVALID_PN, false, limit, 0, None, 0, Keys(None, 0, 0, 1, 1), UNUSED)
  }

  function RolledKeys(k: Keys): Keys {
    Keys(Some(k.rcv), k.nextRcv, k.nextSend, k.nextRcv + 1, k.nextSend + 1)
  }

  function Rolled(s: Aead): Aead {
    s.(prevRcvExpiry := if s.keys.prevRcv.Some? then None else s.prevRcvExpiry,
       keyPhase := s.keyPhase + 1,
       keys := RolledKeys(s.keys),
       use := UNUSED)
  }

  /** The previous read key is gone once its timer has run out. */
  function Expired(s: Aead, now: int): Aead {
    if s.keys.prevRcv.Some? && s.prevRcvExpiry.Some? && now > s.prevRcvExpiry.value
    then s.(keys := s.keys.(prevRcv := None), prevRcvExpiry := None)
    else s
  }

  /** Which of the three read keys a header selects. */
  datatype Selection = Previous | Current | Next

  function Select(s: Aead, pn: int, bit: bool): Selection {
    if bit == KeyPhaseBit(s.keyPhase) then Current
    else if (s.keyPhase > 0 && s.use.firstRcvd == INVALID_PN) || pn < s.use.firstRcvd then Previous
    else Next
  }

  /** `open`, after expired keys were dropped. */
  function OpenedWith(s: Aead, now: int, pn: int, bit: bool, seal: Option<Generation>, dropDelay: int)
    : (Aead, OpenResult)
  {
    match Select(s, pn, bit)
    case Previous =>
      if s.keys.prevRcv.None? then (s, KeysDropped)
      else (s, if Opens(s.keys.prevRcv.value, seal) then Opened else DecryptionFailed)
    case Next =>
      if !Opens(s.keys.nextRcv, seal) then (s, DecryptionFailed)
      else if s.keyPhase > 0 && s.use.firstSent == INVALID_PN then (s, KeyUpdateError)
      else (Rolled(s).(prevRcvExpiry := Some(now + dropDelay), use := UNUSED.(firstRcvd := pn)), Opened)
    case Current =>
      if !Opens(s.keys.rcv, seal) then (s, DecryptionFailed)
      else if s.use.firstRcvd != INVALID_PN then
        (s.(use := s.use.(numRcvd := s.use.numRcvd + 1)), Opened)
      else
        (s.(prevRcvExpiry := if s.keyPhase > 0 then Some(now + dropDelay) else s.prevRcvExpiry,
            use := s.use.(numRcvd := s.use.numRcvd + 1, firstRcvd := pn)), Opened)
  }

  function AfterOpen(s: Aead, now: int, pn: int, bit: bool, seal: Option<Generation>, dropDelay: int)
    : (Aead, OpenResult)
  {
    var (s1, r) := OpenedWith(Expired(s, now), now, pn, bit, seal, dropDelay);
    match r
    case DecryptionFailed =>
      var s2 := s1.(invalidPacketCount := s1.invalidPacketCount + 1);
      (s2, if s2.invalidPacketCount >= s2.invalidPacketLimit then AeadLimitReached else DecryptionFailed)
    case Opened =>
      (s1.(highestRcvdPN := if pn > s1.highestRcvdPN then pn else s1.highestRcvdPN), Opened)
    case _ => (s1, r)
  }

  function AfterSeal(s: Aead, pn: int): Aead {
    s.(use := s.use.(firstSent := if s.use.firstSent == INVALID_PN then pn else s.use.firstSent,
                     numSent := s.use.numSent + 1),
       firstPacketNumber := if s.firstPacketNumber == INVALID_PN then pn else s.firstPacketNumber)
  }

  predicate AckIsTooEarly(s: Aead, pn: int) {
    s.use.firstSent != INVALID_PN && pn >= s.use.firstSent && s.use.numRcvd == 0
  }

  function AfterAck(s: Aead, pn: int): Aead {
    if AckIsTooEarly(s, pn) then s else s.(largestAcked := pn)
  }

  predicate UpdateAllowed(s: Aead) {
    s.handshakeConfirmed &&
    (s.keyPhase == 0 ||
     (s.use.firstSent != INVALID_PN && s.largestAcked != INVALID_PN && s.largestAcked >= s.use.firstSent))
  }

  predicate ShouldInitiate(s: Aead) {
    UpdateAllowed(s) &&
    ((s.keyPhase == 0 && (s.use.numRcvd >= FIRST_KEY_UPDATE_INTERVAL || s.use.numSent >= FIRST_KEY_UPDATE_INTERVAL)) ||
     s.use.numRcvd >= KEY_UPDATE_INTERVAL ||
     s.use.numSent >= KEY_UPDATE_INTERVAL)
  }

  function AfterKeyPhase(s: Aead): Aead {
    if ShouldInitiate(s) then Rolled(s) else s
  }

  // ------------------------------------------------------------------
  // Runs within a key phase
  // ------------------------------------------------------------------

  /** What happens between two updates; no other operation changes what an update depends on. */
  datatype Operation =
    | Sealing(pn: int)
    | Opening(now: int, rcvd: int, bit: bool, seal: Option<Generation>, dropDelay: int)
    | Acking(acked: int)
    | Confirming

  function AfterOne(s: Aead, o: Operation): Aead {
    match o
    case Sealing(pn) => AfterSeal(s, pn)
    case Opening(now, pn, bit, seal, dropDelay) => AfterOpen(s, now, pn, bit, seal, dropDelay).0
    case Acking(pn) => AfterAck(s, pn)
    case Confirming => s.(handshakeConfirmed := true)
  }

  function AfterAll(s: Aead, ops: seq<Operation>): Aead {
    if ops == [] then s else AfterOne(AfterAll(s, ops[..|ops| - 1]), ops[|ops| - 1])
  }

  /** The number of the first packet that is sealed. */
  function FirstSealed(ops: seq<Operation>): int {
    if ops == [] then INVALID_PN
    else
      var first, last := FirstSealed(ops[..|ops| - 1]), ops[|ops| - 1];
      if first == INVALID_PN && last.Sealing? then last.pn else first
  }

  /** The number in the last acknowledgement that is accepted. */
  function LastAcked(s: Aead, ops: seq<Operation>): int {
    if ops == [] then s.largestAcked
    else
      var front, last := ops[..|ops| - 1], ops[|ops| - 1];
      if last.Acking? && !AckIsTooEarly(AfterAll(s, front), last.acked) then last.acked else LastAcked(s, front)
  }

  /** A packet is sealed with a number that is above the one that was acknowledged last. */
  predicate NumbersAscend(s: Aead, ops: seq<Operation>) {
    ops != [] ==>
      var front, last := ops[..|ops| - 1], ops[|ops| - 1];
      NumbersAscend(s, front) && (last.Sealing? ==> last.pn > LastAcked(s, front) && last.pn >= 0)
  }

  /** The handshake is confirmed exactly if the object was told so. */
  lemma {:induction false} ConfirmedExactly(s: Aead, ops: seq<Operation>)
    ensures AfterAll(s, ops).handshakeConfirmed <==> s.handshakeConfirmed || Confirming in ops
  {
    if ops != [] {
      var front, last := ops[..|ops| - 1], ops[|ops| - 1];
      ConfirmedExactly(s, front);
      assert ops == front + [last];
      ConfirmedStep(AfterAll(s, front), last);
    }
  }

  lemma ConfirmedStep(s: Aead, o: Operation)
    ensures AfterOne(s, o).handshakeConfirmed <==> s.handshakeConfirmed || o == Confirming
  {
  }

  /** The first update is allowed exactly if the handshake is confirmed. */
  lemma FirstUpdateNeedsConfirmation(limit: nat, ops: seq<Operation>)
    ensures AfterAll(Fresh(limit), ops).keyPhase == 0 ==>
              (UpdateAllowed(AfterAll(Fresh(limit), ops)) <==> Confirming in ops)
  {
    ConfirmedExactly(Fresh(limit), ops);
  }

  lemma PhaseGrows(s: Aead, o: Operation)
    ensures s.keyPhase <= AfterOne(s, o).keyPhase
    ensures AfterOne(s, o).keyPhase == s.keyPhase && !o.Sealing? ==> AfterOne(s, o).use.firstSent == s.use.firstSent
    ensures AfterOne(s, o).keyPhase == s.keyPhase ==> s.use.numRcvd <= AfterOne(s, o).use.numRcvd
    ensures !o.Acking? ==> AfterOne(s, o).largestAcked == s.largestAcked
  {
  }

  /** What is known in the phase s after some operations within it. */
  lemma {:induction false} WithinPhase(s: Aead, ops: seq<Operation>)
    requires s.keyPhase > 0 && s.use.firstSent == INVALID_PN && NumbersAscend(s, ops)
    ensures var t := AfterAll(s, ops);
            && s.keyPhase <= t.keyPhase && t.largestAcked == LastAcked(s, ops)
            && (t.keyPhase == s.keyPhase ==>
                  && t.use.firstSent == FirstSealed(ops)
                  && (FirstSealed(ops) != INVALID_PN && LastAcked(s, ops) >= FirstSealed(ops) ==> t.use.numRcvd > 0))
  {
    if ops != [] {
      var front, last := ops[..|ops| - 1], ops[|ops| - 1];
      WithinPhase(s, front);
      PhaseGrows(AfterAll(s, front), last);
      hide AfterOpen;
    }
  }

  /** After an update, by whichever side, the next one is allowed exactly if the handshake is confirmed and the last
      acknowledgement that was accepted covers a packet that was sent since; and this needs a packet of the new phase
      from the peer. */
  lemma UpdatesNeedAcks(s: Aead, ops: seq<Operation>)
    requires s.keyPhase > 0 && s.use.firstSent == INVALID_PN && NumbersAscend(s, ops)
    requires AfterAll(s, ops).keyPhase == s.keyPhase
    ensures var t := AfterAll(s, ops);
            && (UpdateAllowed(t) <==>
                  (s.handshakeConfirmed || Confirming in ops) && FirstSealed(ops) != INVALID_PN &&
                  FirstSealed(ops) <= LastAcked(s, ops) != INVALID_PN)
            && (UpdateAllowed(t) ==> t.use.numRcvd > 0)
  {
    WithinPhase(s, ops);
    ConfirmedExactly(s, ops);
  }

  /** When an update is allowed, it happens with the first packet that is sent after enough packets were sent or
      received; the first update needs fewer. */
  lemma UpdateIsDue(s: Aead)
    requires UpdateAllowed(s)
    ensures var most := Max(s.use.numRcvd, s.use.numSent);
            var interval := if s.keyPhase == 0 then FIRST_KEY_UPDATE_INTERVAL else KEY_UPDATE_INTERVAL;
            AfterKeyPhase(s).keyPhase == s.keyPhase + if most >= interval then 1 else 0
  {
  }

  // ------------------------------------------------------------------
  // What is counted
  // ------------------------------------------------------------------

  function SealedCount(ops: seq<Operation>): nat {
    if ops == [] then 0 else SealedCount(ops[..|ops| - 1]) + if ops[|ops| - 1].Sealing? then 1 else 0
  }

  predicate OpensCurrent(s: Aead, o: Operation) {
    o.Opening? && o.bit == KeyPhaseBit(s.keyPhase) && Opens(s.keys.rcv, o.seal)
  }

  /** The packets of the current phase that are opened. */
  function OpenedCount(s: Aead, ops: seq<Operation>): nat {
    if ops == [] then 0
    else
      var front, last := ops[..|ops| - 1], ops[|ops| - 1];
      OpenedCount(s, front) + if OpensCurrent(AfterAll(s, front), last) then 1 else 0
  }

  /** The key that the header selects is held and does not fit. */
  predicate Fails(s: Aead, o: Operation) {
    o.Opening? && OpenedWith(Expired(s, o.now), o.now, o.rcvd, o.bit, o.seal, o.dropDelay).1 == DecryptionFailed
  }

  function FailedCount(s: Aead, ops: seq<Operation>): nat {
    if ops == [] then 0
    else
      var front, last := ops[..|ops| - 1], ops[|ops| - 1];
      FailedCount(s, front) + if Fails(AfterAll(s, front), last) then 1 else 0
  }

  /** The highest number of a packet that was opened. */
  function HighestOpened(s: Aead, ops: seq<Operation>): int {
    if ops == [] then s.highestRcvdPN
    else
      var front, last := ops[..|ops| - 1], ops[|ops| - 1];
      if IsOpened(AfterAll(s, front), last) then Max(HighestOpened(s, front), last.rcvd) else HighestOpened(s, front)
  }

  predicate IsOpened(s: Aead, o: Operation) {
    o.Opening? && AfterOpen(s, o.now, o.rcvd, o.bit, o.seal, o.dropDelay).1 == Opened
  }

  lemma StepCounts(s: Aead, o: Operation)
    ensures var t := AfterOne(s, o);
            && t.invalidPacketCount == s.invalidPacketCount + (if Fails(s, o) then 1 else 0)
            && t.invalidPacketLimit == s.invalidPacketLimit
            && t.highestRcvdPN == (if IsOpened(s, o) then Max(s.highestRcvdPN, o.rcvd) else s.highestRcvdPN)
            && t.firstPacketNumber ==
               if s.firstPacketNumber == INVALID_PN && o.Sealing? then o.pn else s.firstPacketNumber
  {
  }

  lemma StepUse(s: Aead, o: Operation)
    ensures var t := AfterOne(s, o);
            t.keyPhase == s.keyPhase ==>
              && t.use.numSent == s.use.numSent + (if o.Sealing? then 1 else 0)
              && t.use.numRcvd == s.use.numRcvd + (if OpensCurrent(s, o) then 1 else 0)
              && t.use.firstSent == if s.use.firstSent == INVALID_PN && o.Sealing? then o.pn else s.use.firstSent
  {
  }

  /** In every run the counters count what they are meant to: the packets that could not be opened, and the highest
      number that was; and, as long as the phase does not change, the packets that were sealed and opened in it, and the
      first number that was sealed. */
  lemma {:induction false} Counts(s: Aead, ops: seq<Operation>)
    ensures var t := AfterAll(s, ops);
            && t.invalidPacketCount == s.invalidPacketCount + FailedCount(s, ops)
            && t.invalidPacketLimit == s.invalidPacketLimit
            && t.highestRcvdPN == HighestOpened(s, ops)
            && t.firstPacketNumber ==
               (if s.firstPacketNumber == INVALID_PN then FirstSealed(ops) else s.firstPacketNumber)
            && s.keyPhase <= t.keyPhase
            && (t.keyPhase == s.keyPhase ==>
                  && t.use.numSent == s.use.numSent + SealedCount(ops)
                  && t.use.numRcvd == s.use.numRcvd + OpenedCount(s, ops)
                  && t.use.firstSent == if s.use.firstSent == INVALID_PN then FirstSealed(ops) else s.use.firstSent)
  {
    if ops != [] {
      var front, last := ops[..|ops| - 1], ops[|ops| - 1];
      Counts(s, front);
      StepCounts(AfterAll(s, front), last);
      StepUse(AfterAll(s, front), last);
      PhaseGrows(AfterAll(s, front), last);
      hide AfterOne, Fails, OpensCurrent, IsOpened;
    }
  }

  /** The connection is given up exactly with the packet that makes the limit of failures full. */
  lemma LimitReachedExactly(limit: nat, ops: seq<Operation>, o: Operation)
    requires o.Opening?
    ensures var t := AfterAll(Fresh(limit), ops);
            AfterOpen(t, o.now, o.rcvd, o.bit, o.seal, o.dropDelay).1 == AeadLimitReached <==>
            Fails(t, o) && FailedCount(Fresh(limit), ops + [o]) >= limit
  {
    Counts(Fresh(limit), ops);
    assert (ops + [o])[..|ops|] == ops;
  }

  /** An allowed update happens with the first packet that is sent after enough packets of the phase were sealed or
      opened. */
  lemma UpdateHappens(s: Aead, ops: seq<Operation>)
    requires s.use.numSent == s.use.numRcvd == 0 && AfterAll(s, ops).keyPhase == s.keyPhase
    requires UpdateAllowed(AfterAll(s, ops))
    ensures var interval := if s.keyPhase == 0 then 100 else 100000;
            AfterKeyPhase(AfterAll(s, ops)).keyPhase ==
            s.keyPhase + if Max(SealedCount(ops), OpenedCount(s, ops)) >= interval then 1 else 0
  {
    Counts(s, ops);
    UpdateIsDue(AfterAll(s, ops));
  }

  lemma {:induction false} NothingSealed(ops: seq<Operation>)
    requires forall o :: o in ops && o.Sealing? ==> o.pn >= 0
    ensures FirstSealed(ops) == INVALID_PN <==> SealedCount(ops) == 0
    ensures FirstSealed(ops) >= INVALID_PN
  {
    if ops != [] {
      NothingSealed(ops[..|ops| - 1]);
    }
  }

  /** The peer's next update is an error exactly if it comes before anything was sealed in the phase, so that the peer
      cannot have seen an answer to its last one. */
  lemma TooQuickExactly(s: Aead, ops: seq<Operation>, now: int, pn: int, dropDelay: int)
    requires s.use.firstSent == INVALID_PN && forall o :: o in ops && o.Sealing? ==> o.pn >= 0
    requires var t := AfterAll(s, ops);
             t.keyPhase == s.keyPhase && (t.keyPhase == 0 || t.use.firstRcvd != INVALID_PN) && pn >= t.use.firstRcvd
    ensures var t := AfterAll(s, ops);
            AfterOpen(t, now, pn, !KeyPhaseBit(t.keyPhase), Some(t.keys.nextRcv), dropDelay).1 ==
            if s.keyPhase > 0 && SealedCount(ops) == 0 then KeyUpdateError else Opened
  {
    Counts(s, ops);
    NothingSealed(ops);
  }

  // ------------------------------------------------------------------
  // The object
  // ------------------------------------------------------------------

  class UpdatableAead {
    var keyPhase: nat
    var largestAcked: int
    var firstPacketNumber: int
    var handshakeConfirmed: bool
    var invalidPacketLimit: nat
    var invalidPacketCount: nat
    var prevRcvExpiry: Option<int>
    var highestRcvdPN: int
    var keys: Keys
    var use: Use

    function State(): Aead
      reads this
    {
      Aead(keyPhase, largestAcked, firstPacketNumber, handshakeConfirmed, invalidPacketLimit, invalidPacketCount,
           prevRcvExpiry, highestRcvdPN, keys, use)
    }

    constructor (limit: nat)
      ensures State() == Fresh(limit)
    {
      keyPhase, handshakeConfirmed := 0, false;
      largestAcked, firstPacketNumber, highestRcvdPN := INVALID_PN, INVALID_PN, 0;
      invalidPacketLimit, invalidPacketCount := limit, 0;
      prevRcvExpiry := None;
      keys, use := Keys(None, 0, 0, 1, 1), UNUSED;
    }

    method RollKeys()
      modifies this
      ensures State() == Rolled(old(State()))
    {
      if keys.prevRcv.Some? {
        prevRcvExpiry := None;
      }
      keyPhase := keyPhase + 1;
      use := Use(INVALID_PN, INVALID_PN, 0, 0);
      keys := keys.(prevRcv := Some(keys.rcv), rcv := keys.nextRcv, send := keys.nextSend);
      keys := keys.(nextRcv := keys.nextRcv + 1, nextSend := keys.nextSend + 1);
    }

    /** `dropDelay` is three times the PTO. */
    method StartKeyDropTimer(now: int, dropDelay: int)
      modifies this`prevRcvExpiry
      ensures prevRcvExpiry == Some(now + dropDelay)
    {
      prevRcvExpiry := Some(now + dropDelay);
    }

    /** The key phase bit is not that of the current phase. */
    method OpenOtherPhase(now: int, pn: int, bit: bool, seal: Option<Generation>, dropDelay: int)
      returns (r: OpenResult)
      requires bit != KeyPhaseBit(keyPhase)
      modifies this
      ensures (State(), r) == OpenedWith(old(State()), now, pn, bit, seal, dropDelay)
    {
      if (keyPhase > 0 && use.firstRcvd == INVALID_PN) || pn < use.firstRcvd {
        if keys.prevRcv.None? {
          return KeysDropped;
        }
        if !Opens(keys.prevRcv.value, seal) {
          return DecryptionFailed;
        }
        return Opened;
      }
      if !Opens(keys.nextRcv, seal) {
        return DecryptionFailed;
      }
      if keyPhase > 0 && use.firstSent == INVALID_PN {
        return KeyUpdateError;
      }
      RollKeys();
      StartKeyDropTimer(now, dropDelay);
      use := use.(firstRcvd := pn);
      return Opened;
    }

    method OpenCurrentPhase(now: int, pn: int, bit: bool, seal: Option<Generation>, dropDelay: int)
      returns (r: OpenResult)
      requires bit == KeyPhaseBit(keyPhase)
      modifies this
      ensures (State(), r) == OpenedWith(old(State()), now, pn, bit, seal, dropDelay)
    {
      if !Opens(keys.rcv, seal) {
        return DecryptionFailed;
      }
      use := use.(numRcvd := use.numRcvd + 1);
      if use.firstRcvd == INVALID_PN {
        if keyPhase > 0 {
          StartKeyDropTimer(now, dropDelay);
        }
        use := use.(firstRcvd := pn);
      }
      return Opened;
    }

    method OpenUncounted(now: int, pn: int, bit: bool, seal: Option<Generation>, dropDelay: int) returns (r: OpenResult)
      modifies this
      ensures (State(), r) == OpenedWith(Expired(old(State()), now), now, pn, bit, seal, dropDelay)
    {
      hide OpenedWith;
      if keys.prevRcv.Some? && prevRcvExpiry.Some? && now > prevRcvExpiry.value {
        keys := keys.(prevRcv := None);
        prevRcvExpiry := None;
      }
      if bit != KeyPhaseBit(keyPhase) {
        r := OpenOtherPhase(now, pn, bit, seal, dropDelay);
      } else {
        r := OpenCurrentPhase(now, pn, bit, seal, dropDelay);
      }
    }

    method Open(now: int, pn: int, bit: bool, seal: Option<Generation>, dropDelay: int) returns (r: OpenResult)
      modifies this
      ensures (State(), r) == AfterOpen(old(State()), now, pn, bit, seal, dropDelay)
    {
      r := OpenUncounted(now, pn, bit, seal, dropDelay);
      if r == DecryptionFailed {
        invalidPacketCount := invalidPacketCount + 1;
        if invalidPacketCount >= invalidPacketLimit {
          return AeadLimitReached;
        }
      }
      if r == Opened {
        highestRcvdPN := if pn > highestRcvdPN then pn else highestRcvdPN;
      }
    }

    /** The returned generation is the one the packet is sealed under. */
    method Seal(pn: int) returns (gen: Generation)
      modifies this
      ensures State() == AfterSeal(old(State()), pn) && gen == old(keys.send)
    {
      if use.firstSent == INVALID_PN {
        use := use.(firstSent := pn);
      }
      if firstPacketNumber == INVALID_PN {
        firstPacketNumber := pn;
      }
      use := use.(numSent := use.numSent + 1);
      gen := keys.send;
    }

    /** False stands for KEY_UPDATE_ERROR. */
    method SetLargestAcked(pn: int) returns (ok: bool)
      modifies this`largestAcked
      ensures State() == AfterAck(old(State()), pn)
      ensures ok == !AckIsTooEarly(old(State()), pn)
    {
      if use.firstSent != INVALID_PN && pn >= use.firstSent && use.numRcvd == 0 {
        return false;
      }
      largestAcked := pn;
      return true;
    }

    method SetHandshakeConfirmed()
      modifies this`handshakeConfirmed
      ensures State() == old(State()).(handshakeConfirmed := true)
    {
      handshakeConfirmed := true;
    }

    method ShouldInitiateKeyUpdate() returns (yes: bool)
      ensures yes == ShouldInitiate(State())
    {
      var allowed := UpdateAllowed(State());
      if !allowed {
        return false;
      }
      if keyPhase == 0 {
        if use.numRcvd >= FIRST_KEY_UPDATE_INTERVAL || use.numSent >= FIRST_KEY_UPDATE_INTERVAL {
          return true;
        }
      }
      if use.numRcvd >= KEY_UPDATE_INTERVAL {
        return true;
      }
      return use.numSent >= KEY_UPDATE_INTERVAL;
    }

    method KeyPhase() returns (bit: bool)
      modifies this
      ensures State() == AfterKeyPhase(old(State()))
      ensures bit <==> keyPhase % 2 == 1
    {
      var initiate := ShouldInitiateKeyUpdate();
      if initiate {
        RollKeys();
      }
      bit := KeyPhaseBit(keyPhase);
    }
  }
}
