/** The loss detection timer: which alarm is set, and what its firing means
    (internal/ackhandler/sent_packet_handler.go).  A time is None where the source has the zero time. */
module LossTimers {
  import opened Common
  import opened SentHistory

  const AMPLIFICATION_FACTOR := 3

  const MAX_OUTSTANDING_SENT_PACKETS := 20000
  const MAX_TRACKED_SENT_PACKETS := 25000

  datatype SendMode =
    | SendNone
    | SendAck
    | SendPTOInitial
    | SendPTOHandshake
    | SendPTOAppData
    | SendPacingLimited
    | SendAny

  /** What the timer depends on in one packet number space. */
  datatype SpaceTimes = SpaceTimes(lossTime: Option<int>, lastAckEliciting: Option<int>, outstanding: bool)

  /** The spaces; the first two are None once their keys are dropped. */
  datatype Times = Times(initial: Option<SpaceTimes>, handshake: Option<SpaceTimes>, app: SpaceTimes)

  datatype Recovery = Recovery(
    alarm: Option<int>,
    ptoCount: nat,
    ptoMode: SendMode,
    numProbesToSend: nat,
    bytesSent: nat,
    bytesReceived: nat,
    peerAddressValidated: bool,
    peerCompletedAddressValidation: bool,
    handshakeConfirmed: bool)

  /** The current time and the probe timeouts, without and with the peer's maximum ACK delay. */
  datatype Clock = Clock(now: int, pto: nat, ptoWithAckDelay: nat)

  predicate Earlier(t: Option<int>, u: Option<int>) {
    t.Some? && u.Some? && t.value < u.value
  }

  function LossTimeAndSpace(t: Times): (Option<int>, Level) {
    var first := if t.initial.Some? then (t.initial.value.lossTime, InitialLevel) else (None, OneRTT);
    var second :=
      if t.handshake.Some? && (first.0.None? || Earlier(t.handshake.value.lossTime, first.0)) then
        (t.handshake.value.lossTime, HandshakeLevel)
      else first;
    if second.0.None? || Earlier(t.app.lossTime, second.0) then (t.app.lossTime, OneRTT) else second
  }

  predicate HasOutstandingCryptoPackets(t: Times) {
    (t.initial.Some? && t.initial.value.outstanding) || (t.handshake.Some? && t.handshake.value.outstanding)
  }

  predicate HasOutstandingPackets(t: Times) {
    t.app.outstanding || HasOutstandingCryptoPackets(t)
  }

  predicate IsAmplificationLimited(r: Recovery) {
    !r.peerAddressValidated && r.bytesSent >= AMPLIFICATION_FACTOR * r.bytesReceived
  }

  function After(t: Option<int>, d: nat): Option<int> {
    if t.None? then None else Some(t.value + d)
  }

  /** None if there is nothing to probe.  The level is None where the source leaves it unset. */
  function PtoTimeAndSpace(t: Times, r: Recovery, c: Clock): Option<(Option<int>, Option<Level>)> {
    if !r.handshakeConfirmed && !HasOutstandingCryptoPackets(t) then
      if r.peerCompletedAddressValidation then None
      else Some((Some(c.now + c.pto), Some(if t.initial.Some? then InitialLevel else HandshakeLevel)))
    else
      var first :=
        if t.initial.Some? then (After(t.initial.value.lastAckEliciting, c.pto), Some(InitialLevel)) else (None, None);
      var handshake := if t.handshake.Some? then After(t.handshake.value.lastAckEliciting, c.pto) else None;
      var second :=
        if handshake.Some? && (first.0.None? || Earlier(handshake, first.0))
        then (handshake, Some(HandshakeLevel))
        else first;
      var app := if r.handshakeConfirmed then After(t.app.lastAckEliciting, c.ptoWithAckDelay) else None;
      Some(if app.Some? && (second.0.None? || Earlier(app, second.0)) then (app, Some(OneRTT)) else second)
  }

  function AlarmFor(t: Times, r: Recovery, c: Clock): Option<int> {
    var lossTime := LossTimeAndSpace(t).0;
    if lossTime.Some? then lossTime
    else if IsAmplificationLimited(r) then None
    else if !HasOutstandingPackets(t) && r.peerCompletedAddressValidation then None
    else
      var pto := PtoTimeAndSpace(t, r, c);
      if pto.None? then None else pto.value.0
  }

  function ProbeMode(level: Level): SendMode {
    match level
    case InitialLevel => SendPTOInitial
    case HandshakeLevel => SendPTOHandshake
    case _ => SendPTOAppData
  }

  /** What a probe timeout requests, and for which space: without bytes in flight one probe that makes the peer
      finish its address validation, otherwise two probes in the space whose probe timeout comes first. */
  function ProbeFor(t: Times, r: Recovery, bytesInFlight: int, c: Clock): Option<(Level, nat)> {
    if bytesInFlight == 0 && !r.peerCompletedAddressValidation then
      Some((if t.initial.Some? then InitialLevel else HandshakeLevel, 1))
    else
      var pto := PtoTimeAndSpace(t, r, c);
      if pto.None? || pto.value.1.None? then None
      else
        var level := pto.value.1.value;
        var space := SpaceAt(t, level);
        if space.None? || (!space.value.outstanding && !r.peerCompletedAddressValidation) then None
        else Some((level, 2))
  }

  function Probed(r: Recovery, probe: Option<(Level, nat)>): Recovery {
    if probe.None? then r
    else
      r.(ptoCount := r.ptoCount + 1,
         numProbesToSend := r.numProbesToSend + probe.value.1,
         ptoMode := ProbeMode(probe.value.0))
  }

  // ------------------------------------------------------------------
  // What the timer guarantees
  // ------------------------------------------------------------------

  ghost predicate SpaceTimesOk(s: SpaceTimes) {
    s.lossTime.Some? || s.outstanding ==> s.lastAckEliciting.Some?
  }

  ghost predicate TimesOk(t: Times) {
    && (t.initial.Some? ==> SpaceTimesOk(t.initial.value))
    && (t.handshake.Some? ==> SpaceTimesOk(t.handshake.value))
    && SpaceTimesOk(t.app)
  }

  /** Whoever has dropped its handshake keys no longer waits for address validation, and the handshake is confirmed
      only after the keys of both early spaces were dropped. */
  ghost predicate StageOk(t: Times, r: Recovery) {
    && (t.handshake.None? ==> r.peerCompletedAddressValidation)
    && (r.handshakeConfirmed ==> t.initial.None? && t.handshake.None?)
  }

  /** Probes are still to be sent only in a space that is there and whose acknowledgements can be read. */
  ghost predicate ProbesOk(r: Recovery, hasInitial: bool, hasHandshake: bool) {
    r.numProbesToSend > 0 ==>
      match r.ptoMode
      case SendPTOInitial => hasInitial
      case SendPTOHandshake => hasHandshake
      case SendPTOAppData => r.handshakeConfirmed
      case _ => false
  }

  /** After the handshake is confirmed, an alarm is set only if there is a time to probe from. */
  ghost predicate AlarmOk(t: Times, r: Recovery) {
    r.alarm.Some? && r.handshakeConfirmed ==> t.app.lastAckEliciting.Some?
  }

  function SpaceAt(t: Times, l: Level): Option<SpaceTimes> {
    match l
    case InitialLevel => t.initial
    case HandshakeLevel => t.handshake
    case ZeroRTT => Some(t.app)
    case OneRTT => Some(t.app)
  }

  /** The order in which the spaces are looked at. */
  function Rank(l: Level): nat {
    match l
    case InitialLevel => 0
    case HandshakeLevel => 1
    case ZeroRTT => 2
    case OneRTT => 2
  }

  /** The earliest loss time wins, and its space is there; of two equal ones, the earlier space wins. */
  lemma EarliestLossTime(t: Times)
    ensures var (time, level) := LossTimeAndSpace(t);
            && (time.None? <==> forall l :: SpaceAt(t, l).Some? ==> SpaceAt(t, l).value.lossTime.None?)
            && (time.Some? ==>
                  && SpaceAt(t, level).Some? && SpaceAt(t, level).value.lossTime == time
                  && (forall l :: SpaceAt(t, l).Some? ==> !Earlier(SpaceAt(t, l).value.lossTime, time))
                  && (forall l ::
                        SpaceAt(t, l).Some? && Rank(l) < Rank(level) ==> SpaceAt(t, l).value.lossTime != time))
  {
    assert SpaceAt(t, InitialLevel) == t.initial && SpaceAt(t, HandshakeLevel) == t.handshake && SpaceAt(t, OneRTT) ==
             Some(t.app);
  }

  /** The alarm that is set keeps `AlarmOk`. */
  lemma AlarmIsOk(t: Times, r: Recovery, c: Clock)
    requires TimesOk(t) && StageOk(t, r)
    ensures AlarmOk(t, r.(alarm := AlarmFor(t, r, c)))
  {
  }

  /** The alarm does not depend on the one that was set before. */
  lemma AlarmIsFresh(t: Times, r: Recovery, a: Option<int>, c: Clock)
    ensures AlarmFor(t, r.(alarm := a), c) == AlarmFor(t, r, c)
  {
  }

  /** When the alarm fires and no loss time is set, there is nothing to probe or the space to probe is there. */
  lemma ProbeIsPossible(t: Times, r: Recovery, c: Clock)
    requires TimesOk(t) && StageOk(t, r) && AlarmOk(t, r) && r.alarm.Some?
    ensures var pto := PtoTimeAndSpace(t, r, c);
            pto.None? || (pto.value.1.Some? && pto.value.1.value != ZeroRTT && SpaceAt(t, pto.value.1.value).Some?)
  {
  }

  /** The time at which a packet number space would be probed; application data is probed only after the handshake is
      confirmed. */
  ghost function ProbeTime(t: Times, r: Recovery, c: Clock, l: Level): Option<int> {
    var space := SpaceAt(t, l);
    if l == ZeroRTT || (l == OneRTT && !r.handshakeConfirmed) || space.None? || space.value.lastAckEliciting.None?
    then None
    else Some(space.value.lastAckEliciting.value + if l == OneRTT then c.ptoWithAckDelay else c.pto)
  }

  /** No space would be probed before this one; of two equal times, the one of the earlier space counts. */
  ghost predicate ComesFirst(t: Times, r: Recovery, c: Clock, level: Level) {
    var time := ProbeTime(t, r, c, level);
    && time.Some?
    && forall l ::
         !Earlier(ProbeTime(t, r, c, l), time) && (Rank(l) < Rank(level) ==> ProbeTime(t, r, c, l) != time)
  }

  ghost predicate IsEarliestProbe(t: Times, r: Recovery, c: Clock, time: Option<int>, level: Option<Level>) {
    && (time.None? <==> forall l :: ProbeTime(t, r, c, l).None?)
    && (time.Some? ==>
          level.Some? && ProbeTime(t, r, c, level.value) == time && ComesFirst(t, r, c, level.value))
  }

  /** The space with the earliest probe time is probed; without outstanding crypto packets and before the handshake
      is confirmed, a client that waits for its address to be validated probes one timeout from now, and nobody else
      does. */
  lemma EarliestProbe(t: Times, r: Recovery, c: Clock)
    ensures var pto := PtoTimeAndSpace(t, r, c);
            if r.handshakeConfirmed || HasOutstandingCryptoPackets(t) then
              pto.Some? && IsEarliestProbe(t, r, c, pto.value.0, pto.value.1)
            else if r.peerCompletedAddressValidation then pto.None?
            else pto == Some((Some(c.now + c.pto), Some(if t.initial.Some? then InitialLevel else HandshakeLevel)))
  {
    assert ProbeTime(t, r, c, InitialLevel) ==
             (if t.initial.Some? then After(t.initial.value.lastAckEliciting, c.pto) else None);
    assert ProbeTime(t, r, c, HandshakeLevel) ==
             (if t.handshake.Some? then After(t.handshake.value.lastAckEliciting, c.pto) else None);
    assert ProbeTime(t, r, c, OneRTT) ==
             (if r.handshakeConfirmed then After(t.app.lastAckEliciting, c.ptoWithAckDelay) else None);
  }

  /** A timeout is counted and asks for `n` probes in a space. */
  ghost predicate Requests(r: Recovery, r': Recovery, level: Level, n: nat) {
    && r' == r.(ptoCount := r.ptoCount + 1, numProbesToSend := r.numProbesToSend + n, ptoMode := r'.ptoMode)
    && (r'.ptoMode == SendPTOInitial <==> level == InitialLevel)
    && (r'.ptoMode == SendPTOHandshake <==> level == HandshakeLevel)
    && (r'.ptoMode == SendPTOAppData <==> level == OneRTT)
  }

  /** What is requested when the alarm fires and no packet is overdue.  Who has nothing in flight and waits for its
      address to be validated sends one probe, in the first space that is left.  Otherwise two probes are sent in the
      space that would be probed first, unless all its packets were acknowledged and the address validation is still
      awaited; if there is no such space, nothing is requested. */
  lemma ProbeRequested(t: Times, r: Recovery, bytesInFlight: int, c: Clock)
    requires TimesOk(t) && StageOk(t, r) && AlarmOk(t, r) && r.alarm.Some?
    ensures var r' := Probed(r, ProbeFor(t, r, bytesInFlight, c));
            if bytesInFlight == 0 && !r.peerCompletedAddressValidation then
              Requests(r, r', if t.initial.Some? then InitialLevel else HandshakeLevel, 1)
            else if !r.handshakeConfirmed && !HasOutstandingCryptoPackets(t) then r' == r
            else
              exists level :: ComesFirst(t, r, c, level) &&
                if SpaceAt(t, level).value.outstanding || r.peerCompletedAddressValidation
                then Requests(r, r', level, 2) else r' == r
  {
    EarliestProbe(t, r, c);
    ProbeIsPossible(t, r, c);
    var pto := PtoTimeAndSpace(t, r, c);
    if r.handshakeConfirmed || HasOutstandingCryptoPackets(t) {
      assert ProbeTime(t, r, c, if r.handshakeConfirmed then OneRTT else
                       if t.initial.Some? && t.initial.value.outstanding then InitialLevel else HandshakeLevel).Some?;
      assert ComesFirst(t, r, c, pto.value.1.value);
    }
  }

  /** The probes that are requested can be sent. */
  lemma ProbesStayOk(t: Times, r: Recovery, bytesInFlight: int, c: Clock)
    requires TimesOk(t) && StageOk(t, r) && AlarmOk(t, r) && r.alarm.Some?
    requires ProbesOk(r, t.initial.Some?, t.handshake.Some?)
    ensures ProbesOk(Probed(r, ProbeFor(t, r, bytesInFlight, c)), t.initial.Some?, t.handshake.Some?)
  {
    ProbeIsPossible(t, r, c);
  }

  /** Packets are outstanding whose acknowledgements can be read. */
  ghost predicate AwaitsAck(t: Times, r: Recovery, l: Level) {
    SpaceAt(t, l).Some? && SpaceAt(t, l).value.outstanding &&
    (l in {InitialLevel, HandshakeLevel} || r.handshakeConfirmed)
  }

  /** When an alarm is set: a packet may be overdue; or the peer may be sent to, and its address validation is
      awaited, or packets are outstanding that may be probed.  So whenever an acknowledgement is awaited that can
      come, its loss is noticed. */
  lemma AlarmExactly(t: Times, r: Recovery, c: Clock)
    requires TimesOk(t) && StageOk(t, r)
    ensures AlarmFor(t, r, c).Some? <==>
              || LossTimeAndSpace(t).0.Some?
              || (!IsAmplificationLimited(r) && (!r.peerCompletedAddressValidation || exists l :: AwaitsAck(t, r, l)))
    ensures LossTimeAndSpace(t).0.Some? ==> AlarmFor(t, r, c) == LossTimeAndSpace(t).0
  {
    assert AwaitsAck(t, r, InitialLevel) <==> t.initial.Some? && t.initial.value.outstanding;
    assert AwaitsAck(t, r, HandshakeLevel) <==> t.handshake.Some? && t.handshake.value.outstanding;
    assert AwaitsAck(t, r, OneRTT) <==> r.handshakeConfirmed && t.app.outstanding;
  }
}
