/** Whole runs of the exchange of connection IDs: frames are lost, reordered and duplicated in any way. */
module ConnIdRuns {
  import opened Common
  import opened ConnIdManagers
  import opened ConnIdGenerators
  import opened ConnIdExchange

  datatype Event =
    | Issue(ids: seq<ConnID>)
    | Announce(seqNum: nat, r1: nat)
    | HandshakeComplete
    | UseConnID(r2: nat)
    | SendRetire(index: nat, r3: nat)
    | DeliverRetire(packet: RetirePacket, id: ConnID)

  /** What an event has for a result.  `Using` and `Sent` tell the number in use; `Refused` and `Violation` are
      errors. */
  datatype Outcome =
    | Quiet
    | Learned
    | Refused
    | Using(n: nat)
    | Sent(packet: RetirePacket, n: nat)
    | Accepted
    | Violation

  function Record(v: View, e: Event, o: Outcome): View {
    match e
    case Issue(ids) => Issued(v, ids)
    case Announce(n, _) => if o.Learned? then v.(learned := v.learned + {n}) else v
    case HandshakeComplete => v.(complete := true)
    case UseConnID(_) => if o.Using? then v.(active := o.n) else v
    case SendRetire(_, _) => if o.Sent? then v.(active := o.n, packets := v.packets + {o.packet}) else v
    case DeliverRetire(p, id) => if o.Accepted? then Retiring(v, p.seqNum, id) else v
  }

  /** Which results are right.  Whatever was issued is learned when it is announced, without an error.  The peer goes
      from one number to the next, and leaves the first one as soon as it can.  A retirement that is sent is that of
      a number left behind, in a packet to another connection ID, and is accepted without an error. */
  ghost predicate Right(v: View, e: Event, o: Outcome) {
    match e
    case Issue(_) => o == Quiet
    case Announce(n, _) => o == if 0 < n < |v.issued| then Learned else Quiet
    case HandshakeComplete => o == Quiet
    case UseConnID(_) => o.Using? && IsNextActive(v, o.n) && (v.complete && Waiting(v) != {} ==> o.n != 0)
    case SendRetire(index, _) =>
      || (o == Quiet && index >= |RetiredIn(v)|)
      || (o.Sent? && o.packet.seqNum in RetiredIn(v) && IsNextActive(v, o.n) && o.n < |v.issued| &&
          o.packet.dest == v.issued[o.n])
    case DeliverRetire(p, id) => o == if p in v.packets && id !in v.issued then Accepted else Quiet
  }

  ghost function After(id: ConnID, events: seq<Event>, out: seq<Outcome>, k: nat): View
    requires k <= |events| && k <= |out|
  {
    if k == 0 then View([id], {0}, {0}, 0, {}, false)
    else Record(After(id, events, out, k - 1), events[k - 1], out[k - 1])
  }

  lemma {:induction false} AfterPrefix(id: ConnID, events: seq<Event>, out: seq<Outcome>, o: Outcome, k: nat)
    requires k <= |events| && k <= |out|
    ensures After(id, events, out + [o], k) == After(id, events, out, k)
  {
    if k > 0 {
      AfterPrefix(id, events, out, o, k - 1);
    }
  }

  ghost predicate StepRight(id: ConnID, events: seq<Event>, out: seq<Outcome>, i: nat)
    requires i < |events| && i < |out|
  {
    Right(After(id, events, out, i), events[i], out[i]) && ViewOk(After(id, events, out, i + 1))
  }

  lemma OneMoreRight(id: ConnID, events: seq<Event>, out: seq<Outcome>, o: Outcome)
    requires |out| < |events| && forall i :: 0 <= i < |out| ==> StepRight(id, events, out, i)
    requires var v := After(id, events, out, |out|); Right(v, events[|out|], o) && ViewOk(Record(v, events[|out|], o))
    ensures forall i :: 0 <= i <= |out| ==> StepRight(id, events, out + [o], i)
    ensures After(id, events, out + [o], |out| + 1) == Record(After(id, events, out, |out|), events[|out|], o)
  {
    hide Right, Record, ViewOk;
    var out' := out + [o];
    AfterPrefix(id, events, out, o, |out|);
    forall i | 0 <= i <= |out| ensures StepRight(id, events, out', i) {
      AfterPrefix(id, events, out, o, i);
      if i < |out| {
        assert StepRight(id, events, out, i);
        AfterPrefix(id, events, out, o, i + 1);
      }
    }
  }

  ghost function SetOf(s: seq<nat>): set<nat> {
    set n | n in s
  }

  lemma {:induction false} SetOfSeq(s: seq<nat>)
    ensures |SetOf(s)| <= |s|
  {
    if s != [] {
      var k := |s| - 1;
      SetOfSeq(s[..k]);
      assert s == s[..k] + [s[k]];
      assert SetOf(s) == SetOf(s[..k]) + {s[k]};
    }
  }

  method HandleRetire(x: Exchange, e: Event) returns (o: Outcome)
    requires x.Valid() && (e.SendRetire? || e.DeliverRetire?)
    modifies x, x.g, x.m
    ensures x.Valid() && Right(old(x.Seen()), e, o) && x.Seen() == Record(old(x.Seen()), e, o)
  {
    hide Exchange.Valid, IsNextActive;
    o := Quiet;
    if e.SendRetire? {
      x.SeenPartition();
      SetOfSeq(x.m.retireFrames);
      assert x.m.Retired() == SetOf(x.m.retireFrames);
      if e.index < |x.m.retireFrames| {
        var p := x.DoSendRetire(e.index, e.r3);
        o := Sent(p, x.m.active.seqNum);
      }
    } else if e.packet in x.packets && e.id !in x.g.issued {
      var r := x.DoRetire(e.packet, e.id);
      o := if r == Done then Accepted else Violation;
    }
  }

  method Handle(x: Exchange, e: Event) returns (o: Outcome)
    requires x.Valid()
    modifies x, x.g, x.m
    ensures x.Valid() && Right(old(x.Seen()), e, o) && x.Seen() == Record(old(x.Seen()), e, o)
  {
    hide Exchange.Valid, IsNextActive, Issued;
    o := Quiet;
    match e
    case Issue(ids) => x.DoIssue(ids);
    case Announce(n, random) =>
      x.FramesAnnounce();
      if 0 < n <= |x.g.frames| {
        var r := x.DoAnnounce(n, random);
        o := if r == Added then Learned else Refused;
      }
    case HandshakeComplete => x.DoCompleteHandshake();
    case UseConnID(random) =>
      var _ := x.DoUse(random);
      o := Using(x.m.active.seqNum);
    case SendRetire(_, _) => o := HandleRetire(x, e);
    case DeliverRetire(_, _) => o := HandleRetire(x, e);
  }

  /** Every result of every script is right, so no error is ever raised on either side, and every state is as it
      should be. */
  method Run(id: ConnID, events: seq<Event>) returns (out: seq<Outcome>)
    ensures |out| == |events| && forall i :: 0 <= i < |events| ==> StepRight(id, events, out, i)
  {
    hide Exchange.Valid, Right, Record, ViewOk, StepRight;
    var x := new Exchange(id);
    out := [];
    for n := 0 to |events|
      invariant x.Valid() && fresh(x) && fresh(x.g) && fresh(x.m)
      invariant |out| == n && x.Seen() == After(id, events, out, n)
      invariant forall i :: 0 <= i < n ==> StepRight(id, events, out, i)
    {
      var o := Handle(x, events[n]);
      x.ValidIsOk();
      OneMoreRight(id, events, out, o);
      out := out + [o];
    }
  }
}
