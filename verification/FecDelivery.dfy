/** A sender, a channel that loses and reorders, and a receiver.

    The channel delivers each source symbol at most once; packet numbers see to that in the real protocol.  Repair
    symbols may even be delivered several times.  `Outcome` says, without any XOR, what the protocol achieves. */
module FecDelivery {
  import opened Common
  import opened Xor
  import opened FecBlocks
  import opened FecManagers

  datatype Event =
    | Send(payload: Payload)
    | DeliverSource(ssid: nat)
    | DeliverRepair(blockID: nat)

  /** What was sent, which source symbols were delivered, which payloads were passed up, which blocks are finished. */
  datatype Progress = Progress(sent: seq<Payload>, delivered: set<nat>, passed: set<nat>, finished: set<nat>)

  function SymbolsOf(b: nat, k: nat): set<nat> {
    Range(b * k, k)
  }

  /** A source symbol is passed up when it arrives before its block is finished; a repair symbol finishes a block of
      which at most one symbol is missing, and with it that symbol is passed up. */
  function Next(p: Progress, k: nat, e: Event): Progress
    requires k > 0
  {
    match e
    case Send(payload) => p.(sent := p.sent + [payload])
    case DeliverSource(s) =>
      if s >= |p.sent| || s in p.delivered then p
      else if s / k in p.finished then p.(delivered := p.delivered + {s})
      else
        p.(delivered := p.delivered + {s},
           passed := p.passed + {s},
           finished := if SymbolsOf(s / k, k) <= p.passed + {s} then p.finished + {s / k} else p.finished)
    case DeliverRepair(b) =>
      if !Complete(p.sent, b, k) || b in p.finished || |SymbolsOf(b, k) * p.passed| < k - 1 then p
      else p.(passed := p.passed + SymbolsOf(b, k), finished := p.finished + {b})
  }

  function Outcome(events: seq<Event>, k: nat): Progress
    requires k > 0
  {
    if events == [] then Progress([], {}, {}, {})
    else Next(Outcome(events[..|events| - 1], k), k, events[|events| - 1])
  }

  lemma BlockIndex(s: nat, b: nat, k: nat)
    requires k > 0
    ensures s in SymbolsOf(b, k) <==> s / k == b
  {
    hide Range;
    var q := s / k;
    Quotient(s, q, k);
    if q < b {
      Multiples(q + 1, b, k);
    } else if q > b {
      Multiples(b + 1, q, k);
    }
  }

  lemma Quotient(s: nat, q: nat, k: nat)
    requires k > 0 && q == s / k
    ensures q * k <= s < q * k + k && (q + 1) * k == q * k + k
  {
  }

  lemma Multiples(a: nat, b: nat, k: nat)
    requires 0 < a <= b
    ensures a * k <= b * k && a * k == (a - 1) * k + k
  {
  }

  /** The payloads of a block, as far as they were sent. */
  function BlockOf(sent: seq<Payload>, b: nat, k: nat): map<nat, Payload> {
    map s | s in SymbolsOf(b, k) && s < |sent| :: sent[s]
  }

  predicate Complete(sent: seq<Payload>, b: nat, k: nat) {
    (b + 1) * k <= |sent|
  }

  lemma CompleteBlock(sent: seq<Payload>, b: nat, k: nat)
    requires k > 0
    ensures Complete(sent, b, k) <==> BlockOf(sent, b, k).Keys == SymbolsOf(b, k)
    ensures |BlockOf(sent, b, k)| <= k && (|BlockOf(sent, b, k)| == k <==> Complete(sent, b, k))
  {
    assert (b + 1) * k == b * k + k;
    var last := b * k + k - 1;
    assert last in SymbolsOf(b, k);
    RangeSize(b * k, k);
    SubsetSize(BlockOf(sent, b, k).Keys, SymbolsOf(b, k));
    assert |BlockOf(sent, b, k)| == |BlockOf(sent, b, k).Keys|;
  }

  lemma SendGrowsBlock(sent: seq<Payload>, x: Payload, b: nat, k: nat)
    requires k > 0
    ensures |sent| / k != b ==> BlockOf(sent + [x], b, k) == BlockOf(sent, b, k)
    ensures |sent| / k != b ==> (Complete(sent + [x], b, k) <==> Complete(sent, b, k))
    ensures |sent| / k == b ==> BlockOf(sent + [x], b, k) == BlockOf(sent, b, k)[|sent| := x] && !Complete(sent, b, k)
  {
    BlockIndex(|sent|, b, k);
    CompleteBlock(sent, b, k);
    CompleteBlock(sent + [x], b, k);
  }

  // ------------------------------------------------------------------
  // What holds between the events
  // ------------------------------------------------------------------

  /** The sender keeps a block until it is complete. */
  ghost predicate SenderView(v: View, sent: seq<Payload>, b: nat, k: nat) {
    if Complete(sent, b, k) then v == Done
    else v.Holding? && v.source == BlockOf(sent, b, k) && v.repair == map[] && v.biggest <= MAX_FEC_PACKET_BUFFER_SIZE
  }

  /** For every complete block, and only for those, there is its repair frame. */
  ghost predicate RepairsOk(repairs: map<nat, RepairFrame>, sent: seq<Payload>, k: nat) {
    && (forall b :: b in repairs <==> Complete(sent, b, k))
    && (forall b :: b in repairs ==> repairs[b].blockID == b && IsRepairOf(repairs[b], k, BlockOf(sent, b, k)))
  }

  /** The receiver holds exactly the symbols that were passed up of a block that is not finished. */
  ghost predicate ReceiverView(v: View, repairs: map<nat, RepairFrame>, p: Progress, b: nat, k: nat) {
    && (v == Done <==> b in p.finished)
    && (v.Holding? ==>
          && v.source.Keys == SymbolsOf(b, k) * p.passed
          && (forall s :: s in v.source ==> s < |p.sent| && v.source[s] == p.sent[s])
          && !(SymbolsOf(b, k) <= p.passed)
          && (v.repair == map[] ||
              (b in repairs && v.repair == map[0 := repairs[b].payload] &&
               v.biggest == |repairs[b].payload| - REPAIR_PAYLOAD_METADATA_LEN)))
  }

  ghost predicate ProgressOk(p: Progress, k: nat)
    requires k > 0
  {
    && (forall s :: s in p.passed ==> s < |p.sent| && (s in p.delivered || s / k in p.finished))
    && (forall b :: b in p.finished ==> SymbolsOf(b, k) <= p.passed)
  }

  /** Every payload that was passed up is logged once, with the bytes that were sent. */
  ghost predicate LogOk(log: seq<SourceSymbolFrame>, p: Progress) {
    && (forall i, j :: 0 <= i < j < |log| ==> log[i].ssid != log[j].ssid)
    && (forall i :: 0 <= i < |log| ==>
                      log[i].ssid in p.passed && log[i].ssid < |p.sent| && log[i].payload == p.sent[log[i].ssid])
    && (forall s :: s in p.passed ==> exists i :: 0 <= i < |log| && log[i].ssid == s)
  }

  lemma LogGrows(log: seq<SourceSymbolFrame>, p: Progress, p': Progress, f: SourceSymbolFrame)
    requires LogOk(log, p) && f.ssid !in p.passed && p'.passed == p.passed + {f.ssid} && p'.sent == p.sent
    requires f.ssid < |p.sent| && f.payload == p.sent[f.ssid]
    ensures LogOk(log + [f], p')
  {
    var log' := log + [f];
    forall s | s in p'.passed ensures exists i :: 0 <= i < |log'| && log'[i].ssid == s {
      if s == f.ssid {
        assert log'[|log|] == f;
      } else {
        var i :| 0 <= i < |log| && log[i].ssid == s;
        assert log'[i] == log[i];
      }
    }
  }

  lemma PassedCount(b: nat, k: nat, passed: set<nat>)
    ensures |SymbolsOf(b, k) * passed| <= k
    ensures |SymbolsOf(b, k) * passed| == k <==> SymbolsOf(b, k) <= passed
  {
    RangeSize(b * k, k);
    PartSize(SymbolsOf(b, k), passed);
  }

  lemma PartSize(all: set<nat>, passed: set<nat>)
    ensures |all * passed| <= |all| && (|all * passed| == |all| <==> all <= passed)
  {
    SubsetSize(all * passed, all);
    if all <= passed {
      assert all * passed == all;
    }
  }

  lemma SourceProgress(p: Progress, k: nat, s: nat)
    requires k > 0 && ProgressOk(p, k)
    requires s < |p.sent| && s !in p.delivered && s / k !in p.finished
    ensures s !in p.passed && ProgressOk(Next(p, k, DeliverSource(s)), k)
  {
  }

  /** A source symbol arrives in a block that is not finished. */
  lemma SourceArrives(v: View, repairs: map<nat, RepairFrame>, p: Progress, k: nat, f: SourceSymbolFrame)
    requires k > 0 && RepairsOk(repairs, p.sent, k)
    requires f.ssid < |p.sent| && f.ssid !in p.delivered && f.payload == p.sent[f.ssid] && f.ssid / k !in p.finished
    requires f.ssid !in p.passed && ReceiverView(v, repairs, p, f.ssid / k, k)
    ensures v.Holding?
    ensures var p', v' := Next(p, k, DeliverSource(f.ssid)), WithSource(v, f);
            ReceiverView(if |v'.source| == k then Done else v', repairs, p', f.ssid / k, k)
  {
    hide XorAll, SymbolsOf, Complete, IsRepairOf, BlockOf;
    var b, p', v' := f.ssid / k, Next(p, k, DeliverSource(f.ssid)), WithSource(v, f);
    BlockIndex(f.ssid, b, k);
    assert v'.source.Keys == SymbolsOf(b, k) * p'.passed;
    assert |v'.source| == |v'.source.Keys|;
    PassedCount(b, k, p'.passed);
    BlockHas(p.sent, b, k, f.ssid);
    if v.repair != map[] {
      RepairFits(repairs[b], k, BlockOf(p.sent, b, k), f.ssid);
    }
  }

  lemma BlockHas(sent: seq<Payload>, b: nat, k: nat, s: nat)
    requires k > 0 && s < |sent| && s / k == b
    ensures s in BlockOf(sent, b, k) && BlockOf(sent, b, k)[s] == sent[s]
  {
  }

  lemma SourceNext(p: Progress, k: nat, s: nat)
    requires k > 0 && s < |p.sent| && s !in p.delivered
    ensures var p' := Next(p, k, DeliverSource(s));
            && p'.sent == p.sent && p'.delivered == p.delivered + {s}
            && if s / k in p.finished then p' == p.(delivered := p.delivered + {s}) else p'.passed == p.passed + {s}
  {
  }

  lemma RepairFits(f: RepairFrame, k: nat, full: map<nat, Payload>, s: nat)
    requires IsRepairOf(f, k, full) && s in full
    ensures |full[s]| <= |f.payload| - REPAIR_PAYLOAD_METADATA_LEN
  {
  }

  /** The other blocks do not notice. */
  lemma OtherBlock(v: View, repairs: map<nat, RepairFrame>, p: Progress, p': Progress, k: nat, b: nat, c: nat)
    requires k > 0 && ReceiverView(v, repairs, p, c, k) && b != c
    requires p'.sent == p.sent && p.passed <= p'.passed <= p.passed + SymbolsOf(b, k)
    requires p.finished <= p'.finished <= p.finished + {b}
    ensures ReceiverView(v, repairs, p', c, k)
  {
    forall s | s in SymbolsOf(c, k) ensures s in p'.passed <==> s in p.passed {
      BlockIndex(s, b, k);
      BlockIndex(s, c, k);
    }
    assert SymbolsOf(c, k) * p'.passed == SymbolsOf(c, k) * p.passed;
  }

  /** What the receiver knows of a complete block agrees with what was sent. */
  lemma KnownPart(v: View, repairs: map<nat, RepairFrame>, p: Progress, k: nat, b: nat)
    requires k > 0 && RepairsOk(repairs, p.sent, k) && b in repairs && ReceiverView(v, repairs, p, b, k)
    ensures IsPartOf(v, repairs[b], BlockOf(p.sent, b, k)) && BlockOf(p.sent, b, k).Keys == SymbolsOf(b, k)
  {
    hide SymbolsOf, Complete, IsRepairOf;
    CompleteBlock(p.sent, b, k);
  }

  /** A repair symbol arrives when its block is finished, or when two or more source symbols are missing. */
  lemma RepairWaits(v: View, repairs: map<nat, RepairFrame>, p: Progress, k: nat, b: nat)
    requires k > 0 && RepairsOk(repairs, p.sent, k) && b in repairs && ReceiverView(v, repairs, p, b, k)
    requires v == Done || |v.source| + 1 < k
    ensures Next(p, k, DeliverRepair(b)) == p
    ensures v.Holding? ==> ReceiverView(WithRepair(v, repairs[b]), repairs, p, b, k)
  {
    hide SymbolsOf, IsRepairOf;
    if v.Holding? {
      assert |v.source| == |v.source.Keys|;
      RepairKnown(repairs, p.sent, k, b);
      RepairArrived(v, repairs[b], BlockOf(p.sent, b, k)) by { KnownPart(v, repairs, p, k, b); }
    }
  }

  lemma SomethingMissing(v: View, repairs: map<nat, RepairFrame>, p: Progress, k: nat, b: nat)
    requires v.Holding? && ReceiverView(v, repairs, p, b, k)
    ensures v.source.Keys != SymbolsOf(b, k)
  {
  }

  /** One more payload is passed up, with the bytes that were sent. */
  ghost predicate PassesUp(p: Progress, p': Progress, s: nat, payload: Payload, k: nat)
    requires k > 0
  {
    && s !in p.passed && s < |p.sent| && payload == p.sent[s]
    && p'.passed == p.passed + {s} && p'.sent == p.sent && p'.delivered == p.delivered
    && ProgressOk(p', k)
  }

  /** A repair symbol arrives and one source symbol is missing: that one is passed up, and the block is finished. */
  lemma RepairFinishes(v: View, repairs: map<nat, RepairFrame>, p: Progress, k: nat, b: nat, s: nat)
    requires k > 0 && ProgressOk(p, k) && Complete(p.sent, b, k) && ReceiverView(v, repairs, p, b, k)
    requires v.Holding? && |v.source| + 1 >= k
    requires s in BlockOf(p.sent, b, k) && v.source.Keys == SymbolsOf(b, k) - {s}
    ensures PassesUp(p, Next(p, k, DeliverRepair(b)), s, BlockOf(p.sent, b, k)[s], k)
    ensures ReceiverView(Done, repairs, Next(p, k, DeliverRepair(b)), b, k)
  {
    hide SymbolsOf, Complete, ProgressOk;
    assert |v.source| == |v.source.Keys|;
    RepairProgress(p, k, b);
    OneMore(SymbolsOf(b, k), p.passed, s);
  }

  lemma OneMore(all: set<nat>, passed: set<nat>, s: nat)
    requires s in all && all * passed == all - {s}
    ensures s !in passed && passed + all == passed + {s}
  {
    assert s !in all * passed;
    forall x | x in all && x != s ensures x in passed {
      assert x in all * passed;
    }
  }

  lemma RepairProgress(p: Progress, k: nat, b: nat)
    requires k > 0 && ProgressOk(p, k) && Complete(p.sent, b, k)
    ensures ProgressOk(p.(passed := p.passed + SymbolsOf(b, k), finished := p.finished + {b}), k)
  {
    CompleteBlock(p.sent, b, k);
    hide SymbolsOf, Complete;
    forall x | x in SymbolsOf(b, k) ensures x < |p.sent| && x / k == b {
      BlockIndex(x, b, k);
      assert x in BlockOf(p.sent, b, k);
    }
  }

  /** Sending extends one block of the sender. */
  lemma SendKeepsSenderView(v: View, sent: seq<Payload>, x: Payload, b: nat, k: nat)
    requires k > 0 && SenderView(v, sent, b, k) && b != |sent| / k
    ensures SenderView(v, sent + [x], b, k)
  {
    SendGrowsBlock(sent, x, b, k);
  }

  lemma SendKeepsRepairs(repairs: map<nat, RepairFrame>, sent: seq<Payload>, x: Payload, k: nat)
    requires k > 0 && RepairsOk(repairs, sent, k) && !Complete(sent + [x], |sent| / k, k)
    ensures RepairsOk(repairs, sent + [x], k)
  {
    hide IsRepairOf, Complete, BlockOf;
    forall b: nat {
      SendGrowsBlock(sent, x, b, k);
    }
  }

  /** The sender adds a source symbol to the block it is filling. */
  lemma SendFills(v: View, sent: seq<Payload>, x: Payload, k: nat)
    requires k > 0 && SenderView(v, sent, |sent| / k, k) && |x| <= MAX_FEC_PACKET_BUFFER_SIZE
    ensures v.Holding? && v.repair == map[]
    ensures var v', full := WithSource(v, SourceSymbolFrame(|sent|, x)), BlockOf(sent + [x], |sent| / k, k);
            && v'.Holding? && v'.source == full && v'.repair == map[] && v'.biggest <= MAX_FEC_PACKET_BUFFER_SIZE
            && |full| <= k && (|full| == k <==> Complete(sent + [x], |sent| / k, k))
            && (|full| == k ==> full.Keys == SymbolsOf(|sent| / k, k))
            && SenderView(if |full| == k then Done else v', sent + [x], |sent| / k, k)
  {
    hide SymbolsOf, Complete;
    SendGrowsBlock(sent, x, |sent| / k, k);
    CompleteBlock(sent + [x], |sent| / k, k);
  }

  lemma MadeRepair(f: RepairFrame, k: nat, full: map<nat, Payload>, longest: nat)
    requires full.Keys == SymbolsOf(f.blockID, k) && Fit(full, longest) && longest <= MAX_FEC_PACKET_BUFFER_SIZE
    requires f.parityID == 0 && f.payload == XorAll(full, f.blockID * k, k, longest)
    ensures IsRepairOf(f, k, full)
  {
  }

  lemma SendAddsRepair(repairs: map<nat, RepairFrame>, sent: seq<Payload>, x: Payload, k: nat, f: RepairFrame)
    requires k > 0 && RepairsOk(repairs, sent, k) && Complete(sent + [x], |sent| / k, k)
    requires f.blockID == |sent| / k && IsRepairOf(f, k, BlockOf(sent + [x], |sent| / k, k))
    ensures RepairsOk(repairs[f.blockID := f], sent + [x], k) && f.blockID !in repairs
  {
    hide IsRepairOf, Complete, BlockOf;
    forall b: nat {
      SendGrowsBlock(sent, x, b, k);
    }
  }

  lemma SendKeepsReceiverView(v: View, repairs: map<nat, RepairFrame>, repairs': map<nat, RepairFrame>, p: Progress,
                              x: Payload, b: nat, k: nat)
    requires ReceiverView(v, repairs, p, b, k)
    requires forall c :: c in repairs ==> c in repairs' && repairs'[c] == repairs[c]
    ensures ReceiverView(v, repairs', p.(sent := p.sent + [x]), b, k)
  {
  }

  lemma SendKeepsLog(log: seq<SourceSymbolFrame>, p: Progress, x: Payload, k: nat)
    requires k > 0 && LogOk(log, p) && ProgressOk(p, k)
    ensures LogOk(log, p.(sent := p.sent + [x])) && ProgressOk(p.(sent := p.sent + [x]), k)
  {
  }

  lemma RepairKnown(repairs: map<nat, RepairFrame>, sent: seq<Payload>, k: nat, b: nat)
    requires RepairsOk(repairs, sent, k)
    ensures b in repairs <==> Complete(sent, b, k)
    ensures b in repairs ==>
              repairs[b].blockID == b && repairs[b].parityID == 0 && IsRepairOf(repairs[b], k, BlockOf(sent, b, k))
  {
    hide XorAll, Range, Fit;
  }

  lemma DoneIsFinished(v: View, repairs: map<nat, RepairFrame>, p: Progress, b: nat, k: nat)
    requires ReceiverView(v, repairs, p, b, k)
    ensures v == Done <==> b in p.finished
  {
  }

  /** Only the views, not the record of what was delivered, decide what is passed up. */
  lemma LateSource(v: View, repairs: map<nat, RepairFrame>, p: Progress, b: nat, k: nat, s: nat)
    requires ReceiverView(v, repairs, p, b, k)
    ensures ReceiverView(v, repairs, p.(delivered := p.delivered + {s}), b, k)
  {
  }

  lemma LateLog(log: seq<SourceSymbolFrame>, p: Progress, k: nat, s: nat)
    requires k > 0 && LogOk(log, p) && ProgressOk(p, k)
    ensures var p' := p.(delivered := p.delivered + {s}); LogOk(log, p') && ProgressOk(p', k)
  {
  }

  lemma SourceElsewhere(v: View, repairs: map<nat, RepairFrame>, p: Progress, k: nat, s: nat, c: nat)
    requires k > 0 && ReceiverView(v, repairs, p, c, k) && c != s / k && s / k !in p.finished
    requires s < |p.sent| && s !in p.delivered
    ensures ReceiverView(v, repairs, Next(p, k, DeliverSource(s)), c, k)
  {
    BlockIndex(s, s / k, k);
    hide SymbolsOf, ReceiverView;
    OtherBlock(v, repairs, p, Next(p, k, DeliverSource(s)), k, s / k, c);
  }

  lemma RepairElsewhere(v: View, repairs: map<nat, RepairFrame>, p: Progress, k: nat, b: nat, c: nat)
    requires k > 0 && ReceiverView(v, repairs, p, c, k) && c != b
    ensures ReceiverView(v, repairs, Next(p, k, DeliverRepair(b)), c, k)
  {
    hide SymbolsOf, ReceiverView;
    OtherBlock(v, repairs, p, Next(p, k, DeliverRepair(b)), k, b, c);
  }

  // ------------------------------------------------------------------
  // The two managers and the channel between them
  // ------------------------------------------------------------------

  class Link {
    const k: nat
    const sender: Manager
    const receiver: Manager

    var sent: seq<Payload>
    var repairs: map<nat, RepairFrame>
    var delivered: set<nat>
    var out: seq<Payload>

    ghost var log: seq<SourceSymbolFrame>
    ghost var p: Progress

    constructor (k: nat)
      requires k > 0
      ensures this.k == k && Apart() && Valid() && p == Outcome([], k)
      ensures fresh(sender) && fresh(receiver) && fresh(sender.Blocks()) && fresh(receiver.Blocks())
    {
      this.k := k;
      sender := new Manager(k, 1);
      receiver := new Manager(k, 1);
      sent, repairs, delivered, out := [], map[], {}, [];
      log, p := [], Progress([], {}, {}, {});
    }

    ghost predicate Apart()
      reads sender`statuses, sender.Blocks(), receiver`statuses, receiver.Blocks()
    {
      && sender != receiver && sender.Blocks() !! receiver.Blocks()
      && sender.Valid() && receiver.Valid()
      && sender.numTotSourceSymbols == k && sender.numTotRepairSymbols == 1
      && receiver.numTotSourceSymbols == k && receiver.numTotRepairSymbols == 1
    }

    ghost predicate SenderOk(sent: seq<Payload>)
      reads sender`statuses, sender.Blocks()
    {
      forall b: nat :: SenderView(sender.ViewOf(b), sent, b, k)
    }

    ghost predicate ReceiverOk(repairs: map<nat, RepairFrame>, p: Progress)
      reads receiver`statuses, receiver.Blocks()
    {
      forall b: nat :: ReceiverView(receiver.ViewOf(b), repairs, p, b, k)
    }

    ghost predicate Valid()
      reads this, sender, sender.Blocks(), receiver, receiver.Blocks()
    {
      && k > 0 && sender.nextSID == |sent| && sent == p.sent && delivered == p.delivered
      && SenderOk(sent) && RepairsOk(repairs, sent, k)
      && ReceiverOk(repairs, p) && ProgressOk(p, k)
      && LogOk(log, p) && IsPayloads(out, log)
    }

    /** The sender numbers a payload and adds it to its block; a block that is complete yields its repair frame. */
    method Emit(x: Payload) returns (frames: seq<RepairFrame>)
      requires Apart() && k > 0 && sender.nextSID == |sent| && SenderOk(sent) && |x| <= MAX_FEC_PACKET_BUFFER_SIZE
      modifies sender, sender.Blocks()
      ensures Apart() && sender.nextSID == |sent| + 1 && SenderOk(sent + [x])
      ensures fresh(sender.Blocks() - old(sender.Blocks()))
      ensures frames == [] <==> !Complete(sent + [x], |sent| / k, k)
      ensures frames != [] ==> |frames| == 1 && frames[0].blockID == |sent| / k
      ensures frames != [] ==> IsRepairOf(frames[0], k, BlockOf(sent + [x], |sent| / k, k))
    {
      hide SenderView, BlockOf, IsRepairOf, WithSource, Manager.BlockOk, SymbolsOf, Complete, XorAll;
      var sid := sender.NextSSID();
      ghost var v, full := sender.ViewOf(sid / k), BlockOf(sent + [x], sid / k, k);
      SendFills(v, sent, x, k);
      label before:
      var r := sender.AddSourceSymbolFrame(SourceSymbolFrame(sid, x));
      frames := r.frames;
      if frames != [] {
        MadeRepair(frames[0], k, full, WithSource(v, SourceSymbolFrame(sid, x)).biggest);
      }
      forall b: nat | b != sid / k {
        SendKeepsSenderView(old@before(sender.ViewOf(b)), sent, x, b, k);
      }
    }

    method DoSend(x: Payload)
      requires Apart() && Valid() && |x| <= MAX_FEC_PACKET_BUFFER_SIZE
      modifies this, sender, sender.Blocks()
      ensures Apart() && Valid() && p == Next(old(p), k, Send(x))
      ensures fresh(sender.Blocks() - old(sender.Blocks())) && receiver.Blocks() == old(receiver.Blocks())
    {
      hide SenderView, ReceiverView, RepairsOk, BlockOf, IsRepairOf, SymbolsOf, Complete, LogOk, ProgressOk;
      hide Manager.Valid, Manager.ViewOf;
      SendKeepsLog(log, p, x, k);
      var frames := Emit(x);
      var repairs' := repairs;
      if frames == [] {
        SendKeepsRepairs(repairs, sent, x, k);
      } else {
        SendAddsRepair(repairs, sent, x, k, frames[0]);
        repairs' := repairs[frames[0].blockID := frames[0]];
      }
      forall b: nat {
        SendKeepsReceiverView(receiver.ViewOf(b), repairs, repairs', p, x, b, k);
      }
      assert ReceiverOk(repairs', Next(p, k, Send(x)));
      hide SenderOk, ReceiverOk;
      sent, repairs, p := sent + [x], repairs', Next(p, k, Send(x));
    }

    /** The receiver handles a source symbol. */
    method HandleSource(s: nat) returns (payload: Option<Payload>)
      requires Apart() && k > 0 && RepairsOk(repairs, p.sent, k) && ReceiverOk(repairs, p) && ProgressOk(p, k)
      requires s < |sent| && sent == p.sent && s !in p.delivered
      modifies receiver, receiver.Blocks()
      ensures Apart() && ReceiverOk(repairs, Next(p, k, DeliverSource(s)))
      ensures fresh(receiver.Blocks() - old(receiver.Blocks()))
      ensures payload.None? <==> s / k in p.finished
      ensures payload.Some? ==>
                payload.value == p.sent[s] && s !in p.passed && ProgressOk(Next(p, k, DeliverSource(s)), k)
    {
      hide ReceiverView, RepairsOk, SymbolsOf, ProgressOk, Manager.Valid, Manager.ViewOf, WithSource;
      var f := SourceSymbolFrame(s, sent[s]);
      DoneIsFinished(receiver.ViewOf(s / k), repairs, p, s / k, k);
      payload := receiver.HandleSourceSymbolFrame(f);
      if payload.Some? {
        SourceProgress(p, k, s);
        SourceArrives(old(receiver.ViewOf(s / k)), repairs, p, k, f);
        forall b: nat | b != s / k {
          SourceElsewhere(old(receiver.ViewOf(b)), repairs, p, k, s, b);
        }
      } else {
        forall b: nat {
          LateSource(old(receiver.ViewOf(b)), repairs, p, b, k, s);
        }
      }
    }

    /** A source symbol reaches the receiver. */
    method DeliverSourceSymbol(s: nat)
      requires Apart() && Valid() && s < |sent| && s !in delivered
      modifies this, receiver, receiver.Blocks()
      ensures Apart() && Valid() && p == Next(old(p), k, DeliverSource(s))
      ensures fresh(receiver.Blocks() - old(receiver.Blocks())) && sender.Blocks() == old(sender.Blocks())
    {
      hide SenderView, ReceiverView, RepairsOk, Next, LogOk, ProgressOk, Manager.Valid, Manager.ViewOf;
      ghost var p' := Next(p, k, DeliverSource(s));
      SourceNext(p, k, s);
      var payload := HandleSource(s);
      delivered := delivered + {s};
      if payload.Some? {
        LogGrows(log, p, p', SourceSymbolFrame(s, payload.value));
        out, log := out + [payload.value], log + [SourceSymbolFrame(s, payload.value)];
      } else {
        LateLog(log, p, k, s);
      }
      p := p';
    }

    /** The receiver handles a repair symbol; the payload it may recover comes without its number. */
    method HandleRepair(b: nat) returns (payload: Option<Payload>, ghost s: nat)
      requires Apart() && k > 0 && RepairsOk(repairs, p.sent, k) && ReceiverOk(repairs, p) && ProgressOk(p, k)
      requires b in repairs
      modifies receiver, receiver.Blocks()
      ensures Apart() && ReceiverOk(repairs, Next(p, k, DeliverRepair(b)))
      ensures fresh(receiver.Blocks() - old(receiver.Blocks()))
      ensures payload.None? ==> Next(p, k, DeliverRepair(b)) == p
      ensures payload.Some? ==> PassesUp(p, Next(p, k, DeliverRepair(b)), s, payload.value, k)
    {
      hide ReceiverView, RepairsOk, Next, ProgressOk, Manager.Valid, Manager.ViewOf, WithRepair, BlockOf, IsRepairOf;
      hide IsPartOf, PassesUp;
      hide RepairHandled, AfterRepair;
      ghost var full, v := BlockOf(p.sent, b, k), receiver.ViewOf(b);
      RepairKnown(repairs, p.sent, k, b);
      KnownPart(v, repairs, p, k, b);
      var r := receiver.HandleRepairFrame(repairs[b], full);
      payload := r.payload;
      s := 0;
      if v.Holding? && |v.source| + 1 >= k {
        SomethingMissing(v, repairs, p, k, b);
        s :| s in full && v.source.Keys == full.Keys - {s} && payload.value == full[s];
        RepairFinishes(v, repairs, p, k, b, s);
        forall c: nat | c != b {
          RepairElsewhere(old(receiver.ViewOf(c)), repairs, p, k, b, c);
        }
      } else {
        RepairWaits(v, repairs, p, k, b);
      }
    }

    method DeliverRepairSymbol(b: nat)
      requires Apart() && Valid() && b in repairs
      modifies this, receiver, receiver.Blocks()
      ensures Apart() && Valid() && p == Next(old(p), k, DeliverRepair(b))
      ensures fresh(receiver.Blocks() - old(receiver.Blocks())) && sender.Blocks() == old(sender.Blocks())
    {
      hide SenderView, ReceiverView, RepairsOk, Next, LogOk, ProgressOk, Manager.Valid, Manager.ViewOf;
      ghost var p' := Next(p, k, DeliverRepair(b));
      var payload;
      ghost var s;
      payload, s := HandleRepair(b);
      if payload.Some? {
        LogGrows(log, p, p', SourceSymbolFrame(s, payload.value));
        out, log := out + [payload.value], log + [SourceSymbolFrame(s, payload.value)];
      }
      p := p';
    }

    method Handle(e: Event)
      requires Apart() && Valid() && (e.Send? ==> |e.payload| <= MAX_FEC_PACKET_BUFFER_SIZE)
      modifies this, sender, sender.Blocks(), receiver, receiver.Blocks()
      ensures Apart() && Valid() && p == Next(old(p), k, e)
      ensures fresh(sender.Blocks() - old(sender.Blocks())) && fresh(receiver.Blocks() - old(receiver.Blocks()))
    {
      hide SenderOk, ReceiverOk, LogOk, ProgressOk, Manager.Valid;
      RepairsMatch(repairs, sent, k);
      hide RepairsOk;
      match e
      case Send(x) => DoSend(x);
      case DeliverSource(s) =>
        if s < |sent| && s !in delivered {
          DeliverSourceSymbol(s);
        }
      case DeliverRepair(b) =>
        if b in repairs {
          DeliverRepairSymbol(b);
        }
    }
  }

  lemma RepairsMatch(repairs: map<nat, RepairFrame>, sent: seq<Payload>, k: nat)
    requires RepairsOk(repairs, sent, k)
    ensures forall b :: b in repairs <==> Complete(sent, b, k)
  {
  }

  /** The payloads that were passed up: each of `Outcome` once, and no others. */
  ghost predicate PassedUp(out: seq<Payload>, p: Progress) {
    exists log :: IsPayloads(out, log) && LogOk(log, p)
  }

  /** Whatever is sent, lost, reordered or delivered late: each payload of `Outcome` is passed up exactly once, with
      exactly the bytes that were sent, and nothing else is passed up. */
  method Run(k: nat, events: seq<Event>) returns (out: seq<Payload>)
    requires k > 0
    requires forall i :: 0 <= i < |events| && events[i].Send? ==> |events[i].payload| <= MAX_FEC_PACKET_BUFFER_SIZE
    ensures PassedUp(out, Outcome(events, k))
  {
    hide LogOk, Next, Link.SenderOk, Link.ReceiverOk, RepairsOk, ProgressOk;
    var link := new Link(k);
    for i := 0 to |events|
      invariant link.k == k && link.Apart() && link.Valid() && link.p == Outcome(events[..i], k)
      invariant fresh(link) && fresh(link.sender) && fresh(link.receiver)
      invariant fresh(link.sender.Blocks()) && fresh(link.receiver.Blocks())
    {
      assert events[..i + 1][..i] == events[..i];
      link.Handle(events[i]);
    }
    assert events[..|events|] == events;
    assert IsPayloads(link.out, link.log);
    return link.out;
  }

  ghost predicate IsPayloads(out: seq<Payload>, log: seq<SourceSymbolFrame>) {
    |out| == |log| && forall i :: 0 <= i < |log| ==> out[i] == log[i].payload
  }

  // ------------------------------------------------------------------
  // What the protocol recovers
  // ------------------------------------------------------------------

  /** A repair symbol of the block arrived when at most one of its source symbols had not yet arrived. */
  predicate InTime(events: seq<Event>, b: nat, k: nat)
    requires k > 0
  {
    events != [] &&
    var before := events[..|events| - 1];
    var p := Outcome(before, k);
    InTime(before, b, k) ||
    (events[|events| - 1] == DeliverRepair(b) && Complete(p.sent, b, k) && |SymbolsOf(b, k) * p.delivered| >= k - 1)
  }

  ghost predicate Accounted(p: Progress, k: nat, b: nat, inTime: bool) {
    && (inTime ==> b in p.finished)
    && (!inTime ==> SymbolsOf(b, k) * p.passed == SymbolsOf(b, k) * p.delivered)
  }

  ghost predicate FinishedPassed(p: Progress, k: nat) {
    && p.delivered <= p.passed
    && forall c :: c in p.finished ==> SymbolsOf(c, k) <= p.passed
  }

  lemma DisjointBlocks(b: nat, c: nat, k: nat)
    requires k > 0 && b != c
    ensures SymbolsOf(b, k) !! SymbolsOf(c, k)
  {
    forall s | s in SymbolsOf(b, k) ensures s !in SymbolsOf(c, k) {
      BlockIndex(s, b, k);
      BlockIndex(s, c, k);
    }
  }

  lemma FinishedPassedStep(p: Progress, k: nat, e: Event)
    requires k > 0 && FinishedPassed(p, k)
    ensures FinishedPassed(Next(p, k, e), k)
  {
  }

  lemma SourceAccounted(p: Progress, k: nat, b: nat, inTime: bool, s: nat)
    requires k > 0 && FinishedPassed(p, k) && Accounted(p, k, b, inTime)
    ensures Accounted(Next(p, k, DeliverSource(s)), k, b, inTime)
  {
    BlockIndex(s, s / k, k);
    BlockIndex(s, b, k);
    hide SymbolsOf;
    var all, p' := SymbolsOf(b, k), Next(p, k, DeliverSource(s));
    if !inTime {
      forall x | x in all ensures x in p'.passed <==> x in p'.delivered {
        assert x in all * p.passed <==> x in all * p.delivered;
      }
    }
  }

  lemma OtherRepairAccounted(p: Progress, k: nat, b: nat, inTime: bool, c: nat)
    requires k > 0 && b != c && Accounted(p, k, b, inTime)
    ensures Accounted(Next(p, k, DeliverRepair(c)), k, b, inTime)
  {
    DisjointBlocks(b, c, k);
    hide SymbolsOf, Complete;
    assert SymbolsOf(b, k) * (p.passed + SymbolsOf(c, k)) == SymbolsOf(b, k) * p.passed;
  }

  lemma OwnRepairAccounted(p: Progress, k: nat, b: nat, inTime: bool)
    requires k > 0 && FinishedPassed(p, k) && Accounted(p, k, b, inTime)
    ensures var now := Complete(p.sent, b, k) && |SymbolsOf(b, k) * p.delivered| >= k - 1;
            Accounted(Next(p, k, DeliverRepair(b)), k, b, inTime || now)
  {
  }

  lemma AccountedStep(p: Progress, k: nat, b: nat, inTime: bool, e: Event)
    requires k > 0 && FinishedPassed(p, k) && Accounted(p, k, b, inTime)
    ensures var now := e == DeliverRepair(b) && Complete(p.sent, b, k) && |SymbolsOf(b, k) * p.delivered| >= k - 1;
            Accounted(Next(p, k, e), k, b, inTime || now)
  {
    hide FinishedPassed, SymbolsOf, Complete;
    match e
    case Send(_) =>
    case DeliverSource(s) => SourceAccounted(p, k, b, inTime, s);
    case DeliverRepair(c) =>
      if c == b {
        OwnRepairAccounted(p, k, b, inTime);
      } else {
        OtherRepairAccounted(p, k, b, inTime, c);
      }
  }

  lemma {:induction false} AccountedRun(events: seq<Event>, k: nat, b: nat)
    requires k > 0
    ensures FinishedPassed(Outcome(events, k), k) && Accounted(Outcome(events, k), k, b, InTime(events, b, k))
  {
    hide FinishedPassed, Accounted, Next, SymbolsOf;
    if events == [] {
      assert FinishedPassed(Outcome([], k), k) && Accounted(Outcome([], k), k, b, false) by {
        var p := Progress([], {}, {}, {});
        NothingYet(k, b);
      }
    } else {
      var before, e := events[..|events| - 1], events[|events| - 1];
      AccountedRun(before, k, b);
      FinishedPassedStep(Outcome(before, k), k, e);
      AccountedStep(Outcome(before, k), k, b, InTime(before, b, k), e);
    }
  }

  lemma NothingYet(k: nat, b: nat)
    ensures FinishedPassed(Progress([], {}, {}, {}), k) && Accounted(Progress([], {}, {}, {}), k, b, false)
  {
  }

  /** A payload is passed up if and only if it arrived itself or a repair symbol of its block arrived in time. */
  lemma PassedExactly(events: seq<Event>, k: nat, s: nat)
    requires k > 0
    ensures s in Outcome(events, k).passed <==> s in Outcome(events, k).delivered || InTime(events, s / k, k)
  {
    AccountedRun(events, k, s / k);
    BlockIndex(s, s / k, k);
    hide Outcome, InTime, SymbolsOf;
    var p := Outcome(events, k);
    assert s in SymbolsOf(s / k, k) * p.passed <==> s in p.passed;
    assert s in SymbolsOf(s / k, k) * p.delivered <==> s in p.delivered;
  }

  /** Recovery is attempted only when a repair symbol arrives: one that comes before the source symbols is of no use,
      though the receiver then holds two of the three symbols of a block of two. */
  lemma EarlyRepairIsNoUse(x: Payload, y: Payload, k: nat)
    requires k == 2
    ensures 1 !in Outcome([Send(x)] + [Send(y)] + [DeliverRepair(0)] + [DeliverSource(0)], k).passed
  {
    hide Outcome, Complete;
    var p := Progress([x, y], {}, {}, {});
    NothingSent(k);
    OutcomeStep([], Send(x), k);
    assert [] + [Send(x)] == [Send(x)];
    OutcomeStep([Send(x)], Send(y), k);
    OutcomeStep([Send(x)] + [Send(y)], DeliverRepair(0), k);
    OutcomeStep([Send(x)] + [Send(y)] + [DeliverRepair(0)], DeliverSource(0), k);
    assert SymbolsOf(0, k) * p.passed == {};
  }

  lemma NothingSent(k: nat)
    requires k > 0
    ensures Outcome([], k) == Progress([], {}, {}, {})
  {
  }

  lemma OutcomeStep(events: seq<Event>, e: Event, k: nat)
    requires k > 0
    ensures Outcome(events + [e], k) == Next(Outcome(events, k), k, e)
  {
  }
}
