/** What is in a network that loses, reorders and duplicates STREAM frames, as a value. */
module StreamNetwork {
  import opened Common
  import opened StreamFrames
  import opened SendStreams
  import opened FrameSorting

  /** What can be seen of a stream from outside: what finished writes have reported as written, the argument of the
      write in progress, whether the stream was closed, the frames that were sent, the bytes that have arrived, what
      was read, whether EOF was returned, and how often the sender has reported completion. */
  datatype Ledger = Ledger(
    written: seq<Byte>,
    writing: Option<seq<Byte>>,
    closed: bool,
    sent: seq<StreamFrame>,
    arrived: set<nat>,
    out: seq<Byte>,
    eof: bool,
    completions: nat)

  /** All that the application has asked to send so far. */
  function Offered(l: Ledger): seq<Byte> {
    l.written + Pending(l.writing)
  }

  /** A frame carries bytes of a stream at their offset, and a FIN only at its end. */
  predicate IsPart(f: StreamFrame, stream: seq<Byte>, closed: bool) {
    && f.offset + |f.data| <= |stream| && f.data == stream[f.offset..f.offset + |f.data|]
    && (f.fin ==> closed && f.offset + |f.data| == |stream|)
  }

  ghost function BytesOf(f: StreamFrame): set<nat> {
    set b: nat | b < f.offset + |f.data| && Has(f, b)
  }

  /** The receiver gives up if what has arrived leaves too many gaps. */
  ghost predicate TooManyHoles(arrived: set<nat>) {
    |Holes(arrived)| > MAX_STREAM_FRAME_SORTER_GAPS
  }

  /** The gaps are what has not arrived. */
  ghost predicate GapsAre(gaps: seq<Interval>, arrived: set<nat>) {
    forall b: nat :: b < MAX_BYTE_COUNT ==> (Missing(gaps, b) <==> b !in arrived)
  }

  lemma GapsAfter(gaps: seq<Interval>, gaps': seq<Interval>, arrived: set<nat>, f: StreamFrame)
    requires GapsAre(gaps, arrived) && GapsOk(gaps')
    requires forall b: nat :: Missing(gaps', b) <==> Missing(gaps, b) && !(f.offset <= b < f.offset + |f.data|)
    ensures GapsAre(gaps', arrived + BytesOf(f))
    ensures TooManyHoles(arrived + BytesOf(f)) <==> |gaps'| > MAX_STREAM_FRAME_SORTER_GAPS
  {
    hide Missing, GapsOk, Holes;
    CountGaps(gaps', arrived + BytesOf(f));
  }

  /** A frame with the first byte that is missing never adds a gap. */
  lemma FirstByteFillsGap(arrived: set<nat>, f: StreamFrame, b: nat)
    requires b < MAX_BYTE_COUNT && b !in arrived && (forall c: nat :: c < b ==> c in arrived) && b in BytesOf(f)
    ensures |Holes(arrived + BytesOf(f))| <= |Holes(arrived)|
  {
    var end := f.offset + |f.data|;
    var before, after := Holes(arrived), Holes(arrived + BytesOf(f));
    assert IsHole(arrived, b) && b in before && b !in after;
    assert after - {end} <= before - {b};
    SubsetSize(after - {end}, before - {b});
    assert |before - {b}| == |before| - 1;
    assert after <= (after - {end}) + {end};
    SubsetSize(after, (after - {end}) + {end});
  }

  lemma StillFew(arrived: set<nat>, f: StreamFrame, b: nat)
    requires b < MAX_BYTE_COUNT && b !in arrived && (forall c: nat :: c < b ==> c in arrived) && Has(f, b)
    requires !TooManyHoles(arrived)
    ensures !TooManyHoles(arrived + BytesOf(f)) && b in arrived + BytesOf(f)
  {
    hide Holes;
    FirstByteFillsGap(arrived, f, b);
  }

  /** A frame that brings nothing new changes nothing. */
  lemma FinIsKnown(arrived: set<nat>, f: StreamFrame, writeOffset: nat)
    requires (forall b: nat :: b < writeOffset ==> b in arrived) && forall b: nat :: Has(f, b) ==> b < writeOffset
    ensures arrived + BytesOf(f) == arrived
  {
  }

  /** Every frame in the network was sent and carries accepted bytes, and everything that was sent is in it. */
  ghost predicate NetworkOk(network: seq<StreamFrame>, outstanding: multiset<StreamFrame>, accepted: seq<Byte>,
                            writeOffset: nat, finSent: bool) {
    && (forall f :: f in network ==> FrameOk(f, accepted, writeOffset, finSent))
    && InNetwork(network, writeOffset, finSent)
    && outstanding <= multiset(network)
  }

  ghost predicate AmongRest(outstanding: multiset<StreamFrame>, network: seq<StreamFrame>, i: nat)
    requires i <= |network|
  {
    outstanding <= multiset(network[i..])
  }

  lemma OneLess(outstanding: multiset<StreamFrame>, network: seq<StreamFrame>, i: nat)
    requires i < |network| && AmongRest(outstanding, network, i)
    ensures AmongRest(if network[i] in outstanding then outstanding - multiset{network[i]} else outstanding, network,
                      i + 1)
  {
    assert network[i..] == [network[i]] + network[i + 1..];
  }

  lemma NoneLeft(outstanding: multiset<StreamFrame>, network: seq<StreamFrame>)
    requires AmongRest(outstanding, network, |network|)
    ensures outstanding == multiset{}
  {
  }

  lemma NothingSent()
    ensures NetworkOk([], multiset{}, [], 0, false)
  {
  }

  lemma NetworkMoves(network: seq<StreamFrame>, outstanding: multiset<StreamFrame>, r: PopResult,
                     accepted: seq<Byte>, accepted': seq<Byte>, writeOffset: nat, writeOffset': nat,
                     finSent: bool, finSent': bool)
    requires NetworkOk(network, outstanding, accepted, writeOffset, finSent)
    requires accepted <= accepted' && writeOffset <= writeOffset' <= |accepted'| && (finSent ==> accepted == accepted')
    requires IsNext(r, writeOffset, writeOffset') && finSent' == (finSent || (r.Popped? && r.frame.fin))
    requires r.Popped? ==> FrameOk(r.frame, accepted', writeOffset', finSent')
    ensures if r.Popped?
            then NetworkOk(network + [r.frame], outstanding + multiset{r.frame}, accepted', writeOffset', finSent')
            else NetworkOk(network, outstanding, accepted', writeOffset', finSent')
  {
    hide InNetwork, IsNext, FrameOk;
    SentGrows(network, accepted, accepted', writeOffset, writeOffset', finSent, finSent');
    NetworkGrows(network, r, writeOffset, writeOffset', finSent, finSent');
  }

  lemma NetworkKept(network: seq<StreamFrame>, outstanding: multiset<StreamFrame>, f: StreamFrame,
                    accepted: seq<Byte>, writeOffset: nat, finSent: bool)
    requires NetworkOk(network, outstanding, accepted, writeOffset, finSent)
    ensures NetworkOk(network, outstanding - multiset{f}, accepted, writeOffset, finSent)
  {
  }

  ghost function Weight(queue: seq<StreamFrame>): nat {
    if queue == [] then 0 else |queue[0].data| + 1 + Weight(queue[1..])
  }

  /** Whatever is sent, less is left to send afterwards. */
  lemma LeftAfterSend(queue: seq<StreamFrame>, queue': seq<StreamFrame>, r: PopResult, writeOffset: nat,
                      writeOffset': nat, finSent: bool, finSent': bool)
    requires if r.Popped? && queue != [] then Taken(queue, r.frame, queue') else queue' == queue
    requires r.Popped? && queue == [] ==>
               !finSent && IsNewData(r.frame, writeOffset, writeOffset') && (r.frame.data != [] || r.frame.fin)
    requires finSent' == (finSent || (r.Popped? && r.frame.fin)) && writeOffset <= writeOffset'
    ensures r.Popped? ==>
              Weight(queue') - writeOffset' + (if finSent' then 0 else 1) <
              Weight(queue) - writeOffset + (if finSent then 0 else 1)
  {
  }

  /** Every byte that was sent, and the FIN once it was sent, is in some frame of the network. */
  ghost predicate InNetwork(network: seq<StreamFrame>, writeOffset: nat, finSent: bool) {
    && Accounted((set f | f in network), writeOffset)
    && (finSent ==> exists f :: f in network && f.fin)
  }

  lemma Carrier(network: seq<StreamFrame>, writeOffset: nat, finSent: bool, b: nat) returns (k: nat)
    requires InNetwork(network, writeOffset, finSent) && b < writeOffset
    ensures k < |network| && Has(network[k], b)
  {
    var frames := set f | f in network;
    assert InSome(frames, b);
    var f :| f in frames && Has(f, b);
    k :| 0 <= k < |network| && network[k] == f;
  }

  lemma NetworkGrows(network: seq<StreamFrame>, r: PopResult, offset: nat, offset': nat, finSent: bool, finSent': bool)
    requires InNetwork(network, offset, finSent)
    requires IsNext(r, offset, offset') && finSent' == (finSent || (r.Popped? && r.frame.fin))
    ensures InNetwork(if r.Popped? then network + [r.frame] else network, offset', finSent')
  {
    if r.Popped? {
      var before, after := (set f | f in network), (set f | f in network + [r.frame]);
      assert after == before + {r.frame};
      if offset == offset' {
        forall b: nat | b < offset ensures InSome(after, b) {
          assert InSome(before, b);
        }
      } else {
        NewFrameAccounted(before, offset, r.frame);
      }
      assert r.frame in network + [r.frame];
    }
  }

  lemma SentGrows(network: seq<StreamFrame>, accepted: seq<Byte>, accepted': seq<Byte>, writeOffset: nat,
                  writeOffset': nat, finSent: bool, finSent': bool)
    requires forall f :: f in network ==> FrameOk(f, accepted, writeOffset, finSent)
    requires accepted <= accepted' && writeOffset <= writeOffset' <= |accepted'|
    requires (finSent ==> finSent' && accepted == accepted')
    ensures forall f :: f in network ==> FrameOk(f, accepted', writeOffset', finSent')
  {
  }
}
