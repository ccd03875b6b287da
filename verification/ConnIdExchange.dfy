/** An endpoint that issues connection IDs and its peer that uses and retires them.

    NEW_CONNECTION_ID and RETIRE_CONNECTION_ID frames are lost, reordered and duplicated in any way.  The peer has
    announced that it stores MAX_ACTIVE_CONNECTION_IDS connection IDs (connection.go). */
module ConnIdExchange {
  import opened Common
  import opened ConnIdManagers
  import opened ConnIdGenerators

  /** A packet with a RETIRE_CONNECTION_ID frame, and the connection ID it is sent to. */
  datatype RetirePacket = RetirePacket(seqNum: nat, dest: ConnID)

  /** What can be seen of the two sides: the connection IDs that were issued, by number; the numbers that the
      endpoint has not seen retired; those that the peer has learned; the one it uses; the packets with retirements;
      and whether the handshake is complete. */
  datatype View = View(issued: seq<ConnID>, live: set<nat>, learned: set<nat>, active: nat, packets: set<RetirePacket>,
                       complete: bool)

  /** What the peer has learned and not used yet, and what it has retired. */
  function Waiting(v: View): set<nat> {
    set n | n in v.learned && n > v.active
  }

  function RetiredIn(v: View): set<nat> {
    set n | n in v.learned && n < v.active
  }

  /** Enough connection IDs, all of them new. */
  predicate Usable(issued: seq<ConnID>, ids: seq<ConnID>) {
    |ids| >= MAX_ISSUED_CONNECTION_IDS && Injective(ids) && forall id :: id in ids ==> id !in issued
  }

  /** The connection ID stays, or the next one that was learned is used. */
  predicate IsNextActive(v: View, n: nat) {
    n == v.active || (v.complete && n in Waiting(v) && forall x :: x in Waiting(v) ==> n <= x)
  }

  // ------------------------------------------------------------------
  // What holds between the events
  // ------------------------------------------------------------------

  /** The peer knows the connection IDs as they were issued. */
  ghost predicate Agrees(active: Active, q: seq<NewConnID>, learned: set<nat>, issued: seq<ConnID>) {
    && (forall n :: n in learned ==> n < |issued|)
    && active.seqNum < |issued| && active.id == issued[active.seqNum]
    && forall x :: x in q ==> x.seqNum < |issued| && x == Announced(x.seqNum, issued[x.seqNum])
  }

  /** Only what the peer has retired is gone. */
  ghost predicate OnlyRetiredGone(live: set<nat>, retired: set<nat>, issued: seq<ConnID>) {
    forall n: nat :: n < |issued| && n !in live ==> n in retired
  }

  /** A packet that retires a number was sent to the connection ID of another number. */
  ghost predicate PacketOk(p: RetirePacket, retired: set<nat>, issued: seq<ConnID>) {
    p.seqNum in retired && exists n :: 0 <= n < |issued| && n != p.seqNum && issued[n] == p.dest
  }

  lemma {:induction false} QueueSize(q: seq<NewConnID>)
    requires Ascending(q)
    ensures |Numbers(q)| == |q|
  {
    if q != [] {
      var n := |q| - 1;
      QueueSize(q[..n]);
      assert q == q[..n] + [q[n]];
      assert Numbers(q) == Numbers(q[..n]) + {q[n].seqNum} && q[n].seqNum !in Numbers(q[..n]);
    }
  }

  /** The peer stores no more connection IDs than the endpoint keeps active. */
  lemma NeverTooMany(learned: set<nat>, active: Active, q: seq<NewConnID>, retired: set<nat>, live: set<nat>,
                     issued: seq<ConnID>)
    requires Ascending(q) && Partition(learned, active.seqNum, q, retired) && Agrees(active, q, learned, issued)
    requires OnlyRetiredGone(live, retired, issued)
    ensures |q| + 1 <= |live|
  {
    QueueSize(q);
    var stored := {active.seqNum} + Numbers(q);
    assert active.seqNum !in Numbers(q);
    forall n | n in stored ensures n in live {
      assert n in learned && n !in retired;
    }
    SubsetSize(stored, live);
    assert |stored| == |q| + 1;
  }

  /** The peer forgets nothing: what it has retired stays retired. */
  lemma RetiredGrows(learned: set<nat>, active: nat, q: seq<NewConnID>, retired: set<nat>,
                     learned': set<nat>, active': nat, q': seq<NewConnID>, retired': set<nat>)
    requires Partition(learned, active, q, retired) && Partition(learned', active', q', retired')
    requires learned <= learned' && active <= active'
    ensures retired <= retired'
  {
  }

  lemma NoConflict(active: Active, q: seq<NewConnID>, learned: set<nat>, issued: seq<ConnID>, n: nat)
    requires Agrees(active, q, learned, issued) && n < |issued|
    ensures !Conflicts(q, Announced(n, issued[n]))
  {
  }

  lemma LearnAgrees(active: Active, q: seq<NewConnID>, learned: set<nat>, issued: seq<ConnID>, n: nat,
                    q': seq<NewConnID>)
    requires Agrees(active, q, learned, issued) && n < |issued|
    requires SameQueue(q, q', Announced(n, issued[n]), active.seqNum)
    ensures Agrees(active, q', learned + {n}, issued)
  {
  }

  lemma StartAgrees(id: ConnID)
    ensures Agrees(Active(0, id, None), [], {0}, [id]) && OnlyRetiredGone({0}, {}, [id])
  {
  }

  lemma AdvanceAgrees(active: Active, q: seq<NewConnID>, learned: set<nat>, issued: seq<ConnID>)
    requires Agrees(active, q, learned, issued) && q != []
    ensures Agrees(Active(q[0].seqNum, q[0].id, Some(q[0].token)), q[1..], learned, issued)
  {
  }

  lemma IssueAgrees(active: Active, q: seq<NewConnID>, learned: set<nat>, issued: seq<ConnID>, issued': seq<ConnID>)
    requires Agrees(active, q, learned, issued) && issued <= issued'
    ensures Agrees(active, q, learned, issued')
  {
  }

  lemma StillGone(live: set<nat>, retired: set<nat>, retired': set<nat>, issued: seq<ConnID>,
                  packets: set<RetirePacket>)
    requires retired <= retired'
    ensures OnlyRetiredGone(live, retired, issued) ==> OnlyRetiredGone(live, retired', issued)
    ensures forall p :: p in packets && PacketOk(p, retired, issued) ==> PacketOk(p, retired', issued)
  {
  }

  class Exchange {
    const g: ConnIDGenerator
    const m: ConnIDManager
    var packets: set<RetirePacket>

    constructor (id: ConnID)
      ensures Valid() && fresh(g) && fresh(m) && Seen() == View([id], {0}, {0}, 0, {}, false)
    {
      g := new ConnIDGenerator(id);
      m := new ConnIDManager(id);
      packets := {};
      new;
      hide ConnIDGenerator.Valid, ConnIDManager.Valid;
      StartAgrees(id);
    }

    ghost predicate PacketsOk()
      reads this`packets, m`retireFrames, g`issued
    {
      forall p :: p in packets ==> PacketOk(p, m.Retired(), g.issued)
    }

    ghost predicate Valid()
      reads this, g, m
    {
      && g.Valid() && m.Valid() && |g.activeSrcConnIDs| <= MAX_ACTIVE_CONNECTION_IDS
      && Agrees(m.active, m.queue, m.learned, g.issued)
      && OnlyRetiredGone(g.activeSrcConnIDs.Keys, m.Retired(), g.issued)
      && PacketsOk()
    }

    ghost function Seen(): View
      reads this, g, m
    {
      View(g.issued, g.activeSrcConnIDs.Keys, m.learned, m.active.seqNum, packets, m.handshakeComplete)
    }

    /** The queue and the retired numbers follow from what was learned. */
    lemma SeenPartition()
      requires Valid()
      ensures Waiting(Seen()) == Numbers(m.queue) && RetiredIn(Seen()) == m.Retired() && Seen().active in Seen().learned
    {
    }

    method DoIssue(ids: seq<ConnID>)
      requires Valid()
      modifies g
      ensures Valid()
      ensures Seen() == Issued(old(Seen()), ids)
    {
      hide Agrees, ConnIDManager.Valid, Injective, ActiveOk, FramesOk, Span, PacketOk, Usable, Issued;
      if Usable(g.issued, ids) {
        UsableIds(g.issued, ids);
        IssueAgrees(m.active, m.queue, m.learned, g.issued, g.issued);
        g.SetMaxActiveConnIDs(MAX_ACTIVE_CONNECTION_IDS, ids);
        IssueAgrees(m.active, m.queue, m.learned, old(g.issued), g.issued);
        KeysGrow(old(g.activeSrcConnIDs), g.activeSrcConnIDs, |old(g.issued)|, |g.issued|);
        IssuedIs(old(Seen()), ids, g.issued, g.activeSrcConnIDs.Keys);
        forall p | p in packets ensures PacketOk(p, m.Retired(), g.issued) {
          StillSent(p, m.Retired(), old(g.issued), g.issued);
        }
      } else {
        NotIssued(Seen(), ids);
      }
    }

    /** A frame that announces a connection ID arrives; it is never refused. */
    method DoAnnounce(n: nat, random: nat) returns (r: AddResult)
      requires Valid() && 0 < n <= |g.frames|
      modifies m
      ensures Valid() && r == Added && Seen() == old(Seen()).(learned := old(m.learned) + {n})
    {
      hide Agrees, Partition, Ascending, Conflicts, SameQueue, OnlyRetiredGone, PacketOk;
      FrameIs(g.frames, g.issued, n);
      NoConflict(m.active, m.queue, m.learned, g.issued, n);
      r := m.Add(NewConnectionIDFrame(g.frames[n - 1], 0), random);
      LearnAgrees(m.active, old(m.queue), old(m.learned), g.issued, n, m.queue);
      RetiredGrows(old(m.learned), old(m.active).seqNum, old(m.queue), old(m.Retired()), m.learned, m.active.seqNum,
                   m.queue, m.Retired());
      StillGone(g.activeSrcConnIDs.Keys, old(m.Retired()), m.Retired(), g.issued, packets);
      NeverTooMany(m.learned, m.active, m.queue, m.Retired(), g.activeSrcConnIDs.Keys, g.issued);
    }

    /** The peer picks the connection ID for its next packet, and may switch to a new one. */
    method DoUse(random: nat) returns (id: ConnID)
      requires Valid()
      modifies m
      ensures Valid() && old(m.Retired()) <= m.Retired()
      ensures m.active.seqNum < |g.issued| && id == g.issued[m.active.seqNum] && m.rotation.packetsSinceLastChange > 0
      ensures Seen() == old(Seen()).(active := m.active.seqNum) && IsNextActive(old(Seen()), m.active.seqNum)
      ensures m.handshakeComplete && Waiting(old(Seen())) != {} ==> m.active.seqNum != 0
    {
      hide Partition, Ascending, ConnIDGenerator.Valid, OnlyRetiredGone, PacketOk;
      SeenPartition();
      FirstIsLowest(m.queue);
      if m.ShouldUpdateConnID() {
        AdvanceAgrees(m.active, m.queue, m.learned, g.issued);
      }
      id := m.Get(random);
      m.SentPacket();
      StillGone(g.activeSrcConnIDs.Keys, old(m.Retired()), m.Retired(), g.issued, packets);
    }

    /** The peer sends one of the frames it has queued, in a packet to the connection ID in use. */
    method DoSendRetire(index: nat, random: nat) returns (p: RetirePacket)
      requires Valid() && index < |m.retireFrames|
      modifies m, this
      ensures Valid() && Seen() == old(Seen()).(active := m.active.seqNum, packets := old(packets) + {p})
      ensures IsNextActive(old(Seen()), m.active.seqNum) && m.active.seqNum < |g.issued|
      ensures p.seqNum in RetiredIn(old(Seen())) && p.dest == g.issued[m.active.seqNum]
    {
      hide Ascending, ConnIDGenerator.Valid, OnlyRetiredGone, Agrees, IsNextActive;
      var n := m.retireFrames[index];
      assert n in m.Retired();
      SeenPartition();
      var dest := DoUse(random);
      assert n != m.active.seqNum && g.issued[m.active.seqNum] == dest;
      p := RetirePacket(n, dest);
      packets := packets + {p};
    }

    /** A packet that retires a connection ID arrives; it is never a protocol violation. */
    method DoRetire(p: RetirePacket, id: ConnID) returns (r: RetireResult)
      requires Valid() && p in packets && id !in g.issued
      modifies g
      ensures Valid() && r == Done && Seen() == Retiring(old(Seen()), p.seqNum, id)
    {
      hide Agrees, Partition, Ascending, OnlyRetiredGone, ActiveOk, FramesOk, PacketOk, Injective;
      assert PacketOk(p, m.Retired(), g.issued) && p.seqNum in m.Retired() by { IsRetired(p, m.Retired(), g.issued); }
      RetireIsFine(p, g.activeSrcConnIDs, m.active, m.queue, m.learned, m.Retired(), g.issued);
      r := g.Retire(p.seqNum, p.dest, id);
      IssueAgrees(m.active, m.queue, m.learned, old(g.issued), g.issued);
      RetireKeepsRest(old(g.activeSrcConnIDs), p.seqNum, g.activeSrcConnIDs, m.Retired(), old(g.issued), g.issued, id);
      forall x | x in packets ensures PacketOk(x, m.Retired(), g.issued) {
        StillSent(x, m.Retired(), old(g.issued), g.issued);
      }
    }

    lemma FramesAnnounce()
      requires Valid()
      ensures |g.issued| == |g.frames| + 1
    {
    }

    method DoCompleteHandshake()
      requires Valid()
      modifies m
      ensures Valid() && Seen() == old(Seen()).(complete := true)
    {
      hide Agrees, OnlyRetiredGone, PacketsOk, ConnIDGenerator.Valid, ConnIDManager.Valid;
      m.SetHandshakeComplete();
    }

    lemma ValidIsOk()
      requires Valid()
      ensures ViewOk(Seen())
    {
      SeenPartition();
      NeverTooMany(m.learned, m.active, m.queue, m.Retired(), g.activeSrcConnIDs.Keys, g.issued);
      QueueSize(m.queue);
    }
  }

  /** What holds in every state: the peer stores fewer connection IDs than it may, all of which the endpoint still
      accepts, and what the endpoint has forgotten the peer has retired. */
  ghost predicate ViewOk(v: View) {
    && |Waiting(v)| < MAX_ACTIVE_CONNECTION_IDS && |v.live| <= MAX_ACTIVE_CONNECTION_IDS
    && v.active in v.learned && (forall n :: n in v.learned ==> n < |v.issued|)
    && (forall n :: n in v.learned && n >= v.active ==> n in v.live)
    && (forall n: nat :: n < |v.issued| && n !in v.live ==> n in RetiredIn(v))
  }

  predicate InSpan(lo: nat, k: nat, n: nat) {
    lo <= n < lo + k
  }

  function Span(lo: nat, k: nat): set<nat> {
    set n: nat | n < lo + k && InSpan(lo, k, n)
  }

  lemma UsableIds(issued: seq<ConnID>, ids: seq<ConnID>)
    requires Usable(issued, ids)
    ensures |ids| >= MAX_ISSUED_CONNECTION_IDS && Injective(ids) && forall id :: id in ids ==> id !in issued
  {
  }

  lemma KeysGrow(live: map<nat, ConnID>, live': map<nat, ConnID>, lo: nat, hi: nat)
    requires lo <= hi && forall n :: n in live' <==> n in live || lo <= n < hi
    ensures live'.Keys == live.Keys + Span(lo, hi - lo)
  {
  }

  /** Connection IDs are issued until the peer has as many as it stores. */
  function Issued(v: View, ids: seq<ConnID>): View {
    if !Usable(v.issued, ids) then v
    else
      var k := Max(0, MAX_ACTIVE_CONNECTION_IDS - |v.live|);
      if k > |ids| then v
      else v.(issued := v.issued + ids[..k], live := v.live + Span(|v.issued|, k))
  }

  lemma NotIssued(v: View, ids: seq<ConnID>)
    requires !Usable(v.issued, ids)
    ensures Issued(v, ids) == v
  {
  }

  lemma IssuedIs(v: View, ids: seq<ConnID>, issued: seq<ConnID>, live: set<nat>)
    requires Usable(v.issued, ids) && |v.live| <= MAX_ACTIVE_CONNECTION_IDS
    requires issued == v.issued + ids[..MAX_ACTIVE_CONNECTION_IDS - |v.live|]
    requires live == v.live + Span(|v.issued|, |issued| - |v.issued|)
    ensures Issued(v, ids) == v.(issued := issued, live := live)
  {
    hide Span, Injective;
  }

  /** A number that is retired is replaced, unless it is the first one. */
  function Retiring(v: View, n: nat, id: ConnID): View {
    if n !in v.live then v
    else if n == 0 then v.(live := v.live - {0})
    else v.(live := v.live - {n} + {|v.issued|}, issued := v.issued + [id])
  }

  lemma FirstIsLowest(q: seq<NewConnID>)
    requires Ascending(q)
    ensures q != [] ==> q[0].seqNum in Numbers(q) && forall n :: n in Numbers(q) ==> q[0].seqNum <= n
    ensures q == [] <==> Numbers(q) == {}
  {
    if q != [] {
      assert q[0] in q && q[0].seqNum in Numbers(q);
    }
  }

  lemma IsRetired(p: RetirePacket, retired: set<nat>, issued: seq<ConnID>)
    requires PacketOk(p, retired, issued)
    ensures p.seqNum in retired
  {
  }

  lemma RetireIsFine(p: RetirePacket, live: map<nat, ConnID>, active: Active, q: seq<NewConnID>, learned: set<nat>,
                     retired: set<nat>, issued: seq<ConnID>)
    requires PacketOk(p, retired, issued) && Injective(issued) && ActiveOk(live, issued)
    requires Agrees(active, q, learned, issued) && Partition(learned, active.seqNum, q, retired)
    ensures p.seqNum < |issued| && (p.seqNum in live ==> live[p.seqNum] != p.dest)
  {
  }

  lemma RetireKeepsRest(live: map<nat, ConnID>, n: nat, live': map<nat, ConnID>, retired: set<nat>,
                        issued: seq<ConnID>, issued': seq<ConnID>, id: ConnID)
    requires OnlyRetiredGone(live.Keys, retired, issued) && n in retired
    requires if n !in live then live' == live && issued' == issued
             else if n == 0 then live' == live - {0} && issued' == issued
             else issued' == issued + [id] && live' == (live - {n})[|issued| := id]
    ensures OnlyRetiredGone(live'.Keys, retired, issued') && |live'| <= |live|
  {
  }

  lemma StillSent(p: RetirePacket, retired: set<nat>, issued: seq<ConnID>, issued': seq<ConnID>)
    requires PacketOk(p, retired, issued) && issued <= issued'
    ensures PacketOk(p, retired, issued')
  {
  }

  lemma FrameIs(frames: seq<NewConnID>, issued: seq<ConnID>, n: nat)
    requires FramesOk(frames, issued) && 0 < n <= |frames|
    ensures n < |issued| && frames[n - 1] == Announced(n, issued[n])
  {
  }
}
