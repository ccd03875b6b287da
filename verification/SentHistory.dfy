/** The dense window of sent packets: internal/ackhandler/sent_packet_history.go, packet.go.

    The window refines a map from packet numbers to packets; what it loads onto the connection (bytes in flight,
    outstanding packets, frames that wait for their fate) is a sum over its slots. */
module SentHistory {
  import opened Common

  const INVALID_PACKET_NUMBER := -1

  datatype Frame = Frame(id: nat, hasHandler: bool)

  datatype Level = InitialLevel | HandshakeLevel | ZeroRTT | OneRTT

  /** `frames` are the control frames followed by the stream frames.  A time is None where the source has the zero
      time. */
  datatype Packet = Packet(
    pn: int,
    sendTime: Option<int>,
    frames: seq<Frame>,
    largestAcked: int,
    length: nat,
    level: Level,
    isMtuProbe: bool,
    inFlight: bool,
    skipped: bool)

  function Skipped(pn: int): Packet {
    Packet(pn, None, [], 0, 0, InitialLevel, false, false, true)
  }

  predicate Outstanding(p: Packet) {
    !p.skipped && !p.isMtuProbe
  }

  /** A packet in the window either marks a skipped number or carries frames and is in flight. */
  predicate PacketOk(p: Packet) {
    p.pn >= 0 && if p.skipped then p.frames == [] && !p.inFlight && p.sendTime.None?
                 else p.frames != [] && p.inFlight && p.sendTime.Some?
  }

  // ------------------------------------------------------------------
  // Loads
  // ------------------------------------------------------------------

  datatype Load = Load(bytes: nat, outstanding: nat, frames: multiset<Frame>)

  const NO_LOAD := Load(0, 0, multiset{})

  function Plus(a: Load, b: Load): Load {
    Load(a.bytes + b.bytes, a.outstanding + b.outstanding, a.frames + b.frames)
  }

  lemma PlusAssociative(a: Load, b: Load, c: Load)
    ensures Plus(Plus(a, b), c) == Plus(a, Plus(b, c))
  {
  }

  lemma PlusSwap(a: Load, b: Load, c: Load)
    ensures Plus(Plus(a, b), c) == Plus(Plus(a, c), b)
  {
  }

  lemma PlusZero(a: Load)
    ensures Plus(a, NO_LOAD) == a && Plus(NO_LOAD, a) == a
  {
  }

  /** The frames that get a callback. */
  function Handled(frames: seq<Frame>): seq<Frame> {
    if frames == [] then []
    else
      var last := frames[|frames| - 1];
      Handled(frames[..|frames| - 1]) + if last.hasHandler then [last] else []
  }

  function LoadOf(p: Packet): Load {
    Load(if p.inFlight then p.length else 0, if Outstanding(p) then 1 else 0, multiset(Handled(p.frames)))
  }

  // ------------------------------------------------------------------
  // Windows
  // ------------------------------------------------------------------

  type Slots = seq<Option<Packet>>

  function SlotLoad(x: Option<Packet>): Load {
    if x.Some? then LoadOf(x.value) else NO_LOAD
  }

  function Total(s: Slots): Load {
    if s == [] then NO_LOAD else Plus(Total(s[..|s| - 1]), SlotLoad(s[|s| - 1]))
  }

  /** The slot at index i is empty or holds the packet with number base + i. */
  predicate Dense(base: int, s: Slots) {
    forall i :: 0 <= i < |s| && s[i].Some? ==> PacketOk(s[i].value) && s[i].value.pn == base + i
  }

  function Lookup(base: int, s: Slots, pn: int): Option<Packet> {
    if base <= pn < base + |s| then s[pn - base] else None
  }

  function View(base: int, s: Slots): map<int, Packet> {
    map pn | base <= pn < base + |s| && Lookup(base, s, pn).Some? :: Lookup(base, s, pn).value
  }

  lemma {:induction false} TotalConcat(s: Slots, t: Slots)
    ensures Total(s + t) == Plus(Total(s), Total(t))
  {
    hide LoadOf, Plus, Handled;
    if t == [] {
      assert s + t == s;
      PlusZero(Total(s));
    } else {
      var n := |t| - 1;
      assert (s + t)[..|s| + n] == s + t[..n];
      TotalConcat(s, t[..n]);
      PlusAssociative(Total(s), Total(t[..n]), SlotLoad(t[n]));
    }
  }

  lemma {:induction false} TotalOfNothing(s: Slots)
    requires forall i :: 0 <= i < |s| ==> s[i] == None
    ensures Total(s) == NO_LOAD
  {
    hide LoadOf, Plus, Handled;
    if s != [] {
      TotalOfNothing(s[..|s| - 1]);
      PlusZero(NO_LOAD);
    }
  }

  /** Emptying a slot takes away what it holds. */
  lemma TotalClear(s: Slots, i: nat)
    requires i < |s|
    ensures Plus(Total(s[i := None]), SlotLoad(s[i])) == Total(s)
  {
    hide LoadOf, Plus, Handled;
    var a, x, b := s[..i], [s[i]], s[i + 1..];
    assert s == a + x + b && s[i := None] == a + [None] + b;
    TotalConcat(a + x, b);
    TotalConcat(a, x);
    TotalConcat(a + [None], b);
    TotalConcat(a, [None]);
    SingleSlot(s[i]);
    SingleSlot(None);
    PlusZero(Total(a));
    PlusSwap(Total(a), SlotLoad(s[i]), Total(b));
  }

  lemma SingleSlot(x: Option<Packet>)
    ensures Total([x]) == SlotLoad(x)
  {
    hide LoadOf, Plus, Handled;
    assert [x][..0] == [];
    PlusZero(SlotLoad(x));
  }

  /** Empty slots are cut off at the front. */
  lemma CutFront(base: int, s: Slots, k: nat)
    requires k <= |s| && forall i :: 0 <= i < k ==> s[i] == None
    ensures Total(s[k..]) == Total(s)
    ensures View(base + k, s[k..]) == View(base, s)
    ensures Dense(base, s) ==> Dense(base + k, s[k..])
  {
    hide LoadOf, Plus, Handled;
    assert s == s[..k] + s[k..];
    TotalConcat(s[..k], s[k..]);
    TotalOfNothing(s[..k]);
    PlusZero(Total(s[k..]));
    assert forall pn :: Lookup(base + k, s[k..], pn) == Lookup(base, s, pn);
  }

  lemma Clear(base: int, s: Slots, i: nat)
    requires i < |s|
    ensures Plus(Total(s[i := None]), SlotLoad(s[i])) == Total(s)
    ensures View(base, s[i := None]) == View(base, s) - {base + i}
    ensures Dense(base, s) ==> Dense(base, s[i := None])
  {
    hide LoadOf, Plus, Handled;
    TotalClear(s, i);
    assert forall pn :: pn != base + i ==> Lookup(base, s[i := None], pn) == Lookup(base, s, pn);
  }

  lemma Push(base: int, s: Slots, x: Option<Packet>)
    ensures Total(s + [x]) == Plus(Total(s), SlotLoad(x))
    ensures View(base, s + [x]) == if x.Some? then View(base, s)[base + |s| := x.value] else View(base, s)
  {
    hide LoadOf, Plus, Handled;
    TotalConcat(s, [x]);
    SingleSlot(x);
    hide Total;
    assert Lookup(base, s + [x], base + |s|) == x;
    assert forall pn :: pn != base + |s| ==> Lookup(base, s + [x], pn) == Lookup(base, s, pn);
  }

  lemma ViewAt(base: int, s: Slots, i: nat)
    requires i < |s|
    ensures s[i].Some? <==> base + i in View(base, s)
    ensures s[i].Some? ==> View(base, s)[base + i] == s[i].value
  {
  }

  lemma ViewBounds(base: int, s: Slots, pn: int)
    ensures pn in View(base, s) ==> base <= pn < base + |s|
  {
  }

  lemma RunCovers(v: map<int, Packet>, q: int, pn: int, r: int)
    requires SkippedRun(v, q, pn) && q <= r < pn
    ensures r in v && v[r].skipped
  {
  }

  lemma RunEnds(v: map<int, Packet>, lo: int, pn: int, gone: set<int>)
    requires SkippedRun(v, lo, pn) && lo <= pn && (lo - 1 in v ==> !v[lo - 1].skipped)
    requires forall q :: q in gone <==> lo <= q < pn
    ensures gone == SkippedBefore(v, pn)
  {
    forall q | q in SkippedBefore(v, pn) ensures lo <= q {
      hide SkippedRun;
      if q < lo {
        RunCovers(v, q, pn, lo - 1);
      }
    }
    forall q | lo <= q < pn ensures q in SkippedBefore(v, pn) {
      assert SkippedRun(v, q, pn);
    }
  }

  lemma EmptyView(base: int)
    ensures View(base, []) == map[]
  {
  }

  lemma SkippedLoad(p: Packet)
    requires PacketOk(p) && p.skipped
    ensures LoadOf(p) == NO_LOAD
  {
  }

  lemma OutstandingLoad(a: Load, p: Packet)
    ensures Plus(a, LoadOf(p)).outstanding == a.outstanding + if Outstanding(p) then 1 else 0
  {
  }

  lemma {:induction false} NoneOutstanding(s: Slots)
    ensures Total(s).outstanding == 0 <==> forall i :: 0 <= i < |s| && s[i].Some? ==> !Outstanding(s[i].value)
  {
    hide Outstanding, LoadOf, Plus;
    if s != [] {
      var n := |s| - 1;
      NoneOutstanding(s[..n]);
      PlusZero(Total(s[..n]));
      if s[n].Some? {
        OutstandingLoad(Total(s[..n]), s[n].value);
      }
      assert forall i :: 0 <= i < n ==> s[..n][i] == s[i];
    }
  }

  // ------------------------------------------------------------------
  // The history
  // ------------------------------------------------------------------

  predicate SkippedRun(v: map<int, Packet>, lo: int, pn: int) {
    forall q :: lo <= q < pn ==> q in v && v[q].skipped
  }

  /** The skipped numbers directly before a packet number. */
  function SkippedBefore(v: map<int, Packet>, pn: int): set<int> {
    set q | q in v && q < pn && SkippedRun(v, q, pn)
  }

  class SentPacketHistory {
    var packets: Slots
    var numOutstanding: int
    var highestPacketNumber: int

    constructor ()
      ensures Valid() && highestPacketNumber == INVALID_PACKET_NUMBER && Tracked() == map[] && Total(packets) == NO_LOAD
    {
      packets, numOutstanding, highestPacketNumber := [], 0, INVALID_PACKET_NUMBER;
    }

    /** The number of the first slot. */
    ghost function Base(): int
      reads this
    {
      highestPacketNumber + 1 - |packets|
    }

    ghost predicate Valid()
      reads this
    {
      && Dense(Base(), packets)
      && (packets != [] ==> packets[0].Some?)
      && highestPacketNumber >= INVALID_PACKET_NUMBER
      && numOutstanding == Total(packets).outstanding
    }

    ghost function Tracked(): map<int, Packet>
      reads this
    {
      View(Base(), packets)
    }

    /** Numbers are used in sequence. */
    predicate IsNext(pn: int)
      reads this
    {
      pn >= 0 && (highestPacketNumber == INVALID_PACKET_NUMBER || pn == highestPacketNumber + 1)
    }

    lemma NextIsNew(pn: int)
      requires Valid() && IsNext(pn)
      ensures pn !in Tracked()
    {
    }

    method SkippedPacket(pn: int)
      requires Valid() && IsNext(pn)
      modifies this
      ensures Valid() && highestPacketNumber == pn
      ensures Tracked() == old(Tracked())[pn := Skipped(pn)] && Total(packets) == old(Total(packets))
    {
      hide LoadOf, Plus, Handled, View;
      PlusZero(Total(packets));
      SkippedLoad(Skipped(pn));
      Append(pn, Some(Skipped(pn)));
    }

    method SentNonAckElicitingPacket(pn: int)
      requires Valid() && IsNext(pn)
      modifies this
      ensures Valid() && highestPacketNumber == pn
      ensures Tracked() == old(Tracked()) && Total(packets) == old(Total(packets))
    {
      EmptyView(Base());
      EmptyView(pn + 1);
      if |packets| > 0 {
        Append(pn, None);
      } else {
        highestPacketNumber := pn;
      }
    }

    method SentAckElicitingPacket(p: Packet)
      requires Valid() && IsNext(p.pn) && PacketOk(p)
      modifies this
      ensures Valid() && highestPacketNumber == p.pn
      ensures Tracked() == old(Tracked())[p.pn := p] && Total(packets) == Plus(old(Total(packets)), LoadOf(p))
    {
      Append(p.pn, Some(p));
    }

    method Append(pn: int, x: Option<Packet>)
      requires Valid() && IsNext(pn) && (x.Some? ==> PacketOk(x.value) && x.value.pn == pn)
      requires (packets == [] ==> x.Some?)
      modifies this
      ensures Valid() && highestPacketNumber == pn
      ensures Tracked() == (if x.Some? then old(Tracked())[pn := x.value] else old(Tracked()))
      ensures Total(packets) == Plus(old(Total(packets)), SlotLoad(x))
    {
      hide LoadOf, Plus, Handled, View;
      EmptyView(Base());
      EmptyView(pn);
      PlusZero(Total(packets));
      Push(pn - |packets|, packets, x);
      highestPacketNumber := pn;
      packets := packets + [x];
      if x.Some? {
        OutstandingLoad(old(Total(packets)), x.value);
        if Outstanding(x.value) {
          numOutstanding := numOutstanding + 1;
        }
      }
    }

    method GetIndex(pn: int) returns (idx: Option<nat>)
      requires Valid()
      ensures idx.None? <==> !(Base() <= pn <= highestPacketNumber)
      ensures idx.Some? ==> idx.value < |packets| && Base() + idx.value == pn
    {
      if |packets| == 0 {
        return None;
      }
      var first := packets[0].value.pn;
      if pn < first || pn - first > |packets| - 1 {
        return None;
      }
      return Some(pn - first);
    }

    /** Valid except that the first slots may be empty. */
    ghost predicate Ragged()
      reads this
    {
      && Dense(Base(), packets)
      && highestPacketNumber >= INVALID_PACKET_NUMBER
      && numOutstanding == Total(packets).outstanding
    }

    method CleanupStart()
      requires Ragged()
      modifies this`packets
      ensures Valid() && Tracked() == old(Tracked()) && Total(packets) == old(Total(packets))
    {
      hide View, Total;
      var i := 0;
      while i < |packets|
        invariant i <= |packets| && packets == old(packets)
        invariant forall j :: 0 <= j < i ==> packets[j] == None
      {
        if packets[i].Some? {
          break;
        }
        i := i + 1;
      }
      CutFront(Base(), packets, i);
      packets := packets[i..];
    }

    /** Empties the slot of a packet. */
    method ClearSlot(idx: nat)
      requires Ragged() && idx < |packets| && packets[idx].Some?
      modifies this`packets, this`numOutstanding
      ensures Ragged() && packets == old(packets)[idx := None] && Tracked() == old(Tracked()) - {Base() + idx}
      ensures Plus(Total(packets), LoadOf(old(packets)[idx].value)) == old(Total(packets))
    {
      hide View, Total, Plus, LoadOf;
      var p := packets[idx].value;
      Clear(Base(), packets, idx);
      OutstandingLoad(Total(packets[idx := None]), p);
      if Outstanding(p) {
        numOutstanding := numOutstanding - 1;
        assert numOutstanding >= 0;
      }
      packets := packets[idx := None];
    }

    /** The numbers in the window for which this is called must be tracked. */
    method DeclareLost(pn: int)
      requires Valid() && (Base() <= pn <= highestPacketNumber ==> pn in Tracked())
      modifies this`packets, this`numOutstanding
      ensures Valid() && Tracked() == old(Tracked()) - {pn}
      ensures if pn in old(Tracked()) then Plus(Total(packets), LoadOf(old(Tracked())[pn])) == old(Total(packets))
              else Total(packets) == old(Total(packets))
    {
      hide Total, Plus, LoadOf;
      var idx := GetIndex(pn);
      if idx.None? {
        return;
      }
      assert Tracked()[pn] == Lookup(Base(), packets, pn).value;
      ClearSlot(idx.value);
      if idx.value == 0 {
        CleanupStart();
      }
    }

    /** Empties the slots of the skipped numbers directly before a slot that was just emptied. */
    method ClearSkipped(start: nat, ghost v: map<int, Packet>) returns (idx: nat)
      requires Ragged() && start < |packets| && Tracked() == v - {Base() + start}
      modifies this`packets, this`numOutstanding
      ensures Ragged() && |packets| == |old(packets)| && Total(packets) == old(Total(packets))
      ensures Tracked() == v - {Base() + start} - SkippedBefore(v, Base() + start)
      ensures idx <= start && (idx > 0 ==> packets[0] == old(packets)[0])
    {
      hide Total, Plus, LoadOf, View;
      ghost var pn := Base() + start;
      ghost var gone: set<int> := {};
      ghost var lo := pn;
      idx := start;
      while idx > 0
        invariant lo == Base() + idx
        invariant idx <= start && Ragged() && |packets| == |old(packets)| && Total(packets) == old(Total(packets))
        invariant packets[..idx] == old(packets)[..idx]
        invariant Tracked() == v - {pn} - gone && gone <= v.Keys
        invariant SkippedRun(v, lo, pn) && forall q :: q in gone <==> lo <= q < pn
      {
        idx := idx - 1;
        ViewAt(Base(), packets, idx);
        if packets[idx].None? || !packets[idx].value.skipped {
          break;
        }
        SkippedLoad(packets[idx].value);
        PlusZero(Total(packets[idx := None]));
        lo := lo - 1;
        gone := gone + {lo};
        ClearSlot(idx);
      }
      assert lo == Base() ==> lo - 1 !in Tracked() by { ViewBounds(Base(), packets, lo - 1); }
      RunEnds(v, lo, pn, gone);
    }

    method Remove(pn: int) returns (ok: bool)
      requires Valid() && (Base() <= pn <= highestPacketNumber ==> pn in Tracked())
      modifies this`packets, this`numOutstanding
      ensures Valid() && (ok <==> pn in old(Tracked()))
      ensures !ok ==> Tracked() == old(Tracked()) && Total(packets) == old(Total(packets))
      ensures ok ==> Tracked() == old(Tracked()) - {pn} - SkippedBefore(old(Tracked()), pn)
      ensures ok ==> Plus(Total(packets), LoadOf(old(Tracked())[pn])) == old(Total(packets))
    {
      hide Total, Plus, LoadOf, View, SkippedBefore;
      var index := GetIndex(pn);
      ViewBounds(Base(), packets, pn);
      if index.None? {
        return false;
      }
      ViewAt(Base(), packets, index.value);
      ClearSlot(index.value);
      var idx := ClearSkipped(index.value, old(Tracked()));
      if idx == 0 {
        CleanupStart();
      }
      assert packets == [] || packets[0].Some?;
      return true;
    }

    predicate HasOutstandingPackets()
      reads this
    {
      numOutstanding > 0
    }

    /** The outstanding packet with the lowest number. */
    method FirstOutstanding() returns (p: Option<Packet>)
      requires Valid()
      ensures p.None? <==> !HasOutstandingPackets()
      ensures p.None? <==> forall q :: q in Tracked() ==> !Outstanding(Tracked()[q])
      ensures p.Some? ==>
                && p.value.pn in Tracked() && Tracked()[p.value.pn] == p.value && Outstanding(p.value)
                && forall q :: q in Tracked() && q < p.value.pn ==> !Outstanding(Tracked()[q])
    {
      hide Outstanding, Total, PacketOk;
      NoneOutstanding(packets);
      assert forall q :: q in Tracked() ==> packets[q - Base()] == Some(Tracked()[q]);
      if !HasOutstandingPackets() {
        return None;
      }
      for i := 0 to |packets|
        invariant forall j :: 0 <= j < i && packets[j].Some? ==> !Outstanding(packets[j].value)
      {
        if packets[i].Some? && Outstanding(packets[i].value) {
          ViewAt(Base(), packets, i);
          return packets[i];
        }
      }
      assert false;
    }
  }
}
