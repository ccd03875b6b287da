/** The single pass over the sent packets that finds those an ACK frame acknowledges:
    internal/ackhandler/sent_packet_handler.go, internal/wire/ack_frame.go. */
module AckMerge {
  import opened Common
  import opened SentHistory

  datatype AckRange = AckRange(smallest: int, largest: int)

  /** What the frame parser guarantees: ranges in descending order, with a gap between any two. */
  predicate Validated(ranges: seq<AckRange>) {
    && ranges != []
    && (forall i :: 0 <= i < |ranges| ==> ranges[i].smallest <= ranges[i].largest)
    && (forall i :: 0 < i < |ranges| ==> ranges[i].largest + 1 < ranges[i - 1].smallest)
  }

  predicate Covers(r: AckRange, pn: int) {
    r.smallest <= pn <= r.largest
  }

  predicate Acks(ranges: seq<AckRange>, pn: int) {
    exists r :: r in ranges && Covers(r, pn)
  }

  /** The tracked packets with an acknowledged number, in ascending order. */
  function AckedIn(s: Slots, ranges: seq<AckRange>): seq<Packet> {
    if s == [] then []
    else
      var last := s[|s| - 1];
      AckedIn(s[..|s| - 1], ranges) +
      if last.Some? && !last.value.skipped && Acks(ranges, last.value.pn) then [last.value] else []
  }

  /** The k-th range from below. */
  function FromBelow(ranges: seq<AckRange>, k: nat): AckRange
    requires k < |ranges|
  {
    ranges[|ranges| - 1 - k]
  }

  lemma {:induction false} Descending(ranges: seq<AckRange>, i: nat, j: nat)
    requires Validated(ranges) && i < j < |ranges|
    ensures ranges[j].largest < ranges[i].smallest
    decreases j
  {
    if i < j - 1 {
      Descending(ranges, i, j - 1);
    }
  }

  /** A number above all ranges below the k-th and not above the k-th is acknowledged exactly if the k-th covers it. */
  lemma OnlyThisRange(ranges: seq<AckRange>, k: nat, pn: int)
    requires Validated(ranges) && k < |ranges| && pn <= FromBelow(ranges, k).largest
    requires k > 0 ==> FromBelow(ranges, k - 1).largest < pn
    ensures Acks(ranges, pn) <==> FromBelow(ranges, k).smallest <= pn
  {
    var n := |ranges| - 1 - k;
    if Acks(ranges, pn) {
      var i :| 0 <= i < |ranges| && Covers(ranges[i], pn);
      if i < n {
        Descending(ranges, i, n);
      } else if i > n + 1 {
        Descending(ranges, n + 1, i);
      }
    }
    assert Covers(ranges[n], pn) ==> Acks(ranges, pn);
  }

  lemma Outside(ranges: seq<AckRange>, pn: int)
    requires Validated(ranges) && (pn < ranges[|ranges| - 1].smallest || pn > ranges[0].largest)
    ensures !Acks(ranges, pn)
  {
    forall i | 0 <= i < |ranges| ensures !Covers(ranges[i], pn) {
      if i > 0 {
        Descending(ranges, 0, i);
      }
      if i < |ranges| - 1 {
        Descending(ranges, i, |ranges| - 1);
      }
    }
  }

  predicate SkippedAcked(x: Option<Packet>, ranges: seq<AckRange>) {
    x.Some? && x.value.skipped && Acks(ranges, x.value.pn)
  }

  /** Advances the index of the current range and decides whether the range acknowledges the packet number. */
  method Advance(ranges: seq<AckRange>, index: nat, pn: int) returns (index': nat, acked: bool)
    requires Validated(ranges) && index < |ranges| && ranges[|ranges| - 1].smallest <= pn <= ranges[0].largest
    requires index > 0 ==> FromBelow(ranges, index - 1).largest < pn
    ensures index' < |ranges| && (index' > 0 ==> FromBelow(ranges, index' - 1).largest < pn)
    ensures acked <==> Acks(ranges, pn)
  {
    index' := index;
    if |ranges| > 1 {
      var ackRange := FromBelow(ranges, index);
      while pn > ackRange.largest && index' < |ranges| - 1
        invariant index' < |ranges| && ackRange == FromBelow(ranges, index')
        invariant index' > 0 ==> FromBelow(ranges, index' - 1).largest < pn
      {
        index' := index' + 1;
        ackRange := FromBelow(ranges, index');
      }
      OnlyThisRange(ranges, index', pn);
      if pn < ackRange.smallest {
        return index', false;
      }
      assert pn <= ackRange.largest; // the source raises an internal error otherwise
    }
    OnlyThisRange(ranges, index', pn);
    return index', true;
  }

  /** One pass in ascending order finds exactly the acknowledged packets, unless a skipped number is acknowledged. */
  method FindAcked(ghost base: int, packets: Slots, ranges: seq<AckRange>)
    returns (acked: seq<Packet>, skipped: Option<int>)
    requires Dense(base, packets) && Validated(ranges)
    ensures skipped.None? ==> acked == AckedIn(packets, ranges) && forall x :: x in packets ==> !SkippedAcked(x, ranges)
    ensures skipped.Some? ==>
              && base <= skipped.value < base + |packets|
              && SkippedAcked(packets[skipped.value - base], ranges)
              && acked == AckedIn(packets[..skipped.value - base], ranges)
              && forall x :: x in packets[..skipped.value - base] ==> !SkippedAcked(x, ranges)
  {
    hide Acks;
    var index: nat := 0;
    acked := [];
    var i := 0;
    while i < |packets|
      invariant i <= |packets| && index < |ranges|
      invariant index > 0 ==> FromBelow(ranges, index - 1).largest < base + i
      invariant acked == AckedIn(packets[..i], ranges)
      invariant forall x :: x in packets[..i] ==> !SkippedAcked(x, ranges)
    {
      assert packets[..i + 1][..i] == packets[..i];
      if packets[i].Some? {
        var p := packets[i].value;
        if p.pn > ranges[0].largest {
          break;
        }
        if p.pn < ranges[|ranges| - 1].smallest {
          Outside(ranges, p.pn);
        } else {
          var isAcked;
          index, isAcked := Advance(ranges, index, p.pn);
          if isAcked {
            if p.skipped {
              return acked, Some(p.pn);
            }
            acked := acked + [p];
          }
        }
      }
      i := i + 1;
    }
    NoneAbove(base, packets, ranges, i);
    return acked, None;
  }

  /** No packet from some slot on is acknowledged once its number is above all ranges. */
  lemma {:induction false} NoneAbove(base: int, s: Slots, ranges: seq<AckRange>, i: nat)
    requires Dense(base, s) && Validated(ranges) && i <= |s| && (i < |s| ==> base + i > ranges[0].largest)
    ensures AckedIn(s, ranges) == AckedIn(s[..i], ranges)
    ensures forall j :: i <= j < |s| ==> !SkippedAcked(s[j], ranges)
    decreases |s|
  {
    hide Acks, PacketOk;
    if i == |s| {
      assert s[..i] == s;
    } else {
      var n := |s| - 1;
      if s[n].Some? {
        Outside(ranges, s[n].value.pn);
      }
      NoneAbove(base, s[..n], ranges, i);
      assert s[..n][..i] == s[..i];
    }
  }

  /** `AckedIn` lists, in ascending order, the tracked packets whose number lies in some range. */
  lemma {:induction false} AckedExactly(base: int, s: Slots, ranges: seq<AckRange>)
    requires Dense(base, s)
    ensures forall p :: p in AckedIn(s, ranges) <==>
                          p.pn in View(base, s) && View(base, s)[p.pn] == p && !p.skipped && Acks(ranges, p.pn)
    ensures forall i, j :: 0 <= i < j < |AckedIn(s, ranges)| ==> AckedIn(s, ranges)[i].pn < AckedIn(s, ranges)[j].pn
  {
    hide Acks, PacketOk, View;
    if s == [] {
      EmptyView(base);
    } else {
      var n := |s| - 1;
      AckedExactly(base, s[..n], ranges);
      ViewPush(base, s, n);
    }
  }

  lemma ViewPush(base: int, s: Slots, n: nat)
    requires |s| == n + 1
    ensures View(base, s) == if s[n].Some? then View(base, s[..n])[base + n := s[n].value] else View(base, s[..n])
    ensures forall q :: q in View(base, s[..n]) ==> q < base + n
  {
  }
}
