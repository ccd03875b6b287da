/** The packet numbers that were received, as a list of ranges: internal/ackhandler/received_packet_history.go.

    The list refines a set of numbers.  Two things forget numbers: a cut-off, which is remembered, and the removal of
    the oldest ranges when there are too many, which is not. */
module ReceivedHistory {
  import opened Common
  import opened AckMerge

  const MAX_NUM_ACK_RANGES: nat := 32

  datatype Interval = Interval(start: int, end: int)

  predicate Within(r: Interval, p: int) {
    r.start <= p <= r.end
  }

  /** Ranges in ascending order; between any two there is a number that is in neither. */
  predicate Separated(s: seq<Interval>) {
    && (forall i :: 0 <= i < |s| ==> s[i].start <= s[i].end)
    && (forall i, j :: 0 <= i < j < |s| ==> s[i].end + 1 < s[j].start)
  }

  predicate Has(s: seq<Interval>, p: int) {
    exists r :: r in s && Within(r, p)
  }

  lemma HasAt(s: seq<Interval>, p: int)
    ensures Has(s, p) <==> exists i :: 0 <= i < |s| && Within(s[i], p)
  {
  }

  lemma HasConcat(s: seq<Interval>, t: seq<Interval>, p: int)
    ensures Has(s + t, p) <==> Has(s, p) || Has(t, p)
  {
  }

  /** Replaces the ranges i to j by one range. */
  function Spliced(s: seq<Interval>, i: nat, j: nat, r: Interval): seq<Interval>
    requires i <= j <= |s|
  {
    s[..i] + [r] + s[j..]
  }

  lemma SpliceHas(s: seq<Interval>, i: nat, j: nat, r: Interval, p: int)
    requires i <= j <= |s| && forall q :: Within(r, q) <==> q == p || Has(s[i..j], q)
    ensures forall q :: Has(Spliced(s, i, j, r), q) <==> Has(s, q) || q == p
  {
    var t := Spliced(s, i, j, r);
    assert s == s[..i] + s[i..j] + s[j..];
    forall q ensures Has(t, q) <==> Has(s, q) || q == p {
      HasConcat(s[..i] + [r], s[j..], q);
      HasConcat(s[..i], [r], q);
      HasConcat(s[..i] + s[i..j], s[j..], q);
      HasConcat(s[..i], s[i..j], q);
      assert r in [r];
    }
  }

  /** A range that takes the place of neighbouring ranges and one more number. */
  lemma Splice(s: seq<Interval>, i: nat, j: nat, r: Interval, p: int)
    requires Separated(s) && i <= j <= |s| && r.start <= r.end
    requires i > 0 ==> s[i - 1].end + 1 < r.start
    requires j < |s| ==> r.end + 1 < s[j].start
    requires forall q :: Within(r, q) <==> q == p || Has(s[i..j], q)
    ensures Separated(Spliced(s, i, j, r))
    ensures forall q :: Has(Spliced(s, i, j, r), q) <==> Has(s, q) || q == p
  {
    SpliceHas(s, i, j, r, p);
    hide Has;
    forall k | 0 <= k < i ensures s[k].end + 1 < r.start {
    }
    forall k | j <= k < |s| ensures r.end + 1 < s[k].start {
    }
  }

  lemma NotBelow(s: seq<Interval>, i: nat, p: int)
    requires Separated(s) && i <= |s| && (i > 0 ==> s[i - 1].end < p) && (i < |s| ==> p < s[i].start)
    ensures !Has(s, p)
  {
  }

  lemma HasOne(r: Interval, q: int)
    ensures Has([], q) <==> false
    ensures Has([r], q) <==> Within(r, q)
  {
  }

  lemma HasTwo(r: Interval, t: Interval, q: int)
    ensures Has([r, t], q) <==> Within(r, q) || Within(t, q)
  {
  }

  lemma DropFront(s: seq<Interval>)
    requires Separated(s) && s != []
    ensures Separated(s[1..]) && forall q :: Has(s, q) <==> Within(s[0], q) || Has(s[1..], q)
  {
  }

  lemma Extend(s: seq<Interval>, i: nat, p: int)
    requires Separated(s) && i < |s| && s[i].start == p + 1 && (i > 0 ==> s[i - 1].end + 1 < p)
    ensures var t := Spliced(s, i, i + 1, Interval(p, s[i].end)); Separated(t) && forall q :: Has(t, q) <==>
              Has(s, q) || q == p
  {
    assert s[i..i + 1] == [s[i]];
    forall q ensures Within(Interval(p, s[i].end), q) <==> q == p || Has(s[i..i + 1], q) {
      HasOne(s[i], q);
    }
    hide Has;
    Splice(s, i, i + 1, Interval(p, s[i].end), p);
  }

  lemma Neighbours(s: seq<Interval>, i: nat)
    requires Separated(s) && i < |s|
    ensures s[i].start <= s[i].end
    ensures i > 0 ==> s[i - 1].end + 1 < s[i].start
    ensures i + 1 < |s| ==> s[i].end + 1 < s[i + 1].start
  {
  }

  lemma Bridge(prev: Interval, el: Interval, p: int)
    requires prev.start <= prev.end && el.start <= el.end && el.start == p + 1 && prev.end + 1 == p
    ensures forall q :: Within(Interval(prev.start, el.end), q) <==> q == p || Has([prev, el], q)
  {
    forall q ensures Within(Interval(prev.start, el.end), q) <==> q == p || Has([prev, el], q) {
      HasTwo(prev, el, q);
    }
  }

  lemma Merge(s: seq<Interval>, i: nat, p: int)
    requires Separated(s) && 0 < i < |s| && s[i].start == p + 1 && s[i - 1].end + 1 == p
    ensures var t := Spliced(s, i - 1, i + 1, Interval(s[i - 1].start, s[i].end));
            Separated(t) && forall q :: Has(t, q) <==> Has(s, q) || q == p
  {
    hide Has, Separated;
    Neighbours(s, i - 1);
    Neighbours(s, i);
    Bridge(s[i - 1], s[i], p);
    assert s[i - 1..i + 1] == [s[i - 1], s[i]];
    Splice(s, i - 1, i + 1, Interval(s[i - 1].start, s[i].end), p);
  }

  /** How many numbers of a set are above a number. */
  ghost function Newer(received: set<int>, p: int): nat {
    |set x | x in received && p < x|
  }

  lemma NewerGrows(a: set<int>, b: set<int>, p: int)
    requires a <= b
    ensures Newer(a, p) <= Newer(b, p)
  {
    SubsetSize((set x | x in a && p < x), (set x | x in b && p < x));
  }

  ghost function Starts(s: seq<Interval>): set<int> {
    set r | r in s :: r.start
  }

  lemma {:induction false} StartsSize(s: seq<Interval>)
    requires Separated(s)
    ensures |Starts(s)| == |s|
  {
    if s != [] {
      var n := |s| - 1;
      StartsSize(s[..n]);
      assert s == s[..n] + [s[n]];
      assert Starts(s) == Starts(s[..n]) + {s[n].start} && s[n].start !in Starts(s[..n]);
    }
  }

  /** Every range holds a number that is newer than what is below all ranges. */
  lemma NewerThan(s: seq<Interval>, received: set<int>, p: int)
    requires Separated(s) && s != [] && p < s[0].start && forall q :: Has(s, q) ==> q in received
    ensures Newer(received, p) >= |s|
  {
    StartsSize(s);
    forall x | x in Starts(s) ensures x in received && p < x {
      var r :| r in s && r.start == x;
      assert Within(r, x);
    }
    SubsetSize(Starts(s), (set x | x in received && p < x));
  }

  class ReceivedPacketHistory {
    var ranges: seq<Interval>
    var deletedBelow: int

    /** The numbers that were registered. */
    ghost var received: set<int>

    constructor ()
      ensures Valid() && ranges == [] && deletedBelow == 0 && received == {}
    {
      ranges, deletedBelow, received := [], 0, {};
    }

    ghost predicate Valid()
      reads this
    {
      && Separated(ranges) && |ranges| <= MAX_NUM_ACK_RANGES
      && (forall p :: Has(ranges, p) ==> p in received && p >= deletedBelow)
      && (forall p :: p in received && p >= deletedBelow && !Has(ranges, p) ==>
                        Newer(received, p) >= MAX_NUM_ACK_RANGES)
    }

    /** Walks the list from the back to find the place of a number. */
    method AddToRanges(p: int) returns (isNew: bool)
      requires Separated(ranges)
      modifies this`ranges
      ensures isNew <==> !Has(old(ranges), p)
      ensures Separated(ranges) && |ranges| <= |old(ranges)| + 1 && (!isNew ==> ranges == old(ranges))
      ensures forall q :: Has(ranges, q) <==> Has(old(ranges), q) || q == p
    {
      hide Has;
      ghost var s := ranges;
      var i := |ranges|;
      while i > 0
        invariant 0 <= i <= |ranges| && ranges == s
        invariant i < |s| ==> p + 1 < s[i].start
      {
        i := i - 1;
        var el := ranges[i];
        forall q {
          HasOne(el, q);
        }
        if el.start <= p <= el.end {
          assert Has(s, p) by { HasAt(s, p); }
          return false;
        }
        if el.end == p - 1 {
          assert s[i..i + 1] == [el];
          NotBelow(s, i + 1, p);
          Splice(s, i, i + 1, Interval(el.start, p), p);
          ranges := Spliced(ranges, i, i + 1, Interval(el.start, p));
          return true;
        }
        if el.start == p + 1 {
          assert i > 0 ==> s[i - 1].end + 1 < s[i].start;
          isNew := ExtendDown(i, p);
          return;
        }
        if p > el.end {
          assert s[i + 1..i + 1] == [];
          NotBelow(s, i + 1, p);
          Splice(s, i + 1, i + 1, Interval(p, p), p);
          ranges := Spliced(ranges, i + 1, i + 1, Interval(p, p));
          return true;
        }
      }
      assert s[0..0] == [];
      forall q {
        HasOne(Interval(p, p), q);
      }
      NotBelow(s, 0, p);
      Splice(s, 0, 0, Interval(p, p), p);
      ranges := Spliced(ranges, 0, 0, Interval(p, p));
      return true;
    }

    /** Extends a range at the beginning, and merges it with the range before if they have become adjacent. */
    method ExtendDown(i: nat, p: int) returns (isNew: bool)
      requires Separated(ranges) && i < |ranges| && ranges[i].start == p + 1 && (i > 0 ==> ranges[i - 1].end < p)
      modifies this`ranges
      ensures isNew && !Has(old(ranges), p)
      ensures Separated(ranges) && |ranges| <= |old(ranges)| + 1
      ensures forall q :: Has(ranges, q) <==> Has(old(ranges), q) || q == p
    {
      hide Has, Separated;
      NotBelow(ranges, i, p);
      if i > 0 && ranges[i - 1].end + 1 == p {
        Merge(ranges, i, p);
        ranges := Spliced(ranges, i - 1, i + 1, Interval(ranges[i - 1].start, ranges[i].end));
      } else {
        Extend(ranges, i, p);
        ranges := Spliced(ranges, i, i + 1, Interval(p, ranges[i].end));
      }
      return true;
    }

    /** Removes the oldest ranges if there are too many. */
    method MaybeDeleteOldRanges()
      requires Separated(ranges)
      modifies this`ranges
      ensures Separated(ranges) && |ranges| == Min(|old(ranges)|, MAX_NUM_ACK_RANGES)
      ensures forall q :: Has(ranges, q) ==> Has(old(ranges), q)
      ensures forall q :: Has(old(ranges), q) && !Has(ranges, q) ==>
                |ranges| == MAX_NUM_ACK_RANGES && q < ranges[0].start
      ensures |old(ranges)| <= MAX_NUM_ACK_RANGES ==> ranges == old(ranges)
    {
      hide Has, Separated;
      while |ranges| > MAX_NUM_ACK_RANGES
        invariant Separated(ranges) && Min(|old(ranges)|, MAX_NUM_ACK_RANGES) <= |ranges| <= |old(ranges)|
        invariant |ranges| == |old(ranges)| ==> ranges == old(ranges)
        invariant forall q :: Has(ranges, q) ==> Has(old(ranges), q)
        invariant forall q :: Has(old(ranges), q) && !Has(ranges, q) ==>
                  |ranges| >= MAX_NUM_ACK_RANGES && q < ranges[0].start
      {
        Neighbours(ranges, 0);
        Neighbours(ranges, 1);
        DropFront(ranges);
        ranges := ranges[1..];
      }
    }

    /** Registers a packet number.  A number is forgotten only if there are at least MAX_NUM_ACK_RANGES newer ones. */
    method ReceivedPacket(p: int) returns (isNew: bool)
      requires Valid()
      modifies this`ranges, this`received
      ensures Valid() && (isNew <==> p >= deletedBelow && !Has(old(ranges), p))
      ensures received == if p < deletedBelow then old(received) else old(received) + {p}
      ensures !isNew ==> ranges == old(ranges)
      ensures isNew ==> ranges != [] && forall q :: Has(ranges, q) ==> Has(old(ranges), q) || q == p
      ensures isNew && |old(ranges)| < MAX_NUM_ACK_RANGES ==> forall q :: Has(ranges, q) <==>
                Has(old(ranges), q) || q == p
    {
      hide Has, Separated, Newer;
      if p < deletedBelow {
        return false;
      }
      isNew := AddToRanges(p);
      assert ranges != [] by { HasOne(Interval(p, p), p); }
      ghost var full := ranges;
      MaybeDeleteOldRanges();
      received := received + {p};
      forall q | q in received && q >= deletedBelow && !Has(ranges, q)
        ensures Newer(received, q) >= MAX_NUM_ACK_RANGES
      {
        if Has(full, q) {
          NewerThan(ranges, received, q);
        } else {
          NewerGrows(old(received), received, q);
        }
      }
    }

    /** Deletes the numbers below a cut-off. */
    method DeleteBelow(p: int)
      requires Valid()
      modifies this`ranges, this`deletedBelow
      ensures Valid() && deletedBelow == Max(old(deletedBelow), p)
      ensures forall q :: Has(ranges, q) <==> Has(old(ranges), q) && q >= deletedBelow
      ensures ranges != [] <==> old(ranges) != [] && deletedBelow <= old(ranges)[|old(ranges)| - 1].end
      ensures |ranges| <= |old(ranges)|
    {
      hide Has, Separated;
      LastIsIn(ranges);
      if p < deletedBelow {
        return;
      }
      deletedBelow := p;
      ghost var n := 0;
      while |ranges| > 0 && ranges[0].end < p
        invariant n <= |old(ranges)| && ranges == old(ranges)[n..] && deletedBelow == p
        invariant forall i :: 0 <= i < n ==> old(ranges)[i].end < p
        decreases |ranges|
      {
        ranges := ranges[1..];
        n := n + 1;
      }
      if |ranges| > 0 && p > ranges[0].start {
        ranges := ranges[0 := Interval(p, ranges[0].end)];
      }
      CutBelow(old(ranges), n, p, ranges);
    }

    /** The test that keeps a packet from being handled twice. */
    method IsPotentiallyDuplicate(p: int) returns (r: bool)
      requires Valid()
      ensures r <==> p < deletedBelow || Has(ranges, p)
      ensures p in received && !r ==> Newer(received, p) >= MAX_NUM_ACK_RANGES
      ensures r ==> p in received || p < deletedBelow
    {
      hide Has;
      if p < deletedBelow {
        return true;
      }
      var i := |ranges|;
      while i > 0
        invariant 0 <= i <= |ranges|
        invariant i < |ranges| ==> p < ranges[i].start
      {
        i := i - 1;
        if p > ranges[i].end {
          NotBelow(ranges, i + 1, p);
          return false;
        }
        if ranges[i].start <= p <= ranges[i].end {
          assert Has(ranges, p) by { HasAt(ranges, p); }
          return true;
        }
      }
      NotBelow(ranges, 0, p);
      return false;
    }

    /** The ranges of an ACK frame, in descending order. */
    method AppendAckRanges() returns (ackRanges: seq<AckRange>)
      requires Valid()
      ensures |ackRanges| == |ranges| && (ranges != [] ==> Validated(ackRanges))
      ensures forall p :: Acks(ackRanges, p) <==> Has(ranges, p)
    {
      ackRanges := [];
      var i := |ranges|;
      while i > 0
        invariant 0 <= i <= |ranges| && |ackRanges| == |ranges| - i
        invariant forall j :: 0 <= j < |ackRanges| ==> ackRanges[j] == ToAckRange(ranges[|ranges| - 1 - j])
      {
        i := i - 1;
        ackRanges := ackRanges + [ToAckRange(ranges[i])];
      }
      SameNumbers(ranges, ackRanges);
    }
  }

  function ToAckRange(r: Interval): AckRange {
    AckRange(r.start, r.end)
  }

  lemma SameNumbers(s: seq<Interval>, t: seq<AckRange>)
    requires |t| == |s| && forall j :: 0 <= j < |t| ==> t[j] == ToAckRange(s[|s| - 1 - j])
    ensures forall p :: Acks(t, p) <==> Has(s, p)
  {
    forall p ensures Acks(t, p) <==> Has(s, p) {
      if Acks(t, p) {
        var j :| 0 <= j < |t| && Covers(t[j], p);
        assert Within(s[|s| - 1 - j], p);
      }
      if Has(s, p) {
        var i :| 0 <= i < |s| && Within(s[i], p);
        assert t[|s| - 1 - i] == ToAckRange(s[i]);
        assert Covers(t[|s| - 1 - i], p);
      }
    }
  }

  lemma LastIsIn(s: seq<Interval>)
    requires Separated(s)
    ensures s != [] ==> Has(s, s[|s| - 1].end)
  {
    assert s != [] ==> Within(s[|s| - 1], s[|s| - 1].end);
  }

  /** What is left when the ranges below a number are cut off. */
  lemma CutBelow(s: seq<Interval>, n: nat, p: int, t: seq<Interval>)
    requires Separated(s) && n <= |s| && (forall i :: 0 <= i < n ==> s[i].end < p) && (n < |s| ==> s[n].end >= p)
    requires t == if n < |s| && p > s[n].start then s[n..][0 := Interval(p, s[n].end)] else s[n..]
    ensures Separated(t) && forall q :: Has(t, q) <==> Has(s, q) && q >= p
    ensures t != [] <==> s != [] && p <= s[|s| - 1].end
  {
    assert n < |s| - 1 ==> s[n].end < s[|s| - 1].start <= s[|s| - 1].end;
    forall q ensures Has(t, q) <==> Has(s, q) && q >= p {
      if Has(s, q) && q >= p {
        var i :| 0 <= i < |s| && Within(s[i], q);
        assert i >= n && Within(t[i - n], q);
      }
      if Has(t, q) {
        var i :| 0 <= i < |t| && Within(t[i], q);
        assert Within(s[n + i], q);
      }
    }
  }
}
