/** Reassembly of a byte stream out of frames that arrive late, twice, split
    differently, or never: frame_sorter.go.

    The linked list of gaps is a sequence, the map from offsets to buffered
    data a map.  Buffers are returned to their pool by a callback; a callback
    is an identifier here, and `calls` counts how often each one was invoked.
  */
module FrameSorting {
  import opened Common

  const MIN_STREAM_FRAME_BUFFER_SIZE: nat := 128
  const MAX_STREAM_FRAME_SORTER_GAPS: nat := 1000

  datatype Interval = Interval(start: nat, end: nat)

  type Callback = nat

  datatype Entry = Entry(data: seq<Byte>, doneCb: Option<Callback>)

  type Queue = map<nat, Entry>

  /** Where a callback is: held by the queue entry at an offset, invoked, or handed out by Pop. */
  datatype Fate = Held(at: nat) | Fired | HandedOut

  // ------------------------------------------------------------------
  // Gaps
  // ------------------------------------------------------------------

  /** Sorted, non-empty, separated, and open-ended. */
  ghost predicate GapsOk(gaps: seq<Interval>) {
    && gaps != []
    && (forall i :: 0 <= i < |gaps| ==> gaps[i].start < gaps[i].end)
    && (forall i, j :: 0 <= i < j < |gaps| ==> gaps[i].end < gaps[j].start)
    && gaps[|gaps| - 1].end == MAX_BYTE_COUNT
  }

  ghost predicate Missing(gaps: seq<Interval>, b: nat) {
    exists i :: 0 <= i < |gaps| && gaps[i].start <= b < gaps[i].end
  }

  /** The gaps once [s, e) has been filled, where gap i is the first not entirely before s and
      gap j the last not entirely behind e. */
  function Punched(gaps: seq<Interval>, i: nat, j: nat, s: nat, e: nat): seq<Interval>
    requires i < |gaps| && j < |gaps|
  {
    gaps[..i]
    + (if gaps[i].start < s then [Interval(gaps[i].start, if s < gaps[i].end then s else gaps[i].end)] else [])
    + (if e < gaps[j].end then [Interval(e, gaps[j].end)] else [])
    + gaps[j+1..]
  }

  ghost predicate Brackets(gaps: seq<Interval>, i: nat, j: nat, s: nat, e: nat) {
    && i <= j < |gaps|
    && s < e < MAX_BYTE_COUNT
    && (forall k :: 0 <= k < i ==> gaps[k].end < s)
    && s <= gaps[i].end
    && gaps[j].start <= e
    && (forall k :: j < k < |gaps| ==> e < gaps[k].start)
  }

  lemma PunchedGapsOk(gaps: seq<Interval>, i: nat, j: nat, s: nat, e: nat)
    requires GapsOk(gaps) && Brackets(gaps, i, j, s, e)
    ensures GapsOk(Punched(gaps, i, j, s, e))
  {
  }

  /** Where the gaps begin, given the bytes that were received. */
  ghost function Holes(received: set<nat>): set<nat> {
    set b: nat | b < MAX_BYTE_COUNT && IsHole(received, b)
  }

  ghost predicate IsHole(received: set<nat>, b: nat) {
    b !in received && (b == 0 || b - 1 in received)
  }

  ghost function StartsOf(gaps: seq<Interval>): set<nat> {
    set g | g in gaps :: g.start
  }

  lemma {:induction false} CountStarts(gaps: seq<Interval>)
    requires forall i, j :: 0 <= i < j < |gaps| ==> gaps[i].start < gaps[j].start
    ensures |StartsOf(gaps)| == |gaps|
  {
    if gaps != [] {
      var n := |gaps| - 1;
      CountStarts(gaps[..n]);
      assert gaps == gaps[..n] + [gaps[n]];
      assert StartsOf(gaps) == StartsOf(gaps[..n]) + {gaps[n].start} && gaps[n].start !in StartsOf(gaps[..n]);
    }
  }

  lemma StartOrBefore(gaps: seq<Interval>, i: nat, b: nat)
    requires i < |gaps| && gaps[i].start <= b < gaps[i].end
    ensures gaps[i].start == b || (b > 0 && Missing(gaps, b - 1))
  {
  }

  lemma HolesAreStarts(gaps: seq<Interval>, received: set<nat>, b: nat)
    requires GapsOk(gaps) && b < MAX_BYTE_COUNT && (Missing(gaps, b) <==> b !in received)
    requires b > 0 ==> (Missing(gaps, b - 1) <==> b - 1 !in received)
    ensures b in StartsOf(gaps) <==> IsHole(received, b)
  {
    if b in StartsOf(gaps) {
      var i :| 0 <= i < |gaps| && gaps[i].start == b;
      assert Missing(gaps, b);
      assert forall k :: 0 <= k < |gaps| ==> if k < i then gaps[k].end < b else b <= gaps[k].start;
    }
    if IsHole(received, b) {
      var i :| 0 <= i < |gaps| && gaps[i].start <= b < gaps[i].end;
      StartOrBefore(gaps, i, b);
    }
  }

  /** A list of gaps has as many entries as there are holes in what was received. */
  lemma CountGaps(gaps: seq<Interval>, received: set<nat>)
    requires GapsOk(gaps) && forall b: nat :: b < MAX_BYTE_COUNT ==> (Missing(gaps, b) <==> b !in received)
    ensures |gaps| == |Holes(received)|
  {
    CountStarts(gaps);
    StartsBelowEnd(gaps);
    hide GapsOk, Missing, IsHole;
    forall b: nat | b < MAX_BYTE_COUNT ensures b in StartsOf(gaps) <==> IsHole(received, b) {
      if b > 0 {
        var c: nat := b - 1;
        assert Missing(gaps, c) <==> c !in received;
      }
      HolesAreStarts(gaps, received, b);
    }
    assert StartsOf(gaps) == Holes(received);
  }

  lemma StartsBelowEnd(gaps: seq<Interval>)
    requires GapsOk(gaps)
    ensures forall b :: b in StartsOf(gaps) ==> b < MAX_BYTE_COUNT
  {
  }

  lemma MissingConcat(x: seq<Interval>, y: seq<Interval>, b: nat)
    ensures Missing(x + y, b) <==> Missing(x, b) || Missing(y, b)
  {
    if k :| 0 <= k < |x| && x[k].start <= b < x[k].end {
      assert (x + y)[k] == x[k];
    }
    if k :| 0 <= k < |y| && y[k].start <= b < y[k].end {
      assert (x + y)[|x| + k] == y[k];
    }
  }

  /** What the gaps from i to j say about a byte. */
  lemma MissingInside(gaps: seq<Interval>, i: nat, j: nat, s: nat, e: nat, b: nat)
    requires GapsOk(gaps) && Brackets(gaps, i, j, s, e)
    ensures !(s <= b < e) ==> (Missing(gaps[i..j+1], b) <==>
              (gaps[i].start <= b < s && b < gaps[i].end) || e <= b < gaps[j].end)
    ensures s <= b < e ==> !Missing(gaps[..i], b) && !Missing(gaps[j+1..], b)
  {
  }

  lemma AtMostOneGap(x: seq<Interval>, b: nat)
    requires |x| <= 1
    ensures Missing(x, b) <==> x != [] && x[0].start <= b < x[0].end
  {
  }

  lemma PunchedMissing(gaps: seq<Interval>, i: nat, j: nat, s: nat, e: nat, b: nat)
    requires GapsOk(gaps) && Brackets(gaps, i, j, s, e)
    ensures Missing(Punched(gaps, i, j, s, e), b) <==> Missing(gaps, b) && !(s <= b < e)
  {
    hide Missing;
    var l := if gaps[i].start < s then [Interval(gaps[i].start, if s < gaps[i].end then s else gaps[i].end)] else [];
    var r := if e < gaps[j].end then [Interval(e, gaps[j].end)] else [];
    MissingConcat(gaps[..i] + l + r, gaps[j+1..], b);
    MissingConcat(gaps[..i] + l, r, b);
    MissingConcat(gaps[..i], l, b);
    assert gaps == gaps[..i] + gaps[i..j+1] + gaps[j+1..];
    MissingConcat(gaps[..i] + gaps[i..j+1], gaps[j+1..], b);
    MissingConcat(gaps[..i], gaps[i..j+1], b);
    MissingInside(gaps, i, j, s, e, b);
    AtMostOneGap(l, b);
    AtMostOneGap(r, b);
  }

  // ------------------------------------------------------------------
  // The queue
  // ------------------------------------------------------------------

  function End(q: Queue, k: nat): nat
    requires k in q
  {
    k + |q[k].data|
  }

  ghost predicate Covers(q: Queue, k: nat, b: nat) {
    k in q && k <= b < End(q, k)
  }

  ghost predicate Covered(q: Queue, b: nat) {
    exists k :: Covers(q, k, b)
  }

  /** Entries are non-empty, disjoint and not below the read position. */
  ghost predicate QueueOk(q: Queue, readPos: nat) {
    && (forall k :: k in q ==> readPos <= k < End(q, k) <= MAX_BYTE_COUNT)
    && (forall k, l :: k in q && l in q && k < l ==> End(q, k) <= l)
  }

  /** The queue holds exactly the bytes that were received and not yet popped. */
  ghost predicate Partition(q: Queue, gaps: seq<Interval>, readPos: nat) {
    forall b :: readPos <= b < MAX_BYTE_COUNT ==> (Missing(gaps, b) <==> !Covered(q, b))
  }

  ghost predicate Consistent(q: Queue, gaps: seq<Interval>, readPos: nat) {
    && GapsOk(gaps)
    && readPos <= gaps[0].start
    && QueueOk(q, readPos)
    && Partition(q, gaps, readPos)
  }

  ghost predicate NoStraddle(q: Queue, p: nat) {
    forall k :: k in q ==> !(k < p < End(q, k))
  }

  function Without(q: Queue, a: nat, b: nat): Queue {
    map k | k in q && !(a <= k < b) :: q[k]
  }

  function FiredIn(fate: map<Callback, Fate>, a: nat, b: nat): map<Callback, Fate> {
    map id | id in fate :: if fate[id].Held? && a <= fate[id].at < b then Fired else fate[id]
  }

  /** Callbacks are linear: held by exactly one entry, or invoked exactly once, or handed out. */
  ghost predicate Linear(q: Queue, fate: map<Callback, Fate>, calls: multiset<Callback>) {
    && (forall k :: k in q && q[k].doneCb.Some? ==> q[k].doneCb.value in fate && fate[q[k].doneCb.value] == Held(k))
    && (forall id :: id in fate && fate[id].Held? ==> fate[id].at in q && q[fate[id].at].doneCb == Some(id))
    && (forall id :: calls[id] == (if id in fate && fate[id].Fired? then 1 else 0))
  }

  /** Every buffered byte is the byte of the stream at its offset. */
  ghost predicate Carries(q: Queue, stream: seq<Byte>) {
    forall k :: k in q ==> End(q, k) <= |stream| && q[k].data == stream[k..End(q, k)]
  }

  ghost predicate IsSlice(stream: seq<Byte>, offset: nat, data: seq<Byte>) {
    offset + |data| <= |stream| && data == stream[offset..offset + |data|]
  }

  /** A byte that is received and not inside an entry that starts earlier is where an entry starts. */
  lemma EntryStartsHere(q: Queue, gaps: seq<Interval>, readPos: nat, b: nat)
    requires Partition(q, gaps, readPos) && NoStraddle(q, b)
    requires readPos <= b < MAX_BYTE_COUNT && !Missing(gaps, b)
    ensures b in q
  {
  }

  lemma GapEdgesAreBoundaries(q: Queue, gaps: seq<Interval>, readPos: nat, i: nat)
    requires Consistent(q, gaps, readPos)
    requires i < |gaps|
    ensures NoStraddle(q, gaps[i].start) && NoStraddle(q, gaps[i].end)
    ensures forall k :: k in q ==> !(gaps[i].start <= k < gaps[i].end)
  {
    var first: nat, last: nat := gaps[i].start, gaps[i].end - 1;
    assert Missing(gaps, first) && Missing(gaps, last);
    assert !Covered(q, first) && !Covered(q, last) by {
      assert !Covers(q, first, first);
    }
    forall k | k in q ensures !Covers(q, k, first) && !Covers(q, k, last) {}
    forall k | k in q ensures !(first <= k <= last) {
      assert Covers(q, k, k);
      assert Covered(q, k);
    }
  }

  /** Replacing what lies in [s, e) by one entry. */
  lemma ReplacedQueueOk(q: Queue, readPos: nat, s: nat, e: nat, x: Entry)
    requires QueueOk(q, readPos) && NoStraddle(q, s) && NoStraddle(q, e)
    requires readPos <= s < e <= MAX_BYTE_COUNT && s + |x.data| == e
    ensures QueueOk(Without(q, s, e)[s := x], readPos)
  {
  }

  lemma ReplacedPartition(q: Queue, gaps: seq<Interval>, gaps': seq<Interval>, readPos: nat, s: nat, e: nat, x: Entry)
    requires QueueOk(q, readPos) && Partition(q, gaps, readPos) && NoStraddle(q, s) && NoStraddle(q, e)
    requires readPos <= s < e <= MAX_BYTE_COUNT && s + |x.data| == e
    requires forall b: nat :: Missing(gaps', b) <==> Missing(gaps, b) && !(s <= b < e)
    ensures Partition(Without(q, s, e)[s := x], gaps', readPos)
  {
    var q' := Without(q, s, e)[s := x];
    forall b | readPos <= b < MAX_BYTE_COUNT
      ensures Missing(gaps', b) <==> !Covered(q', b)
    {
      if s <= b < e {
        assert Covers(q', s, b);
      } else {
        if k :| Covers(q, k, b) {
          assert Covers(q', k, b);
        }
        if k :| Covers(q', k, b) {
          assert k != s && Covers(q, k, b);
        }
      }
    }
  }

  /** Entries follow each other without a hole from pos to stop, or there is none from pos to stop. */
  ghost predicate RunOfEntries(q: Queue, pos: nat, stop: nat) {
    && pos <= stop && stop !in q && NoStraddle(q, pos) && NoStraddle(q, stop)
    && (pos in q ==> forall b :: pos <= b < stop ==> Covered(q, b))
    && (pos !in q ==> forall k :: k in q ==> !(pos <= k < stop))
  }

  lemma EmptyRange(q: Queue, fate: map<Callback, Fate>, a: nat)
    ensures Without(q, a, a) == q && FiredIn(fate, a, a) == fate
  {
  }

  lemma ChainStep(q: Queue, readPos: nat, fate: map<Callback, Fate>, calls: multiset<Callback>, a: nat, p: nat)
    requires QueueOk(q, readPos) && Linear(q, fate, calls)
    requires a <= p && p in q
    ensures Without(q, a, p) - {p} == Without(q, a, End(q, p)) && NoStraddle(q, End(q, p))
    ensures FiredIn(FiredIn(fate, a, p), p, p + 1) == FiredIn(fate, a, End(q, p))
  {
  }

  lemma ChainEnds(q: Queue, fate: map<Callback, Fate>, calls: multiset<Callback>, readPos: nat, pos: nat, p: nat,
                  stop: nat)
    requires QueueOk(q, readPos) && Linear(q, fate, calls) && RunOfEntries(q, pos, stop)
    requires pos <= p && NoStraddle(q, p) && p !in Without(q, pos, p)
    requires p != pos ==> pos in q && p <= stop
    ensures Without(q, pos, p) == Without(q, pos, stop) && FiredIn(fate, pos, p) == FiredIn(fate, pos, stop)
  {
    if p < stop && pos in q {
      assert Covered(q, p);
      var k :| Covers(q, k, p);
      assert false;
    }
  }

  lemma CoversItself(q: Queue, readPos: nat, k: nat)
    requires k in q && QueueOk(q, readPos)
    ensures k < End(q, k) && forall b :: k <= b < End(q, k) ==> Covered(q, b)
  {
    forall b | k <= b < End(q, k) ensures Covered(q, b) { assert Covers(q, k, b); }
  }

  /** How far the entries starting at `start` made way for a frame [start, end). */
  ghost predicate Replaced(q: Queue, start: nat, end: nat, pos: nat, cut: bool) {
    && start <= pos <= end
    && (pos != start ==> start in q && NoStraddle(q, pos))
    && (forall b :: start <= b < pos ==> Covered(q, b))
    && (cut ==> pos != start && pos in q && end < End(q, pos))
    && (!cut ==> pos !in q)
  }

  lemma CutAtEntry(q: Queue, start: nat, end: nat, pos: nat, cut: bool)
    requires Replaced(q, start, end, pos, cut)
    ensures cut ==> start < pos <= end && pos in q
  {
  }

  // ------------------------------------------------------------------
  // Where a new frame lands
  // ------------------------------------------------------------------

  /** Gap i is the start gap and gap j the end gap of a frame [start, end) that is not a plain duplicate. */
  ghost predicate Located(gaps: seq<Interval>, i: nat, j: nat, start: nat, end: nat, endsInGap: bool) {
    && i <= j < |gaps|
    && start < end < MAX_BYTE_COUNT
    && (forall k :: 0 <= k < i ==> gaps[k].end < start)
    && start <= gaps[i].end
    && gaps[i].start < end
    && (endsInGap ==> gaps[j].start <= end < gaps[j].end)
    && (!endsInGap ==> j + 1 < |gaps| && gaps[j].end <= end < gaps[j+1].start)
  }

  /** Where the stored part of the frame starts and ends, after it was cut at either end. */
  function CutStart(gap: Interval, start: nat, pos: nat): nat {
    if start < gap.start && pos == start then gap.start else start
  }

  function CutEnd(gap: Interval, s: nat, end: nat, pos: nat, cut: bool, endsInGap: bool): nat {
    if cut then pos else if !endsInGap && s != gap.end && end > gap.end then gap.end else end
  }

  lemma CoveredIsReceived(q: Queue, gaps: seq<Interval>, readPos: nat, b: nat)
    requires QueueOk(q, readPos) && Partition(q, gaps, readPos) && Covered(q, b)
    ensures !Missing(gaps, b) && readPos <= b < MAX_BYTE_COUNT
  {
  }

  /** A frame that was cut by an existing entry lies right behind its start gap. */
  lemma CutFrame(q: Queue, gaps: seq<Interval>, readPos: nat, i: nat, j: nat, start: nat, end: nat, endsInGap: bool,
                 pos: nat)
    requires Consistent(q, gaps, readPos)
    requires Located(gaps, i, j, start, end, endsInGap) && Replaced(q, start, end, pos, true)
    ensures i == j && start == gaps[i].end && !endsInGap
  {
    CoversItself(q, readPos, pos);
    forall b | start <= b <= end ensures !Missing(gaps, b) {
      CoveredIsReceived(q, gaps, readPos, b);
    }
    assert Missing(gaps, gaps[i].start) && Missing(gaps, gaps[j].start);
    assert gaps[i].start <= start < gaps[i].end ==> Missing(gaps, start);
  }

  /** Without a cut, entries make way exactly up to the next gap. */
  lemma UncutFrame(q: Queue, gaps: seq<Interval>, readPos: nat, i: nat, j: nat, start: nat, end: nat, endsInGap: bool,
                   pos: nat)
    requires Consistent(q, gaps, readPos)
    requires Located(gaps, i, j, start, end, endsInGap) && Replaced(q, start, end, pos, false)
    ensures pos != start && start < gaps[i].start ==> pos == gaps[i].start
    ensures pos != start && start >= gaps[i].start ==> start == gaps[i].end && i < j && pos == gaps[i+1].start
    ensures pos == start && i < |gaps| - 1 ==> start != gaps[i].end
  {
    forall b | start <= b < pos ensures !Missing(gaps, b) {
      CoveredIsReceived(q, gaps, readPos, b);
    }
    if pos != start {
      if !Missing(gaps, pos) {
        EntryStartsHere(q, gaps, readPos, pos);
        assert false;
      }
      var t :| 0 <= t < |gaps| && gaps[t].start <= pos < gaps[t].end;
      assert Missing(gaps, gaps[t].start);
      assert pos == gaps[t].start by {
        if gaps[t].start < pos {
          var b: nat := pos - 1;
          assert gaps[t].start <= b < gaps[t].end;
          assert Missing(gaps, b);
          assert false;
        }
      }
      assert start < gaps[i].start ==> Missing(gaps, gaps[i].start);
      assert start < gaps[i].end && gaps[i].start <= start ==> Missing(gaps, start);
      assert i + 1 < |gaps| ==> Missing(gaps, gaps[i+1].start);
    } else if i < |gaps| - 1 && start == gaps[i].end {
      GapEndIsEntry(q, gaps, readPos, i);
      assert false;
    }
  }

  lemma GapEndIsEntry(q: Queue, gaps: seq<Interval>, readPos: nat, i: nat)
    requires Consistent(q, gaps, readPos)
    requires i < |gaps| - 1
    ensures gaps[i].end in q
  {
    GapEdgesAreBoundaries(q, gaps, readPos, i);
    assert gaps[i].end < gaps[i+1].start;
    assert !Missing(gaps, gaps[i].end);
    EntryStartsHere(q, gaps, readPos, gaps[i].end);
  }

  lemma MissingIsBoundary(q: Queue, gaps: seq<Interval>, readPos: nat, b: nat)
    requires Consistent(q, gaps, readPos) && Missing(gaps, b)
    ensures NoStraddle(q, b)
  {
    assert b < MAX_BYTE_COUNT;
    forall k | k in q ensures !(k < b < End(q, k)) {
      assert k < b < End(q, k) ==> Covers(q, k, b) && Covered(q, b);
    }
  }

  lemma StartIsBoundary(q: Queue, gaps: seq<Interval>, readPos: nat, i: nat, j: nat, start: nat, end: nat,
                        endsInGap: bool, pos: nat, cut: bool)
    requires Consistent(q, gaps, readPos)
    requires Located(gaps, i, j, start, end, endsInGap) && Replaced(q, start, end, pos, cut)
    ensures var s := CutStart(gaps[i], start, pos); NoStraddle(q, s) && readPos <= s
  {
    GapEdgesAreBoundaries(q, gaps, readPos, i);
    if gaps[i].start <= start < gaps[i].end {
      assert Missing(gaps, start);
      MissingIsBoundary(q, gaps, readPos, start);
    }
  }

  lemma EndIsBoundary(q: Queue, gaps: seq<Interval>, readPos: nat, i: nat, j: nat, start: nat, end: nat,
                      endsInGap: bool, pos: nat, cut: bool)
    requires Consistent(q, gaps, readPos)
    requires Located(gaps, i, j, start, end, endsInGap) && Replaced(q, start, end, pos, cut)
    ensures var e := CutEnd(gaps[j], CutStart(gaps[i], start, pos), end, pos, cut, endsInGap); NoStraddle(q, e)
  {
    if !cut {
      UncutFrame(q, gaps, readPos, i, j, start, end, endsInGap, pos);
      if endsInGap {
        assert Missing(gaps, end);
        MissingIsBoundary(q, gaps, readPos, end);
      } else {
        GapEdgesAreBoundaries(q, gaps, readPos, j);
      }
    }
  }

  /** The part that is stored fills the gaps from i to j; what was cut off had been received before. */
  lemma FrameLands(q: Queue, gaps: seq<Interval>, readPos: nat, i: nat, j: nat, start: nat, end: nat, endsInGap: bool,
                   pos: nat, cut: bool)
    requires Consistent(q, gaps, readPos)
    requires Located(gaps, i, j, start, end, endsInGap) && Replaced(q, start, end, pos, cut)
    ensures var s := CutStart(gaps[i], start, pos);
            var e := CutEnd(gaps[j], s, end, pos, cut, endsInGap);
            && Brackets(gaps, i, j, s, e)
            && start <= s < e <= end
            && (forall b :: start <= b < s || e <= b < end ==> !Missing(gaps, b))
  {
    var s := CutStart(gaps[i], start, pos);
    var e := CutEnd(gaps[j], s, end, pos, cut, endsInGap);
    if cut {
      CutFrame(q, gaps, readPos, i, j, start, end, endsInGap, pos);
    } else {
      UncutFrame(q, gaps, readPos, i, j, start, end, endsInGap, pos);
    }
  }

  // ------------------------------------------------------------------
  // Clearing the queue between the start gap and the end gap
  // ------------------------------------------------------------------

  /** Entries from s on are gone up to m, which is as far as ReplaceEntries can have come. */
  ghost predicate ClearedTo(gaps: seq<Interval>, i: nat, s: nat, m: nat) {
    && i + 1 < |gaps|
    && s <= gaps[i].end
    && ((m == s && gaps[i].start <= s) || (m == gaps[i].start && s <= m) || (m == gaps[i+1].start && s == gaps[i].end))
  }

  lemma GapRemoved(gaps: seq<Interval>, next: nat, gaps0: seq<Interval>, t: nat)
    requires next < |gaps| && t <= |gaps0| && gaps[next..] == gaps0[t..]
    ensures var gaps' := gaps[..next] + gaps[next+1..];
            t < |gaps0| && |gaps'| == next + (|gaps0| - t - 1) && gaps[next] == gaps0[t] &&
            gaps'[..next] == gaps[..next] && gaps'[next..] == gaps0[t+1..]
  {
    assert gaps[next..][0] == gaps0[t..][0];
    assert gaps[next+1..] == gaps[next..][1..];
  }

  lemma GapBefore(gaps: seq<Interval>, t: nat, j: nat)
    requires GapsOk(gaps) && t <= j < |gaps|
    ensures gaps[t].end < gaps[j].start <==> t < j
  {
  }

  lemma ClearedToGap(gaps: seq<Interval>, i: nat, t: nat, s: nat, m: nat)
    requires GapsOk(gaps) && ClearedTo(gaps, i, s, m) && i < t && t + 1 < |gaps|
    ensures ClearedTo(gaps, t, s, gaps[t].start)
  {
  }

  lemma RegionIsRun(q: Queue, gaps: seq<Interval>, readPos: nat, i: nat, s: nat, m: nat)
    requires Consistent(q, gaps, readPos) && ClearedTo(gaps, i, s, m)
    ensures RunOfEntries(Without(q, s, m), gaps[i].end, gaps[i+1].start)
  {
    GapEdgesAreBoundaries(q, gaps, readPos, i);
    GapEdgesAreBoundaries(q, gaps, readPos, i + 1);
    var q' := Without(q, s, m);
    if m <= gaps[i].end {
      GapEndIsEntry(q, gaps, readPos, i);
      forall b | gaps[i].end <= b < gaps[i+1].start ensures Covered(q', b) {
        assert !Missing(gaps, b);
        assert Covered(q, b);
        var k :| Covers(q, k, b);
        assert Covers(q', k, b);
      }
    }
  }

  lemma RangesCompose(q: Queue, fate: map<Callback, Fate>, calls: multiset<Callback>, s: nat, m: nat, a: nat, b: nat)
    requires Linear(q, fate, calls)
    requires forall k :: k in q ==> (s <= k < b <==> s <= k < m || a <= k < b)
    ensures Without(Without(q, s, m), a, b) == Without(q, s, b)
    ensures FiredIn(FiredIn(fate, s, m), a, b) == FiredIn(fate, s, b)
  {
  }

  lemma RegionCleared(q: Queue, fate: map<Callback, Fate>, calls: multiset<Callback>, gaps: seq<Interval>,
                      readPos: nat, i: nat, s: nat, m: nat)
    requires Consistent(q, gaps, readPos) && Linear(q, fate, calls) && ClearedTo(gaps, i, s, m)
    ensures Without(Without(q, s, m), gaps[i].end, gaps[i+1].start) == Without(q, s, gaps[i+1].start)
    ensures FiredIn(FiredIn(fate, s, m), gaps[i].end, gaps[i+1].start) == FiredIn(fate, s, gaps[i+1].start)
  {
    hide Linear, Partition;
    GapEdgesAreBoundaries(q, gaps, readPos, i);
    RangesCompose(q, fate, calls, s, m, gaps[i].end, gaps[i+1].start);
  }

  /** No entry starts inside a gap, so clearing up to any point of it is the same. */
  lemma ClearedInsideGap(q: Queue, fate: map<Callback, Fate>, calls: multiset<Callback>, gaps: seq<Interval>,
                         readPos: nat, j: nat, s: nat, a: nat, e: nat)
    requires Consistent(q, gaps, readPos) && Linear(q, fate, calls)
    requires j < |gaps| && gaps[j].start <= a <= e <= gaps[j].end
    ensures Without(q, s, a) == Without(q, s, e) && FiredIn(fate, s, a) == FiredIn(fate, s, e)
  {
    GapEdgesAreBoundaries(q, gaps, readPos, j);
  }

  /** What is known when the gaps are edited: either the frame was cut right behind its only gap, or the
      entries are cleared as far as ReplaceEntries comes. */
  ghost predicate Fills(gaps: seq<Interval>, i: nat, j: nat, s: nat, end: nat, hasReplaced: bool, endsInGap: bool,
                        m: nat, cut: bool) {
    && i <= j < |gaps| && s < end
    && Brackets(gaps, i, j, s, CutEnd(gaps[j], s, end, end, cut, endsInGap))
    && (if cut then i == j && s == gaps[i].end && hasReplaced && m == end && !endsInGap
        else if i < j then ClearedTo(gaps, i, s, m)
        else gaps[j].start <= m <= CutEnd(gaps[j], s, end, end, cut, endsInGap) <= gaps[j].end)
    && (!cut && hasReplaced ==> s < gaps[i].start || (s == gaps[i].end && i < j))
    && (if endsInGap then gaps[j].start <= end < gaps[j].end else gaps[j].end <= end)
  }

  lemma FillsFacts(q: Queue, readPos: nat, gaps: seq<Interval>, i: nat, j: nat, s: nat, end: nat, hasReplaced: bool,
                   endsInGap: bool, m: nat, cut: bool)
    requires Consistent(q, gaps, readPos) && Fills(gaps, i, j, s, end, hasReplaced, endsInGap, m, cut)
    ensures GapsOk(gaps) && i <= j < |gaps| && s < end
    ensures i < j ==> !cut && ClearedTo(gaps, i, s, m)
    ensures cut ==> i == j && s == gaps[j].end && m == end
    ensures !cut && i == j ==> gaps[j].start <= m <= CutEnd(gaps[j], s, end, end, cut, endsInGap) <= gaps[j].end
    ensures i < j ==> gaps[j].start <= CutEnd(gaps[j], s, end, end, cut, endsInGap) <= gaps[j].end
  {
  }

  function StartPiece(g: Interval, s: nat, end: nat, hasReplaced: bool): seq<Interval> {
    if s <= g.start then if end >= g.end then [] else [Interval(end, g.end)]
    else if !hasReplaced then [Interval(g.start, s)]
    else [g]
  }

  /** The edits of the start gap and of the end gap together leave exactly the punched gaps. */
  lemma PiecesArePunched(gaps: seq<Interval>, i: nat, j: nat, s: nat, end: nat, hasReplaced: bool, endsInGap: bool,
                         m: nat, cut: bool)
    requires GapsOk(gaps) && Fills(gaps, i, j, s, end, hasReplaced, endsInGap, m, cut)
    ensures var e := CutEnd(gaps[j], s, end, end, cut, endsInGap);
            var left := gaps[..i] + StartPiece(gaps[i], s, end, hasReplaced);
            var endPiece := if e == gaps[j].end then [] else [Interval(e, gaps[j].end)];
            && (i < j ==> left + endPiece + gaps[j+1..] == Punched(gaps, i, j, s, e))
            && (i == j && gaps[i].start < s && !hasReplaced ==>
                  left + endPiece + gaps[i+1..] == Punched(gaps, i, j, s, e))
            && (i == j && !(gaps[i].start < s && !hasReplaced) ==> left + gaps[i+1..] == Punched(gaps, i, j, s, e))
  {
    assert gaps[i].start < gaps[i].end && gaps[j].start < gaps[j].end && (i < j ==> gaps[i].end < gaps[j].start);
    var e := CutEnd(gaps[j], s, end, end, cut, endsInGap);
    var last := if s < gaps[i].end then s else gaps[i].end;
    var before := if gaps[i].start < s then [Interval(gaps[i].start, last)] else [];
    var after := if e < gaps[j].end then [Interval(e, gaps[j].end)] else [];
    assert e <= gaps[j].end || cut;
    var start := StartPiece(gaps[i], s, end, hasReplaced);
    if i < j || (gaps[i].start < s && !hasReplaced) {
      assert start == before;
    } else {
      assert start == before + after;
      assert gaps[..i] + start == gaps[..i] + before + after;
    }
  }

  lemma FillsWhenLanded(q: Queue, gaps: seq<Interval>, readPos: nat, i: nat, j: nat, start: nat, end: nat,
                        endsInGap: bool, pos: nat, cut: bool)
    requires Consistent(q, gaps, readPos)
    requires Located(gaps, i, j, start, end, endsInGap) && Replaced(q, start, end, pos, cut)
    ensures var s := CutStart(gaps[i], start, pos);
            var end' := if cut then pos else end;
            var m := if pos == start then s else pos;
            Fills(gaps, i, j, s, end', pos != start, endsInGap, m, cut)
            && CutEnd(gaps[j], s, end, pos, cut, endsInGap) == CutEnd(gaps[j], s, end', end', cut, endsInGap) <= end'
            && i <= j < |gaps| && start <= pos <= end && start <= s < CutEnd(gaps[j], s, end, pos, cut, endsInGap)
  {
    hide Partition, QueueOk;
    FrameLands(q, gaps, readPos, i, j, start, end, endsInGap, pos, cut);
    if cut {
      CutFrame(q, gaps, readPos, i, j, start, end, endsInGap, pos);
    } else {
      UncutFrame(q, gaps, readPos, i, j, start, end, endsInGap, pos);
    }
  }

  lemma ReplacedQueueOkSoFar(q: Queue, readPos: nat, s: nat, m: nat)
    requires QueueOk(q, readPos)
    ensures QueueOk(Without(q, s, m), readPos)
  {
  }

  /** The outcome of a push: [s, e) of the frame replaced whatever was queued there, its callback is kept
      with the data unless the data was copied, and the callbacks of replaced entries were invoked.
      A small rest of a frame is copied; so can be a small frame that ends where an entry starts. */
  ghost predicate Stored(q: Queue, fate: map<Callback, Fate>, q': Queue, fate': map<Callback, Fate>,
                         data: seq<Byte>, offset: nat, doneCb: Option<Callback>, s: nat, e: nat, kept: bool) {
    && offset <= s < e <= offset + |data|
    && q' == Without(q, s, e)[s := Entry(data[s - offset..e - offset], if kept then doneCb else None)]
    && fate' == (if doneCb.Some? then FiredIn(fate, s, e)[doneCb.value := if kept then Held(s) else Fired]
                 else FiredIn(fate, s, e))
    && (e - s < |data| && e - s < MIN_STREAM_FRAME_BUFFER_SIZE ==> !kept)
    && (!kept ==> e - s < MIN_STREAM_FRAME_BUFFER_SIZE && (e - s < |data| || offset + |data| in q))
  }

  lemma PartStored(q: Queue, fate: map<Callback, Fate>, q': Queue, fate': map<Callback, Fate>, data: seq<Byte>,
                   offset: nat, doneCb: Option<Callback>, s: nat, e: nat, kept: bool, wasCut: bool)
    requires offset <= s < e <= offset + |data|
    requires q' == Without(q, s, e)[s := Entry(data[s - offset..e - offset], if kept then doneCb else None)]
    requires fate' ==
               if doneCb.Some? then FiredIn(fate, s, e)[doneCb.value := if kept then Held(s) else Fired]
               else FiredIn(fate, s, e)
    requires kept <==> !(wasCut && e - s < MIN_STREAM_FRAME_BUFFER_SIZE)
    requires (e - s < |data| ==> wasCut) && (wasCut ==> e - s < |data| || offset + |data| in q)
    ensures Stored(q, fate, q', fate', data, offset, doneCb, s, e, kept)
  {
    hide Without, FiredIn;
  }

  lemma DuplicateFrame(gaps: seq<Interval>, i: nat, start: nat, end: nat)
    requires GapsOk(gaps) && i < |gaps|
    requires forall k :: 0 <= k < i ==> gaps[k].end < start
    requires end <= gaps[i].start
    ensures forall b :: start <= b < end ==> !Missing(gaps, b)
  {
  }

  lemma DuplicateEntry(q: Queue, gaps: seq<Interval>, readPos: nat, start: nat, end: nat)
    requires Consistent(q, gaps, readPos) && start in q && end <= End(q, start)
    ensures forall b :: start <= b < end ==> !Missing(gaps, b)
  {
    CoversItself(q, readPos, start);
    forall b | start <= b < end ensures !Missing(gaps, b) { CoveredIsReceived(q, gaps, readPos, b); }
  }

  lemma StoredCarries(q: Queue, stream: seq<Byte>, s: nat, e: nat, x: Entry)
    requires Carries(q, stream) && IsSlice(stream, s, x.data)
    ensures Carries(Without(q, s, e)[s := x], stream)
  {
  }

  lemma SubSlice(stream: seq<Byte>, lo: nat, hi: nat, s: nat, e: nat)
    requires lo <= s <= e <= hi <= |stream|
    ensures stream[lo..hi][s - lo..e - lo] == stream[s..e]
  {
    var a, b := stream[lo..hi][s - lo..e - lo], stream[s..e];
    assert |a| == |b| && forall k :: 0 <= k < |a| ==> a[k] == stream[s + k] == b[k];
  }

  lemma PushCarries(q: Queue, fate: map<Callback, Fate>, q': Queue, fate': map<Callback, Fate>,
                    data: seq<Byte>, offset: nat, doneCb: Option<Callback>, s: nat, e: nat, kept: bool,
                    stream: seq<Byte>)
    requires Stored(q, fate, q', fate', data, offset, doneCb, s, e, kept)
    requires Carries(q, stream) && IsSlice(stream, offset, data)
    ensures Carries(q', stream)
  {
    SubSlice(stream, offset, offset + |data|, s, e);
    assert q'[s].data == stream[s..e];
    assert IsSlice(stream, s, q'[s].data);
    StoredCarries(q, stream, s, e, q'[s]);
  }

  /** A push adds its callback, and touches only callbacks that are held. */
  ghost predicate AfterPush(fate: map<Callback, Fate>, fate': map<Callback, Fate>, doneCb: Option<Callback>) {
    && fate'.Keys == fate.Keys + (if doneCb.Some? then {doneCb.value} else {})
    && (forall id :: id in fate && !fate[id].Held? ==> fate'[id] == fate[id])
    && (forall id :: id in fate' && fate'[id].HandedOut? ==> id in fate && fate[id].HandedOut?)
  }

  lemma StoredFates(q: Queue, fate: map<Callback, Fate>, q': Queue, fate': map<Callback, Fate>,
                    data: seq<Byte>, offset: nat, doneCb: Option<Callback>, s: nat, e: nat, kept: bool)
    requires Stored(q, fate, q', fate', data, offset, doneCb, s, e, kept) && (doneCb.Some? ==> doneCb.value !in fate)
    ensures AfterPush(fate, fate', doneCb)
  {
    hide Without;
  }

  /** The callback of a frame that is dropped is invoked. */
  lemma ReleasedAtOnce(q: Queue, fate: map<Callback, Fate>, calls: multiset<Callback>, doneCb: Option<Callback>)
    requires Linear(q, fate, calls) && (doneCb.Some? ==> doneCb.value !in fate)
    ensures doneCb.None? ==> AfterPush(fate, fate, doneCb)
    ensures doneCb.Some? ==> AfterPush(fate, fate[doneCb.value := Fired], doneCb)
    ensures doneCb.Some? ==> Linear(q, fate[doneCb.value := Fired], calls + multiset{doneCb.value})
  {
  }

  /** Inserting an entry with a callback that has not been seen before, or with none. */
  lemma InsertedLinear(q: Queue, fate: map<Callback, Fate>, calls: multiset<Callback>, s: nat, data: seq<Byte>,
                       doneCb: Option<Callback>)
    requires Linear(q, fate, calls) && s !in q
    requires doneCb.Some? ==> doneCb.value !in fate
    ensures doneCb.None? ==> Linear(q[s := Entry(data, None)], fate, calls)
    ensures doneCb.Some? ==> Linear(q[s := Entry(data, doneCb)], fate[doneCb.value := Held(s)], calls)
    ensures doneCb.Some? ==>
              Linear(q[s := Entry(data, None)], fate[doneCb.value := Fired], calls + multiset{doneCb.value})
  {
  }

  lemma ResultIsConsistent(q: Queue, gaps: seq<Interval>, readPos: nat, i: nat, j: nat, start: nat, end: nat,
                           endsInGap: bool, pos: nat, cut: bool, x: Entry)
    requires Consistent(q, gaps, readPos)
    requires Located(gaps, i, j, start, end, endsInGap) && Replaced(q, start, end, pos, cut)
    requires var s := CutStart(gaps[i], start, pos); s + |x.data| == CutEnd(gaps[j], s, end, pos, cut, endsInGap)
    ensures var s := CutStart(gaps[i], start, pos);
            var e := CutEnd(gaps[j], s, end, pos, cut, endsInGap);
            && Consistent(Without(q, s, e)[s := x], Punched(gaps, i, j, s, e), readPos)
            && forall b: nat :: Missing(Punched(gaps, i, j, s, e), b) <==> Missing(gaps, b) && !(start <= b < end)
  {
    hide Partition, QueueOk, Missing, Without, Punched, NoStraddle;
    var s := CutStart(gaps[i], start, pos);
    var e := CutEnd(gaps[j], s, end, pos, cut, endsInGap);
    FrameLands(q, gaps, readPos, i, j, start, end, endsInGap, pos, cut);
    StartIsBoundary(q, gaps, readPos, i, j, start, end, endsInGap, pos, cut);
    EndIsBoundary(q, gaps, readPos, i, j, start, end, endsInGap, pos, cut);
    PunchedGapsOk(gaps, i, j, s, e);
    forall b: nat
      ensures Missing(Punched(gaps, i, j, s, e), b) <==> Missing(gaps, b) && !(s <= b < e)
    {
      PunchedMissing(gaps, i, j, s, e, b);
    }
    ReplacedQueueOk(q, readPos, s, e, x);
    ReplacedPartition(q, gaps, Punched(gaps, i, j, s, e), readPos, s, e, x);
    PunchedFront(gaps, i, j, s, e, readPos);
  }

  lemma PunchedFront(gaps: seq<Interval>, i: nat, j: nat, s: nat, e: nat, readPos: nat)
    requires GapsOk(gaps) && Brackets(gaps, i, j, s, e) && readPos <= gaps[0].start && readPos <= s
    ensures Punched(gaps, i, j, s, e) != [] && readPos <= Punched(gaps, i, j, s, e)[0].start
  {
  }

  lemma ReadPosition(q: Queue, gaps: seq<Interval>, readPos: nat)
    requires Consistent(q, gaps, readPos)
    ensures readPos < MAX_BYTE_COUNT && (readPos in q <==> !Missing(gaps, readPos))
  {
    if !Missing(gaps, readPos) {
      EntryStartsHere(q, gaps, readPos, readPos);
    } else {
      assert !Covers(q, readPos, readPos);
    }
  }

  lemma PoppedConsistent(q: Queue, gaps: seq<Interval>, readPos: nat)
    requires Consistent(q, gaps, readPos) && readPos in q
    ensures Consistent(q - {readPos}, gaps, End(q, readPos))
  {
    var q', readPos' := q - {readPos}, End(q, readPos);
    GapEdgesAreBoundaries(q, gaps, readPos, 0);
    forall b | readPos' <= b < MAX_BYTE_COUNT ensures Missing(gaps, b) <==> !Covered(q', b) {
      if k :| Covers(q, k, b) {
        assert Covers(q', k, b);
      }
      if k :| Covers(q', k, b) {
        assert Covers(q, k, b);
      }
    }
  }

  // ------------------------------------------------------------------
  // The object
  // ------------------------------------------------------------------

  datatype PushResult = Accepted | Duplicate | TooManyGaps

  class FrameSorter {
    var queue: Queue
    var readPos: nat
    var gaps: seq<Interval>
    var calls: multiset<Callback>
    ghost var fate: map<Callback, Fate>

    ghost predicate Valid()
      reads this
    {
      && Consistent(queue, gaps, readPos)
      && Linear(queue, fate, calls)
      && |gaps| <= MAX_STREAM_FRAME_SORTER_GAPS
    }

    lemma GapsInOrder()
      requires Valid()
      ensures GapsOk(gaps)
    {
    }

    constructor ()
      ensures Valid()
      ensures queue == map[] && readPos == 0 && gaps == [Interval(0, MAX_BYTE_COUNT)]
      ensures fate == map[] && calls == multiset{}
    {
      queue, readPos, gaps := map[], 0, [Interval(0, MAX_BYTE_COUNT)];
      calls, fate := multiset{}, map[];
      new;
      assert forall b: nat :: b < MAX_BYTE_COUNT ==> Missing(gaps, b) by {
        assert gaps[0] == Interval(0, MAX_BYTE_COUNT);
      }
    }

    /** The first gap that does not end before the offset; it may start behind it. */
    method FindStartGap(offset: nat) returns (i: nat, inGap: bool)
      requires GapsOk(gaps) && offset <= MAX_BYTE_COUNT
      ensures i < |gaps| && offset <= gaps[i].end
      ensures forall k :: 0 <= k < i ==> gaps[k].end < offset
      ensures inGap <==> gaps[i].start <= offset
    {
      i := 0;
      while i < |gaps|
        invariant 0 <= i <= |gaps|
        invariant forall k :: 0 <= k < i ==> gaps[k].end < offset
      {
        if offset >= gaps[i].start && offset <= gaps[i].end {
          return i, true;
        }
        if offset < gaps[i].start {
          return i, false;
        }
        i := i + 1;
      }
      assert false; // "no gap found"
    }

    /** The gap the offset lies in, or the one before the first gap behind the offset. */
    method FindEndGap(startGap: nat, offset: nat) returns (j: int, inGap: bool)
      requires GapsOk(gaps) && startGap < |gaps| && offset < MAX_BYTE_COUNT
      ensures startGap - 1 <= j < |gaps|
      ensures inGap ==> startGap <= j && gaps[j].start <= offset < gaps[j].end
      ensures !inGap ==> j + 1 < |gaps| && offset < gaps[j+1].start && (startGap <= j ==> gaps[j].end <= offset)
    {
      j := startGap;
      while j < |gaps|
        invariant startGap <= j <= |gaps|
        invariant startGap < j ==> gaps[j-1].end <= offset
      {
        if offset >= gaps[j].start && offset < gaps[j].end {
          return j, true;
        }
        if offset < gaps[j].start {
          return j - 1, false;
        }
        j := j + 1;
      }
      assert false; // "no gap found"
    }

    /** Removes the entry at an offset and invokes its callback. */
    method Release(pos: nat)
      requires pos in queue && Linear(queue, fate, calls)
      modifies this`queue, this`calls, this`fate
      ensures queue == old(queue) - {pos}
      ensures fate == FiredIn(old(fate), pos, pos + 1)
      ensures Linear(queue, fate, calls)
    {
      var oldEntry := queue[pos];
      queue := queue - {pos};
      if oldEntry.doneCb.Some? {
        calls := calls + multiset{oldEntry.doneCb.value};
      }
      fate := FiredIn(fate, pos, pos + 1);
    }

    /** Deletes consecutive entries from pos on; `stop` is where the run of entries ends. */
    method DeleteConsecutive(pos: nat, ghost stop: nat)
      requires Linear(queue, fate, calls) && QueueOk(queue, readPos)
      requires RunOfEntries(queue, pos, stop)
      modifies this`queue, this`calls, this`fate
      ensures queue == Without(old(queue), pos, stop)
      ensures fate == FiredIn(old(fate), pos, stop)
      ensures Linear(queue, fate, calls)
    {
      hide Linear, QueueOk, FiredIn;
      var p := pos;
      EmptyRange(queue, fate, pos);
      while p in queue
        invariant pos <= p && (p != pos ==> pos in old(queue) && p <= stop)
        invariant NoStraddle(old(queue), p)
        invariant queue == Without(old(queue), pos, p)
        invariant fate == FiredIn(old(fate), pos, p)
        invariant Linear(queue, fate, calls)
        decreases queue.Keys
      {
        ChainStep(old(queue), readPos, old(fate), old(calls), pos, p);
        var next := p + |queue[p].data|;
        Release(p);
        p := next;
      }
      ChainEnds(old(queue), old(fate), old(calls), readPos, pos, p, stop);
    }

    /** The loop over entries that start where the new frame starts.  Shorter ones make way; one that
        reaches beyond the new frame cuts it. */
    method ReplaceEntries(start: nat, end: nat) returns (duplicate: bool, pos: nat, cut: bool)
      requires Linear(queue, fate, calls) && QueueOk(queue, readPos)
      requires start < end
      modifies this`queue, this`calls, this`fate
      ensures Linear(queue, fate, calls)
      ensures duplicate ==> queue == old(queue) && fate == old(fate) && calls == old(calls)
      ensures duplicate <==> start in old(queue) && end <= End(old(queue), start)
      ensures !duplicate ==> Replaced(old(queue), start, end, pos, cut)
      ensures !duplicate ==> queue == Without(old(queue), start, pos) && fate == FiredIn(old(fate), start, pos)
    {
      hide Linear, QueueOk, FiredIn, NoStraddle;
      pos, cut := start, false;
      var hasReplaced := false;
      EmptyRange(queue, fate, start);
      while pos in queue
        invariant start <= pos <= end && (hasReplaced <==> pos != start)
        invariant (hasReplaced ==> start in old(queue) && End(old(queue), start) < end)
        invariant hasReplaced ==> NoStraddle(old(queue), pos)
        invariant forall b :: start <= b < pos ==> Covered(old(queue), b)
        invariant queue == Without(old(queue), start, pos)
        invariant fate == FiredIn(old(fate), start, pos)
        invariant Linear(queue, fate, calls)
        invariant !hasReplaced ==> calls == old(calls)
        decreases queue.Keys
      {
        var oldEntryLen := |queue[pos].data|;
        if end - pos > oldEntryLen || (hasReplaced && end - pos == oldEntryLen) {
          ChainStep(old(queue), readPos, old(fate), old(calls), start, pos);
          CoversItself(old(queue), readPos, pos);
          Release(pos);
          pos := pos + oldEntryLen;
          hasReplaced := true;
        } else {
          if !hasReplaced {
            return true, pos, false;
          }
          return false, pos, true;
        }
      }
      return false, pos, false;
    }

    /** Deletes the entries between the start gap and the end gap, and the gaps between the two.
        `next` is the position of the start gap's successor in the list. */
    method DropCoveredGaps(next: nat, startGapEnd: nat, endGapStart: nat,
                           ghost q0: Queue, ghost fate0: map<Callback, Fate>, ghost calls0: multiset<Callback>,
                           ghost gaps0: seq<Interval>, ghost i: nat, ghost j: nat, ghost s: nat, ghost m: nat)
      requires Consistent(q0, gaps0, readPos) && Linear(q0, fate0, calls0)
      requires i < j < |gaps0| && ClearedTo(gaps0, i, s, m)
      requires startGapEnd == gaps0[i].end && endGapStart == gaps0[j].start
      requires next <= |gaps| && gaps[next..] == gaps0[i+1..]
      requires queue == Without(q0, s, m) && fate == FiredIn(fate0, s, m) && Linear(queue, fate, calls)
      modifies this`queue, this`calls, this`fate, this`gaps
      ensures next < |gaps| && gaps[next] == gaps0[j]
      ensures gaps[..next] == old(gaps)[..next] && gaps[next+1..] == gaps0[j+1..]
      ensures queue == Without(q0, s, gaps0[j].start) && fate == FiredIn(fate0, s, gaps0[j].start)
      ensures Linear(queue, fate, calls)
    {
      hide Linear, Partition, QueueOk, RunOfEntries, Without, FiredIn, ClearedTo, GapsOk;
      ClearRegion(startGapEnd, q0, fate0, calls0, gaps0, i, s, m);
      ghost var t := i + 1;
      while gaps[next].end < endGapStart
        invariant i < t <= j
        invariant next < |gaps| && gaps[..next] == old(gaps)[..next] && gaps[next..] == gaps0[t..]
        invariant queue == Without(q0, s, gaps0[t].start) && fate == FiredIn(fate0, s, gaps0[t].start)
        invariant Linear(queue, fate, calls)
        decreases j - t
      {
        GapRemoved(gaps, next, gaps0, t);
        GapBefore(gaps0, t, j);
        assert ClearedTo(gaps0, t, s, gaps0[t].start) by { ClearedToGap(gaps0, i, t, s, m); }
        ClearRegion(gaps[next].end, q0, fate0, calls0, gaps0, t, s, gaps0[t].start);
        gaps := gaps[..next] + gaps[next+1..];
        t := t + 1;
      }
      GapRemoved(gaps, next, gaps0, t);
      GapBefore(gaps0, t, j);
    }

    /** Deletes the entries between gap t and the gap behind it. */
    method ClearRegion(gapEnd: nat, ghost q0: Queue, ghost fate0: map<Callback, Fate>, ghost calls0: multiset<Callback>,
                       ghost gaps0: seq<Interval>, ghost t: nat, ghost s: nat, ghost m: nat)
      requires Consistent(q0, gaps0, readPos) && Linear(q0, fate0, calls0)
      requires ClearedTo(gaps0, t, s, m) && gapEnd == gaps0[t].end
      requires queue == Without(q0, s, m) && fate == FiredIn(fate0, s, m) && Linear(queue, fate, calls)
      modifies this`queue, this`calls, this`fate
      ensures queue == Without(q0, s, gaps0[t+1].start) && fate == FiredIn(fate0, s, gaps0[t+1].start)
      ensures Linear(queue, fate, calls)
    {
      hide Linear, Partition, QueueOk, RunOfEntries, Without, FiredIn;
      RegionIsRun(q0, gaps0, readPos, t, s, m);
      RegionCleared(q0, fate0, calls0, gaps0, readPos, t, s, m);
      ReplacedQueueOkSoFar(q0, readPos, s, m);
      DeleteConsecutive(gapEnd, gaps0[t+1].start);
    }

    /** The start gap shrinks, goes away, or keeps its left part; `next` is where its successor is afterwards. */
    method EditStartGap(i: nat, s: nat, end: nat, hasReplaced: bool) returns (next: nat, adjusted: bool)
      requires i < |gaps|
      modifies this`gaps
      ensures var piece := StartPiece(old(gaps)[i], s, end, hasReplaced);
              next == i + |piece| <= |gaps| && gaps[..next] == old(gaps)[..i] + piece &&
              gaps[next..] == old(gaps)[i+1..]
      ensures adjusted <==> old(gaps)[i].start < s && !hasReplaced
    {
      adjusted := false;
      next := i + 1;
      if s <= gaps[i].start {
        if end >= gaps[i].end {
          gaps := gaps[..i] + gaps[i+1..];
          next := i;
        } else {
          gaps := gaps[i := Interval(end, gaps[i].end)];
        }
      } else if !hasReplaced {
        gaps := gaps[i := Interval(gaps[i].start, s)];
        adjusted := true;
      }
    }

    /** The end gap goes away, keeps its right part, or, being the start gap as well, is split in two. */
    method EditEndGap(next: nat, sameGap: bool, adjusted: bool, e: nat, startGapEnd: nat, endGapEnd: nat)
      requires if sameGap then adjusted ==> next <= |gaps| else next < |gaps| && gaps[next].end == endGapEnd
      modifies this`gaps
      ensures !sameGap ==>
                gaps == old(gaps)[..next] +
                        (if e == endGapEnd then [] else [Interval(e, endGapEnd)]) + old(gaps)[next+1..]
      ensures sameGap ==>
                gaps == if !adjusted then old(gaps)
                        else
                          old(gaps)[..next] +
                          (if e == endGapEnd then [] else [Interval(e, startGapEnd)]) + old(gaps)[next..]
    {
      if e == endGapEnd {
        if !sameGap {
          gaps := gaps[..next] + gaps[next+1..];
        } else if adjusted {
          assert gaps == gaps[..next] + gaps[next..];
        }
      } else {
        if sameGap && adjusted {
          gaps := gaps[..next] + [Interval(e, startGapEnd)] + gaps[next..];
        } else if !sameGap {
          gaps := gaps[next := Interval(e, gaps[next].end)];
        }
      }
    }

    /** Updates the gaps for a frame [s, end) and deletes the entries it covers; e is where the frame is cut. */
    method FillGaps(i: nat, j: nat, s: nat, end: nat, hasReplaced: bool, endsInGap: bool,
                    ghost q0: Queue, ghost fate0: map<Callback, Fate>, ghost calls0: multiset<Callback>,
                    ghost m: nat, ghost cut: bool)
      returns (e: nat)
      requires Consistent(q0, gaps, readPos) && Linear(q0, fate0, calls0)
      requires queue == Without(q0, s, m) && fate == FiredIn(fate0, s, m) && Linear(queue, fate, calls)
      requires Fills(gaps, i, j, s, end, hasReplaced, endsInGap, m, cut)
      modifies this`queue, this`calls, this`fate, this`gaps
      ensures e == CutEnd(old(gaps)[j], s, end, end, cut, endsInGap)
      ensures gaps == Punched(old(gaps), i, j, s, e)
      ensures queue == Without(q0, s, e) && fate == FiredIn(fate0, s, e) && Linear(queue, fate, calls)
    {
      hide Linear, Consistent, Without, FiredIn, Punched, Fills, ClearedTo, StartPiece;
      ghost var gaps0 := gaps;
      FillsFacts(q0, readPos, gaps, i, j, s, end, hasReplaced, endsInGap, m, cut);
      var startGapEnd, endGapStart, endGapEnd := gaps[i].end, gaps[j].start, gaps[j].end;
      var next, adjusted := EditStartGap(i, s, end, hasReplaced);
      if i != j {
        DropCoveredGaps(next, startGapEnd, endGapStart, q0, fate0, calls0, gaps0, i, j, s, m);
      } else {
        assert gaps == gaps[..next] + gaps[next..];
      }
      e := end;
      if !endsInGap && s != endGapEnd && end > endGapEnd {
        e := endGapEnd;
      }
      EditEndGap(next, i == j, adjusted, e, startGapEnd, endGapEnd);
      PiecesArePunched(gaps0, i, j, s, end, hasReplaced, endsInGap, m, cut);
      if !cut {
        ClearedInsideGap(q0, fate0, calls0, gaps0, readPos, j, s, if i < j then gaps0[j].start else m, e);
      }
    }

    /** The rest of a push, once the frame is located: cut it, edit the gaps, queue what is left of it. */
    method Insert(i: nat, j: nat, data: seq<Byte>, offset: nat, doneCb: Option<Callback>, endsInGap: bool, pos: nat,
                  cut: bool, ghost q0: Queue, ghost fate0: map<Callback, Fate>, ghost calls0: multiset<Callback>)
      returns (r: PushResult, ghost s: nat, ghost e: nat, ghost kept: bool)
      requires Consistent(q0, gaps, readPos) && Linear(q0, fate0, calls0)
      requires Located(gaps, i, j, offset, offset + |data|, endsInGap)
      requires Replaced(q0, offset, offset + |data|, pos, cut)
      requires queue == Without(q0, offset, pos) && fate == FiredIn(fate0, offset, pos) && Linear(queue, fate, calls)
      requires doneCb.Some? ==> doneCb.value !in fate0
      modifies this`queue, this`gaps, this`calls, this`fate
      ensures s == CutStart(old(gaps)[i], offset, pos)
      ensures e == CutEnd(old(gaps)[j], s, offset + |data|, pos, cut, endsInGap)
      ensures offset <= s < e <= offset + |data| && gaps == Punched(old(gaps), i, j, s, e)
      ensures r == if |gaps| > MAX_STREAM_FRAME_SORTER_GAPS then TooManyGaps else Accepted
      ensures r == Accepted ==>
                Stored(q0, fate0, queue, fate, data, offset, doneCb, s, e, kept) && Linear(queue, fate, calls)
    {
      hide Linear, Consistent, Located, Replaced, Fills, Brackets, Punched, Without, FiredIn, CutEnd, Stored;
      FillsWhenLanded(q0, gaps, readPos, i, j, offset, offset + |data|, endsInGap, pos, cut);
      CutAtEntry(q0, offset, offset + |data|, pos, cut);
      var start, end, part, wasCut := offset, offset + |data|, data, cut;
      ghost var m := pos;
      if cut {
        part := part[..pos - start];
        end := pos;
      }
      assert part == data[..end - offset];
      if offset < gaps[i].start && pos == offset {
        part := part[gaps[i].start - start..];
        start := gaps[i].start;
        SubSlice(data, 0, end - offset, start - offset, end - offset);
        wasCut := true;
        m := start;
        EmptyRange(q0, fate0, offset);
        EmptyRange(q0, fate0, start);
      }
      var e' := FillGaps(i, j, start, end, pos != offset, endsInGap, q0, fate0, calls0, m, cut);
      if e' != end {
        SubSlice(data, start - offset, end - offset, start - offset, e' - offset);
        part := part[..e' - start];
        wasCut := true;
      }
      s, e := start, e';
      assert part == data[s - offset..e - offset];
      r, kept := Enqueue(start, part, doneCb, wasCut, q0, fate0, e);
      if r == Accepted {
        PartStored(q0, fate0, queue, fate, data, offset, doneCb, s, e, kept, wasCut);
      }
    }

    /** Copies a small rest of a cut frame, so that its buffer can be released at once, and queues it. */
    method Enqueue(start: nat, part: seq<Byte>, doneCb: Option<Callback>, wasCut: bool,
                   ghost q0: Queue, ghost fate0: map<Callback, Fate>, ghost e: nat)
      returns (r: PushResult, ghost kept: bool)
      requires start < e && queue == Without(q0, start, e) && fate == FiredIn(fate0, start, e)
      requires Linear(queue, fate, calls)
      requires doneCb.Some? ==> doneCb.value !in fate0
      modifies this`queue, this`calls, this`fate
      ensures r == if |gaps| > MAX_STREAM_FRAME_SORTER_GAPS then TooManyGaps else Accepted
      ensures r == Accepted ==> Linear(queue, fate, calls)
      ensures r == Accepted ==> queue == Without(q0, start, e)[start := Entry(part, if kept then doneCb else None)]
      ensures kept <==> !(wasCut && |part| < MIN_STREAM_FRAME_BUFFER_SIZE)
      ensures r == Accepted ==>
                fate == if doneCb.Some?
                        then FiredIn(fate0, start, e)[doneCb.value := if kept then Held(start) else Fired]
                        else FiredIn(fate0, start, e)
    {
      hide Linear;
      InsertedLinear(queue, fate, calls, start, part, doneCb);
      var cb := doneCb;
      kept := true;
      if wasCut && |part| < MIN_STREAM_FRAME_BUFFER_SIZE {
        if cb.Some? {
          calls := calls + multiset{cb.value};
          cb := None;
        }
        kept := false;
      }
      if |gaps| > MAX_STREAM_FRAME_SORTER_GAPS {
        return TooManyGaps, kept;
      }
      if doneCb.Some? {
        fate := fate[doneCb.value := if kept then Held(start) else Fired];
      }
      queue := queue[start := Entry(part, cb)];
      return Accepted, kept;
    }

    method PushFrame(data: seq<Byte>, offset: nat, doneCb: Option<Callback>)
      returns (r: PushResult, ghost s: nat, ghost e: nat, ghost kept: bool)
      requires Valid() && offset + |data| < MAX_BYTE_COUNT
      requires doneCb.Some? ==> doneCb.value !in fate
      modifies this`queue, this`gaps, this`calls, this`fate
      ensures r == Duplicate ==> unchanged(this) && forall b :: offset <= b < offset + |data| ==> !Missing(gaps, b)
      ensures r == Accepted ==> Valid() && Stored(old(queue), old(fate), queue, fate, data, offset, doneCb, s, e, kept)
      ensures GapsOk(gaps)
      ensures forall b: nat :: Missing(gaps, b) <==> Missing(old(gaps), b) && !(offset <= b < offset + |data|)
      ensures r == TooManyGaps <==> |gaps| > MAX_STREAM_FRAME_SORTER_GAPS
    {
      hide Linear, Partition, QueueOk, Without, FiredIn, Punched, Replaced, CutStart, CutEnd, Missing;
      s, e, kept := 0, 0, false;
      if |data| == 0 {
        return Duplicate, s, e, kept;
      }
      var start, end := offset, offset + |data|;
      if end <= gaps[0].start {
        DuplicateFrame(gaps, 0, start, end);
        return Duplicate, s, e, kept;
      }
      var i, startsInGap := FindStartGap(start);
      var j, endsInGap := FindEndGap(i, end);
      if (i == j && end <= gaps[i].start) || (i != j && gaps[i].end >= gaps[j].start && end <= gaps[i].start) {
        DuplicateFrame(gaps, i, start, end);
        return Duplicate, s, e, kept;
      }
      assert Located(gaps, i, j, start, end, endsInGap);
      var duplicate, pos, cut := ReplaceEntries(start, end);
      if duplicate {
        DuplicateEntry(queue, gaps, readPos, start, end);
        return Duplicate, s, e, kept;
      }
      ghost var gaps0 := gaps;
      r, s, e, kept := Insert(i, j, data, offset, doneCb, endsInGap, pos, cut, old(queue), old(fate), old(calls));
      ResultIsConsistent(old(queue), gaps0, readPos, i, j, start, end, endsInGap, pos, cut,
                         if r == Accepted then queue[s] else Entry(data[s - offset..e - offset], None));
    }

    /** A frame that brings nothing new is dropped without an error, and its buffer released. */
    method Push(data: seq<Byte>, offset: nat, doneCb: Option<Callback>) returns (r: PushResult)
      requires Valid() && offset + |data| < MAX_BYTE_COUNT
      requires doneCb.Some? ==> doneCb.value !in fate
      modifies this`queue, this`gaps, this`calls, this`fate
      ensures r != TooManyGaps ==> Valid()
      ensures r == TooManyGaps <==> |gaps| > MAX_STREAM_FRAME_SORTER_GAPS
      ensures GapsOk(gaps)
      ensures forall b: nat :: Missing(gaps, b) <==> Missing(old(gaps), b) && !(offset <= b < offset + |data|)
      ensures r != TooManyGaps ==>
                forall stream :: Carries(old(queue), stream) && IsSlice(stream, offset, data) ==> Carries(queue, stream)
      ensures r != TooManyGaps ==> AfterPush(old(fate), fate, doneCb)
    {
      hide Carries, IsSlice, Consistent, Without, Missing, AfterPush, Stored, Linear;
      ghost var s, e, kept;
      r, s, e, kept := PushFrame(data, offset, doneCb);
      if r == Duplicate {
        ReleasedAtOnce(queue, fate, calls, doneCb);
        if doneCb.Some? {
          calls := calls + multiset{doneCb.value};
          fate := fate[doneCb.value := Fired];
        }
      } else if r == Accepted {
        StoredFates(old(queue), old(fate), queue, fate, data, offset, doneCb, s, e, kept);
        forall stream | Carries(old(queue), stream) && IsSlice(stream, offset, data) ensures Carries(queue, stream) {
          PushCarries(old(queue), old(fate), queue, fate, data, offset, doneCb, s, e, kept, stream);
        }
      }
    }

    /** The data at the read position, if the next byte was received. */
    method Pop() returns (offset: nat, data: Option<seq<Byte>>, doneCb: Option<Callback>)
      requires Valid()
      modifies this`queue, this`readPos, this`fate
      ensures Valid()
      ensures offset == old(readPos)
      ensures data.None? <==> Missing(gaps, old(readPos))
      ensures data.None? ==> doneCb.None? && readPos == old(readPos) && queue == old(queue) && fate == old(fate)
      ensures data.Some? ==> |data.value| > 0 && readPos == offset + |data.value|
      ensures data.Some? ==>
                && offset in old(queue)
                && old(queue)[offset] == Entry(data.value, doneCb)
                && queue == old(queue) - {offset}
      ensures data.Some? ==> fate == if doneCb.Some? then old(fate)[doneCb.value := HandedOut] else old(fate)
      ensures doneCb.Some? ==> doneCb.value in old(fate) && old(fate)[doneCb.value].Held?
    {
      ReadPosition(queue, gaps, readPos);
      if readPos !in queue {
        return readPos, None, None;
      }
      var entry := queue[readPos];
      queue := queue - {readPos};
      offset := readPos;
      readPos := readPos + |entry.data|;
      PoppedConsistent(old(queue), gaps, old(readPos));
      assert gaps[0].end > readPos; // "read position higher than a gap"
      data, doneCb := Some(entry.data), entry.doneCb;
      if doneCb.Some? {
        fate := fate[doneCb.value := HandedOut];
      }
    }
  }
}
