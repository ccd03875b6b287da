/** Whole runs of the frame sorter: slices of one stream pushed in any order, cut in any way and any
    number of times, with pops in between. */
module Reassembly {
  import opened Common
  import opened FrameSorting

  datatype Event =
    | Arrive(offset: nat, length: nat, hasCallback: bool)
    | Read

  predicate InStream(events: seq<Event>, stream: seq<Byte>) {
    forall i :: 0 <= i < |events| && events[i].Arrive? ==> events[i].offset + events[i].length <= |stream|
  }

  ghost predicate Arrived(events: seq<Event>, b: nat) {
    exists i :: 0 <= i < |events| && events[i].Arrive? && events[i].offset <= b < events[i].offset + events[i].length
  }

  /** The callback of the i-th event is called i. */
  predicate HasCallback(events: seq<Event>, id: nat) {
    id < |events| && events[id].Arrive? && events[id].hasCallback
  }

  /** The state after some events: what is missing, what is buffered, what was read. */
  ghost predicate Reassembled(s: FrameSorter, stream: seq<Byte>, events: seq<Event>, out: seq<Byte>)
    reads s
  {
    && s.Valid()
    && Carries(s.queue, stream)
    && s.readPos <= |stream| && out == stream[..s.readPos]
    && (forall b: nat :: Missing(s.gaps, b) <==> b < MAX_BYTE_COUNT && !Arrived(events, b))
    && (forall id :: id in s.fate <==> HasCallback(events, id))
  }

  ghost function ArrivedBytes(events: seq<Event>): set<nat> {
    set b: nat | b < MAX_BYTE_COUNT && Arrived(events, b)
  }

  /** The sorter gives up exactly if what has arrived leaves too many gaps. */
  ghost predicate TooFragmented(events: seq<Event>) {
    |Holes(ArrivedBytes(events))| > MAX_STREAM_FRAME_SORTER_GAPS
  }

  lemma GapsOfArrived(gaps: seq<Interval>, events: seq<Event>)
    requires GapsOk(gaps) && forall b: nat :: Missing(gaps, b) <==> b < MAX_BYTE_COUNT && !Arrived(events, b)
    ensures TooFragmented(events) <==> |gaps| > MAX_STREAM_FRAME_SORTER_GAPS
  {
    hide GapsOk, Missing, Arrived;
    CountGaps(gaps, ArrivedBytes(events));
  }

  lemma ArrivedOneMore(events: seq<Event>, n: nat, b: nat)
    requires n < |events|
    ensures Arrived(events[..n+1], b) <==>
              Arrived(events[..n], b) ||
              (events[n].Arrive? && events[n].offset <= b < events[n].offset + events[n].length)
  {
  }

  /** One pop appends the popped data to what was read. */
  method ReadNext(s: FrameSorter, ghost stream: seq<Byte>, ghost events: seq<Event>, out: seq<Byte>)
    returns (out': seq<Byte>, more: bool, doneCb: Option<Callback>)
    requires Reassembled(s, stream, events, out)
    modifies s
    ensures Reassembled(s, stream, events, out')
    ensures more ==> |out'| > |out|
    ensures !more ==> out' == out && |out| < MAX_BYTE_COUNT && !Arrived(events, |out|)
    ensures doneCb.Some? ==> doneCb.value in s.fate
    ensures s.fate == (if doneCb.Some? then old(s.fate)[doneCb.value := HandedOut] else old(s.fate))
    ensures s.calls == old(s.calls)
    ensures doneCb.Some? ==> doneCb.value in old(s.fate) && old(s.fate)[doneCb.value].Held?
  {
    ReadPosition(s.queue, s.gaps, s.readPos);
    hide Missing, Arrived, Consistent, Linear, HasCallback;
    NextPiece(s.queue, stream, s.readPos);
    hide Carries;
    var offset, data;
    offset, data, doneCb := s.Pop();
    if data.None? {
      return out, false, doneCb;
    }
    out' := out + data.value;
    more := true;
  }

  /** What is popped continues what was read. */
  lemma NextPiece(q: Queue, stream: seq<Byte>, readPos: nat)
    requires Carries(q, stream) && readPos <= |stream|
    ensures readPos in q ==>
              && Carries(q - {readPos}, stream)
              && End(q, readPos) <= |stream|
              && stream[..readPos] + q[readPos].data == stream[..End(q, readPos)]
  {
  }

  /** Where the callbacks ended up. */
  datatype Callbacks = Callbacks(calls: multiset<Callback>, handedOut: set<Callback>, held: set<Callback>)

  ghost predicate ExactlyOne(a: bool, b: bool, c: bool) {
    (a || b || c) && !(a && b) && !(a && c) && !(b && c)
  }

  ghost predicate AccountsFor(cbs: Callbacks, events: seq<Event>) {
    && (forall id :: HasCallback(events, id) ==>
          ExactlyOne(cbs.calls[id] == 1, id in cbs.handedOut, id in cbs.held))
    && (forall id :: cbs.calls[id] <= 1)
    && (forall id :: !HasCallback(events, id) ==> cbs.calls[id] == 0 && id !in cbs.handedOut && id !in cbs.held)
  }

  function HeldIn(q: Queue): set<Callback> {
    set k | k in q && q[k].doneCb.Some? :: q[k].doneCb.value
  }

  lemma SliceIsSlice(stream: seq<Byte>, offset: nat, length: nat)
    requires offset + length <= |stream|
    ensures IsSlice(stream, offset, stream[offset..offset + length])
  {
  }

  lemma StartsEmpty(s: FrameSorter, stream: seq<Byte>)
    requires s.Valid()
    requires s.queue == map[] && s.readPos == 0 && s.gaps == [Interval(0, MAX_BYTE_COUNT)] && s.fate == map[]
    ensures Reassembled(s, stream, [], [])
  {
  }

  lemma AllReadArrived(s: FrameSorter, stream: seq<Byte>, events: seq<Event>, out: seq<Byte>)
    requires Reassembled(s, stream, events, out)
    ensures forall b :: 0 <= b < |out| ==> Arrived(events, b)
  {
  }

  lemma ArrivedSoFar(events: seq<Event>, n: nat, out: seq<Byte>)
    requires n <= |events| && forall b :: 0 <= b < |out| ==> Arrived(events[..n], b)
    ensures forall b :: 0 <= b < |out| ==> Arrived(events, b)
  {
    forall b: nat | b < |out| ensures Arrived(events, b) {
      assert Arrived(events[..n], b);
      var i :| 0 <= i < n && events[..n][i].Arrive? &&
               events[..n][i].offset <= b < events[..n][i].offset + events[..n][i].length;
      assert events[i] == events[..n][i];
    }
  }

  lemma FewAtStart()
    ensures !TooFragmented([])
  {
    assert Holes(ArrivedBytes([])) == {0};
  }

  lemma CallbacksAccounted(s: FrameSorter, events: seq<Event>, handed: set<Callback>)
    requires Linear(s.queue, s.fate, s.calls)
    requires forall id :: id in s.fate <==> HasCallback(events, id)
    requires forall id :: id in handed <==> id in s.fate && s.fate[id].HandedOut?
    ensures AccountsFor(Callbacks(s.calls, handed, HeldIn(s.queue)), events)
  {
  }

  /** One event. */
  method Handle(s: FrameSorter, stream: seq<Byte>, events: seq<Event>, n: nat, out: seq<Byte>, handed: set<Callback>)
    returns (out': seq<Byte>, ok: bool, handed': set<Callback>)
    requires |stream| < MAX_BYTE_COUNT && InStream(events, stream) && n < |events|
    requires Reassembled(s, stream, events[..n], out)
    requires forall id :: id in handed <==> id in s.fate && s.fate[id].HandedOut?
    modifies s
    ensures !ok ==> out' == out
    ensures ok <==> !TooFragmented(events[..n+1])
    ensures ok ==> Reassembled(s, stream, events[..n+1], out')
    ensures ok ==> forall id :: id in handed' <==> id in s.fate && s.fate[id].HandedOut?
  {
    hide Carries, IsSlice, Missing, Consistent, Linear, Arrived, TooFragmented, GapsOk;
    out', ok, handed' := out, true, handed;
    match events[n] {
      case Arrive(offset, length, hasCallback) =>
        SliceIsSlice(stream, offset, length);
        var r := s.Push(stream[offset..offset + length], offset, if hasCallback then Some(n) else None);
        ok := r != TooManyGaps;
      case Read =>
        var more, cb;
        out', more, cb := ReadNext(s, stream, events[..n], out);
        s.GapsInOrder();
        if cb.Some? { handed' := handed' + {cb.value}; }
    }
    forall b: nat ensures Missing(s.gaps, b) <==> b < MAX_BYTE_COUNT && !Arrived(events[..n+1], b) {
      ArrivedOneMore(events, n, b);
    }
    GapsOfArrived(s.gaps, events[..n+1]);
  }

  /** Whatever the arrival order, the bytes read are exactly the longest prefix of the stream that has arrived
      completely, unless after some event there were too many gaps; then they are still a prefix that has arrived.
      Every callback was invoked once, or handed out, or is still held, and only one of those. */
  method Run(stream: seq<Byte>, events: seq<Event>) returns (out: seq<Byte>, ok: bool, cbs: Callbacks)
    requires |stream| < MAX_BYTE_COUNT && InStream(events, stream)
    ensures ok <==> forall n :: 0 <= n <= |events| ==> !TooFragmented(events[..n])
    ensures out <= stream && forall b :: 0 <= b < |out| ==> Arrived(events, b)
    ensures ok ==> !Arrived(events, |out|)
    ensures ok ==> AccountsFor(cbs, events)
  {
    hide Carries, Missing, Consistent, Linear, Arrived, AccountsFor, TooFragmented;
    var s := new FrameSorter();
    out := [];
    var handed: set<Callback> := {};
    cbs := Callbacks(multiset{}, {}, {});
    StartsEmpty(s, stream);
    assert events[..0] == [];
    FewAtStart();
    for n := 0 to |events|
      invariant Reassembled(s, stream, events[..n], out) && forall k :: 0 <= k <= n ==> !TooFragmented(events[..k])
      invariant forall id :: id in handed <==> id in s.fate && s.fate[id].HandedOut?
    {
      ghost var before := out;
      AllReadArrived(s, stream, events[..n], out);
      out, ok, handed := Handle(s, stream, events, n, out, handed);
      if !ok {
        ArrivedSoFar(events, n, before);
        return out, false, cbs;
      }
    }
    assert events[..|events|] == events;
    var more := true;
    while more
      invariant Reassembled(s, stream, events, out)
      invariant forall id :: id in handed <==> id in s.fate && s.fate[id].HandedOut?
      invariant !more ==> !Arrived(events, |out|)
      decreases |stream| - |out|, more
    {
      var cb;
      out, more, cb := ReadNext(s, stream, events, out);
      if cb.Some? { handed := handed + {cb.value}; }
    }
    AllReadArrived(s, stream, events, out);
    CallbacksAccounted(s, events, handed);
    return out, true, Callbacks(s.calls, handed, HeldIn(s.queue));
  }
}
