/** The streams a peer opens: streams_map_incoming.go.  A stream is known by its number. */
module IncomingStreams {
  import opened Common

  const MAX_STREAM_COUNT: nat := 0x1000_0000_0000_0000 // 2^60

  datatype Entry = Entry(shouldDelete: bool)

  datatype OpenResult = LimitExceeded | Gone | Stream(num: nat)

  datatype DeleteResult = Deleted | Unknown | DeletedTwice

  /** Numbers below `next` were opened, those below `accepted` were accepted.  A stream that was not accepted is
      still there, and only such streams, and the one that is just being deleted, are marked. */
  ghost predicate EntriesOk(streams: map<nat, Entry>, accepted: nat, next: nat, deleting: nat) {
    && (forall n :: n in streams ==> 1 <= n < next && (streams[n].shouldDelete ==> accepted <= n || n == deleting))
    && (forall n :: accepted <= n < next ==> n in streams)
  }

  /** Open streams and remaining credit add up to the configured maximum, as long as the limit is below the largest
      that can be sent; every limit that is sent is higher than the ones before. */
  ghost predicate CreditOk(open: nat, next: nat, maxStream: nat, maxNum: nat, limits: seq<nat>) {
    && 1 <= next <= maxStream + 1 && open <= maxNum <= MAX_STREAM_COUNT
    && maxStream == Min(next - 1 + (maxNum - open), MAX_STREAM_COUNT)
    && Ascending([maxNum] + limits) && maxStream == ([maxNum] + limits)[|limits|]
  }

  lemma OpenKeepsCredit(open: nat, next: nat, maxStream: nat, maxNum: nat, limits: seq<nat>, num: nat)
    requires CreditOk(open, next, maxStream, maxNum, limits) && next <= num <= maxStream
    ensures CreditOk(open + (num + 1 - next), num + 1, maxStream, maxNum, limits)
  {
  }

  lemma DeleteRaisesLimit(open: nat, next: nat, maxStream: nat, maxNum: nat, limits: seq<nat>)
    requires CreditOk(open, next, maxStream, maxNum, limits) && open > 0
    ensures maxNum > open - 1
    ensures var limit := next + (maxNum - (open - 1)) - 1;
            if limit <= MAX_STREAM_COUNT then CreditOk(open - 1, next, limit, maxNum, limits + [limit])
            else CreditOk(open - 1, next, maxStream, maxNum, limits)
  {
    var limit := next + (maxNum - (open - 1)) - 1;
    assert [maxNum] + (limits + [limit]) == ([maxNum] + limits) + [limit];
  }

  /** New entries for the numbers from lo up to hi. */
  function Filled(m: map<nat, Entry>, lo: nat, hi: nat): map<nat, Entry> {
    if hi <= lo then m else Filled(m, lo, hi - 1)[hi - 1 := Entry(false)]
  }

  /** What was there stays, and only new entries from lo up to hi are added. */
  ghost predicate Grown(m: map<nat, Entry>, m': map<nat, Entry>, lo: nat, hi: nat) {
    && (forall n :: n in m ==> n in m' && m'[n] == m[n])
    && (forall n :: n in m' && n !in m ==> lo <= n < hi && m'[n] == Entry(false))
  }

  lemma GrowOne(m: map<nat, Entry>, m': map<nat, Entry>, lo: nat, hi: nat)
    requires Grown(m, m', lo, hi) && hi !in m' && lo <= hi
    ensures Grown(m, m'[hi := Entry(false)], lo, hi + 1)
  {
  }

  lemma {:induction false} FilledEntries(m: map<nat, Entry>, accepted: nat, lo: nat, hi: nat)
    requires EntriesOk(m, accepted, lo, 0) && 1 <= accepted <= lo <= hi
    ensures var m' := Filled(m, lo, hi);
            && EntriesOk(m', accepted, hi, 0) && |m'| == |m| + (hi - lo) && Grown(m, m', lo, hi)
            && (lo < hi ==> hi - 1 in m' && m'[hi - 1] == Entry(false))
  {
    if lo < hi {
      var n, m' := hi - 1, Filled(m, lo, hi - 1);
      assert Filled(m, lo, hi) == m'[n := Entry(false)];
      hide EntriesOk, Grown, Filled;
      FilledEntries(m, accepted, lo, n);
      OneEntry(m', accepted, n);
      GrowOne(m, m', lo, n);
      assert n + 1 == hi;
    }
  }

  lemma OneEntry(m: map<nat, Entry>, accepted: nat, next: nat)
    requires EntriesOk(m, accepted, next, 0) && 1 <= accepted <= next
    ensures next !in m && EntriesOk(m[next := Entry(false)], accepted, next + 1, 0)
    ensures |m[next := Entry(false)]| == |m| + 1
  {
  }

  lemma RemoveKeepsEntries(streams: map<nat, Entry>, accepted: nat, next: nat, num: nat)
    requires EntriesOk(streams, accepted, next, num) && num in streams && num < accepted
    ensures EntriesOk(streams - {num}, accepted, next, 0) && |streams - {num}| == |streams| - 1
  {
  }

  lemma MarkKeepsEntries(streams: map<nat, Entry>, accepted: nat, next: nat, num: nat)
    requires EntriesOk(streams, accepted, next, num) && num in streams && num >= accepted
    ensures EntriesOk(streams, accepted, next, 0)
    ensures EntriesOk(streams[num := Entry(true)], accepted, next, 0) && |streams[num := Entry(true)]| == |streams|
  {
  }

  class IncomingStreamsMap {
    const maxNumStreams: nat
    var streams: map<nat, Entry>
    var nextStreamToAccept: nat
    var nextStreamToOpen: nat
    var maxStream: nat

    /** The limits that were sent to the peer in MAX_STREAMS frames. */
    var limits: seq<nat>

    constructor (maxStreams: nat)
      requires maxStreams <= MAX_STREAM_COUNT
      ensures Valid() && maxNumStreams == maxStreams && streams == map[] && limits == []
      ensures nextStreamToAccept == nextStreamToOpen == 1
    {
      maxNumStreams, maxStream := maxStreams, maxStreams;
      streams, nextStreamToAccept, nextStreamToOpen, limits := map[], 1, 1, [];
    }

    /** Valid, except that the stream that is just being deleted may be marked though it was accepted. */
    ghost predicate ValidBut(deleting: nat)
      reads this
    {
      && 1 <= nextStreamToAccept <= nextStreamToOpen
      && EntriesOk(streams, nextStreamToAccept, nextStreamToOpen, deleting)
      && CreditOk(|streams|, nextStreamToOpen, maxStream, maxNumStreams, limits)
    }

    ghost predicate Valid()
      reads this
    {
      ValidBut(0)
    }

    lemma Weaken(num: nat)
      requires Valid()
      ensures ValidBut(num)
    {
    }

    /** Opening a stream opens all streams with lower numbers. */
    method GetOrOpenStream(num: nat) returns (r: OpenResult)
      requires Valid() && num >= 1
      modifies this`streams, this`nextStreamToOpen
      ensures Valid()
      ensures nextStreamToOpen ==
                if r.LimitExceeded? then old(nextStreamToOpen) else Max(old(nextStreamToOpen), num + 1)
      ensures r.LimitExceeded? <==> num > maxStream
      ensures r.Gone? <==>
                && num <= maxStream
                && num < old(nextStreamToOpen)
                && (num in old(streams) ==> old(streams)[num].shouldDelete)
      ensures r.Stream? ==> r.num == num && num in streams && !streams[num].shouldDelete
      ensures Grown(old(streams), streams, old(nextStreamToOpen), nextStreamToOpen)
    {
      if num > maxStream {
        return LimitExceeded;
      }
      if num < nextStreamToOpen {
        return if num in streams && !streams[num].shouldDelete then Stream(num) else Gone;
      }
      hide CreditOk, Grown;
      OpenKeepsCredit(|streams|, nextStreamToOpen, maxStream, maxNumStreams, limits, num);
      OpenUpTo(num);
      nextStreamToOpen := num + 1;
      return Stream(num);
    }

    method OpenUpTo(num: nat)
      requires nextStreamToOpen <= num && EntriesOk(streams, nextStreamToAccept, nextStreamToOpen, 0)
      requires 1 <= nextStreamToAccept <= nextStreamToOpen
      modifies this`streams
      ensures EntriesOk(streams, nextStreamToAccept, num + 1, 0)
      ensures |streams| == |old(streams)| + (num + 1 - nextStreamToOpen)
      ensures Grown(old(streams), streams, nextStreamToOpen, num + 1)
      ensures num in streams && streams[num] == Entry(false)
    {
      hide EntriesOk, Grown;
      var newNum := nextStreamToOpen;
      while newNum <= num
        invariant nextStreamToOpen <= newNum <= num + 1 && streams == Filled(old(streams), nextStreamToOpen, newNum)
      {
        streams := streams[newNum := Entry(false)];
        newNum := newNum + 1;
      }
      FilledEntries(old(streams), nextStreamToAccept, nextStreamToOpen, num + 1);
    }

    /** A stream that was not accepted yet is only marked; deleting one that was accepted gives the peer new credit. */
    method DeleteStream(num: nat) returns (r: DeleteResult)
      requires ValidBut(num)
      modifies this`streams, this`maxStream, this`limits
      ensures Valid() && old(limits) <= limits
      ensures r.Unknown? <==> num !in old(streams)
      ensures r.DeletedTwice? <==> num in old(streams) && num >= nextStreamToAccept && old(streams)[num].shouldDelete
      ensures old(maxStream) <= maxStream
      ensures !r.Deleted? ==> streams == old(streams) && limits == old(limits) && maxStream == old(maxStream)
      ensures r.Deleted? ==>
                streams == if num >= nextStreamToAccept then old(streams)[num := Entry(true)] else old(streams) - {num}
    {
      if num !in streams {
        return Unknown;
      }
      hide EntriesOk, CreditOk;
      if num >= nextStreamToAccept {
        MarkKeepsEntries(streams, nextStreamToAccept, nextStreamToOpen, num);
        if streams[num].shouldDelete {
          return DeletedTwice;
        }
        streams := streams[num := Entry(true)];
        return Deleted;
      }
      RemoveKeepsEntries(streams, nextStreamToAccept, nextStreamToOpen, num);
      DeleteRaisesLimit(|streams|, nextStreamToOpen, maxStream, maxNumStreams, limits);
      streams := streams - {num};
      if maxNumStreams > |streams| {
        var limit := nextStreamToOpen + (maxNumStreams - |streams|) - 1;
        if limit <= MAX_STREAM_COUNT {
          maxStream := limit;
          limits := limits + [limit];
        }
      }
      return Deleted;
    }

    /** Streams are accepted in the order of their numbers; None if the application has to wait. */
    method AcceptStream() returns (num: Option<nat>)
      requires Valid()
      modifies this`streams, this`maxStream, this`limits, this`nextStreamToAccept
      ensures Valid() && old(limits) <= limits
      ensures num.None? <==> old(nextStreamToAccept) == nextStreamToOpen
      ensures old(maxStream) <= maxStream
      ensures num.None? ==>
                nextStreamToAccept == old(nextStreamToAccept) && streams == old(streams) && limits == old(limits) &&
                maxStream == old(maxStream)
      ensures num.Some? ==>
                num.value == old(nextStreamToAccept) && nextStreamToAccept == num.value + 1 && num.value in old(streams)
      ensures num.Some? ==>
                streams == if old(streams)[num.value].shouldDelete then old(streams) - {num.value} else old(streams)
    {
      hide CreditOk;
      if nextStreamToAccept !in streams {
        return None;
      }
      var n := nextStreamToAccept;
      var entry := streams[n];
      nextStreamToAccept := nextStreamToAccept + 1;
      if entry.shouldDelete {
        var r := DeleteStream(n);
        assert r == Deleted;
      }
      return Some(n);
    }
  }

  // ------------------------------------------------------------------
  // Whole runs
  // ------------------------------------------------------------------

  datatype Event = Open(num: nat) | Delete(num: nat) | Accept

  /** What can be observed: the streams that were accepted, in this order, those that completed, the highest one, and
      the limit. */
  datatype Log = Log(accepted: seq<nat>, completed: set<nat>, highest: nat, limit: nat)

  /** A stream is open until it is both accepted and completed. */
  predicate IsOpen(log: Log, n: nat) {
    1 <= n <= log.highest && !(n in log.completed && n <= |log.accepted|)
  }

  ghost function OpenStreams(log: Log): set<nat> {
    set n | 1 <= n <= log.highest && IsOpen(log, n)
  }

  /** The entries of the map follow from the log. */
  ghost predicate Follows(m: map<nat, Entry>, log: Log) {
    && (forall n :: n in m <==> IsOpen(log, n))
    && (forall n :: n in m ==> (m[n].shouldDelete <==> n in log.completed))
    && (forall n :: n in log.completed ==> 1 <= n <= log.highest)
  }

  ghost predicate Matches(m: IncomingStreamsMap, log: Log)
    reads m
  {
    && m.Valid() && m.nextStreamToAccept == |log.accepted| + 1 && m.nextStreamToOpen == log.highest + 1
    && m.maxStream == log.limit
    && Follows(m.streams, log)
  }

  /** What an event does.  Streams are refused beyond the limit, and cannot complete before they are opened, or
      twice. */
  ghost predicate Recorded(e: Event, log: Log, log': Log, refused: bool) {
    match e
    case Open(num) =>
      && (refused <==> num > log.limit)
      && log' == if refused then log else log.(highest := Max(log.highest, num))
    case Delete(num) =>
      && (refused <==> num > log.highest || num in log.completed)
      && log.limit <= log'.limit
      && log' == if refused then log else log.(completed := log.completed + {num}, limit := log'.limit)
    case Accept =>
      && !refused && log.limit <= log'.limit
      && log' == if |log.accepted| == log.highest then log
                 else log.(accepted := log.accepted + [|log.accepted| + 1], limit := log'.limit)
  }

  /** Streams are accepted as 1, 2, 3, and so on.  Open streams and remaining credit add up to the maximum, unless
      the limit is the largest that can be sent. */
  ghost predicate LogOk(log: Log, maxStreams: nat) {
    && log.accepted == seq(|log.accepted|, i => i + 1) && |log.accepted| <= log.highest <= log.limit
    && |OpenStreams(log)| <= maxStreams
    && log.limit == Min(log.highest + (maxStreams - |OpenStreams(log)|), MAX_STREAM_COUNT)
  }

  method DoOpen(m: IncomingStreamsMap, num: nat, log: Log) returns (log': Log, refused: bool)
    requires Matches(m, log) && num >= 1
    modifies m
    ensures Matches(m, log') && Recorded(Open(num), log, log', refused)
  {
    hide EntriesOk, CreditOk, Grown, Follows;
    var r := m.GetOrOpenStream(num);
    log', refused := log.(highest := m.nextStreamToOpen - 1), r.LimitExceeded?;
    OpenFollows(old(m.streams), m.streams, log, log');
  }

  method DoDelete(m: IncomingStreamsMap, num: nat, log: Log) returns (log': Log, refused: bool)
    requires Matches(m, log) && num >= 1
    modifies m
    ensures Matches(m, log') && Recorded(Delete(num), log, log', refused)
  {
    hide EntriesOk, CreditOk, Follows;
    m.Weaken(num);
    var r := m.DeleteStream(num);
    log', refused := log, !r.Deleted?;
    if r.Deleted? {
      log' := log.(completed := log.completed + {num}, limit := m.maxStream);
    }
    DeleteFollows(old(m.streams), m.streams, log, log', num);
  }

  method DoAccept(m: IncomingStreamsMap, log: Log) returns (log': Log)
    requires Matches(m, log)
    modifies m
    ensures Matches(m, log') && Recorded(Accept, log, log', false)
  {
    hide EntriesOk, CreditOk, Follows;
    var num := m.AcceptStream();
    log' := log;
    if num.Some? {
      log' := log.(accepted := log.accepted + [num.value], limit := m.maxStream);
    }
    AcceptFollows(old(m.streams), m.streams, log, log');
  }

  method Handle(m: IncomingStreamsMap, e: Event, log: Log) returns (log': Log, refused: bool)
    requires Matches(m, log) && (!e.Accept? ==> e.num >= 1)
    modifies m
    ensures Matches(m, log') && Recorded(e, log, log', refused)
  {
    hide Recorded, Matches;
    refused := false;
    match e
    case Open(num) => log', refused := DoOpen(m, num, log);
    case Delete(num) => log', refused := DoDelete(m, num, log);
    case Accept => log' := DoAccept(m, log);
  }

  lemma OpenFollows(m: map<nat, Entry>, m': map<nat, Entry>, log: Log, log': Log)
    requires Follows(m, log) && |log.accepted| <= log.highest <= log'.highest && log' == log.(highest := log'.highest)
    requires EntriesOk(m', |log.accepted| + 1, log'.highest + 1, 0) && Grown(m, m', log.highest + 1, log'.highest + 1)
    ensures Follows(m', log')
  {
  }

  lemma DeleteFollows(m: map<nat, Entry>, m': map<nat, Entry>, log: Log, log': Log, num: nat)
    requires Follows(m, log) && num >= 1
    requires if num !in m || (num > |log.accepted| && m[num].shouldDelete) then m' == m && log' == log
             else
               && m' == (if num > |log.accepted| then m[num := Entry(true)] else m - {num})
               && log' == log.(completed := log.completed + {num}, limit := log'.limit)
    ensures num !in m || (num > |log.accepted| && m[num].shouldDelete) <==> num > log.highest || num in log.completed
    ensures Follows(m', log')
  {
  }

  lemma AcceptFollows(m: map<nat, Entry>, m': map<nat, Entry>, log: Log, log': Log)
    requires Follows(m, log)
    requires if |log.accepted| == log.highest then m' == m && log' == log
             else var num := |log.accepted| + 1;
                  && num in m && log' == log.(accepted := log.accepted + [num], limit := log'.limit)
                  && m' == if m[num].shouldDelete then m - {num} else m
    ensures Follows(m', log')
  {
  }

  lemma MatchesIsOk(m: IncomingStreamsMap, log: Log)
    requires Matches(m, log) && log.accepted == seq(|log.accepted|, i => i + 1)
    ensures LogOk(log, m.maxNumStreams)
  {
    assert m.streams.Keys == OpenStreams(log);
    assert |m.streams| == |m.streams.Keys|;
  }

  /** The peer opens streams, the application accepts them, and they complete, in any order, also before they are
      accepted. The log says what is observed before the first event and after each; the limits that were sent to the
      peer strictly increase. */
  method Run(maxStreams: nat, events: seq<Event>) returns (logs: seq<Log>, refused: seq<bool>, limits: seq<nat>)
    requires maxStreams <= MAX_STREAM_COUNT && forall e :: e in events && !e.Accept? ==> e.num >= 1
    ensures |logs| == |events| + 1 && |refused| == |events| && logs[0] == Log([], {}, 0, maxStreams)
    ensures forall i :: 0 <= i < |events| ==> Recorded(events[i], logs[i], logs[i + 1], refused[i])
    ensures forall log :: log in logs ==> LogOk(log, maxStreams)
    ensures Ascending([maxStreams] + limits) && logs[|events|].limit == ([maxStreams] + limits)[|limits|]
  {
    hide EntriesOk, Recorded, LogOk, Follows;
    var m := new IncomingStreamsMap(maxStreams);
    var log := Log([], {}, 0, maxStreams);
    NothingFollows(log);
    MatchesIsOk(m, log);
    logs, refused := [log], [];
    for i := 0 to |events|
      invariant fresh(m) && Matches(m, log) && m.maxNumStreams == maxStreams
      invariant log.accepted == seq(|log.accepted|, j => j + 1)
      invariant |logs| == i + 1 && |refused| == i && logs[0] == Log([], {}, 0, maxStreams) && logs[i] == log
      invariant forall j :: 0 <= j < i ==> Recorded(events[j], logs[j], logs[j + 1], refused[j])
      invariant forall l :: l in logs ==> LogOk(l, maxStreams)
    {
      var log', no := Handle(m, events[i], log);
      StillInOrder(events[i], log, log', no);
      MatchesIsOk(m, log');
      log, logs, refused := log', logs + [log'], refused + [no];
    }
    return logs, refused, m.limits;
  }

  lemma NothingFollows(log: Log)
    requires log.highest == 0 && log.completed == {}
    ensures Follows(map[], log)
  {
  }

  lemma StillInOrder(e: Event, log: Log, log': Log, refused: bool)
    requires Recorded(e, log, log', refused) && log.accepted == seq(|log.accepted|, i => i + 1)
    ensures log'.accepted == seq(|log'.accepted|, i => i + 1)
  {
  }

  predicate Ascending(s: seq<nat>) {
    forall i, j :: 0 <= i < j < |s| ==> s[i] < s[j]
  }
}
