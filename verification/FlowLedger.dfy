/** What can be seen of the receive streams of a connection and their flow control, as a value, and which answers to
    frames, reads and requests for window updates are right. */
module FlowLedger {
  import opened Common
  import opened FrameSorting
  import opened StreamFrames
  import opened StreamNetwork
  import opened ReceiveStreams

  datatype Event =
    | Frame(stream: nat, offset: nat, data: seq<Byte>, fin: bool, now: int)
    | Reset(stream: nat, finalSize: nat, now: int)
    | Read(stream: nat, space: nat, now: int)
    | Cancel(stream: nat, now: int)
    | UpdateStream(stream: nat, now: int, rtt: nat, allow: bool)
    | UpdateConnection(now: int, rtt: nat, allow: bool)

  /** A frame is refused with an error; a read returns a number of bytes; a request for a window update gets a limit,
      or 0. */
  datatype Outcome = Done | Refused | Data(count: nat, result: ReadResult) | Limit(limit: nat)

  datatype Config = Config(window: nat, maxWindow: nat, connWindow: nat, maxConnWindow: nat)

  /** The highest offset that was received on a stream; whether this is the final one, and whether a reset revealed
      that; whether the stream was reset, cancelled or read to its end; how much was read; which bytes have arrived
      before it was cancelled; and the limit that was advertised for it. */
  datatype Account = Account(
    highest: nat,
    final: bool,
    byReset: bool,
    reset: bool,
    cancelled: bool,
    eof: bool,
    read: nat,
    arrived: set<nat>,
    window: nat)

  datatype Balance = Balance(accounts: seq<Account>, window: nat)

  /** What a stream gives back to the connection: what was read, or everything once it is abandoned. */
  function Credit(e: Account): nat {
    if e.byReset || (e.final && e.cancelled) then e.highest else e.read
  }

  function Sum(s: seq<nat>): nat {
    if s == [] then 0 else s[0] + Sum(s[1..])
  }

  lemma {:induction false} SumUpdate(s: seq<nat>, i: nat, v: nat)
    requires i < |s|
    ensures Sum(s[i := v]) == Sum(s) - s[i] + v
  {
    if i == 0 {
      assert s[i := v][1..] == s[1..];
    } else {
      assert s[i := v][1..] == s[1..][i - 1 := v];
      SumUpdate(s[1..], i - 1, v);
    }
  }

  lemma {:induction false} SumAppend(s: seq<nat>, v: nat)
    ensures Sum(s + [v]) == Sum(s) + v
  {
    if s == [] {
      assert Sum([v]) == v;
    } else {
      assert (s + [v])[1..] == s[1..] + [v];
      SumAppend(s[1..], v);
    }
  }

  lemma {:induction false} SumMono(s: seq<nat>, t: seq<nat>)
    requires |s| == |t| && forall i :: 0 <= i < |s| ==> s[i] <= t[i]
    ensures Sum(s) <= Sum(t)
  {
    if s != [] {
      SumMono(s[1..], t[1..]);
    }
  }

  function Highs(es: seq<Account>): seq<nat> {
    seq(|es|, i requires 0 <= i < |es| => es[i].highest)
  }

  function Credits(es: seq<Account>): seq<nat> {
    seq(|es|, i requires 0 <= i < |es| => Credit(es[i]))
  }

  /** All that was received, and all that was given back. */
  function TotalReceived(es: seq<Account>): nat {
    Sum(Highs(es))
  }

  function TotalCredit(es: seq<Account>): nat {
    Sum(Credits(es))
  }

  lemma TotalsUpdate(es: seq<Account>, i: nat, e: Account)
    requires i < |es|
    ensures TotalReceived(es[i := e]) == TotalReceived(es) - es[i].highest + e.highest
    ensures TotalCredit(es[i := e]) == TotalCredit(es) - Credit(es[i]) + Credit(e)
  {
    hide Credit, Sum;
    assert Highs(es[i := e]) == Highs(es)[i := e.highest];
    assert Credits(es[i := e]) == Credits(es)[i := Credit(e)];
    SumUpdate(Highs(es), i, e.highest);
    SumUpdate(Credits(es), i, Credit(e));
  }

  lemma TotalsAppend(es: seq<Account>, e: Account)
    ensures TotalReceived(es + [e]) == TotalReceived(es) + e.highest
    ensures TotalCredit(es + [e]) == TotalCredit(es) + Credit(e)
  {
    hide Credit, Sum;
    assert Highs(es + [e]) == Highs(es) + [e.highest];
    assert Credits(es + [e]) == Credits(es) + [Credit(e)];
    SumAppend(Highs(es), e.highest);
    SumAppend(Credits(es), Credit(e));
  }

  // ------------------------------------------------------------------
  // One stream
  // ------------------------------------------------------------------

  /** An offset beyond a known final size, or a final size that differs from it or lies below what was received. */
  predicate Contradictory(e: Account, offset: nat, final: bool) {
    || (e.final && (offset > e.highest || (final && offset != e.highest)))
    || (final && offset < e.highest)
  }

  /** More than was advertised, for the stream or for the connection. */
  predicate TooMuch(l: Balance, i: nat, offset: nat)
    requires i < |l.accounts|
  {
    var e := l.accounts[i];
    offset > e.highest && (offset > e.window || TotalReceived(l.accounts) + (offset - e.highest) > l.window)
  }

  /** A frame or a reset that reaches an offset violates the protocol. */
  predicate Offends(l: Balance, i: nat, offset: nat, final: bool)
    requires i < |l.accounts|
  {
    Contradictory(l.accounts[i], offset, final) || TooMuch(l, i, offset)
  }

  ghost predicate Fragments(e: Account, f: StreamFrame) {
    !e.cancelled && TooManyHoles(e.arrived + BytesOf(f))
  }

  ghost function AfterFrame(e: Account, f: StreamFrame): Account {
    e.(highest := Max(e.highest, f.offset + |f.data|), final := e.final || f.fin,
       arrived := if e.cancelled then e.arrived else e.arrived + BytesOf(f))
  }

  function AfterReset(e: Account, finalSize: nat): Account {
    e.(highest := finalSize, final := true, byReset := e.byReset || !e.final, reset := true)
  }

  function AfterRead(e: Account, count: nat, r: ReadResult): Account {
    e.(read := e.read + count, eof := r == Eof)
  }

  function AfterCancel(e: Account): Account {
    e.(cancelled := e.cancelled || (!e.eof && !e.reset))
  }

  function WithLimit(window: nat, limit: nat): nat {
    if limit == 0 then window else limit
  }

  /** Reads return bytes that have arrived, as many as there is space for unless the next one is missing; EOF exactly
      once all are read; they fail exactly after a reset or a cancellation; and they wait only if the next byte is
      missing. */
  ghost predicate ReadRight(e: Account, space: nat, count: nat, r: ReadResult) {
    && count <= space
    && (forall b: nat :: e.read <= b < e.read + count ==> b in e.arrived)
    && (r == Failed <==> !e.eof && (e.cancelled || e.reset))
    && (r == Failed || r == MustWait || e.eof ==> count == 0)
    && (e.eof ==> r == Eof)
    && (r == Eof ==> e.final && e.read + count == e.highest)
    && (r == MustWait ==> e.read !in e.arrived && !(e.final && e.read == e.highest))
    && (r == Ok ==> count == space || (count > 0 && e.read + count !in e.arrived))
  }

  /** A limit is above the one before, and leaves room for the initial window; there is none only as long as more
      than three quarters of the initial window are left. */
  predicate LimitRight(window: nat, read: nat, size: nat, limit: nat) {
    if limit == 0 then size > 0 ==> window - read > 3 * size / 4
    else window <= limit && read + size <= limit && (size > 0 ==> window < limit)
  }

  // ------------------------------------------------------------------
  // All streams
  // ------------------------------------------------------------------

  predicate IsFrame(l: Balance, e: Event) {
    e.Frame? && e.stream < |l.accounts| && e.offset + |e.data| < MAX_BYTE_COUNT
  }

  predicate IsReset(l: Balance, e: Event) {
    e.Reset? && e.stream < |l.accounts| && e.finalSize < MAX_BYTE_COUNT
  }

  function FrameOf(e: Event): StreamFrame
    requires e.Frame?
  {
    StreamFrame(e.offset, e.data, e.fin)
  }

  function Put(l: Balance, i: nat, e: Account): Balance
    requires i < |l.accounts|
  {
    l.(accounts := l.accounts[i := e])
  }

  ghost function Record(l: Balance, e: Event, o: Outcome): Balance {
    if e.UpdateConnection? then if o.Limit? then l.(window := WithLimit(l.window, o.limit)) else l
    else if e.stream >= |l.accounts| || o == Refused then l
    else
      var i, x := e.stream, l.accounts[e.stream];
      match e
      case Frame(_, _, _, _, _) => if IsFrame(l, e) then Put(l, i, AfterFrame(x, FrameOf(e))) else l
      case Reset(_, finalSize, _) => if IsReset(l, e) then Put(l, i, AfterReset(x, finalSize)) else l
      case Read(_, _, _) => if o.Data? then Put(l, i, AfterRead(x, o.count, o.result)) else l
      case Cancel(_, _) => Put(l, i, AfterCancel(x))
      case UpdateStream(_, _, _, _) => if o.Limit? then Put(l, i, x.(window := WithLimit(x.window, o.limit))) else l
  }

  ghost predicate Right(c: Config, l: Balance, e: Event, o: Outcome) {
    match e
    case Frame(i, offset, data, fin, _) =>
      if IsFrame(l, e) && (Offends(l, i, offset + |data|, fin) || Fragments(l.accounts[i], FrameOf(e)))
      then o == Refused
      else o == Done
    case Reset(i, finalSize, _) =>
      if IsReset(l, e) && Offends(l, i, finalSize, true) then o == Refused else o == Done
    case Read(i, space, _) =>
      if i < |l.accounts| then o.Data? && ReadRight(l.accounts[i], space, o.count, o.result) else o == Done
    case Cancel(_, _) => o == Done
    case UpdateStream(i, _, _, _) =>
      if i < |l.accounts| then
        && o.Limit?
        && if l.accounts[i].final then o.limit == 0
           else LimitRight(l.accounts[i].window, l.accounts[i].read, c.window, o.limit)
      else o == Done
    case UpdateConnection(_, _, _) =>
      o.Limit? && LimitRight(l.window, TotalCredit(l.accounts), c.connWindow, o.limit)
  }

  // ------------------------------------------------------------------
  // Runs
  // ------------------------------------------------------------------

  function NewAccount(c: Config): Account {
    Account(0, false, false, false, false, false, 0, {}, c.window)
  }

  function NewBalance(c: Config, n: nat): Balance {
    Balance(seq(n, i => NewAccount(c)), c.connWindow)
  }

  ghost function After(l: Balance, events: seq<Event>, out: seq<Outcome>, k: nat): Balance
    requires k <= |out| <= |events|
  {
    if k == 0 then l else Record(After(l, events, out, k - 1), events[k - 1], out[k - 1])
  }

  ghost predicate AllRight(c: Config, l: Balance, events: seq<Event>, out: seq<Outcome>) {
    |out| <= |events| && forall k :: 0 <= k < |out| ==> Right(c, After(l, events, out, k), events[k], out[k])
  }

  lemma {:induction false} AfterPrefix(l: Balance, events: seq<Event>, out: seq<Outcome>, o: Outcome, k: nat)
    requires k <= |out| < |events|
    ensures After(l, events, out + [o], k) == After(l, events, out, k)
  {
    hide Record;
    if k > 0 {
      AfterPrefix(l, events, out, o, k - 1);
    }
  }

  lemma OneMoreRight(c: Config, l: Balance, events: seq<Event>, out: seq<Outcome>, o: Outcome)
    requires AllRight(c, l, events, out) && |out| < |events| && Right(c, After(l, events, out, |out|), events[|out|], o)
    ensures AllRight(c, l, events, out + [o])
    ensures After(l, events, out + [o], |out| + 1) == Record(After(l, events, out, |out|), events[|out|], o)
  {
    hide Right, Record;
    forall k | 0 <= k <= |out| ensures After(l, events, out + [o], k) == After(l, events, out, k) {
      AfterPrefix(l, events, out, o, k);
    }
  }

  lemma RightAt(c: Config, l: Balance, events: seq<Event>, out: seq<Outcome>, k: nat)
    requires AllRight(c, l, events, out) && k < |out|
    ensures |out| <= |events| && Right(c, After(l, events, out, k), events[k], out[k])
  {
    hide Right, Record;
  }

  /** No limit that was advertised is ever taken back. */
  predicate LimitsGrow(l: Balance, l': Balance) {
    && |l.accounts| == |l'.accounts| && l.window <= l'.window
    && forall i :: 0 <= i < |l.accounts| ==> l.accounts[i].window <= l'.accounts[i].window
  }

  lemma LimitsGrowStep(c: Config, l: Balance, e: Event, o: Outcome)
    requires Right(c, l, e, o)
    ensures LimitsGrow(l, Record(l, e, o))
  {
    hide ReadRight, Offends, Fragments, TotalCredit;
  }

  lemma {:induction false} LimitsOnlyGrow(c: Config, l: Balance, events: seq<Event>, out: seq<Outcome>, j: nat, k: nat)
    requires AllRight(c, l, events, out) && j <= k <= |out|
    ensures LimitsGrow(After(l, events, out, j), After(l, events, out, k))
    decreases k
  {
    hide Right, Record, AllRight;
    if j < k {
      RightAt(c, l, events, out, k - 1);
      LimitsOnlyGrow(c, l, events, out, j, k - 1);
      LimitsGrowStep(c, After(l, events, out, k - 1), events[k - 1], out[k - 1]);
    }
  }

  /** What was received is within the limits that were advertised, what was read has arrived, and what was given back
      was received. */
  ghost predicate Within(l: Balance) {
    && TotalReceived(l.accounts) <= l.window && TotalCredit(l.accounts) <= TotalReceived(l.accounts)
    && forall i :: 0 <= i < |l.accounts| ==> AccountWithin(l.accounts[i])
  }

  ghost predicate AccountWithin(e: Account) {
    e.read <= e.highest <= e.window && forall b: nat :: b in e.arrived ==> b < e.highest
  }

  lemma CreditsBelow(es: seq<Account>)
    requires forall i :: 0 <= i < |es| ==> AccountWithin(es[i])
    ensures TotalCredit(es) <= TotalReceived(es)
  {
    SumMono(Credits(es), Highs(es));
  }

  lemma WithinStep(c: Config, l: Balance, e: Event, o: Outcome)
    requires Right(c, l, e, o) && Within(l) && o != Refused
    ensures Within(Record(l, e, o))
  {
    hide TotalCredit, TotalReceived;
    var l' := Record(l, e, o);
    if !e.UpdateConnection? && e.stream < |l.accounts| {
      var i := e.stream;
      TotalsUpdate(l.accounts, i, l'.accounts[i]);
      if e.Read? && o.count > 0 {
        assert l.accounts[i].read + o.count - 1 in l.accounts[i].arrived;
      }
    }
    CreditsBelow(l'.accounts);
  }

  /** In every run the peer is held to the limits that were advertised. */
  lemma {:induction false} AlwaysWithin(c: Config, n: nat, events: seq<Event>, out: seq<Outcome>, k: nat)
    requires AllRight(c, NewBalance(c, n), events, out) && k <= |out| && Refused !in out[..k]
    ensures Within(After(NewBalance(c, n), events, out, k))
  {
    var l := NewBalance(c, n);
    hide Right, Record, Within, NewBalance;
    if k == 0 {
      NothingReceived(c, n);
    } else {
      assert out[k - 1] in out[..k];
      AlwaysWithin(c, n, events, out, k - 1);
      WithinStep(c, After(l, events, out, k - 1), events[k - 1], out[k - 1]);
    }
  }

  lemma {:induction false} NothingReceived(c: Config, n: nat)
    ensures Within(NewBalance(c, n))
    ensures TotalReceived(NewBalance(c, n).accounts) == TotalCredit(NewBalance(c, n).accounts) == 0
  {
    if n > 0 {
      NothingReceived(c, n - 1);
      assert NewBalance(c, n).accounts == NewBalance(c, n - 1).accounts + [NewAccount(c)];
      TotalsAppend(NewBalance(c, n - 1).accounts, NewAccount(c));
    }
  }

  // ------------------------------------------------------------------
  // How far frames reach
  // ------------------------------------------------------------------

  /** How far an event reaches on a stream. */
  function Reach(e: Event, i: nat): nat {
    match e
    case Frame(s, offset, data, _, _) => if s == i && offset + |data| < MAX_BYTE_COUNT then offset + |data| else 0
    case Reset(s, finalSize, _) => if s == i && finalSize < MAX_BYTE_COUNT then finalSize else 0
    case _ => 0
  }

  function Highest(events: seq<Event>, i: nat): nat {
    if events == [] then 0 else Max(Highest(events[..|events| - 1], i), Reach(events[|events| - 1], i))
  }

  lemma ReachStep(c: Config, l: Balance, e: Event, o: Outcome, i: nat)
    requires Right(c, l, e, o) && o != Refused && i < |l.accounts|
    ensures |Record(l, e, o).accounts| == |l.accounts|
    ensures Record(l, e, o).accounts[i].highest == Max(l.accounts[i].highest, Reach(e, i))
  {
    hide ReadRight, Fragments, TotalCredit, TotalReceived;
  }

  /** A stream is charged with the highest offset that its frames have reached. */
  lemma {:induction false} ChargedToTheHighest(c: Config, n: nat, events: seq<Event>, out: seq<Outcome>, k: nat, i: nat)
    requires AllRight(c, NewBalance(c, n), events, out) && k <= |out| && Refused !in out[..k] && i < n
    ensures var l := After(NewBalance(c, n), events, out, k);
            |l.accounts| == n && l.accounts[i].highest == Highest(events[..k], i)
  {
    if k > 0 {
      hide Right, Record, NewBalance;
      assert out[k - 1] in out[..k];
      ChargedToTheHighest(c, n, events, out, k - 1, i);
      ReachStep(c, After(NewBalance(c, n), events, out, k - 1), events[k - 1], out[k - 1], i);
      assert events[..k][..k - 1] == events[..k - 1];
    }
  }
}
