/** The connection IDs a peer has issued to us: conn_id_manager.go. */
module ConnIdManagers {
  import opened Common

  const MAX_ACTIVE_CONNECTION_IDS: nat := 4
  const PACKETS_PER_CONNECTION_ID: nat := 10000

  type ConnID = nat

  /** A stateless reset token; an honest peer derives it from the connection ID. */
  datatype Token = Token(value: nat)

  datatype NewConnID = NewConnID(seqNum: nat, id: ConnID, token: Token)

  datatype NewConnectionIDFrame = NewConnectionIDFrame(conn: NewConnID, retirePriorTo: nat)

  datatype AddResult = Added | Conflict | LimitError

  predicate Ascending(q: seq<NewConnID>) {
    forall i, j :: 0 <= i < j < |q| ==> q[i].seqNum < q[j].seqNum
  }

  ghost function Numbers(q: seq<NewConnID>): set<nat> {
    set x | x in q :: x.seqNum
  }

  /** Every number that was learned is the active one, waits in the queue above it, or was retired below it. */
  ghost predicate Partition(learned: set<nat>, active: nat, q: seq<NewConnID>, retired: set<nat>) {
    && learned == {active} + Numbers(q) + retired
    && (forall x :: x in q ==> active < x.seqNum)
    && (forall n :: n in retired ==> n < active)
  }

  /** The connection ID that is in use. */
  datatype Active = Active(seqNum: nat, id: ConnID, token: Option<Token>)

  /** When the connection ID is changed next. */
  datatype Rotation = Rotation(packetsSinceLastChange: nat, packetsPerConnectionID: nat)

  /** The number of packets until the next change is random, around an average. */
  function NextRotation(random: nat): (r: Rotation)
    ensures r.packetsSinceLastChange == 0
    ensures PACKETS_PER_CONNECTION_ID <= 2 * r.packetsPerConnectionID < 3 * PACKETS_PER_CONNECTION_ID
  {
    Rotation(0, PACKETS_PER_CONNECTION_ID / 2 + random % PACKETS_PER_CONNECTION_ID)
  }

  class ConnIDManager {
    var queue: seq<NewConnID>
    var handshakeComplete: bool
    var active: Active
    var highestRetired: nat
    var rotation: Rotation

    /** The RETIRE_CONNECTION_ID frames that were queued, and the reset tokens that are registered. */
    var retireFrames: seq<nat>
    var tokens: multiset<Token>

    ghost var learned: set<nat>

    constructor (initialDestConnID: ConnID)
      ensures Valid() && learned == {0} && active == Active(0, initialDestConnID, None)
      ensures queue == [] && retireFrames == [] && !handshakeComplete
    {
      queue, handshakeComplete, active, highestRetired := [], false, Active(0, initialDestConnID, None), 0;
      rotation := Rotation(0, 0);
      retireFrames, tokens, learned := [], multiset{}, {0};
    }

    ghost function Retired(): set<nat>
      reads this`retireFrames
    {
      set n | n in retireFrames
    }

    /** Exactly the reset token of the active connection ID is registered. */
    ghost predicate TokensOk()
      reads this`tokens, this`active
    {
      tokens == if active.token.Some? then multiset{active.token.value} else multiset{}
    }

    ghost predicate Valid()
      reads this
    {
      && Ascending(queue) && highestRetired <= active.seqNum && TokensOk()
      && Partition(learned, active.seqNum, queue, Retired())
    }

    /** Inserts a connection ID in order, unless it is there already. */
    method AddConnectionID(c: NewConnID) returns (ok: bool)
      requires Ascending(queue)
      modifies this`queue
      ensures ok <==> forall x :: x in old(queue) && x.seqNum == c.seqNum ==> x == c
      ensures !ok ==> queue == old(queue)
      ensures ok ==> Ascending(queue) && forall x :: x in queue <==> x in old(queue) || x == c
      ensures ok ==> |queue| <= |old(queue)| + 1
    {
      if |queue| == 0 || queue[|queue| - 1].seqNum < c.seqNum {
        queue := queue + [c];
        return true;
      }
      var i := 0;
      while queue[i].seqNum < c.seqNum
        invariant i < |queue| && queue == old(queue)
        invariant forall j :: 0 <= j < i ==> queue[j].seqNum < c.seqNum
        decreases |queue| - i
      {
        i := i + 1;
      }
      if queue[i].seqNum == c.seqNum {
        return queue[i] == c;
      }
      InsertAt(queue, i, c);
      queue := queue[..i] + [c] + queue[i..];
      return true;
    }

    /** The front of the queue becomes active, and the active connection ID is retired. */
    method UpdateConnectionID(random: nat)
      requires Ascending(queue) && queue != [] && TokensOk() && highestRetired <= queue[0].seqNum
      requires Between(learned, active.seqNum, queue, Retired(), queue[0].seqNum)
      modifies this`queue, this`active, this`highestRetired, this`rotation, this`retireFrames, this`tokens
      ensures Valid() && queue == old(queue)[1..]
      ensures active == Active(old(queue)[0].seqNum, old(queue)[0].id, Some(old(queue)[0].token))
      ensures retireFrames == old(retireFrames) + [old(active).seqNum]
      ensures highestRetired == Max(old(highestRetired), old(active).seqNum)
      ensures rotation == NextRotation(random)
    {
      hide Partition, Ascending, Between, NextRotation;
      Advance(learned, active.seqNum, queue, Retired());
      var front := queue[0];
      if active.token.Some? {
        tokens := tokens - multiset{active.token.value};
      }
      retireFrames, highestRetired := retireFrames + [active.seqNum], Max(highestRetired, active.seqNum);
      assert Retired() == old(Retired()) + {active.seqNum};
      queue, active := queue[1..], Active(front.seqNum, front.id, Some(front.token));
      rotation := NextRotation(random);
      tokens := tokens + multiset{front.token};
    }

    /** Retires the connection IDs in the queue with numbers below a bound; n of them are gone. */
    method RetireQueued(bound: nat) returns (ghost n: nat)
      requires Ascending(queue)
      modifies this`queue, this`retireFrames
      ensures n <= |old(queue)| && SplitsAt(old(queue), n, bound)
      ensures queue == old(queue)[n..] && retireFrames == old(retireFrames) + NumbersOf(old(queue)[..n])
    {
      hide Ascending;
      n := 0;
      while queue != [] && queue[0].seqNum < bound
        invariant n <= |old(queue)| && queue == old(queue)[n..]
        invariant retireFrames == old(retireFrames) + NumbersOf(old(queue)[..n])
        invariant forall j :: 0 <= j < n ==> old(queue)[j].seqNum < bound
        decreases |queue|
      {
        assert old(queue)[..n + 1][..n] == old(queue)[..n];
        retireFrames := retireFrames + [queue[0].seqNum];
        queue := queue[1..];
        n := n + 1;
      }
      SplitHere(old(queue), n, bound);
    }

    /** Retires what the frame asks to retire, apart from the active connection ID, and inserts the new one. */
    method Insert(f: NewConnectionIDFrame) returns (ok: bool)
      requires Valid() && f.retirePriorTo <= f.conn.seqNum && f.conn.seqNum >= active.seqNum
      modifies this`queue, this`highestRetired, this`retireFrames, this`learned
      ensures ok <==> f.conn.seqNum == active.seqNum || !Conflicts(old(queue), f.conn)
      ensures ok ==> learned == old(learned) + {f.conn.seqNum} && Ascending(queue)
      ensures ok ==> highestRetired == Max(old(highestRetired), f.retirePriorTo)
      ensures ok && active.seqNum < f.retirePriorTo ==>
                f.conn in queue && Between(learned, active.seqNum, queue, Retired(), f.retirePriorTo)
      ensures ok && f.retirePriorTo <= active.seqNum ==> Partition(learned, active.seqNum, queue, Retired())
      ensures ok && f.retirePriorTo <= active.seqNum ==>
                forall x :: x in queue <==> x in old(queue) || (x == f.conn && active.seqNum < f.conn.seqNum)
      ensures ok && active.seqNum < f.retirePriorTo ==> forall x :: x in queue <==> Kept(x, old(queue), f)
      ensures ok ==> retireFrames == old(retireFrames) +
                       if active.seqNum < f.retirePriorTo then NumbersBelow(old(queue), f.retirePriorTo) else []
    {
      hide Partition, Ascending, Between, SplitsAt, Numbers, NumbersBelow;
      ghost var q, retired, bound := queue, Retired(), Max(active.seqNum + 1, f.retirePriorTo);
      ghost var n: nat := 0;
      NoneBelow(learned, active.seqNum, queue, retired, f.retirePriorTo);
      if f.retirePriorTo > highestRetired {
        n := RetireQueued(f.retirePriorTo);
        highestRetired := f.retirePriorTo;
      }
      assert retireFrames == old(retireFrames) + NumbersOf(q[..n]);
      assert Retired() == retired + RangeOf(NumbersOf(q[..n]));
      SplitKeeps(q, n, f.retirePriorTo);
      RetireFront(learned, active.seqNum, q, retired, n, f.retirePriorTo);
      Suffix(q, n);
      if f.conn.seqNum == active.seqNum {
        AlreadyLearned(learned, active.seqNum, queue, Retired(), bound);
        return true;
      }
      ghost var q1 := queue;
      ok := AddConnectionID(f.conn);
      SameConflicts(q, n, f.retirePriorTo, f.conn);
      if ok {
        Learn(learned, active.seqNum, q1, Retired(), bound, f.conn, queue);
        learned := learned + {f.conn.seqNum};
        Tighten(learned, active.seqNum, queue, Retired(), bound);
      }
    }

    /** A NEW_CONNECTION_ID frame, before the number of connection IDs is checked. */
    method AddFrame(f: NewConnectionIDFrame, random: nat) returns (ok: bool)
      requires Valid() && f.retirePriorTo <= f.conn.seqNum
      modifies this`queue, this`active, this`highestRetired, this`rotation, this`retireFrames, this`tokens, this`learned
      ensures ok <==> f.conn.seqNum <= old(active).seqNum || !Conflicts(old(queue), f.conn)
      ensures ok ==> Valid() && learned == old(learned) + {f.conn.seqNum} && f.retirePriorTo <= active.seqNum
      ensures ok && f.retirePriorTo <= old(active).seqNum ==>
                && active == old(active) && rotation == old(rotation)
                && SameQueue(old(queue), queue, f.conn, active.seqNum)
      ensures ok && old(active).seqNum < f.retirePriorTo ==>
                MovedOn(old(queue), f, active, queue) && rotation == NextRotation(random)
      ensures ok ==> retireFrames == old(retireFrames) + NewlyRetired(old(active).seqNum, old(queue), f)
    {
      hide Ascending, Conflicts, Between, NumbersBelow, MovedOn, NextRotation;
      if f.conn.seqNum < active.seqNum || f.conn.seqNum < highestRetired {
        retireFrames := retireFrames + [f.conn.seqNum];
        learned := learned + {f.conn.seqNum};
        return true;
      }
      hide Partition;
      ok := Insert(f);
      if ok && active.seqNum < f.retirePriorTo {
        TightenMore(learned, active.seqNum, queue, Retired(), f.retirePriorTo, f.conn);
        FrontIsLowest(old(queue), f, queue);
        UpdateConnectionID(random);
      }
    }

    /** A NEW_CONNECTION_ID frame: the connection ID is learned, unless it contradicts an earlier one or there are
        too many. */
    method Add(f: NewConnectionIDFrame, random: nat) returns (r: AddResult)
      requires Valid() && f.retirePriorTo <= f.conn.seqNum
      modifies this`queue, this`active, this`highestRetired, this`rotation, this`retireFrames, this`tokens, this`learned
      ensures r.Conflict? <==> f.conn.seqNum > old(active).seqNum && Conflicts(old(queue), f.conn)
      ensures r.LimitError? <==> !r.Conflict? && |queue| >= MAX_ACTIVE_CONNECTION_IDS
      ensures !r.Conflict? ==> Valid() && learned == old(learned) + {f.conn.seqNum} && f.retirePriorTo <= active.seqNum
      ensures !r.Conflict? && f.retirePriorTo <= old(active).seqNum ==>
                && active == old(active) && rotation == old(rotation)
                && SameQueue(old(queue), queue, f.conn, active.seqNum)
      ensures !r.Conflict? && old(active).seqNum < f.retirePriorTo ==>
                MovedOn(old(queue), f, active, queue) && rotation == NextRotation(random)
      ensures !r.Conflict? ==> retireFrames == old(retireFrames) + NewlyRetired(old(active).seqNum, old(queue), f)
    {
      hide Conflicts, SameQueue, Partition, Ascending, MovedOn, NewlyRetired, NextRotation;
      var ok := AddFrame(f, random);
      if !ok {
        return Conflict;
      }
      return if |queue| >= MAX_ACTIVE_CONNECTION_IDS then LimitError else Added;
    }

    predicate ShouldUpdateConnID()
      reads this`handshakeComplete, this`queue, this`active, this`rotation
    {
      && handshakeComplete
      && ((|queue| > 0 && active.seqNum == 0) ||
          (2 * |queue| >= MAX_ACTIVE_CONNECTION_IDS &&
           rotation.packetsSinceLastChange >= rotation.packetsPerConnectionID))
    }

    /** The connection ID for the next packet.  After the handshake the first one is used only as long as there is no
        other; the others are changed after a random number of packets, as long as at least two more are known. */
    method Get(random: nat) returns (id: ConnID)
      requires Valid()
      modifies this`queue, this`active, this`highestRetired, this`rotation, this`retireFrames, this`tokens
      ensures Valid() && id == active.id
      ensures if old(ShouldUpdateConnID()) then
                && queue == old(queue)[1..] && retireFrames == old(retireFrames) + [old(active).seqNum]
                && active == Active(old(queue)[0].seqNum, old(queue)[0].id, Some(old(queue)[0].token))
              else queue == old(queue) && active == old(active) && retireFrames == old(retireFrames)
      ensures handshakeComplete && queue != [] ==> active.seqNum != 0
      ensures handshakeComplete && |queue| >= 2 ==> rotation.packetsSinceLastChange < rotation.packetsPerConnectionID
      ensures !handshakeComplete ==> active == old(active)
      ensures old(active).seqNum != 0 &&
              (|old(queue)| < 2 || old(rotation).packetsSinceLastChange < old(rotation).packetsPerConnectionID) ==>
                active == old(active)
    {
      if ShouldUpdateConnID() {
        hide Partition, Between, Ascending;
        PartitionIsBetween(learned, active.seqNum, queue, Retired());
        UpdateConnectionID(random);
      }
      return active.id;
    }

    method SentPacket()
      requires Valid()
      modifies this`rotation
      ensures Valid() && rotation == old(rotation).(packetsSinceLastChange := old(rotation).packetsSinceLastChange + 1)
    {
      rotation := rotation.(packetsSinceLastChange := rotation.packetsSinceLastChange + 1);
    }

    method SetHandshakeComplete()
      requires Valid()
      modifies this`handshakeComplete
      ensures Valid() && handshakeComplete
    {
      handshakeComplete := true;
    }
  }

  /** Another connection ID or another token was received for the same number. */
  predicate Conflicts(q: seq<NewConnID>, c: NewConnID) {
    exists x :: x in q && x.seqNum == c.seqNum && x != c
  }

  /** The queue gains the connection ID if its number is above the active one. */
  ghost predicate SameQueue(q: seq<NewConnID>, q': seq<NewConnID>, c: NewConnID, active: nat) {
    forall x :: x in q' <==> x in q || (x == c && active < c.seqNum)
  }

  /** The connection IDs that a frame leaves: those known before and the new one, from Retire Prior To on. */
  predicate Kept(x: NewConnID, q: seq<NewConnID>, f: NewConnectionIDFrame) {
    (x in q || x == f.conn) && f.retirePriorTo <= x.seqNum
  }

  /** The lowest connection ID that is left is used now, and exactly the higher ones wait. */
  ghost predicate MovedOn(q: seq<NewConnID>, f: NewConnectionIDFrame, active: Active, q': seq<NewConnID>) {
    && active.token.Some? && Kept(NewConnID(active.seqNum, active.id, active.token.value), q, f)
    && (forall x :: Kept(x, q, f) ==> active.seqNum <= x.seqNum)
    && (forall x :: x in q' <==> Kept(x, q, f) && active.seqNum < x.seqNum)
  }

  /** The numbers in the queue below a bound, in order. */
  function NumbersBelow(q: seq<NewConnID>, bound: nat): seq<nat> {
    if q == [] then []
    else (if q[0].seqNum < bound then [q[0].seqNum] else []) + NumbersBelow(q[1..], bound)
  }

  /** What a frame makes us retire: itself, if it comes too late; or what is below Retire Prior To, first what waits and
      then what is in use. */
  function NewlyRetired(active: nat, q: seq<NewConnID>, f: NewConnectionIDFrame): seq<nat> {
    if f.conn.seqNum < active then [f.conn.seqNum]
    else if active < f.retirePriorTo then NumbersBelow(q, f.retirePriorTo) + [active]
    else []
  }

  lemma FrontIsLowest(q: seq<NewConnID>, f: NewConnectionIDFrame, kept: seq<NewConnID>)
    requires Ascending(kept) && kept != [] && forall x :: x in kept <==> Kept(x, q, f)
    ensures MovedOn(q, f, Active(kept[0].seqNum, kept[0].id, Some(kept[0].token)), kept[1..])
  {
    hide Kept;
    var x := kept[0];
    assert x == NewConnID(x.seqNum, x.id, x.token);
    forall y ensures y in kept[1..] <==> y in kept && x.seqNum < y.seqNum {
      if y in kept && x.seqNum < y.seqNum {
        var i :| 0 <= i < |kept| && kept[i] == y;
        assert kept[1..][i - 1] == y;
      }
    }
  }

  lemma {:induction false} NoNumbersBelow(q: seq<NewConnID>, bound: nat)
    requires forall i :: 0 <= i < |q| ==> q[i].seqNum >= bound
    ensures NumbersBelow(q, bound) == []
  {
    if q != [] {
      NoNumbersBelow(q[1..], bound);
    }
  }

  lemma {:induction false} SplitKeeps(q: seq<NewConnID>, n: nat, bound: nat)
    requires n <= |q| && SplitsAt(q, n, bound)
    ensures NumbersOf(q[..n]) == NumbersBelow(q, bound)
    ensures forall x :: x in q[n..] <==> x in q && x.seqNum >= bound
  {
    if n == 0 {
      NoNumbersBelow(q, bound);
    } else {
      SplitKeeps(q[1..], n - 1, bound);
      assert NumbersOf(q[..n]) == [q[0].seqNum] + NumbersOf(q[1..][..n - 1]);
      assert q[1..][n - 1..] == q[n..];
    }
  }

  lemma AlreadyLearned(learned: set<nat>, active: nat, q: seq<NewConnID>, retired: set<nat>, bound: nat)
    requires Between(learned, active, q, retired, bound)
    ensures learned + {active} == learned
    ensures bound == active + 1 ==> Partition(learned, active, q, retired)
  {
  }

  lemma PartitionIsBetween(learned: set<nat>, active: nat, q: seq<NewConnID>, retired: set<nat>)
    requires Partition(learned, active, q, retired) && Ascending(q) && q != []
    ensures Between(learned, active, q, retired, q[0].seqNum) && active < q[0].seqNum
  {
  }

  lemma TightenMore(learned: set<nat>, active: nat, q: seq<NewConnID>, retired: set<nat>, bound: nat, c: NewConnID)
    requires Between(learned, active, q, retired, bound) && Ascending(q) && c in q
    ensures q != [] && Between(learned, active, q, retired, q[0].seqNum) && bound <= q[0].seqNum
  {
  }

  function RangeOf(s: seq<nat>): set<nat> {
    set x | x in s
  }

  lemma NoneBelow(learned: set<nat>, active: nat, q: seq<NewConnID>, retired: set<nat>, bound: nat)
    requires Partition(learned, active, q, retired)
    ensures bound <= active ==> SplitsAt(q, 0, bound) && forall n: nat :: n <= |q| && SplitsAt(q, n, bound) ==> n == 0
  {
    if bound <= active && q != [] {
      assert q[0] in q && q[0].seqNum >= bound;
    }
  }

  lemma Suffix(q: seq<NewConnID>, n: nat)
    requires Ascending(q) && n <= |q|
    ensures Ascending(q[n..])
  {
  }

  lemma RetireFront(learned: set<nat>, active: nat, q: seq<NewConnID>, retired: set<nat>, n: nat, bound: nat)
    requires Partition(learned, active, q, retired) && n <= |q| && SplitsAt(q, n, bound)
    ensures Between(learned, active, q[n..], retired + RangeOf(NumbersOf(q[..n])), Max(active + 1, bound))
  {
    var gone := NumbersOf(q[..n]);
    assert Numbers(q) == Numbers(q[..n]) + Numbers(q[n..]) by {
      assert q == q[..n] + q[n..];
    }
    assert Numbers(q[..n]) == RangeOf(gone) by {
      forall x | x in q[..n] ensures x.seqNum in gone {
        var i :| 0 <= i < n && q[i] == x;
        assert gone[i] == x.seqNum;
      }
    }
    forall m | m in RangeOf(gone) ensures active < m < bound {
      var i :| 0 <= i < n && gone[i] == m;
      assert q[i] in q;
    }
  }

  lemma SameConflicts(q: seq<NewConnID>, n: nat, bound: nat, c: NewConnID)
    requires n <= |q| && SplitsAt(q, n, bound) && bound <= c.seqNum
    ensures forall x :: x in q && x.seqNum == c.seqNum ==> x in q[n..]
    ensures forall x :: x in q[n..] ==> x in q
  {
  }

  lemma Learn(learned: set<nat>, active: nat, q: seq<NewConnID>, retired: set<nat>, bound: nat, c: NewConnID,
              q': seq<NewConnID>)
    requires Between(learned, active, q, retired, bound) && active < c.seqNum && bound <= c.seqNum
    requires forall x :: x in q' <==> x in q || x == c
    ensures Between(learned + {c.seqNum}, active, q', retired, bound)
  {
  }

  lemma Tighten(learned: set<nat>, active: nat, q: seq<NewConnID>, retired: set<nat>, bound: nat)
    requires Between(learned, active, q, retired, bound) && Ascending(q)
    ensures bound == active + 1 ==> Partition(learned, active, q, retired)
    ensures q != [] ==> Between(learned, active, q, retired, q[0].seqNum)
  {
  }

  function NumbersOf(q: seq<NewConnID>): seq<nat> {
    seq(|q|, i requires 0 <= i < |q| => q[i].seqNum)
  }

  /** The first n connection IDs have numbers below the bound, the others do not. */
  ghost predicate SplitsAt(q: seq<NewConnID>, n: nat, bound: nat)
    requires n <= |q|
  {
    (forall i :: 0 <= i < n ==> q[i].seqNum < bound) && forall i :: n <= i < |q| ==> q[i].seqNum >= bound
  }

  lemma SplitHere(q: seq<NewConnID>, n: nat, bound: nat)
    requires Ascending(q) && n <= |q| && (n < |q| ==> q[n].seqNum >= bound)
    requires forall i :: 0 <= i < n ==> q[i].seqNum < bound
    ensures SplitsAt(q, n, bound)
  {
  }

  lemma InsertAt(q: seq<NewConnID>, i: nat, c: NewConnID)
    requires Ascending(q) && i < |q| && c.seqNum < q[i].seqNum && forall j :: 0 <= j < i ==> q[j].seqNum < c.seqNum
    ensures Ascending(q[..i] + [c] + q[i..])
    ensures forall x :: x in q[..i] + [c] + q[i..] <==> x in q || x == c
  {
  }

  /** While the active connection ID is about to be retired: what is retired is below a bound above the active
      number. */
  ghost predicate Between(learned: set<nat>, active: nat, q: seq<NewConnID>, retired: set<nat>, bound: nat) {
    && learned == {active} + Numbers(q) + retired
    && (forall x :: x in q ==> active < x.seqNum && bound <= x.seqNum)
    && (forall n :: n in retired ==> n < bound && n != active)
  }

  lemma Advance(learned: set<nat>, active: nat, q: seq<NewConnID>, retired: set<nat>)
    requires q != [] && Ascending(q) && Between(learned, active, q, retired, q[0].seqNum)
    ensures Partition(learned, q[0].seqNum, q[1..], retired + {active}) && Ascending(q[1..])
  {
  }
}
