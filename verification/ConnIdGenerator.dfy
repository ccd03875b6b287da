/** The connection IDs we issue to a peer: conn_id_generator.go.  The connection IDs themselves are inputs; they
    never repeat. */
module ConnIdGenerators {
  import opened Common
  import opened ConnIdManagers

  const MAX_ISSUED_CONNECTION_IDS: nat := 6

  datatype RetireResult = Done | NeverIssued | InUse

  /** What is announced for a number. */
  function Announced(seqNum: nat, id: ConnID): NewConnID {
    NewConnID(seqNum, id, Token(id))
  }

  predicate Injective(issued: seq<ConnID>) {
    forall i, j :: 0 <= i < j < |issued| ==> issued[i] != issued[j]
  }

  /** The connection IDs that are not retired have the numbers they were issued with. */
  predicate ActiveOk(active: map<nat, ConnID>, issued: seq<ConnID>) {
    forall n :: n in active ==> n < |issued| && active[n] == issued[n]
  }

  /** Every connection ID but the first one was announced in a frame. */
  predicate FramesOk(frames: seq<NewConnID>, issued: seq<ConnID>) {
    |issued| == |frames| + 1 && forall i :: 0 <= i < |frames| ==> frames[i] == Announced(i + 1, issued[i + 1])
  }

  lemma IssueKeeps(active: map<nat, ConnID>, issued: seq<ConnID>, frames: seq<NewConnID>, id: ConnID)
    requires Injective(issued) && ActiveOk(active, issued) && FramesOk(frames, issued) && id !in issued
    ensures Injective(issued + [id]) && ActiveOk(active[|issued| := id], issued + [id])
    ensures FramesOk(frames + [Announced(|issued|, id)], issued + [id])
    ensures active[|issued| := id].Values == active.Values + {id} && |active[|issued| := id]| == |active| + 1
  {
    var active' := active[|issued| := id];
    assert active'[|issued|] == id;
    forall x | x in active.Values ensures x in active'.Values {
      var n :| n in active && active[n] == x;
      assert active'[n] == x;
    }
  }

  lemma RetireKeeps(active: map<nat, ConnID>, issued: seq<ConnID>, n: nat)
    requires Injective(issued) && ActiveOk(active, issued) && n in active
    ensures ActiveOk(active - {n}, issued) && (active - {n}).Values == active.Values - {active[n]}
  {
  }

  class ConnIDGenerator {
    var highestSeq: nat
    var activeSrcConnIDs: map<nat, ConnID>

    /** The NEW_CONNECTION_ID frames that were queued, and the connection IDs packets are accepted for. */
    var frames: seq<NewConnID>
    var routed: set<ConnID>

    /** The connection IDs that were ever issued, by number. */
    var issued: seq<ConnID>

    constructor (initialConnectionID: ConnID)
      ensures Valid() && issued == [initialConnectionID] && highestSeq == 0
      ensures activeSrcConnIDs == map[0 := initialConnectionID]
    {
      var active: map<nat, ConnID> := map[0 := initialConnectionID];
      assert active[0] == initialConnectionID && active.Values == {initialConnectionID};
      highestSeq, activeSrcConnIDs, frames, routed := 0, active, [], {initialConnectionID};
      issued := [initialConnectionID];
    }

    ghost predicate Valid()
      reads this
    {
      && |issued| == highestSeq + 1 && Injective(issued)
      && ActiveOk(activeSrcConnIDs, issued) && routed == activeSrcConnIDs.Values && FramesOk(frames, issued)
    }

    method IssueNewConnID(id: ConnID)
      requires Valid() && id !in issued
      modifies this
      ensures Valid() && issued == old(issued) + [id] && highestSeq == old(highestSeq) + 1
      ensures activeSrcConnIDs == old(activeSrcConnIDs)[highestSeq := id]
      ensures |activeSrcConnIDs| == |old(activeSrcConnIDs)| + 1
    {
      hide Injective, ActiveOk, FramesOk;
      IssueKeeps(activeSrcConnIDs, issued, frames, id);
      activeSrcConnIDs := activeSrcConnIDs[highestSeq + 1 := id];
      routed := routed + {id};
      frames := frames + [Announced(highestSeq + 1, id)];
      highestSeq := highestSeq + 1;
      issued := issued + [id];
    }

    /** Issues connection IDs until the peer has as many as it stores. */
    method SetMaxActiveConnIDs(limit: nat, ids: seq<ConnID>)
      requires Valid() && Injective(ids) && (forall id :: id in ids ==> id !in issued)
      requires |ids| >= MAX_ISSUED_CONNECTION_IDS
      modifies this
      ensures Valid()
      ensures issued == old(issued) + ids[..Max(0, Min(limit, MAX_ISSUED_CONNECTION_IDS) - |old(activeSrcConnIDs)|)]
      ensures forall n :: n in activeSrcConnIDs <==> n in old(activeSrcConnIDs) || old(highestSeq) < n <= highestSeq
      ensures |activeSrcConnIDs| == Max(|old(activeSrcConnIDs)|, Min(limit, MAX_ISSUED_CONNECTION_IDS))
    {
      hide ActiveOk, FramesOk;
      var i, k := |activeSrcConnIDs|, 0;
      while i < Min(limit, MAX_ISSUED_CONNECTION_IDS)
        invariant Valid() && 0 <= k <= |ids| && issued == old(issued) + ids[..k] && highestSeq == old(highestSeq) + k
        invariant i == |activeSrcConnIDs| == |old(activeSrcConnIDs)| + k
        invariant (k > 0 ==> i <= Min(limit, MAX_ISSUED_CONNECTION_IDS))
        invariant forall n :: n in activeSrcConnIDs <==> n in old(activeSrcConnIDs) || old(highestSeq) < n <= highestSeq
      {
        assert ids[k] in ids && ids[k] !in ids[..k];
        IssueNewConnID(ids[k]);
        i, k := i + 1, k + 1;
      }
    }

    /** A RETIRE_CONNECTION_ID frame; every connection ID but the first one is replaced. */
    method Retire(seqNum: nat, sentWithDestConnID: ConnID, id: ConnID) returns (r: RetireResult)
      requires Valid() && id !in issued
      modifies this
      ensures Valid()
      ensures r.NeverIssued? <==> seqNum > old(highestSeq)
      ensures r.InUse? <==> seqNum in old(activeSrcConnIDs) && old(activeSrcConnIDs)[seqNum] == sentWithDestConnID
      ensures !r.Done? || seqNum !in old(activeSrcConnIDs) ==>
                activeSrcConnIDs == old(activeSrcConnIDs) && issued == old(issued)
      ensures r.Done? && seqNum in old(activeSrcConnIDs) ==>
                if seqNum == 0 then activeSrcConnIDs == old(activeSrcConnIDs) - {0} && issued == old(issued)
                else issued == old(issued) + [id] &&
                     activeSrcConnIDs == (old(activeSrcConnIDs) - {seqNum})[highestSeq := id]
    {
      if seqNum > highestSeq {
        return NeverIssued;
      }
      if seqNum !in activeSrcConnIDs {
        return Done;
      }
      var connID := activeSrcConnIDs[seqNum];
      if connID == sentWithDestConnID {
        return InUse;
      }
      RetireKeeps(activeSrcConnIDs, issued, seqNum);
      hide Injective, ActiveOk, FramesOk;
      routed := routed - {connID};
      activeSrcConnIDs := activeSrcConnIDs - {seqNum};
      if seqNum != 0 {
        IssueNewConnID(id);
      }
      return Done;
    }
  }
}
