/** The sender's and the receiver's side of the block protocol: internal/fec/manager.go, with the XOR scheme. */
module FecManagers {
  import opened Common
  import opened Xor
  import opened FecBlocks

  datatype Status = Processed | Active(block: Block)

  /** What a manager knows about a block; a block that was never mentioned is empty. */
  datatype View = Done | Holding(source: map<nat, Payload>, repair: map<nat, Payload>, biggest: int)

  const EMPTY := Holding(map[], map[], 0)

  function WithSource(v: View, f: SourceSymbolFrame): View
    requires v.Holding?
  {
    if f.ssid in v.source then v
    else Holding(v.source[f.ssid := f.payload], v.repair, if v.biggest < |f.payload| then |f.payload| else v.biggest)
  }

  function WithRepair(v: View, f: RepairFrame): View
    requires v.Holding?
  {
    if f.parityID in v.repair then v
    else Holding(v.source, v.repair[f.parityID := f.payload], |f.payload| - REPAIR_PAYLOAD_METADATA_LEN)
  }

  datatype AddResult = Accepted(frames: seq<RepairFrame>) | Failed

  class Manager {
    const numTotSourceSymbols: nat
    const numTotRepairSymbols: nat
    var nextSID: nat
    var statuses: map<nat, Status>

    constructor (numSource: nat, numRepair: nat)
      requires numSource > 0
      ensures Valid() && numTotSourceSymbols == numSource && numTotRepairSymbols == numRepair
      ensures nextSID == 0 && statuses == map[]
    {
      numTotSourceSymbols, numTotRepairSymbols := numSource, numRepair;
      nextSID, statuses := 0, map[];
    }

    ghost function Blocks(): set<object>
      reads this`statuses
    {
      set id | id in statuses && statuses[id].Active? :: statuses[id].block
    }

    ghost predicate BlockOk(id: nat, b: Block)
      reads b
    {
      && b.id == id && b.smallestSSID == id * numTotSourceSymbols
      && b.totNumSourceSymbols == numTotSourceSymbols && b.totNumRepairSymbols == numTotRepairSymbols
      && b.source.Keys <= b.SSIDs()
      && (b.repair == map[] ==>
            b.biggestSourceSymbolLenSoFar >= 0 && IsLongest(b.source, b.biggestSourceSymbolLenSoFar))
    }

    ghost predicate Valid()
      reads this`statuses, Blocks()
    {
      && numTotSourceSymbols > 0
      && (forall id :: id in statuses && statuses[id].Active? ==> BlockOk(id, statuses[id].block))
      && (forall i, j :: i in statuses && j in statuses && i != j && statuses[i].Active? && statuses[j].Active? ==>
            statuses[i].block != statuses[j].block)
    }

    ghost function ViewOf(id: nat): View
      reads this`statuses, Blocks()
    {
      if id !in statuses then EMPTY
      else match statuses[id]
           case Processed => Done
           case Active(b) => Holding(b.source, b.repair, b.biggestSourceSymbolLenSoFar)
    }

    method NextSSID() returns (sid: nat)
      modifies this`nextSID
      ensures sid == old(nextSID) && nextSID == sid + 1
    {
      sid := nextSID;
      nextSID := nextSID + 1;
    }

    function SidToBlockID(sid: nat): (id: nat)
      requires numTotSourceSymbols > 0
      ensures sid in Range(id * numTotSourceSymbols, numTotSourceSymbols)
    {
      sid / numTotSourceSymbols
    }

    /** The open block with an ID, created if the ID is new; none if the block is already processed. */
    method GetBlock(id: nat) returns (b: Option<Block>)
      requires Valid()
      modifies this`statuses
      ensures Valid() && forall j :: ViewOf(j) == old(ViewOf(j))
      ensures b.None? <==> ViewOf(id) == Done
      ensures b.Some? ==> id in statuses && statuses[id] == Active(b.value)
      ensures Blocks() <= old(Blocks()) + (if b.Some? then {b.value} else {})
      ensures b.Some? ==> b.value in old(Blocks()) || fresh(b.value)
    {
      if id !in statuses {
        var block := new Block(id, numTotSourceSymbols, numTotRepairSymbols);
        statuses := statuses[id := Active(block)];
      }
      match statuses[id]
      case Processed => return None;
      case Active(block) => return Some(block);
    }

    method MarkProcessed(id: nat)
      requires Valid() && id in statuses
      modifies this`statuses
      ensures Valid() && ViewOf(id) == Done && Blocks() <= old(Blocks())
      ensures forall j :: j != id ==> ViewOf(j) == old(ViewOf(j))
    {
      hide BlockOk;
      statuses := statuses[id := Processed];
    }

    method AddSource(id: nat, b: Block, f: SourceSymbolFrame)
      requires Valid() && id in statuses && statuses[id] == Active(b)
      requires f.ssid in Range(id * numTotSourceSymbols, numTotSourceSymbols)
      modifies b
      ensures Valid() && ViewOf(id) == WithSource(old(ViewOf(id)), f)
      ensures forall j :: j != id ==> ViewOf(j) == old(ViewOf(j))
    {
      hide IsLongest, Range;
      LongestGrows(ViewOf(id), f);
      var ok := b.AddSourceSymbol(f);
      assert BlockOk(id, b);
    }

    /** The receiver passes a source symbol up as it arrives, unless its block is already processed. */
    method HandleSourceSymbolFrame(f: SourceSymbolFrame) returns (payload: Option<Payload>)
      requires Valid()
      modifies this`statuses, Blocks()
      ensures Valid() && fresh(Blocks() - old(Blocks()))
      ensures forall j :: j != SidToBlockID(f.ssid) ==> ViewOf(j) == old(ViewOf(j))
      ensures var v := old(ViewOf(SidToBlockID(f.ssid)));
              if v == Done then payload == None && ViewOf(SidToBlockID(f.ssid)) == Done
              else payload == Some(f.payload) &&
                   ViewOf(SidToBlockID(f.ssid)) ==
                     if |WithSource(v, f).source| == numTotSourceSymbols then Done else WithSource(v, f)
    {
      hide WithSource, Range;
      var id := SidToBlockID(f.ssid);
      var b := GetBlock(id);
      if b.None? {
        return None;
      }
      assert BlockOk(id, b.value);
      AddSource(id, b.value, f);
      if b.value.IsComplete() {
        MarkProcessed(id);
      }
      return Some(f.payload);
    }

    /** The sender produces the repair symbols as soon as a block is complete. */
    method AddSourceSymbolFrame(f: SourceSymbolFrame) returns (r: AddResult)
      requires Valid()
      // senders do not receive repair symbols
      requires var v := ViewOf(SidToBlockID(f.ssid)); v.Holding? ==> v.repair == map[]
      modifies this`statuses, Blocks()
      ensures Valid() && fresh(Blocks() - old(Blocks())) && nextSID == old(nextSID)
      ensures forall j :: j != SidToBlockID(f.ssid) ==> ViewOf(j) == old(ViewOf(j))
      ensures var id, v := SidToBlockID(f.ssid), old(ViewOf(SidToBlockID(f.ssid)));
              if v == Done then r == Accepted([]) && ViewOf(id) == Done
              else
                var v' := WithSource(v, f);
                if |v'.source| < numTotSourceSymbols then r == Accepted([]) && ViewOf(id) == v'
                else if numTotRepairSymbols != 1 || v'.biggest > MAX_FEC_PACKET_BUFFER_SIZE then
                  r == Failed && ViewOf(id) == v'
                else
                  && ViewOf(id) == Done
                  && v'.biggest >= 0 && IsLongest(v'.source, v'.biggest)
                  && var x := XorAll(v'.source, id * numTotSourceSymbols, numTotSourceSymbols, v'.biggest);
                     r == Accepted([RepairFrame(id, 0, x)])
    {
      hide WithSource, Range, XorAll;
      var id := SidToBlockID(f.ssid);
      var b := GetBlock(id);
      if b.None? {
        return Accepted([]);
      }
      assert BlockOk(id, b.value);
      AddSource(id, b.value, f);
      SourceKeepsRepair(old(ViewOf(id)), f);
      assert BlockOk(id, b.value);
      BlockSize(b.value);
      if b.value.IsComplete() {
        var repairSymbols := RepairSymbols(b.value);
        if repairSymbols.NotPossible? {
          return Failed;
        }
        MarkProcessed(id);
        return Accepted(repairSymbols.frames);
      }
      return Accepted([]);
    }

    method AddRepair(id: nat, b: Block, f: RepairFrame)
      requires Valid() && id in statuses && statuses[id] == Active(b) && f.blockID == id
      modifies b
      ensures Valid() && ViewOf(id) == WithRepair(old(ViewOf(id)), f) && b.repair != map[]
      ensures forall j :: j != id ==> ViewOf(j) == old(ViewOf(j))
    {
      hide IsLongest, Range;
      var ok := b.AddRepairSymbol(f);
      assert f.parityID in b.repair;
      assert BlockOk(id, b);
    }

    /** Recovery is attempted when a repair symbol arrives, whatever it holds.  A block that now holds as many
        symbols as it has source symbols is processed, and what its symbols decode to is passed up, if one is
        missing; decoding may panic. */
    method ApplyRepair(f: RepairFrame) returns (r: RepairOutcome)
      requires Valid()
      modifies this`statuses, Blocks()
      ensures fresh(Blocks() - old(Blocks()))
      ensures RepairHandled(old(ViewOf(f.blockID)), f, f.blockID * numTotSourceSymbols, numTotSourceSymbols, r)
      ensures r.Passed? ==> Valid() && forall j :: j != f.blockID ==> ViewOf(j) == old(ViewOf(j))
      ensures r.Passed? ==> ViewOf(f.blockID) == AfterRepair(old(ViewOf(f.blockID)), f, numTotSourceSymbols)
    {
      hide WithRepair, Range, Decoded;
      var id := f.blockID;
      var b := GetBlock(id);
      if b.None? {
        return Passed(None);
      }
      assert BlockOk(id, b.value);
      AddRepair(id, b.value, f);
      assert BlockOk(id, b.value);
      if b.value.IsRecoverable() {
        var recovered := RecoverBlock(id, b.value);
        if recovered.Panics? {
          return RecoveryPanics;
        }
        MarkProcessed(id);
        return Passed(if recovered.Recovered? then Some(recovered.payload) else None);
      }
      return Passed(None);
    }

    /** If the symbol is the one that was made for the payloads `full` of the block, there is no panic, and the
        missing payload, if there is one and enough symbols are there, is passed up. */
    method HandleRepairFrame(f: RepairFrame, ghost full: map<nat, Payload>) returns (r: RepairOutcome)
      requires Valid()
      modifies this`statuses, Blocks()
      ensures fresh(Blocks() - old(Blocks()))
      ensures RepairHandled(old(ViewOf(f.blockID)), f, f.blockID * numTotSourceSymbols, numTotSourceSymbols, r)
      ensures r.Passed? ==> Valid() && forall j :: j != f.blockID ==> ViewOf(j) == old(ViewOf(j))
      ensures r.Passed? ==> ViewOf(f.blockID) == AfterRepair(old(ViewOf(f.blockID)), f, numTotSourceSymbols)
      ensures IsRepairOf(f, numTotSourceSymbols, full) && IsPartOf(old(ViewOf(f.blockID)), f, full) ==>
                && RepairHelps(old(ViewOf(f.blockID)), numTotSourceSymbols, full, r)
                && ViewOf(f.blockID) == HonestView(old(ViewOf(f.blockID)), f, numTotSourceSymbols)
    {
      hide RepairHandled, AfterRepair, Valid, ViewOf, IsRepairAt, IsPartOf, HonestView;
      ghost var v := ViewOf(f.blockID);
      r := ApplyRepair(f);
      if IsRepairOf(f, numTotSourceSymbols, full) && IsPartOf(v, f, full) {
        HonestRepair(v, f, f.blockID * numTotSourceSymbols, numTotSourceSymbols, full, r);
      }
    }

    /** Recovery fills in the block in place, just before it is dropped. */
    method RecoverBlock(id: nat, b: Block) returns (r: RecoverResult)
      requires Valid() && id in statuses && statuses[id] == Active(b) && b.IsRecoverable() && b.repair != map[]
      modifies b`source
      ensures Valid() && forall j :: j != id ==> ViewOf(j) == old(ViewOf(j))
      ensures !r.CannotRecover? && (r.NothingMissing? <==> old(b.IsComplete()))
      ensures !old(b.IsComplete()) ==>
                Decoded(old(b.source), b.repair, b.biggestSourceSymbolLenSoFar, b.smallestSSID,
                        b.totNumSourceSymbols) ==
                if r.Recovered? then Some(r.payload) else None
    {
      hide IsLongest, Range, Decoded;
      assert BlockOk(id, b);
      r := RecoverSymbolPayloads(b);
      assert BlockOk(id, b);
    }
  }

  /** What becomes of a repair frame; a panic ends the program. */
  datatype RepairOutcome = RecoveryPanics | Passed(payload: Option<Payload>)

  /** A block with as many symbols as payloads is done with. */
  function AfterRepair(v: View, f: RepairFrame, k: nat): View {
    if v == Done || |WithRepair(v, f).source| + |WithRepair(v, f).repair| >= k then Done else WithRepair(v, f)
  }

  /** A repair frame lets its block decode, if there are enough symbols and one is missing; otherwise nothing is
      passed up.  Handling it panics exactly if the symbols do not decode.  The IDs of the block start at lo. */
  ghost predicate RepairHandled(v: View, f: RepairFrame, lo: nat, k: nat, r: RepairOutcome) {
    if v == Done then r == Passed(None)
    else
      var v' := WithRepair(v, f);
      if |v'.source| + |v'.repair| < k || |v'.source| == k then r == Passed(None)
      else
        var payload := Decoded(v'.source, v'.repair, v'.biggest, lo, k);
        r == if payload.None? then RecoveryPanics else Passed(payload)
  }

  /** What a repair frame that the sender has made is good for. */
  ghost predicate RepairHelps(v: View, k: nat, full: map<nat, Payload>, r: RepairOutcome) {
    && r.Passed?
    && if v == Done || |v.source| + 1 < k then r.payload == None
       else
         && (r.payload.None? <==> v.source.Keys == full.Keys)
         && (r.payload.Some? ==>
               exists s :: s in full && v.source.Keys == full.Keys - {s} && r.payload.value == full[s])
  }

  function HonestView(v: View, f: RepairFrame, k: nat): View {
    if v == Done || |v.source| + 1 >= k then Done else WithRepair(v, f)
  }

  lemma HonestRepair(v: View, f: RepairFrame, lo: nat, k: nat, full: map<nat, Payload>, r: RepairOutcome)
    requires IsRepairAt(f, lo, k, full) && IsPartOf(v, f, full) && RepairHandled(v, f, lo, k, r)
    ensures RepairHelps(v, k, full, r) && AfterRepair(v, f, k) == HonestView(v, f, k)
  {
    hide Decoded, XorAll, Range, Fit, WithRepair, RepairHandled, RepairHelps;
    var s := 0;
    if v.Holding? {
      RepairArrived(v, f, full);
      PartSize(v.source.Keys, full.Keys, lo, k);
      assert |v.source| == |v.source.Keys|;
      if |v.source| == k - 1 {
        s := Recovery(v.source, full, lo, k, |f.payload| - REPAIR_PAYLOAD_METADATA_LEN);
      }
    }
    DecodingHelps(v, f, lo, k, full, r, s);
  }

  lemma DecodingHelps(v: View, f: RepairFrame, lo: nat, k: nat, full: map<nat, Payload>, r: RepairOutcome, s: nat)
    requires RepairHandled(v, f, lo, k, r)
    requires v.Holding? ==>
               && var v' := WithRepair(v, f);
                  && v'.Holding? && v'.source == v.source && |v'.repair| == 1
                  && |v.source| <= k && (|v.source| == k <==> v.source.Keys == full.Keys)
                  && (|v.source| == k - 1 ==>
                        && s in full && v.source.Keys == full.Keys - {s}
                        && Decoded(v'.source, v'.repair, v'.biggest, lo, k) == Some(full[s]))
    ensures RepairHelps(v, k, full, r)
  {
    hide Decoded, WithRepair;
  }

  /** A repair symbol that is too short to hold a length panics as soon as there are enough symbols and one is
      missing. */
  lemma ShortRepair(v: View, f: RepairFrame, lo: nat, k: nat, r: RepairOutcome)
    requires v.Holding? && f.parityID !in v.repair && |f.payload| < REPAIR_PAYLOAD_METADATA_LEN
    requires RepairHandled(v, f, lo, k, r)
    ensures |v.source| < k <= |v.source| + |v.repair| + 1 ==> r == RecoveryPanics
    ensures |v.source| + |v.repair| + 1 < k ==> r == Passed(None)
  {
    hide Combined;
    var repair := v.repair[f.parityID := f.payload];
    assert repair.Keys == v.repair.Keys + {f.parityID} && |repair| == |repair.Keys| && |v.repair| == |v.repair.Keys|;
  }

  lemma PartSize(part: set<nat>, all: set<nat>, lo: nat, k: nat)
    requires all == Range(lo, k) && part <= all
    ensures |part| <= k && (|part| == k <==> part == all)
  {
    RangeSize(lo, k);
    SubsetSize(part, all);
  }

  /** The repair frame the sender has made for the payloads of a block, whose IDs start at lo. */
  ghost predicate IsRepairAt(f: RepairFrame, lo: nat, k: nat, full: map<nat, Payload>) {
    && f.parityID == 0
    && full.Keys == Range(lo, k)
    && REPAIR_PAYLOAD_METADATA_LEN <= |f.payload| <= MAX_FEC_PACKET_BUFFER_SIZE + REPAIR_PAYLOAD_METADATA_LEN
    && var longest := |f.payload| - REPAIR_PAYLOAD_METADATA_LEN;
       Fit(full, longest) && f.payload == XorAll(full, lo, k, longest)
  }

  ghost predicate IsRepairOf(f: RepairFrame, k: nat, full: map<nat, Payload>) {
    IsRepairAt(f, f.blockID * k, k, full)
  }

  /** What is known of the block agrees with what was sent. */
  ghost predicate IsPartOf(v: View, f: RepairFrame, full: map<nat, Payload>) {
    v.Holding? ==>
      && v.source.Keys <= full.Keys && (forall s :: s in v.source ==> v.source[s] == full[s])
      && (v.repair == map[] ||
          (v.repair == map[0 := f.payload] && v.biggest == |f.payload| - REPAIR_PAYLOAD_METADATA_LEN))
  }

  lemma RepairArrived(v: View, f: RepairFrame, full: map<nat, Payload>)
    requires v.Holding? && f.parityID == 0 && IsPartOf(v, f, full)
    ensures WithRepair(v, f) == Holding(v.source, map[0 := f.payload], |f.payload| - REPAIR_PAYLOAD_METADATA_LEN)
    ensures |WithRepair(v, f).repair| == 1
  {
    assert map[0 := f.payload].Keys == {0};
  }

  lemma SourceKeepsRepair(v: View, f: SourceSymbolFrame)
    requires v.Holding?
    ensures WithSource(v, f).Holding? && WithSource(v, f).repair == v.repair
  {
  }

  lemma BlockSize(b: Block)
    requires b.source.Keys <= b.SSIDs()
    ensures |b.source| <= b.totNumSourceSymbols
  {
    RangeSize(b.smallestSSID, b.totNumSourceSymbols);
    SubsetSize(b.source.Keys, b.SSIDs());
  }

  lemma LongestGrows(v: View, f: SourceSymbolFrame)
    ensures v.Holding? && v.biggest >= 0 && IsLongest(v.source, v.biggest) ==>
              IsLongest(WithSource(v, f).source, WithSource(v, f).biggest)
  {
    if v.Holding? && v.biggest >= 0 && IsLongest(v.source, v.biggest) && f.ssid !in v.source {
      var v' := WithSource(v, f);
      assert v'.source[f.ssid] == f.payload;
      if v.biggest > 0 {
        var k :| k in v.source && |v.source[k]| == v.biggest;
        assert v'.source[k] == v.source[k];
      }
    }
  }
}
