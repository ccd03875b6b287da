/** Blocks of source and repair symbols, and the XOR scheme on them: internal/fec/block.go, internal/fec/xor.go.
    Loops over a Go map visit the entries in an arbitrary order. */
module FecBlocks {
  import opened Common
  import opened Xor

  datatype SourceSymbolFrame = SourceSymbolFrame(ssid: nat, payload: Payload)

  datatype RepairFrame = RepairFrame(blockID: nat, parityID: nat, payload: Payload)

  /** The IDs of the source symbols of a block. */
  function Range(lo: nat, n: nat): (r: set<nat>)
    ensures forall x :: x in r <==> lo <= x < lo + n
  {
    if n == 0 then {} else Range(lo, n - 1) + {lo + n - 1}
  }

  lemma {:induction false} RangeSize(lo: nat, n: nat)
    ensures |Range(lo, n)| == n
  {
    if n > 0 {
      RangeSize(lo, n - 1);
    }
  }

  /** A block that lacks one symbol lacks exactly one. */
  lemma OneMissing(have: set<nat>, all: set<nat>) returns (x: nat)
    requires have <= all && |have| == |all| - 1
    ensures x in all && x !in have && have + {x} == all
  {
    var rest := all - have;
    assert all == have + rest;
    x :| x in rest;
    SubsetSize(have + {x}, all);
    assert |have + {x}| == |have| + 1;
  }

  /** The longest payload. */
  ghost predicate IsLongest(m: map<nat, Payload>, longest: nat) {
    Fit(m, longest) && (longest == 0 || exists k :: k in m && |m[k]| == longest)
  }

  datatype RepairResult = NotPossible | Repaired(frames: seq<RepairFrame>)

  /** Panics stands for an index or a slice bound out of range. */
  datatype RecoverResult = CannotRecover | NothingMissing | Recovered(payload: Payload) | Panics

  class Block {
    const id: nat
    const smallestSSID: nat
    const totNumSourceSymbols: nat
    const totNumRepairSymbols: nat
    var source: map<nat, Payload>
    var repair: map<nat, Payload>
    var biggestSourceSymbolLenSoFar: int

    constructor (id: nat, numSource: nat, numRepair: nat)
      ensures this.id == id && smallestSSID == id * numSource
      ensures totNumSourceSymbols == numSource && totNumRepairSymbols == numRepair
      ensures source == map[] && repair == map[] && biggestSourceSymbolLenSoFar == 0
    {
      this.id, smallestSSID := id, id * numSource;
      totNumSourceSymbols, totNumRepairSymbols := numSource, numRepair;
      source, repair, biggestSourceSymbolLenSoFar := map[], map[], 0;
    }

    ghost function SSIDs(): set<nat> {
      Range(smallestSSID, totNumSourceSymbols)
    }

    /** The first symbol with an ID stays. */
    method AddSourceSymbol(f: SourceSymbolFrame) returns (ok: bool)
      modifies this`source, this`biggestSourceSymbolLenSoFar
      ensures ok <==> f.ssid in SSIDs()
      ensures !ok || f.ssid in old(source) ==> unchanged(this)
      ensures ok && f.ssid !in old(source) ==>
                && source == old(source)[f.ssid := f.payload]
                && biggestSourceSymbolLenSoFar == if old(biggestSourceSymbolLenSoFar) < |f.payload| then |f.payload|
                                                  else old(biggestSourceSymbolLenSoFar)
    {
      if f.ssid < smallestSSID || f.ssid >= smallestSSID + totNumSourceSymbols {
        return false;
      }
      if f.ssid !in source {
        source := source[f.ssid := f.payload];
        if biggestSourceSymbolLenSoFar < |f.payload| {
          biggestSourceSymbolLenSoFar := |f.payload|;
        }
      }
      return true;
    }

    /** A repair symbol tells the longest length of the whole block. */
    method AddRepairSymbol(f: RepairFrame) returns (ok: bool)
      modifies this`repair, this`biggestSourceSymbolLenSoFar
      ensures ok <==> f.blockID == id
      ensures !ok || f.parityID in old(repair) ==> unchanged(this)
      ensures ok && f.parityID !in old(repair) ==>
                && repair == old(repair)[f.parityID := f.payload]
                && biggestSourceSymbolLenSoFar == |f.payload| - REPAIR_PAYLOAD_METADATA_LEN
    {
      if id != f.blockID {
        return false;
      }
      if f.parityID !in repair {
        repair := repair[f.parityID := f.payload];
        biggestSourceSymbolLenSoFar := |f.payload| - REPAIR_PAYLOAD_METADATA_LEN;
      }
      return true;
    }

    predicate IsRecoverable()
      reads this
    {
      |source| + |repair| >= totNumSourceSymbols
    }

    predicate IsComplete()
      reads this
    {
      |source| == totNumSourceSymbols
    }

    /** XORs the source symbols of the block onto a buffer, in any order; false stands for an index out of range. */
    method XorSources(buffer: array<Byte>) returns (ok: bool)
      requires source.Keys <= SSIDs()
      modifies buffer
      ensures ok <==> source == map[] || HasRoom(source, biggestSourceSymbolLenSoFar, buffer.Length)
      ensures ok && HasRoom(source, biggestSourceSymbolLenSoFar, buffer.Length) ==>
                buffer[..] == XorOnto(old(buffer[..]),
                  XorRows(WideRows(source, biggestSourceSymbolLenSoFar, buffer.Length), smallestSSID,
                          totNumSourceSymbols, buffer.Length))
      ensures source == map[] ==> buffer[..] == old(buffer[..])
    {
      hide XorRows, XorOnto, Wide;
      var todo := source.Keys;
      ghost var done: map<nat, Payload> := map[];
      if 0 <= biggestSourceSymbolLenSoFar &&
         biggestSourceSymbolLenSoFar + REPAIR_PAYLOAD_METADATA_LEN <= buffer.Length {
        XorNothing(buffer[..], smallestSSID, totNumSourceSymbols);
        while todo != {}
          invariant todo <= source.Keys
          invariant done == map k | k in source && k !in todo :: source[k]
          invariant Fit(done, buffer.Length) && buffer.Length == |old(buffer[..])|
          invariant (source == map[] ==> buffer[..] == old(buffer[..]))
          invariant buffer[..] == XorOnto(old(buffer[..]),
                      XorRows(WideRows(done, biggestSourceSymbolLenSoFar, buffer.Length), smallestSSID,
                              totNumSourceSymbols, buffer.Length))
          decreases todo
        {
          var k :| k in todo;
          if |source[k]| > buffer.Length {
            return false;
          }
          WideOneMore(old(buffer[..]), done, smallestSSID, totNumSourceSymbols, biggestSourceSymbolLenSoFar, k,
                      source[k]);
          XorPayload(buffer, source[k], biggestSourceSymbolLenSoFar);
          todo := todo - {k};
          done := done[k := source[k]];
        }
        assert done == source;
        return true;
      }
      return source == map[];
    }
  }

  /** The length bytes and all payloads lie within a buffer. */
  predicate HasRoom(source: map<nat, Payload>, biggest: int, width: nat) {
    0 <= biggest && biggest + REPAIR_PAYLOAD_METADATA_LEN <= width && Fit(source, width)
  }

  lemma XorNothing(buffer: seq<Byte>, lo: nat, n: nat)
    ensures XorOnto(buffer, XorRows(map[], lo, n, |buffer|)) == buffer
  {
    hide Xor8;
    forall i: nat | i < |buffer| ensures XorOnto(buffer, XorRows(map[], lo, n, |buffer|))[i] == buffer[i] {
      XorZero(buffer[i]);
      NoRows(lo, n, |buffer|, i);
    }
  }

  lemma RowOneMore(buffer: seq<Byte>, rows: Rows, lo: nat, n: nat, k: nat, r: seq<Byte>)
    requires Rectangular(rows, |buffer|) && |r| == |buffer| && k !in rows && lo <= k < lo + n
    ensures XorOnto(XorOnto(buffer, XorRows(rows, lo, n, |buffer|)), r) ==
              XorOnto(buffer, XorRows(rows[k := r], lo, n, |buffer|))
  {
    hide XorRows;
    XorRowsInsert(rows, lo, n, |buffer|, k, r);
    XorOntoAssociative(buffer, XorRows(rows, lo, n, |buffer|), r);
  }

  lemma WideOneMore(buffer: seq<Byte>, m: map<nat, Payload>, lo: nat, n: nat, longest: nat, k: nat, p: Payload)
    requires Fit(m, |buffer|) && |p| <= |buffer| && k !in m && lo <= k < lo + n
    requires longest + REPAIR_PAYLOAD_METADATA_LEN <= |buffer|
    ensures Fit(m[k := p], |buffer|)
    ensures XorOnto(XorOnto(buffer, XorRows(WideRows(m, longest, |buffer|), lo, n, |buffer|)),
                    Wide(p, longest, |buffer|)) ==
              XorOnto(buffer, XorRows(WideRows(m[k := p], longest, |buffer|), lo, n, |buffer|))
  {
    hide XorRows, XorOnto, Wide;
    assert WideRows(m[k := p], longest, |buffer|) == WideRows(m, longest, |buffer|)[k := Wide(p, longest, |buffer|)];
    RowOneMore(buffer, WideRows(m, longest, |buffer|), lo, n, k, Wide(p, longest, |buffer|));
  }

  lemma PlainOneMore(buffer: seq<Byte>, m: map<nat, Payload>, n: nat, k: nat, p: Payload)
    requires Fit(m, |buffer|) && |p| <= |buffer| && k !in m && k < n
    ensures Fit(m[k := p], |buffer|)
    ensures XorOnto(XorOnto(buffer, XorRows(PlainRows(m, |buffer|), 0, n, |buffer|)), Plain(p, |buffer|)) ==
              XorOnto(buffer, XorRows(PlainRows(m[k := p], |buffer|), 0, n, |buffer|))
  {
    hide XorRows, XorOnto, Plain;
    assert PlainRows(m[k := p], |buffer|) == PlainRows(m, |buffer|)[k := Plain(p, |buffer|)];
    RowOneMore(buffer, PlainRows(m, |buffer|), 0, n, k, Plain(p, |buffer|));
  }

  lemma XorOntoAssociative(buffer: seq<Byte>, x: seq<Byte>, y: seq<Byte>)
    requires |x| == |y| <= |buffer|
    ensures XorOnto(XorOnto(buffer, x), y) == XorOnto(buffer, XorOnto(x, y))
  {
    hide Xor8;
    forall i: nat | i < |x| ensures Xor8(Xor8(buffer[i], x[i]), y[i]) == Xor8(buffer[i], Xor8(x[i], y[i])) {
      XorAssociates(buffer[i], x[i], y[i]);
    }
  }

  /** The repair symbol of a complete block. */
  method RepairSymbols(b: Block) returns (r: RepairResult)
    requires b.source.Keys <= b.SSIDs() && 0 <= b.biggestSourceSymbolLenSoFar
    requires Fit(b.source, b.biggestSourceSymbolLenSoFar)
    ensures r.NotPossible? <==>
              !b.IsComplete() || b.totNumRepairSymbols != 1 ||
              b.biggestSourceSymbolLenSoFar > MAX_FEC_PACKET_BUFFER_SIZE
    ensures r.Repaired? ==> r.frames == [RepairFrame(b.id, 0,
              XorAll(b.source, b.smallestSSID, b.totNumSourceSymbols, b.biggestSourceSymbolLenSoFar))]
  {
    hide XorAll, XorRows, XorOnto, Wide, Plain;
    if !b.IsComplete() || b.totNumRepairSymbols != 1 || b.biggestSourceSymbolLenSoFar > MAX_FEC_PACKET_BUFFER_SIZE {
      return NotPossible;
    }
    var width := REPAIR_PAYLOAD_METADATA_LEN + b.biggestSourceSymbolLenSoFar;
    var xorSoFar := new Byte[width](_ => 0);
    ghost var x := XorAll(b.source, b.smallestSSID, b.totNumSourceSymbols, b.biggestSourceSymbolLenSoFar);
    WideIsAll(b.source, b.smallestSSID, b.totNumSourceSymbols, b.biggestSourceSymbolLenSoFar, width);
    ZeroBuffer(xorSoFar[..], Plain(x, width));
    var ok := b.XorSources(xorSoFar);
    PlainWhole(x);
    return Repaired([RepairFrame(b.id, 0, xorSoFar[..])]);
  }

  lemma PlainWhole(x: seq<Byte>)
    ensures Plain(x, |x|) == x
  {
  }

  lemma ZeroBuffer(buffer: seq<Byte>, x: seq<Byte>)
    requires |x| == |buffer| && forall i :: 0 <= i < |buffer| ==> buffer[i] == 0
    ensures XorOnto(buffer, x) == x
  {
    hide Xor8;
    forall i: nat | i < |x| ensures XorOnto(buffer, x)[i] == x[i] {
      XorZero(x[i]);
    }
  }

  // ------------------------------------------------------------------
  // Recovery
  // ------------------------------------------------------------------

  /** A number above all keys. */
  ghost function KeyBound(keys: set<nat>): (n: nat)
    ensures forall k :: k in keys ==> k < n
  {
    if keys == {} then 0
    else
      var k :| k in keys;
      assert forall x :: x in keys ==> x == k || x in keys - {k};
      Max(k + 1, KeyBound(keys - {k}))
  }

  /** What the symbols of a block XOR to, whatever they are. */
  ghost function Combined(source: map<nat, Payload>, repair: map<nat, Payload>, biggest: int, lo: nat,
                          n: nat): (x: seq<Byte>)
    requires HasRoom(source, biggest, MAX_PACKET_BUFFER_SIZE) && Fit(repair, MAX_PACKET_BUFFER_SIZE)
    ensures |x| == MAX_PACKET_BUFFER_SIZE
  {
    XorOnto(XorRows(PlainRows(repair, MAX_PACKET_BUFFER_SIZE), 0, KeyBound(repair.Keys), MAX_PACKET_BUFFER_SIZE),
            XorRows(WideRows(source, biggest, MAX_PACKET_BUFFER_SIZE), lo, n, MAX_PACKET_BUFFER_SIZE))
  }

  /** What symbols decode to; none if they do not fit into a buffer, or the length that is found does not. */
  ghost function Decoded(source: map<nat, Payload>, repair: map<nat, Payload>, biggest: int, lo: nat,
                         n: nat): Option<Payload> {
    if !HasRoom(source, biggest, MAX_PACKET_BUFFER_SIZE) || !Fit(repair, MAX_PACKET_BUFFER_SIZE) then None
    else
      var x := Combined(source, repair, biggest, lo, n);
      var len := DecodeLen(x[biggest], x[biggest + 1]);
      if len > MAX_PACKET_BUFFER_SIZE then None else Some(x[..len])
  }

  /** The repair symbols, XORed in any order onto an empty buffer; false stands for an index out of range. */
  method XorRepairs(b: Block) returns (buffer: array<Byte>, ok: bool)
    ensures fresh(buffer) && buffer.Length == MAX_PACKET_BUFFER_SIZE && (ok <==> Fit(b.repair, MAX_PACKET_BUFFER_SIZE))
    ensures ok ==>
              buffer[..] ==
                XorRows(PlainRows(b.repair, MAX_PACKET_BUFFER_SIZE), 0, KeyBound(b.repair.Keys), MAX_PACKET_BUFFER_SIZE)
  {
    hide XorRows, XorOnto, Plain;
    buffer := new Byte[MAX_PACKET_BUFFER_SIZE](_ => 0);
    ghost var zeros, n := buffer[..], KeyBound(b.repair.Keys);
    var todo := b.repair.Keys;
    ghost var done: map<nat, Payload> := map[];
    XorNothing(zeros, 0, n);
    while todo != {}
      invariant todo <= b.repair.Keys && fresh(buffer) && buffer.Length == MAX_PACKET_BUFFER_SIZE
      invariant done == map k | k in b.repair && k !in todo :: b.repair[k]
      invariant Fit(done, MAX_PACKET_BUFFER_SIZE)
      invariant buffer[..] ==
                  XorOnto(zeros, XorRows(PlainRows(done, MAX_PACKET_BUFFER_SIZE), 0, n, MAX_PACKET_BUFFER_SIZE))
      decreases todo
    {
      var k :| k in todo;
      if |b.repair[k]| > MAX_PACKET_BUFFER_SIZE {
        return buffer, false;
      }
      PlainOneMore(zeros, done, n, k, b.repair[k]);
      XorRepair(buffer, b.repair[k]);
      todo := todo - {k};
      done := done[k := b.repair[k]];
    }
    assert done == b.repair;
    ZeroBuffer(zeros, XorRows(PlainRows(done, MAX_PACKET_BUFFER_SIZE), 0, n, MAX_PACKET_BUFFER_SIZE));
    ok := true;
  }

  /** Stores the recovered payload under every ID that is missing. */
  method FillIn(b: Block, payload: Payload)
    requires b.source.Keys <= b.SSIDs()
    modifies b`source
    ensures b.source.Keys == b.SSIDs()
    ensures forall k :: k in b.SSIDs() ==> b.source[k] == if k in old(b.source) then old(b.source)[k] else payload
  {
    for ssid := b.smallestSSID to b.smallestSSID + b.totNumSourceSymbols
      invariant b.source.Keys == old(b.source).Keys + (set k | k in b.SSIDs() && k < ssid)
      invariant forall k :: k in b.source ==> b.source[k] == if k in old(b.source) then old(b.source)[k] else payload
    {
      if ssid !in b.source {
        b.source := b.source[ssid := payload];
      }
    }
  }

  /** Recovers what is missing of a block, out of whatever symbols it holds.  This panics exactly if the symbols do
      not fit into a buffer, if a repair symbol is shorter than a length, or if the length that is found is larger
      than a buffer. */
  method RecoverSymbolPayloads(b: Block) returns (r: RecoverResult)
    requires b.source.Keys <= b.SSIDs()
    modifies b`source
    ensures r.CannotRecover? <==> !old(b.IsRecoverable())
    ensures r.NothingMissing? <==> old(b.IsComplete())
    ensures old(b.IsRecoverable()) && !old(b.IsComplete()) ==>
              Decoded(old(b.source), b.repair, b.biggestSourceSymbolLenSoFar, b.smallestSSID, b.totNumSourceSymbols) ==
              if r.Recovered? then Some(r.payload) else None
    ensures r.Recovered? ==>
              && b.source.Keys == b.SSIDs()
              && forall k :: k in b.SSIDs() ==>
                               b.source[k] == if k in old(b.source) then old(b.source)[k] else r.payload
    ensures !r.Recovered? ==> b.source == old(b.source)
  {
    hide XorRows, XorOnto, DecodeLen, Range, WideRows, PlainRows;
    if !b.IsRecoverable() {
      return CannotRecover;
    }
    if b.IsComplete() {
      return NothingMissing;
    }
    var longest := b.biggestSourceSymbolLenSoFar;
    var buffer, ok := XorRepairs(b);
    if !ok {
      return Panics;
    }
    ok := b.XorSources(buffer);
    if !ok || longest < 0 || longest + 1 >= buffer.Length {
      return Panics;
    }
    var payloadLen := DecodeLen(buffer[longest], buffer[longest + 1]);
    if payloadLen > buffer.Length {
      return Panics;
    }
    var payload := buffer[..payloadLen];
    FillIn(b, payload);
    RangeSize(b.smallestSSID, b.totNumSourceSymbols);
    if !b.IsComplete() {
      assert false; // "block is not complete after recovery"
    }
    return Recovered(payload);
  }

  // ------------------------------------------------------------------
  // Honest repair symbols
  // ------------------------------------------------------------------

  /** The repair symbol of a block and all payloads but one decode to the missing one, with its exact length and
      bytes. */
  lemma Recovery(source: map<nat, Payload>, full: map<nat, Payload>, lo: nat, n: nat, longest: nat) returns (s: nat)
    requires full.Keys == Range(lo, n) && Fit(full, longest) && longest <= MAX_FEC_PACKET_BUFFER_SIZE
    requires source.Keys <= full.Keys && (forall k :: k in source ==> source[k] == full[k]) && |source| == n - 1
    ensures s in full && source.Keys == full.Keys - {s}
    ensures Decoded(source, map[0 := XorAll(full, lo, n, longest)], longest, lo, n) == Some(full[s])
  {
    hide XorAll, Decoded;
    RangeSize(lo, n);
    assert |source| == |source.Keys|;
    s := OneMissing(source.Keys, full.Keys);
    assert source == full - {s};
    CombinedBytes(full, lo, n, longest, s);
  }

  lemma CombinedBytes(full: map<nat, Payload>, lo: nat, n: nat, longest: nat, s: nat)
    requires Fit(full, longest) && longest <= MAX_FEC_PACKET_BUFFER_SIZE && s in full && lo <= s < lo + n
    ensures Decoded(full - {s}, map[0 := XorAll(full, lo, n, longest)], longest, lo, n) == Some(full[s])
  {
    var source, x := full - {s}, XorAll(full, lo, n, longest);
    var repair, y := map[0 := x], XorAll(source, lo, n, longest);
    var c := Combined(source, repair, longest, lo, n);
    Recovers(full, lo, n, longest, s);
    CombinedIs(source, x, longest, lo, n);
    assert c[..|full[s]|] == XorOnto(x, y)[..|full[s]|];
  }

  lemma CombinedIs(source: map<nat, Payload>, x: seq<Byte>, longest: nat, lo: nat, n: nat)
    requires Fit(source, longest) && longest <= MAX_FEC_PACKET_BUFFER_SIZE
    requires |x| == longest + REPAIR_PAYLOAD_METADATA_LEN
    ensures Fit(map[0 := x], MAX_PACKET_BUFFER_SIZE) && HasRoom(source, longest, MAX_PACKET_BUFFER_SIZE)
    ensures forall i :: 0 <= i < |x| ==>
              Combined(source, map[0 := x], longest, lo, n)[i] == XorOnto(x, XorAll(source, lo, n, longest))[i]
  {
    hide Xor8, XorAll, WideRows;
    var repair, y := map[0 := x], XorAll(source, lo, n, longest);
    WideIsAll(source, lo, n, longest, MAX_PACKET_BUFFER_SIZE);
    assert PlainRows(repair, MAX_PACKET_BUFFER_SIZE) == map[0 := Plain(x, MAX_PACKET_BUFFER_SIZE)];
    assert 0 in repair.Keys;
    forall i: nat | i < |x| ensures Combined(source, repair, longest, lo, n)[i] == XorOnto(x, y)[i] {
      OnlyRow(Plain(x, MAX_PACKET_BUFFER_SIZE), KeyBound(repair.Keys), i);
    }
  }
}
