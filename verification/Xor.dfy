/** The XOR erasure code: internal/fec/xor.go.

    A payload is padded with zeros to the longest length of its block and followed by its own length in two
    bytes; the repair payload is the XOR of all padded payloads of the block. */
module Xor {
  import opened Common

  type Payload = seq<Byte>

  const MAX_FEC_HEADER_OVERHEAD: nat := 18
  const MAX_FEC_PACKET_BUFFER_SIZE: nat := MAX_PACKET_BUFFER_SIZE - MAX_FEC_HEADER_OVERHEAD
  const REPAIR_PAYLOAD_METADATA_LEN: nat := 2

  // ------------------------------------------------------------------
  // Bitwise exclusive or
  // ------------------------------------------------------------------

  function Pow2(n: nat): nat {
    if n == 0 then 1 else 2 * Pow2(n - 1)
  }

  /** The exclusive or of the lowest n bits, bit by bit. */
  function XorBits(n: nat, a: nat, b: nat): (c: nat)
    ensures c < Pow2(n)
  {
    if n == 0 then 0 else 2 * XorBits(n - 1, a / 2, b / 2) + (a + b) % 2
  }

  lemma XorHalves(n: nat, a: nat, b: nat)
    requires n > 0
    ensures XorBits(n, a, b) / 2 == XorBits(n - 1, a / 2, b / 2) && XorBits(n, a, b) % 2 == (a + b) % 2
  {
  }

  lemma ParityAssociative(a: nat, b: nat, c: nat, x: nat, y: nat)
    requires x % 2 == (a + b) % 2 && y % 2 == (b + c) % 2
    ensures (x + c) % 2 == (a + y) % 2
  {
  }

  lemma {:induction false} XorBitsAssociative(n: nat, a: nat, b: nat, c: nat)
    ensures XorBits(n, XorBits(n, a, b), c) == XorBits(n, a, XorBits(n, b, c))
  {
    if n > 0 {
      var x, y := XorBits(n, a, b), XorBits(n, b, c);
      XorHalves(n, a, b);
      XorHalves(n, b, c);
      ParityAssociative(a, b, c, x, y);
      XorBitsAssociative(n - 1, a / 2, b / 2, c / 2);
      SameBits(n, x, c, a, y);
    }
  }

  lemma SameBits(n: nat, a: nat, b: nat, c: nat, d: nat)
    requires n > 0 && XorBits(n - 1, a / 2, b / 2) == XorBits(n - 1, c / 2, d / 2) && (a + b) % 2 == (c + d) % 2
    ensures XorBits(n, a, b) == XorBits(n, c, d)
  {
  }

  lemma {:induction false} XorBitsCommutative(n: nat, a: nat, b: nat)
    ensures XorBits(n, a, b) == XorBits(n, b, a)
  {
    if n > 0 {
      XorBitsCommutative(n - 1, a / 2, b / 2);
    }
  }

  lemma {:induction false} XorBitsZero(n: nat, a: nat)
    requires a < Pow2(n)
    ensures XorBits(n, a, 0) == a
  {
    if n > 0 {
      XorBitsZero(n - 1, a / 2);
    }
  }

  lemma {:induction false} XorBitsSelf(n: nat, a: nat)
    ensures XorBits(n, a, a) == 0
  {
    if n > 0 {
      XorBitsSelf(n - 1, a / 2);
    }
  }

  function Xor8(a: Byte, b: Byte): Byte {
    assert Pow2(8) == 256 by { EightBits(); }
    XorBits(8, a, b)
  }

  lemma EightBits()
    ensures Pow2(8) == 256
  {
  }

  lemma XorSwaps(a: Byte, b: Byte, c: Byte)
    ensures Xor8(Xor8(a, b), c) == Xor8(Xor8(a, c), b)
  {
    XorBitsAssociative(8, a, b, c);
    XorBitsCommutative(8, b, c);
    XorBitsAssociative(8, a, c, b);
  }

  lemma XorAssociates(a: Byte, b: Byte, c: Byte)
    ensures Xor8(Xor8(a, b), c) == Xor8(a, Xor8(b, c))
  {
    XorBitsAssociative(8, a, b, c);
  }

  lemma XorZero(a: Byte)
    ensures Xor8(a, 0) == a && Xor8(0, a) == a
  {
    EightBits();
    XorBitsZero(8, a);
    XorBitsCommutative(8, a, 0);
  }

  lemma XorTwice(a: Byte, x: Byte)
    ensures Xor8(Xor8(a, x), a) == x
  {
    XorSwaps(a, x, a);
    XorBitsSelf(8, a);
    XorZero(x);
  }

  // ------------------------------------------------------------------
  // The code
  // ------------------------------------------------------------------

  /** The two bytes of uint16 of a length. */
  function HighByte(n: nat): Byte {
    n % 65536 / 256
  }

  function LowByte(n: nat): Byte {
    n % 256
  }

  function DecodeLen(high: Byte, low: Byte): nat {
    high * 256 + low
  }

  /** A payload, zeros up to the block's longest length, and the payload's length. */
  function Padded(p: Payload, longest: nat): seq<Byte>
    requires |p| <= longest
    ensures |Padded(p, longest)| == longest + REPAIR_PAYLOAD_METADATA_LEN
  {
    p + seq(longest - |p|, _ => 0) + [HighByte(|p|), LowByte(|p|)]
  }

  /** XORs x onto the front of a buffer. */
  function XorOnto(buffer: seq<Byte>, x: seq<Byte>): seq<Byte>
    requires |x| <= |buffer|
  {
    seq(|buffer|, i requires 0 <= i < |buffer| => if i < |x| then Xor8(buffer[i], x[i]) else buffer[i])
  }

  type Rows = map<nat, seq<Byte>>

  predicate Rectangular(rows: Rows, width: nat) {
    forall k :: k in rows ==> |rows[k]| == width
  }

  /** The i-th byte of the XOR of the rows with keys in [lo, lo + n). */
  function XorByte(rows: Rows, lo: nat, n: nat, width: nat, i: nat): Byte
    requires Rectangular(rows, width) && i < width
  {
    if n == 0 then 0
    else
      var rest := XorByte(rows, lo, n - 1, width, i);
      if lo + n - 1 in rows then Xor8(rest, rows[lo + n - 1][i]) else rest
  }

  function XorRows(rows: Rows, lo: nat, n: nat, width: nat): (x: seq<Byte>)
    requires Rectangular(rows, width)
    ensures |x| == width
  {
    seq(width, i requires 0 <= i < width => XorByte(rows, lo, n, width, i))
  }

  lemma {:induction false} XorByteInsert(rows: Rows, lo: nat, n: nat, width: nat, i: nat, k: nat, r: seq<Byte>)
    requires Rectangular(rows, width) && |r| == width && k !in rows && i < width
    ensures XorByte(rows[k := r], lo, n, width, i) ==
              Xor8(XorByte(rows, lo, n, width, i), if lo <= k < lo + n then r[i] else 0)
  {
    hide Xor8;
    if n > 0 {
      XorByteInsert(rows, lo, n - 1, width, i, k, r);
      var last := lo + n - 1;
      var rest := XorByte(rows, lo, n - 1, width, i);
      if last in rows {
        XorSwaps(rest, if lo <= k < last then r[i] else 0, rows[last][i]);
      }
      XorZero(rest);
    } else {
      XorZero(0);
    }
  }

  /** The order in which rows are added does not matter. */
  lemma XorRowsInsert(rows: Rows, lo: nat, n: nat, width: nat, k: nat, r: seq<Byte>)
    requires Rectangular(rows, width) && |r| == width && k !in rows && lo <= k < lo + n
    ensures XorRows(rows[k := r], lo, n, width) == XorOnto(XorRows(rows, lo, n, width), r)
  {
    hide Xor8;
    forall i | 0 <= i < width
      ensures XorByte(rows[k := r], lo, n, width, i) == Xor8(XorByte(rows, lo, n, width, i), r[i])
    {
      XorByteInsert(rows, lo, n, width, i, k, r);
    }
  }

  lemma {:induction false} NoRows(lo: nat, n: nat, width: nat, i: nat)
    requires i < width
    ensures XorByte(map[], lo, n, width, i) == 0
  {
    if n > 0 {
      NoRows(lo, n - 1, width, i);
    }
  }

  lemma {:induction false} OnlyRow(r: seq<Byte>, n: nat, i: nat)
    requires i < |r|
    ensures XorByte(map[0 := r], 0, n, |r|, i) == if n == 0 then 0 else r[i]
  {
    hide Xor8;
    if n > 0 {
      OnlyRow(r, n - 1, i);
      XorZero(r[i]);
    }
  }

  predicate Fit(m: map<nat, Payload>, longest: nat) {
    forall k :: k in m ==> |m[k]| <= longest
  }

  function PaddedRows(m: map<nat, Payload>, longest: nat): Rows
    requires Fit(m, longest)
  {
    map k | k in m :: Padded(m[k], longest)
  }

  /** The XOR of the padded payloads with keys in [lo, lo + n). */
  function XorAll(m: map<nat, Payload>, lo: nat, n: nat, longest: nat): (x: seq<Byte>)
    requires Fit(m, longest)
    ensures |x| == longest + REPAIR_PAYLOAD_METADATA_LEN
  {
    XorRows(PaddedRows(m, longest), lo, n, longest + REPAIR_PAYLOAD_METADATA_LEN)
  }

  lemma XorAllInsert(m: map<nat, Payload>, lo: nat, n: nat, longest: nat, k: nat, p: Payload)
    requires Fit(m, longest) && |p| <= longest && k !in m && lo <= k < lo + n
    ensures Fit(m[k := p], longest)
    ensures XorAll(m[k := p], lo, n, longest) == XorOnto(XorAll(m, lo, n, longest), Padded(p, longest))
  {
    hide Padded, XorRows;
    assert PaddedRows(m[k := p], longest) == PaddedRows(m, longest)[k := Padded(p, longest)];
    XorRowsInsert(PaddedRows(m, longest), lo, n, longest + REPAIR_PAYLOAD_METADATA_LEN, k, Padded(p, longest));
  }

  // ------------------------------------------------------------------
  // Buffers of any width
  // ------------------------------------------------------------------

  function ByteAt(p: Payload, i: nat): Byte {
    if i < |p| then p[i] else 0
  }

  function LengthByte(len: nat, longest: nat, i: nat): Byte {
    if i == longest then HighByte(len) else if i == longest + 1 then LowByte(len) else 0
  }

  /** A payload in a wide buffer: zeros follow it, and its length is XORed onto two bytes, wherever these are. */
  function Wide(p: Payload, longest: nat, width: nat): (x: seq<Byte>)
    requires |p| <= width && longest + REPAIR_PAYLOAD_METADATA_LEN <= width
    ensures |x| == width
  {
    seq(width, i requires 0 <= i < width => Xor8(ByteAt(p, i), LengthByte(|p|, longest, i)))
  }

  function Plain(p: Payload, width: nat): (x: seq<Byte>)
    requires |p| <= width
    ensures |x| == width
  {
    seq(width, i requires 0 <= i < width => ByteAt(p, i))
  }

  function WideRows(m: map<nat, Payload>, longest: nat, width: nat): Rows
    requires Fit(m, width) && longest + REPAIR_PAYLOAD_METADATA_LEN <= width
  {
    map k | k in m :: Wide(m[k], longest, width)
  }

  function PlainRows(m: map<nat, Payload>, width: nat): Rows
    requires Fit(m, width)
  {
    map k | k in m :: Plain(m[k], width)
  }

  /** If the length bytes follow the payload, this is the padded payload. */
  lemma WideIsPadded(p: Payload, longest: nat, width: nat)
    requires |p| <= longest && longest + REPAIR_PAYLOAD_METADATA_LEN <= width
    ensures Wide(p, longest, width) == Plain(Padded(p, longest), width)
  {
    hide Xor8;
    forall i: nat | i < width ensures Wide(p, longest, width)[i] == Plain(Padded(p, longest), width)[i] {
      XorZero(ByteAt(p, i));
      XorZero(LengthByte(|p|, longest, i));
    }
  }

  lemma {:induction false} WideByte(m: map<nat, Payload>, lo: nat, n: nat, longest: nat, width: nat, i: nat)
    requires Fit(m, longest) && longest + REPAIR_PAYLOAD_METADATA_LEN <= width && i < width
    ensures XorByte(WideRows(m, longest, width), lo, n, width, i) == ByteAt(XorAll(m, lo, n, longest), i)
  {
    hide Xor8, Padded, Wide;
    if n > 0 {
      WideByte(m, lo, n - 1, longest, width, i);
      var last := lo + n - 1;
      if last in m {
        WideIsPadded(m[last], longest, width);
        XorZero(0);
      }
    }
  }

  lemma WideIsAll(m: map<nat, Payload>, lo: nat, n: nat, longest: nat, width: nat)
    requires Fit(m, longest) && longest + REPAIR_PAYLOAD_METADATA_LEN <= width
    ensures XorRows(WideRows(m, longest, width), lo, n, width) == Plain(XorAll(m, lo, n, longest), width)
  {
    forall i: nat | i < width
      ensures XorByte(WideRows(m, longest, width), lo, n, width, i) == ByteAt(XorAll(m, lo, n, longest), i)
    {
      WideByte(m, lo, n, longest, width, i);
    }
  }

  /** What a decoder reads out of a padded payload is the payload. */
  lemma UnpadRoundTrip(p: Payload, longest: nat)
    requires |p| <= longest && |p| < 65536
    ensures var x := Padded(p, longest);
            DecodeLen(x[longest], x[longest + 1]) == |p| && x[..|p|] == p
  {
    var x := Padded(p, longest);
    assert x[longest] == HighByte(|p|) && x[longest + 1] == LowByte(|p|);
  }

  /** Two XORs with the same bytes cancel. */
  lemma XorCancels(a: seq<Byte>, x: seq<Byte>)
    requires |a| == |x|
    ensures XorOnto(XorOnto(a, x), a) == x
  {
    hide Xor8;
    var y := XorOnto(XorOnto(a, x), a);
    forall i | 0 <= i < |x| ensures y[i] == x[i] {
      XorTwice(a[i], x[i]);
    }
  }

  /** Whichever payload is missing, the repair payload and the others determine it, with its exact length. */
  lemma Recovers(m: map<nat, Payload>, lo: nat, n: nat, longest: nat, missing: nat)
    requires Fit(m, longest) && missing in m && lo <= missing < lo + n && |m[missing]| < 65536
    ensures var others := m - {missing};
            var x := XorOnto(XorAll(m, lo, n, longest), XorAll(others, lo, n, longest));
            DecodeLen(x[longest], x[longest + 1]) == |m[missing]| && x[..|m[missing]|] == m[missing]
  {
    var others := m - {missing};
    assert m == others[missing := m[missing]];
    XorAllInsert(others, lo, n, longest, missing, m[missing]);
    XorCancels(XorAll(others, lo, n, longest), Padded(m[missing], longest));
    UnpadRoundTrip(m[missing], longest);
  }

  // ------------------------------------------------------------------
  // The loops
  // ------------------------------------------------------------------

  /** XORs a payload and its length onto a buffer. */
  method XorPayload(buffer: array<Byte>, payload: Payload, longest: nat)
    requires |payload| <= buffer.Length && longest + REPAIR_PAYLOAD_METADATA_LEN <= buffer.Length
    modifies buffer
    ensures buffer[..] == XorOnto(old(buffer[..]), Wide(payload, longest, buffer.Length))
  {
    hide Xor8;
    for i := 0 to |payload|
      invariant forall j :: 0 <= j < i ==> buffer[j] == Xor8(old(buffer[j]), payload[j])
      invariant forall j :: i <= j < buffer.Length ==> buffer[j] == old(buffer[j])
    {
      buffer[i] := Xor8(buffer[i], payload[i]);
    }
    buffer[longest] := Xor8(buffer[longest], HighByte(|payload|));
    buffer[longest + 1] := Xor8(buffer[longest + 1], LowByte(|payload|));
    forall j | 0 <= j < buffer.Length
      ensures buffer[j] == XorOnto(old(buffer[..]), Wide(payload, longest, buffer.Length))[j]
    {
      assert old(buffer[..])[j] == old(buffer[j]);
      XorZero(old(buffer[j]));
      XorZero(ByteAt(payload, j));
      XorZero(LengthByte(|payload|, longest, j));
      XorAssociates(old(buffer[j]), ByteAt(payload, j), LengthByte(|payload|, longest, j));
    }
  }

  /** XORs a repair payload onto a buffer. */
  method XorRepair(buffer: array<Byte>, payload: Payload)
    requires |payload| <= buffer.Length
    modifies buffer
    ensures buffer[..] == XorOnto(old(buffer[..]), Plain(payload, buffer.Length))
  {
    hide Xor8;
    for i := 0 to |payload|
      invariant forall j :: 0 <= j < i ==> buffer[j] == Xor8(old(buffer[j]), payload[j])
      invariant forall j :: i <= j < buffer.Length ==> buffer[j] == old(buffer[j])
    {
      buffer[i] := Xor8(buffer[i], payload[i]);
    }
    forall j | 0 <= j < buffer.Length ensures buffer[j] == XorOnto(old(buffer[..]), Plain(payload, buffer.Length))[j] {
      assert old(buffer[..])[j] == old(buffer[j]);
      XorZero(old(buffer[j]));
    }
  }
}
