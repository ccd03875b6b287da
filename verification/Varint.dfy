/** Variable-length integers: quicvarint/varint.go, section 16 of RFC 9000. */
module Varint {
  import opened Common

  const MAX_VARINT_1: nat := 63
  const MAX_VARINT_2: nat := 16383
  const MAX_VARINT_4: nat := 1073741823
  const MAX_VARINT_8: nat := 4611686018427387903

  /** The source refuses numbers above MAX_VARINT_8. */
  function Len(i: nat): nat {
    if i <= MAX_VARINT_1 then 1 else if i <= MAX_VARINT_2 then 2 else if i <= MAX_VARINT_4 then 4 else 8
  }

  function Pow256(n: nat): nat {
    if n == 0 then 1 else 256 * Pow256(n - 1)
  }

  /** The lowest n bytes of a number, most significant first. */
  function BigEndian(i: nat, n: nat): (b: seq<Byte>)
    ensures |b| == n
  {
    if n == 0 then [] else BigEndian(i / 256, n - 1) + [i % 256]
  }

  function Value(b: seq<Byte>): nat {
    if b == [] then 0 else 256 * Value(b[..|b| - 1]) + b[|b| - 1]
  }

  lemma {:induction false} ValueOfBigEndian(i: nat, n: nat)
    requires i < Pow256(n)
    ensures Value(BigEndian(i, n)) == i
  {
    if n > 0 {
      var b := BigEndian(i, n);
      assert b[..n - 1] == BigEndian(i / 256, n - 1) && b[n - 1] == i % 256;
      ValueOfBigEndian(i / 256, n - 1);
    }
  }

  predicate IsLength(n: nat) {
    n == 1 || n == 2 || n == 4 || n == 8
  }

  /** The two highest bits of the first byte encode the length. */
  function Code(n: nat): nat
    requires IsLength(n)
  {
    if n == 1 then 0 else if n == 2 then 1 else if n == 4 then 2 else 3
  }

  function LengthOf(first: Byte): (n: nat)
    ensures IsLength(n)
  {
    if first < 0x40 then 1 else if first < 0x80 then 2 else if first < 0xc0 then 4 else 8
  }

  /** The encoding of a number in n bytes. */
  function Encoded(i: nat, n: nat): (b: seq<Byte>)
    requires IsLength(n) && i <= MAX_VARINT_8 && Len(i) <= n
    ensures |b| == n
  {
    TopByte(i, n);
    var d := BigEndian(i, n);
    [0x40 * Code(n) + d[0]] + d[1..]
  }

  /** The number at the start of some bytes, and how many bytes it takes; None if there are too few. */
  function Read(b: seq<Byte>): (r: Option<(nat, nat)>)
    ensures r.Some? ==> 0 < r.value.1 <= |b|
  {
    if b == [] then None
    else
      var n := LengthOf(b[0]);
      if |b| < n then None else Some((Value([b[0] % 0x40] + b[1..n]), n))
  }

  lemma Fits(i: nat, n: nat)
    requires IsLength(n) && i <= MAX_VARINT_8 && Len(i) <= n
    ensures i < 0x40 * Pow256(n - 1) && Pow256(n) == 256 * Pow256(n - 1)
  {
    assert Pow256(1) == 256 && Pow256(3) == 256 * 256 * 256;
    assert Pow256(7) == 256 * 256 * 256 * 256 * 256 * 256 * 256 by {
      assert Pow256(5) == 256 * 256 * Pow256(3);
      assert Pow256(7) == 256 * 256 * Pow256(5);
    }
  }

  /** The most significant byte. */
  lemma {:induction false} FirstByte(i: nat, n: nat, m: nat)
    requires n > 0 && i < m * Pow256(n - 1) && m <= 256
    ensures BigEndian(i, n)[0] < m
  {
    if n == 1 {
      assert BigEndian(i, 1) == [i % 256];
    } else {
      assert i / 256 < m * Pow256(n - 2);
      FirstByte(i / 256, n - 1, m);
      assert BigEndian(i, n)[0] == BigEndian(i / 256, n - 1)[0];
    }
  }

  lemma TopByte(i: nat, n: nat)
    requires IsLength(n) && i <= MAX_VARINT_8 && Len(i) <= n
    ensures BigEndian(i, n)[0] < 0x40
  {
    Fits(i, n);
    FirstByte(i, n, 0x40);
  }

  /** Reading inverts encoding in any admissible length, whatever follows. */
  lemma ReadEncoded(i: nat, n: nat, rest: seq<Byte>)
    requires IsLength(n) && i <= MAX_VARINT_8 && Len(i) <= n
    ensures Read(Encoded(i, n) + rest) == Some((i, n))
  {
    TopByte(i, n);
    Fits(i, n);
    ValueOfBigEndian(i, n);
    var d, b := BigEndian(i, n), Encoded(i, n) + rest;
    assert [b[0] % 0x40] + b[1..n] == d;
  }

  /** The shortest encoding. */
  function Append(i: nat): (b: seq<Byte>)
    requires i <= MAX_VARINT_8
    ensures |b| == Len(i) && Read(b) == Some((i, Len(i)))
  {
    ReadEncoded(i, Len(i), []);
    assert Encoded(i, Len(i)) + [] == Encoded(i, Len(i));
    Encoded(i, Len(i))
  }

  /** Reading inverts the shortest encoding, whatever follows. */
  lemma ReadAppended(i: nat, rest: seq<Byte>)
    requires i <= MAX_VARINT_8
    ensures Read(Append(i) + rest) == Some((i, Len(i)))
  {
    ReadEncoded(i, Len(i), rest);
  }

  lemma {:induction false} BigEndianZeros(i: nat, l: nat, n: nat)
    requires l <= n && i < Pow256(l)
    ensures BigEndian(i, n) == seq(n - l, _ => 0) + BigEndian(i, l)
  {
    if l == 0 {
      ZeroBytes(n);
    } else {
      BigEndianZeros(i / 256, l - 1, n - 1);
    }
  }

  lemma {:induction false} ZeroBytes(n: nat)
    ensures BigEndian(0, n) == seq(n, _ => 0)
  {
    if n > 0 {
      ZeroBytes(n - 1);
    }
  }

  /** Shifts a number to the right by k bytes. */
  function Shift(i: nat, k: nat): nat {
    if k == 0 then i else Shift(i / 256, k - 1)
  }

  /** The byte at a position, counted from the least significant one. */
  lemma {:induction false} ByteAt(i: nat, n: nat, j: nat)
    requires j < n
    ensures BigEndian(i, n)[n - 1 - j] == Shift(i, j) % 256
  {
    if j > 0 {
      ByteAt(i / 256, n - 1, j - 1);
      assert BigEndian(i, n)[n - 1 - j] == BigEndian(i / 256, n - 1)[n - 1 - j];
    }
  }

  lemma WithZeros(i: nat, l: nat, n: nat)
    requires IsLength(n) && i <= MAX_VARINT_8 && l == Len(i) < n
    ensures Encoded(i, n) == [0x40 * Code(n)] + seq(n - l - 1, _ => 0) + BigEndian(i, l)
  {
    Fits(i, l);
    BigEndianZeros(i, l, n);
  }

  /** Encodes a number in a given length, byte by byte. */
  method AppendWithLen(b: seq<Byte>, i: nat, length: nat) returns (r: seq<Byte>)
    requires i <= MAX_VARINT_8 && IsLength(length) && Len(i) <= length
    ensures r == b + Encoded(i, length)
  {
    hide BigEndian, Encoded;
    var l := Len(i);
    if l == length {
      return b + Append(i);
    }
    WithZeros(i, l, length);
    r := b + [if length == 2 then 0x40 else if length == 4 then 0x80 else 0xc0];
    ghost var first := r;
    for j := 1 to length - l
      invariant r == first + seq(j - 1, _ => 0)
    {
      r := r + [0];
    }
    ghost var zeros := r;
    for j := 0 to l
      invariant r == zeros + BigEndian(i, l)[..j]
    {
      ByteAt(i, l, l - 1 - j);
      r := r + [Shift(i, l - 1 - j) % 256];
    }
  }
}
