/** What several components share. */
module Common {
  datatype Option<+T> = None | Some(value: T)

  type Byte = x: int | 0 <= x < 256

  /** The size of the buffers packets are built in. */
  const MAX_PACKET_BUFFER_SIZE: nat := 1452

  /** protocol.MaxByteCount, 2^62 - 1 */
  const MAX_BYTE_COUNT: nat := 4611686018427387903

  function Max(a: int, b: int): int {
    if a > b then a else b
  }

  function Min(a: int, b: int): int {
    if a < b then a else b
  }

  lemma {:induction false} SubsetSize<T>(a: set<T>, b: set<T>)
    requires a <= b
    ensures |a| <= |b| && (|a| == |b| ==> a == b)
    decreases b
  {
    if b != {} {
      var x :| x in b;
      SubsetSize(a - {x}, b - {x});
      if x in a {
        assert a == (a - {x}) + {x};
      }
    }
  }
}
