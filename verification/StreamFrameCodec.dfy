/** The encoding of STREAM frames: internal/wire/stream_frame.go, section 19.8 of RFC 9000. */
module StreamFrameCodec {
  import opened Common
  import opened StreamFrames
  import opened Varint

  /** A frame with what is on the wire only. */
  datatype WireFrame = WireFrame(streamID: nat, frame: StreamFrame, dataLenPresent: bool)

  /** A parsed frame and the number of bytes it took; or there were too few, or its data overflows the largest
      offset. */
  datatype ParseResult = Parsed(frame: WireFrame, length: nat) | Truncated | Overflow

  predicate Encodable(w: WireFrame) {
    w.streamID <= MAX_VARINT_8 && w.frame.offset <= MAX_VARINT_8 && |w.frame.data| <= MAX_VARINT_8
  }

  function TypeOf(w: WireFrame): Byte {
    0x8 + (if w.frame.fin then 0x1 else 0) + (if w.dataLenPresent then 0x2 else 0) +
    if w.frame.offset != 0 then 0x4 else 0
  }

  /** What follows the type. */
  function Fields(w: WireFrame): seq<Byte>
    requires Encodable(w)
  {
    Append(w.streamID) + (if w.frame.offset != 0 then Append(w.frame.offset) else []) +
    (if w.dataLenPresent then Append(|w.frame.data|) else []) + w.frame.data
  }

  /** Appends a frame; None if it is empty without a FIN. */
  method AppendFrame(b: seq<Byte>, w: WireFrame) returns (r: Option<seq<Byte>>)
    requires Encodable(w)
    ensures r.None? <==> w.frame.data == [] && !w.frame.fin
    ensures r.Some? ==> r.value == b + [TypeOf(w)] + Fields(w)
    ensures r.Some? && w.dataLenPresent ==> |r.value| == |b| + Length(w.streamID, w.frame)
  {
    hide Append;
    if w.frame.data == [] && !w.frame.fin {
      return None;
    }
    var typ := 0x8;
    if w.frame.fin {
      typ := typ + 0x1;
    }
    if w.dataLenPresent {
      typ := typ + 0x2;
    }
    if w.frame.offset != 0 {
      typ := typ + 0x4;
    }
    var c := b + [typ];
    c := c + Append(w.streamID);
    if w.frame.offset != 0 {
      c := c + Append(w.frame.offset);
    }
    if w.dataLenPresent {
      c := c + Append(|w.frame.data|);
    }
    return Some(c + w.frame.data);
  }

  /** The computed length is that of the encoding, and without a length field it is shorter by that field. */
  lemma LengthIsExact(w: WireFrame)
    requires Encodable(w)
    ensures 1 + |Fields(w)| == Length(w.streamID, w.frame) - if w.dataLenPresent then 0 else Len(|w.frame.data|)
  {
    hide Append;
  }

  /** Parses what follows the type of a frame.  The data of a parsed frame are the last bytes that it takes. */
  function Parse(typ: Byte, b: seq<Byte>): (r: ParseResult)
    ensures r.Parsed? ==>
              var f := r.frame.frame;
              && |f.data| <= r.length <= |b| && f.data == b[r.length - |f.data|..r.length]
              && |f.data| <= MAX_PACKET_BUFFER_SIZE && f.offset + |f.data| <= MAX_BYTE_COUNT
  {
    var hasOffset, hasDataLen, fin := typ / 4 % 2 == 1, typ / 2 % 2 == 1, typ % 2 == 1;
    var id := Read(b);
    if id.None? then Truncated
    else
      var offset := if hasOffset then Read(b[id.value.1..]) else Some((0, 0));
      if offset.None? then Truncated
      else
        var n := id.value.1 + offset.value.1;
        var len := if hasDataLen then Read(b[n..]) else Some((|b| - n, 0));
        if len.None? || len.value.0 > MAX_PACKET_BUFFER_SIZE || len.value.0 > |b| - n - len.value.1 then Truncated
        else if offset.value.0 + len.value.0 > MAX_BYTE_COUNT then Overflow
        else
          var start := n + len.value.1;
          var end := start + len.value.0;
          Parsed(WireFrame(id.value.0, StreamFrame(offset.value.0, b[start..end], fin), hasDataLen), end)
  }

  /** The type tells which fields there are. */
  lemma TypeTells(w: WireFrame)
    ensures TypeOf(w) / 4 % 2 == 1 <==> w.frame.offset != 0
    ensures TypeOf(w) / 2 % 2 == 1 <==> w.dataLenPresent
    ensures TypeOf(w) % 2 == 1 <==> w.frame.fin
  {
  }

  function OffsetLen(w: WireFrame): nat {
    if w.frame.offset != 0 then Len(w.frame.offset) else 0
  }

  function SizeLen(w: WireFrame): nat {
    if w.dataLenPresent then Len(|w.frame.data|) else 0
  }

  lemma Slices(x: seq<Byte>, y: seq<Byte>, z: seq<Byte>, t: seq<Byte>)
    ensures var b := x + y + z + t;
            && b == x + (y + z + t) && b[|x|..] == y + (z + t) && b[|x| + |y|..] == z + t
            && b[|x| + |y| + |z|..] == t
  {
  }

  /** Where the fields are. */
  lemma Layout(w: WireFrame, rest: seq<Byte>)
    requires Encodable(w)
    ensures var b, n := Fields(w) + rest, Len(w.streamID) + OffsetLen(w);
            && |Fields(w)| == n + SizeLen(w) + |w.frame.data|
            && Read(b) == Some((w.streamID, Len(w.streamID)))
            && (w.frame.offset != 0 ==> Read(b[Len(w.streamID)..]) == Some((w.frame.offset, OffsetLen(w))))
            && (w.dataLenPresent ==> Read(b[n..]) == Some((|w.frame.data|, SizeLen(w))))
            && b[n + SizeLen(w)..] == w.frame.data + rest
  {
    hide Append, Read, Len;
    var b := Fields(w) + rest;
    var x := Append(w.streamID);
    var y := if w.frame.offset != 0 then Append(w.frame.offset) else [];
    var z := if w.dataLenPresent then Append(|w.frame.data|) else [];
    var tail := w.frame.data + rest;
    assert b == x + y + z + tail;
    Slices(x, y, z, tail);
    ReadAppended(w.streamID, y + z + tail);
    if w.frame.offset != 0 {
      ReadAppended(w.frame.offset, z + tail);
    }
    if w.dataLenPresent {
      ReadAppended(|w.frame.data|, tail);
    }
  }

  /** Parsing inverts appending, whatever follows, exactly if the data fit into a packet buffer and below the largest
      offset, and the frame says how long it is or nothing follows. */
  lemma RoundTrip(w: WireFrame, rest: seq<Byte>)
    requires Encodable(w)
    ensures Parse(TypeOf(w), Fields(w) + rest) == Parsed(w, |Fields(w)|) <==>
              && |w.frame.data| <= MAX_PACKET_BUFFER_SIZE
              && w.frame.offset + |w.frame.data| <= MAX_BYTE_COUNT
              && (w.dataLenPresent || rest == [])
  {
    hide Append, Read, Len, Fields, TypeOf;
    TypeTells(w);
    Layout(w, rest);
    var b, start := Fields(w) + rest, |Fields(w)| - |w.frame.data|;
    assert b[start..][..|w.frame.data|] == w.frame.data;
  }

  /** No two frames have the same encoding. */
  lemma Unambiguous(v: WireFrame, w: WireFrame)
    requires Encodable(v) && Encodable(w) && TypeOf(v) == TypeOf(w) && Fields(v) == Fields(w)
    requires |v.frame.data| <= MAX_PACKET_BUFFER_SIZE && v.frame.offset + |v.frame.data| <= MAX_BYTE_COUNT
    requires |w.frame.data| <= MAX_PACKET_BUFFER_SIZE && w.frame.offset + |w.frame.data| <= MAX_BYTE_COUNT
    ensures v == w
  {
    hide Fields, Parse;
    RoundTrip(v, []);
    RoundTrip(w, []);
  }
}
