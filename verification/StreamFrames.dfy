/** STREAM frames as the send stream sees them: internal/wire/stream_frame.go.
    The data length field is always present while a frame belongs to a send stream. */
module StreamFrames {
  import opened Common
  import Varint

  datatype StreamFrame = StreamFrame(offset: nat, data: seq<Byte>, fin: bool)

  const MIN_STREAM_FRAME_SIZE: nat := 128

  function HeaderLen(streamID: nat, offset: nat): nat {
    1 + Varint.Len(streamID) + (if offset != 0 then Varint.Len(offset) else 0)
  }

  function Length(streamID: nat, f: StreamFrame): nat {
    HeaderLen(streamID, f.offset) + Varint.Len(|f.data|) + |f.data|
  }

  /** The most data a frame at this offset can carry in maxSize bytes; 0 if there is no room for a byte. */
  function MaxDataLen(streamID: nat, offset: nat, maxSize: nat): (r: nat)
    ensures r > 0 ==> r + 3 <= maxSize
  {
    var headerLen := HeaderLen(streamID, offset) + 1; // pretend that the length takes one byte
    if headerLen > maxSize then 0
    else if Varint.Len(maxSize - headerLen) != 1 then maxSize - headerLen - 1
    else maxSize - headerLen
  }

  /** No frame at this offset with so much data fits. */
  predicate TooLong(streamID: nat, offset: nat, len: nat, maxSize: nat) {
    HeaderLen(streamID, offset) + Varint.Len(len) + len > maxSize
  }

  /** The frame fits; or not even one byte does; or its head is split off. */
  datatype Split = Fits | NoRoom | SplitOff(head: StreamFrame, tail: StreamFrame)

  function MaybeSplitOff(streamID: nat, f: StreamFrame, maxSize: nat): Split
    requires |f.data| <= MAX_PACKET_BUFFER_SIZE
  {
    if maxSize >= Length(streamID, f) then Fits
    else
      var n := MaxDataLen(streamID, f.offset, maxSize);
      if n == 0 then NoRoom
      else
        SplitOff(StreamFrame(f.offset, f.data[..n], false), StreamFrame(f.offset + n, f.data[n..], f.fin))
  }

  /** A split keeps the contents: the two parts are adjacent, neither is empty, the head fits and could not hold one
      more byte, and only the tail can carry the FIN. */
  lemma SplitKeepsContents(streamID: nat, f: StreamFrame, maxSize: nat)
    requires |f.data| <= MAX_PACKET_BUFFER_SIZE
    ensures MaybeSplitOff(streamID, f, maxSize).SplitOff? ==>
              var s := MaybeSplitOff(streamID, f, maxSize);
              && s.head.data + s.tail.data == f.data
              && s.head.offset == f.offset
              && s.tail.offset == f.offset + |s.head.data|
              && 0 < |s.head.data| && 0 < |s.tail.data|
              && !s.head.fin && s.tail.fin == f.fin
              && Length(streamID, s.head) <= maxSize && TooLong(streamID, f.offset, |s.head.data| + 1, maxSize)
    ensures MaybeSplitOff(streamID, f, maxSize).NoRoom? <==>
              maxSize < Length(streamID, f) && MaxDataLen(streamID, f.offset, maxSize) == 0
  {
  }

  /** A frame filled up to MaxDataLen fits. */
  lemma MaxDataLenFits(streamID: nat, offset: nat, maxSize: nat, data: seq<Byte>, fin: bool)
    requires 0 < MaxDataLen(streamID, offset, maxSize) && |data| <= MAX_PACKET_BUFFER_SIZE
    requires |data| <= MaxDataLen(streamID, offset, maxSize)
    ensures Length(streamID, StreamFrame(offset, data, fin)) <= maxSize
  {
  }

  /** MaxDataLen is the most that fits, though the length field may grow with the data. */
  lemma MaxDataLenIsMost(streamID: nat, offset: nat, maxSize: nat, len: nat)
    ensures MaxDataLen(streamID, offset, maxSize) < len ==> TooLong(streamID, offset, len, maxSize)
    ensures 0 < len <= MAX_PACKET_BUFFER_SIZE ==>
              (len <= MaxDataLen(streamID, offset, maxSize) <==> !TooLong(streamID, offset, len, maxSize))
  {
  }

  /** There is no room for a single byte of data exactly when the header takes all but the length byte;
      the framer, which leaves MIN_STREAM_FRAME_SIZE bytes at least, always leaves room. */
  lemma NoRoomForOneByte(streamID: nat, offset: nat, maxSize: nat)
    ensures MaxDataLen(streamID, offset, maxSize) == 0 <==> maxSize <= HeaderLen(streamID, offset) + 1
    ensures maxSize >= MIN_STREAM_FRAME_SIZE ==> MaxDataLen(streamID, offset, maxSize) > 0
  {
  }
}
