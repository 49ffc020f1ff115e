/**
 The usbmuxd wire frame: a 16-byte little-endian header
 `totalLength, version, messageType, tag` followed by the payload bytes.
 `totalLength` counts the header itself.
 */
module Frame {
  import opened Bytes
  import opened Results

  const HeaderSize: nat := 16

  /** The header fields every frame this client builds carries. */
  const ProtocolVersion: u32 := 1
  const PlistMessage: u32 := 8
  const FirstTag: u32 := 1

  datatype Header = Header(totalLength: u32, version: u32, messageType: u32, tag: u32)

  datatype BuildError = FrameTooLarge(payloadLength: nat)

  /** The sixteen header bytes; the length read at the front is the frame's length field. */
  function EncodeHeader(h: Header): (r: seq<byte>)
    ensures |r| == HeaderSize
    ensures ReadU32LE(r) == h.totalLength
  {
    ReadWrite(h.totalLength);
    U32LE(h.totalLength) + U32LE(h.version) + U32LE(h.messageType) + U32LE(h.tag)
  }

  /**
   The header held in the first sixteen bytes of `b`. Its length field is the length
   a parser reads at the front of `b`.
   */
  function DecodeHeader(b: seq<byte>): (h: Header)
    requires |b| >= HeaderSize
    ensures h.totalLength == ReadU32LE(b)
  {
    ReadSamePrefix(b[0..4], b);
    Header(ReadU32LE(b[0..4]), ReadU32LE(b[4..8]), ReadU32LE(b[8..12]), ReadU32LE(b[12..16]))
  }

  /** Decoding an encoded header gives back every field. */
  lemma HeaderRoundTrip(h: Header, rest: seq<byte>)
    ensures DecodeHeader(EncodeHeader(h) + rest) == h
  {
    var b := EncodeHeader(h) + rest;
    assert b[0..4] == U32LE(h.totalLength);
    assert b[4..8] == U32LE(h.version);
    assert b[8..12] == U32LE(h.messageType);
    assert b[12..16] == U32LE(h.tag);
    ReadWrite(h.totalLength);
    ReadWrite(h.version);
    ReadWrite(h.messageType);
    ReadWrite(h.tag);
  }

  /** Every sixteen bytes are the encoding of the header they decode to. */
  lemma HeaderBytesRoundTrip(b: seq<byte>)
    requires |b| == HeaderSize
    ensures EncodeHeader(DecodeHeader(b)) == b
  {
    WriteRead(b[0..4]);
    WriteRead(b[4..8]);
    WriteRead(b[8..12]);
    WriteRead(b[12..16]);
    assert b == b[0..4] + b[4..8] + b[8..12] + b[12..16];
  }

  /**
   Frames `payload` behind a header whose length field is the whole frame's length.
   A frame whose length does not fit the 32-bit length field cannot be built.
   */
  function EncodeFrame(version: u32, messageType: u32, tag: u32, payload: seq<byte>)
    : (r: Result<seq<byte>, BuildError>)
    ensures r.Ok? <==> HeaderSize + |payload| < U32Limit
    ensures r.Err? ==> r.error == FrameTooLarge(|payload|)
    ensures r.Ok? ==>
      && |r.value| == HeaderSize + |payload|
      && DecodeHeader(r.value) == Header(|r.value|, version, messageType, tag)
      && ReadU32LE(r.value) == |r.value|
      && r.value[HeaderSize..] == payload
  {
    if HeaderSize + |payload| < U32Limit then
      var frame := EncodeHeader(Header(HeaderSize + |payload|, version, messageType, tag)) + payload;
      HeaderRoundTrip(Header(HeaderSize + |payload|, version, messageType, tag), payload);
      assert frame[0..4] == frame[..4];
      Ok(frame)
    else
      Err(FrameTooLarge(|payload|))
  }
}
