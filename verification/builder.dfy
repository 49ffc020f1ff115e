/**
 The two requests this client sends to usbmuxd: Listen, which subscribes to device
 attach and detach reports, and Connect, which asks for a tunnel to a port on a device.
 Each is one frame with version 1, type 8 and tag 1; building keeps no state, so every
 request carries the same tag.
 */
module Builder {
  import opened Bytes
  import opened Results
  import opened Plist
  import opened Frame
  import opened Parser

  const ClientName: string := "node-usbmux"

  /**
   The port as usbmuxd expects it: the two bytes of its 16-bit value swapped, that is,
   the port in network byte order read back as a little-endian number.
   */
  function Swap16(port: int): (r: nat)
    ensures r < 0x1_0000
    ensures LowByte(r) == HighByte(port) && HighByte(r) == LowByte(port)
  {
    LowByte(port) as int * 0x100 + HighByte(port) as int
  }

  /** Swapping twice gives back the port's 16-bit value. */
  lemma SwapTwice(port: int)
    ensures Swap16(Swap16(port)) == port % 0x1_0000
  {
    var lo, hi := LowByte(port) as int, HighByte(port) as int;
    assert port % 0x1_0000 == hi * 0x100 + lo;
    Digit(hi, lo);
    assert LowByte(Swap16(port)) as int == hi && HighByte(Swap16(port)) as int == lo;
  }

  /** Two ports are swapped to the same number exactly when their 16-bit values agree. */
  lemma SwapInjective(p: int, q: int)
    ensures Swap16(p) == Swap16(q) <==> p % 0x1_0000 == q % 0x1_0000
  {
    SwapTwice(p);
    SwapTwice(q);
  }

  /** The port numbers recorded in the Connect fixtures. */
  lemma SwapExamples()
    ensures Swap16(22) == 5632 && Swap16(1234) == 53764
  {
  }

  /** The Listen dictionary; its keys come in the order the fixture's text lists them. */
  function ListenPayload(): (v: Value)
    ensures v.Dict?
    ensures Keys(v.entries) == ["MessageType", "ClientVersionString", "ProgName"]
  {
    Dict([Entry("MessageType", Str("Listen")),
          Entry("ClientVersionString", Str(ClientName)),
          Entry("ProgName", Str(ClientName))])
  }

  /** The Connect dictionary; its keys come in the order the fixtures' text lists them. */
  function ConnectPayload(deviceId: int, port: int): (v: Value)
    ensures v.Dict?
    ensures Keys(v.entries) == ["MessageType", "ClientVersionString", "ProgName", "DeviceID", "PortNumber"]
  {
    Dict([Entry("MessageType", Str("Connect")),
          Entry("ClientVersionString", Str(ClientName)),
          Entry("ProgName", Str(ClientName)),
          Entry("DeviceID", Int(deviceId)),
          Entry("PortNumber", Int(Swap16(port)))])
  }

  /** A frame built by this client: version 1, type 8, tag 1, then the encoded payload. */
  predicate ClientFrame(frame: seq<byte>, payload: seq<byte>)
  {
    && |frame| == HeaderSize + |payload| < U32Limit
    && DecodeHeader(frame) == Header(|frame|, ProtocolVersion, PlistMessage, FirstTag)
    && frame[HeaderSize..] == payload
  }

  /** The Listen request. */
  function Listen(codec: Codec): (r: Result<seq<byte>, BuildError>)
    ensures r.Ok? <==> HeaderSize + |codec.encode(ListenPayload())| < U32Limit
    ensures r.Ok? ==> ClientFrame(r.value, codec.encode(ListenPayload()))
  {
    EncodeFrame(ProtocolVersion, PlistMessage, FirstTag, codec.encode(ListenPayload()))
  }

  /** The Connect request for `port` on the device usbmuxd numbers `deviceId`. */
  function Connect(codec: Codec, deviceId: int, port: int): (r: Result<seq<byte>, BuildError>)
    ensures r.Ok? <==> HeaderSize + |codec.encode(ConnectPayload(deviceId, port))| < U32Limit
    ensures r.Ok? ==> ClientFrame(r.value, codec.encode(ConnectPayload(deviceId, port)))
  {
    EncodeFrame(ProtocolVersion, PlistMessage, FirstTag, codec.encode(ConnectPayload(deviceId, port)))
  }

  /** A frame built from an encoded value is parsed back into that value. */
  lemma BuiltFrameCarries(codec: Codec, frame: seq<byte>, v: Value)
    requires ReadsBack(codec, v)
    requires ClientFrame(frame, codec.encode(v))
    ensures Carries(codec, frame, v)
    ensures Feed(codec, Fresh, frame) == Step(Fresh, [v])
  {
    assert frame[0..4] == frame[..4];
    OneFrameOneMessage(codec, frame, v);
  }

  /**
   Round trip of a Connect request: a parser fed the frame emits one Connect message
   naming the device unchanged and the port byte-swapped.
   */
  lemma ConnectRoundTrip(codec: Codec, deviceId: int, port: int)
    requires ReadsBack(codec, ConnectPayload(deviceId, port))
    requires Connect(codec, deviceId, port).Ok?
    ensures
      var step := Feed(codec, Fresh, Connect(codec, deviceId, port).value);
      && step.next == Fresh
      && step.messages == [ConnectPayload(deviceId, port)]
      && Field(step.messages[0], "MessageType") == Some(Str("Connect"))
      && Field(step.messages[0], "DeviceID") == Some(Int(deviceId))
      && Field(step.messages[0], "PortNumber") == Some(Int(Swap16(port)))
  {
    var v := ConnectPayload(deviceId, port);
    BuiltFrameCarries(codec, Connect(codec, deviceId, port).value, v);
    ConnectFields(deviceId, port);
  }

  /** The fields of a Connect payload, as a reader of the dictionary finds them. */
  lemma ConnectFields(deviceId: int, port: int)
    ensures Field(ConnectPayload(deviceId, port), "MessageType") == Some(Str("Connect"))
    ensures Field(ConnectPayload(deviceId, port), "ClientVersionString") == Some(Str(ClientName))
    ensures Field(ConnectPayload(deviceId, port), "ProgName") == Some(Str(ClientName))
    ensures Field(ConnectPayload(deviceId, port), "DeviceID") == Some(Int(deviceId))
    ensures Field(ConnectPayload(deviceId, port), "PortNumber") == Some(Int(Swap16(port)))
  {
    ConnectNames(deviceId, port);
    ConnectNumbers(deviceId, port);
  }

  /** The three string fields of a Connect payload. */
  lemma ConnectNames(deviceId: int, port: int)
    ensures Field(ConnectPayload(deviceId, port), "MessageType") == Some(Str("Connect"))
    ensures Field(ConnectPayload(deviceId, port), "ClientVersionString") == Some(Str(ClientName))
    ensures Field(ConnectPayload(deviceId, port), "ProgName") == Some(Str(ClientName))
  {
    var es := ConnectPayload(deviceId, port).entries;
    LookupAt(es, 1);
    LookupAt(es, 2);
  }

  /** The two integer fields of a Connect payload. */
  lemma ConnectNumbers(deviceId: int, port: int)
    ensures Field(ConnectPayload(deviceId, port), "DeviceID") == Some(Int(deviceId))
    ensures Field(ConnectPayload(deviceId, port), "PortNumber") == Some(Int(Swap16(port)))
  {
    var es := ConnectPayload(deviceId, port).entries;
    LookupAt(es, 3);
    LookupAt(es, 4);
  }

  /** The fields of the Listen payload, as a reader of the dictionary finds them. */
  lemma ListenFields()
    ensures Field(ListenPayload(), "MessageType") == Some(Str("Listen"))
    ensures Field(ListenPayload(), "ClientVersionString") == Some(Str(ClientName))
    ensures Field(ListenPayload(), "ProgName") == Some(Str(ClientName))
    ensures Field(ListenPayload(), "DeviceID") == None
  {
    var es := ListenPayload().entries;
    LookupAt(es, 1);
    LookupAt(es, 2);
  }

  /** Round trip of the Listen request: a parser fed the frame emits one Listen message. */
  lemma ListenRoundTrip(codec: Codec)
    requires ReadsBack(codec, ListenPayload())
    requires Listen(codec).Ok?
    ensures
      var step := Feed(codec, Fresh, Listen(codec).value);
      && step.next == Fresh
      && step.messages == [ListenPayload()]
      && Field(step.messages[0], "MessageType") == Some(Str("Listen"))
  {
    BuiltFrameCarries(codec, Listen(codec).value, ListenPayload());
  }

  /** The first sixteen bytes of a frame built by this client. */
  lemma ClientFrameHeader(frame: seq<byte>, payload: seq<byte>)
    requires ClientFrame(frame, payload)
    ensures frame[..HeaderSize] == EncodeHeader(Header(|frame|, ProtocolVersion, PlistMessage, FirstTag))
  {
    HeaderBytesRoundTrip(frame[..HeaderSize]);
    assert frame[..HeaderSize][0..4] == frame[0..4];
    assert frame[..HeaderSize][4..8] == frame[4..8];
    assert frame[..HeaderSize][8..12] == frame[8..12];
    assert frame[..HeaderSize][12..16] == frame[12..16];
  }

  /**
   The header of the Connect fixture for device 12, port 22: 0x1EC bytes. The fixture
   for device 21, port 1234 is one byte longer (0x1ED) because 53764 has one more digit
   than 5632 in the payload text.
   */
  lemma ConnectFixtureHeader(codec: Codec)
    requires |codec.encode(ConnectPayload(12, 22))| == 476
    ensures Connect(codec, 12, 22).Ok?
    ensures Connect(codec, 12, 22).value[..HeaderSize]
         == [0xEC, 0x01, 0, 0, 1, 0, 0, 0, 8, 0, 0, 0, 1, 0, 0, 0]
  {
    ClientFrameHeader(Connect(codec, 12, 22).value, codec.encode(ConnectPayload(12, 22)));
    assert U32LE(492) == [0xEC, 0x01, 0, 0];
  }

  /** The header of the Connect fixture for device 21, port 1234: 0x1ED bytes. */
  lemma ConnectFixtureHeaderLonger(codec: Codec)
    requires |codec.encode(ConnectPayload(21, 1234))| == 477
    ensures Connect(codec, 21, 1234).Ok?
    ensures Connect(codec, 21, 1234).value[..HeaderSize]
         == [0xED, 0x01, 0, 0, 1, 0, 0, 0, 8, 0, 0, 0, 1, 0, 0, 0]
  {
    ClientFrameHeader(Connect(codec, 21, 1234).value, codec.encode(ConnectPayload(21, 1234)));
    assert U32LE(493) == [0xED, 0x01, 0, 0];
  }

  /** The header of the Listen fixture: 0x183 bytes, version 1, type 8, tag 1. */
  lemma ListenFixtureHeader(codec: Codec)
    requires |codec.encode(ListenPayload())| == 371
    ensures Listen(codec).Ok?
    ensures Listen(codec).value[..HeaderSize]
         == [0x83, 0x01, 0, 0, 1, 0, 0, 0, 8, 0, 0, 0, 1, 0, 0, 0]
  {
    ClientFrameHeader(Listen(codec).value, codec.encode(ListenPayload()));
    assert U32LE(387) == [0x83, 0x01, 0, 0];
  }
}
