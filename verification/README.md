# node-usbmux: usbmuxd framing, request building and CLI helpers in Dafny

This project models the core of `node-usbmux`, a host-side client of usbmuxd, the daemon
that multiplexes TCP-like connections over USB to an iOS device. The model covers four parts.

- **Frame layout** (`frame.dfy`, `bytes.dfy`). A usbmuxd message is a 16-byte header of four
  little-endian unsigned 32-bit fields, then an opaque payload. The fields are `totalLength`,
  `version`, `messageType` and `tag`; `totalLength` counts the header too.
- **Request builder** (`builder.dfy`). It builds the `Listen` request and the
  `Connect(deviceId, port)` request. Both carry version 1, type 8 and tag 1. Building keeps
  no state, so every request carries tag 1. The Connect request writes `PortNumber` as the
  16-bit byte swap of the port.
- **Streaming parser** (`parser.dfy`). One parser serves one connection and keeps a buffer.
  On each chunk it emits the decoded payload of every frame that is now complete, in order.
  It keeps a partial frame for later and never emits one.
- **CLI helpers** (`cli.dfy`). These are `parsePorts`, which reads a `device:relay` port pair,
  the `onErr` error classifier, and the verbosity-gated `info` printer. `panic`, which prints
  and exits, is modelled as an error result.

The property-list (XML plist) codec is a parameter `Codec(encode, decode)`. It is never
defined. `ReadsBack(codec, v)` says that `decode` reads back what `encode` writes for `v`. Payload
values are strings, integers and ordered dictionaries (`plist.dfy`).

The library file that holds the framer and builder, `lib/usbmux.js`, is not part of this
model. The framer and builder are therefore specified by the fixtures and tests in
`test/tests.js`, not transcribed. Where the tests fix no behaviour, the model makes these
choices:

- The parser reads a frame's length once four bytes are buffered.
- A length field below 16 is an `ImplausibleLength` fault.
- A payload the codec cannot decode is an `UndecodablePayload` fault.
- After a fault the parser is `Desynced`. It emits nothing more and drops its buffer.
- A frame whose length does not fit the 32-bit length field is not built: `FrameTooLarge`.
- `Swap16(p)` is `(p mod 256) * 256 + (p div 256) mod 256`. For every 32-bit integer this
  equals JavaScript's `((p & 0xFF) << 8) | ((p >> 8) & 0xFF)`, and it yields the fixture
  values 5632 and 53764.

In `bin/cli.js` the comment on `info` says only an `undefined` last argument is dropped.
The code drops any falsy one, and the model follows the code.

## Model

| member | source | states |
|---|---|---|
| Bytes.U32LE | test/tests.js:18-25 | a 32-bit header field is written as four bytes, least significant first: the first byte is the value's lowest byte and the last its highest |
| Bytes.ReadU32LE | test/tests.js:18-25 | the first four bytes of a buffer read as a 32-bit header field, least significant first: the value's lowest byte is the first byte and its highest the fourth |
| Bytes.ReadWrite | test/tests.js:18-25 | reading back the four little-endian bytes written for a 32-bit value gives the value |
| Bytes.WriteRead | test/tests.js:108-128 | any four header bytes the parser reads are the little-endian encoding of the value they are read as |
| Frame.HeaderRoundTrip | test/tests.js:18-25 | decoding an encoded 16-byte header gives back length, version, type and tag, whatever follows it |
| Frame.HeaderBytesRoundTrip | test/tests.js:108-128 | every 16 bytes re-encode to themselves from the header they decode to |
| Frame.EncodeHeader | test/tests.js:18-25 | the header is 16 bytes long, and the length a parser reads from its first four bytes is the frame's totalLength |
| Frame.DecodeHeader | test/tests.js:53 | the decoded totalLength is the length a parser reads from the first four bytes of the buffer, whatever the other twelve hold |
| Frame.EncodeFrame | test/tests.js:18-25 | the frame is 16 + payload bytes long, its header decodes to that length and the given version, type and tag, and the payload follows unchanged; it fails with FrameTooLarge exactly when the length does not fit 32 bits |
| Builder.Swap16 | test/tests.js:20-25 | the port number is below 65536, its low byte is the port's high byte, and its high byte is the port's low byte |
| Builder.SwapTwice | test/tests.js:20-25 | swapping twice gives back the port's 16-bit value |
| Builder.SwapInjective | test/tests.js:20-25 | two ports swap to the same number exactly when their 16-bit values agree |
| Builder.SwapExamples | test/tests.js:20-25 | port 22 is sent as 5632 and port 1234 as 53764 |
| Builder.Listen | test/tests.js:69-73 | the Listen request is a frame with version 1, type 8, tag 1 and the encoded Listen payload; it exists exactly when its length fits 32 bits |
| Builder.Connect | test/tests.js:79-87 | every Connect request, for any device and port, is a frame with version 1, type 8 and tag 1 around the encoded Connect payload; the tag never advances |
| Builder.ClientFrameHeader | test/tests.js:18-25 | the first 16 bytes of a built frame are the encoding of length, 1, 8, 1 |
| Builder.ConnectFixtureHeader | test/tests.js:24 | given a 476-byte payload, connect(12, 22) starts with the fixture header EC 01 00 00 01 00 00 00 08 00 00 00 01 00 00 00 |
| Builder.ConnectFixtureHeaderLonger | test/tests.js:25 | given a 477-byte payload, connect(21, 1234) starts with the fixture header whose length is one more, ED 01 00 00 |
| Builder.ListenFixtureHeader | test/tests.js:18 | given a 371-byte payload, the Listen request starts with the fixture header 83 01 00 00 01 00 00 00 08 00 00 00 01 00 00 00 |
| Builder.ListenPayload | test/tests.js:18 | the Listen request's dictionary holds the keys MessageType, ClientVersionString and ProgName, in that order |
| Builder.ConnectPayload | test/tests.js:24-25 | the Connect request's dictionary holds the keys MessageType, ClientVersionString, ProgName, DeviceID and PortNumber, in that order |
| Builder.ListenFields | test/tests.js:18 | the Listen dictionary reads MessageType "Listen", ClientVersionString and ProgName "node-usbmux", and has no DeviceID |
| Builder.ConnectFields | test/tests.js:24-25 | the Connect dictionary reads MessageType "Connect", ClientVersionString and ProgName "node-usbmux", DeviceID the device unchanged, and PortNumber the swapped port |
| Builder.BuiltFrameCarries | test/tests.js:108-118 | a built frame around a value the codec reads back is one whole frame, and a fresh parser fed it emits exactly that value |
| Builder.ConnectRoundTrip | test/tests.js:20-25 | when the codec reads the Connect dictionary back, a parser fed a Connect frame emits exactly that dictionary, naming Connect, the device unchanged and the port swapped, and is left empty |
| Builder.ListenRoundTrip | test/tests.js:17-18 | when the codec reads the Listen dictionary back, a parser fed the Listen frame emits exactly that dictionary and is left empty |
| Parser.Split | test/tests.js:96-230 | no more bytes are retained than were buffered; each emitted message used at least 16 bytes; with no fault the remainder never holds a whole frame |
| Parser.SplitKeepsSuffix | test/tests.js:141-156 | the bytes retained after cutting are exactly the last bytes of the buffer |
| Parser.Feed | test/tests.js:112-117 | the parser is always left with no whole frame pending, and once desynchronised it emits nothing and stays so |
| Parser.SplitAppend | test/tests.js:141-156 | cutting x + y at once equals cutting x and resuming with y, so the frames do not depend on where the stream breaks |
| Parser.FeedAppend | test/tests.js:141-156 | feeding a then b emits the same messages in the same order, and leaves the same state, as feeding a + b |
| Parser.FeedAll | test/tests.js:149-154 | after at least one chunk, or from any state a feed can leave, the parser holds no whole frame; a desynchronised parser emits nothing and stays so |
| Parser.FeedAllIsFeedConcat | test/tests.js:141-166 | for any chunking, feeding the chunks in order equals feeding their concatenation once |
| Parser.SplitPending | test/tests.js:141-156 | a buffer holding no whole frame is kept as it is and emits nothing |
| Parser.SplitFrame | test/tests.js:197-216 | a whole frame carrying v at the front of the buffer is emitted as v, and cutting continues right after it |
| Parser.SplitFrames | test/tests.js:197-230 | the concatenation of K whole frames cuts into their K values in order, with nothing left over |
| Parser.OneFrameOneMessage | test/tests.js:108-128 | a chunk holding exactly one whole frame makes a fresh parser emit exactly its value and stay empty |
| Parser.FramesInOneChunk | test/tests.js:197-230 | one chunk holding K whole frames emits exactly their K values in concatenation order |
| Parser.FramesThenPartial | test/tests.js:141-230 | K whole frames followed by the start of another emit exactly the K values in order and keep the unfinished bytes for the next chunk |
| Parser.FramesThenUndecodable | test/tests.js:197-230 | whole frames followed by a frame whose payload does not decode emit exactly the whole frames' values, then leave the parser desynchronised with an UndecodablePayload fault, whatever bytes follow |
| Parser.ShortLength | test/tests.js:108-128 | a buffer whose length field is below 16 leaves a fresh parser desynchronised with an ImplausibleLength fault carrying that length, and emits nothing |
| Parser.NoPartialFrame | test/tests.js:141-156 | any strict prefix of a frame is retained whole and emits nothing |
| Parser.FragmentedFrame | test/tests.js:141-166 | a frame delivered as consecutive non-empty slices emits its value exactly once, after the last slice, and nothing before it |
| Parser.SplitSameFrameBody | test/tests.js:125-127 | two buffers that differ only in header bytes 4 to 15 are cut into the same messages with the same fault |
| Parser.HeaderFieldsIgnored | test/tests.js:125-127 | two frames differing only in version, type and tag make the parser emit the same messages and meet the same fault |
| Parser.AttachedFixture | test/tests.js:53 | a 680-byte frame whose header holds 0x2A8 and zero version, type and tag still emits its decoded payload |
| Parser.ResultFixture | test/tests.js:31-37 | a 294-byte frame whose header holds 0x126, version 1, type 8 and tag 1 decodes to that header and emits its decoded payload |
| Cli.SplitOn | bin/cli.js:90 | the parts number one more than the colons, contain no colon, and join back to the input |
| Cli.SplitJoin | bin/cli.js:90 | splitting the join of colon-free parts gives back those parts |
| Cli.ParsePorts | bin/cli.js:88-105 | any failure is the "Error parsing ports." panic; an argument without exactly one colon fails; on success both sides are non-empty and the pair is their numbers, device port first |
| Cli.ParsePortsSides | bin/cli.js:90-104 | for colon-free a and b, "a:b" parses exactly when both sides are non-empty numbers, to (number of a, number of b), with no range or integer check |
| Cli.OneColonIsPair | bin/cli.js:90-93 | an argument with exactly one colon splits into two colon-free sides around it |
| Cli.ParsePortsExample | bin/cli.js:83-86 | "22:2222" parses to device port 22 and relay port 2222 |
| Cli.ParsePortsSecondExample | bin/cli.js:24 | "1234:1234", from the usage text, parses to device port 1234 and relay port 1234 |
| Cli.DecimalNumber | bin/cli.js:96-97 | a stand-in for `Number` on port strings: a string has a value exactly when it is a non-empty run of decimal digits, and the value is that run read as an exact non-negative whole number, without double rounding |
| Cli.DecimalNumeral | bin/cli.js:96-97 | the digits-only reading gives back n from the decimal numeral of n, for every natural n, so digits are read most significant first |
| Cli.ParsePortsNumerals | bin/cli.js:88-105 | the numerals of any two naturals joined by a colon parse to those two numbers, device port first |
| Cli.EmptySideRefused | bin/cli.js:96-97 | an empty side is refused even when the conversion reads "" as 0 |
| Cli.OnErr | bin/cli.js:54-65 | EADDRINUSE means port-in-use, ECONNREFUSED and EADDRNOTAVAIL mean daemon-not-found, and every other or missing code is unexpected |
| Cli.Info | bin/cli.js:32-37 | it prints only at verbosity exactly 1; then it prints a prefix of the arguments that is one shorter exactly when the last argument is falsy |
| Cli.InfoKeepsLabel | bin/cli.js:121-126 | a handler bound to a non-empty caption always prints that caption first |

## Left out

- Device registry, tunnel negotiation, the Relay proxy and every socket: the daemon
  connections of `createListener`, `connect`, `getTunnel` and `Relay` are event- and
  I/O-driven, and `lib/usbmux.js` is not part of this model.
- The property-list codec: XML text is not modelled. It is the `Codec` parameter, and the
  round-trip lemmas assume it reads back what it writes.
- The exact payload byte lengths: they depend on the codec's XML text.
  `Builder.ConnectFixtureHeader`, `Builder.ConnectFixtureHeaderLonger` and
  `Builder.ListenFixtureHeader` take them as hypotheses (476, 477 and 371 bytes).
- JavaScript's `Number` grammar (whitespace, hex, exponents, `Infinity`, decimals): `toNumber` is
  a parameter of `ParsePorts`, with `None` for NaN. The concrete example uses the digits-only
  reading `DecimalNumber`.
- Cli.DecimalNumber: reads a digit run as an exact natural. `Number` rounds numerals above
  2^53 to the nearest double and reads numerals beyond the double range as `Infinity`, which
  `parsePorts` accepts; neither rounding nor overflow is modelled.
- Builder.Connect takes an integer port. `parsePorts` can yield a fractional port; what the
  builder does with one is not fixed by the fixtures and is not modelled.
- The `'' + arg` coercion in `parsePorts`: the argument is modelled as a string already.
- `panic` printing and `process.exit`: a panic is an `Err` value, and `OnErr` returns its category.
  The printed texts, which include the daemon address and the error, are not modelled.
- yargs option handling, the `listen` / relay dispatch, the `DEBUG` variable and all
  console output.
- The fractional slice arithmetic of the fragmentation test. Fragmentation is modelled as
  any partition into consecutive non-empty slices, which includes the 2-way and 3-way
  splits the tests use.
