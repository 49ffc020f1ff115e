/**
 The streaming usbmuxd message parser. One parser serves one connection: it keeps the
 bytes received so far, and each time a chunk arrives it emits, in order, the decoded
 payload of every frame that is now complete, keeping any partial frame for later.
 The header's version, type and tag fields play no part in parsing.
 */
module Parser {
  import opened Bytes
  import opened Results
  import opened Plist
  import opened Frame

  /** Why a connection's byte stream can no longer be parsed. */
  datatype Fault =
    | ImplausibleLength(totalLength: u32)  // the length field is shorter than a header
    | UndecodablePayload                   // the payload is not a property list

  /** The outcome of cutting a buffer into frames. */
  datatype Cut = Cut(messages: seq<Value>, rest: seq<byte>, fault: Option<Fault>)

  /** The parser of one connection: its retained bytes, or the fault that ended it. */
  datatype Stream = Streaming(buffer: seq<byte>) | Desynced(fault: Fault)

  /** What one call of the parser leaves behind and emits. */
  datatype Step = Step(next: Stream, messages: seq<Value>)

  const Fresh: Stream := Streaming([])

  /** `b` does not yet hold a whole frame, and nothing read so far is faulty. */
  predicate Pending(b: seq<byte>)
  {
    |b| < 4 || (HeaderSize <= ReadU32LE(b) && |b| < ReadU32LE(b))
  }

  /** A parser state that a call of `Feed` can leave behind. */
  predicate Settled(s: Stream)
  {
    s.Desynced? || Pending(s.buffer)
  }

  /**
   `frame` is one whole, well-formed frame whose payload decodes to `v`, whatever its
   version, type and tag fields hold.
   */
  predicate Carries(codec: Codec, frame: seq<byte>, v: Value)
  {
    && HeaderSize <= |frame|
    && ReadU32LE(frame) == |frame|
    && codec.decode(frame[HeaderSize..]) == Some(v)
  }

  /**
   Repeatedly reads the length at the front of `buf`, stops when fewer bytes than that
   are buffered, and otherwise decodes that frame's payload and goes on after it.
   */
  function Split(codec: Codec, buf: seq<byte>): (r: Cut)
    ensures |r.rest| <= |buf|
    ensures HeaderSize * |r.messages| <= |buf| - |r.rest|
    ensures r.fault.None? ==> Pending(r.rest)
    decreases |buf|
  {
    if |buf| < 4 then Cut([], buf, None)
    else
      var len := ReadU32LE(buf);
      if len < HeaderSize then Cut([], buf, Some(ImplausibleLength(len)))
      else if |buf| < len then Cut([], buf, None)
      else match codec.decode(buf[HeaderSize..len])
        case None => Cut([], buf, Some(UndecodablePayload))
        case Some(v) => Prepend(v, Split(codec, buf[len..]))
  }

  /** A cut with one more message in front. */
  function Prepend(v: Value, c: Cut): (r: Cut)
  {
    Cut([v] + c.messages, c.rest, c.fault)
  }

  /** The bytes retained after cutting are the last bytes of the buffer. */
  lemma {:induction false} SplitKeepsSuffix(codec: Codec, buf: seq<byte>)
    ensures var r := Split(codec, buf); r.rest == buf[|buf| - |r.rest|..]
    decreases |buf|
  {
    if |buf| >= 4 {
      var len := ReadU32LE(buf);
      if HeaderSize <= len <= |buf| && codec.decode(buf[HeaderSize..len]).Some? {
        var tail := buf[len..];
        SplitStep(codec, buf, len, codec.decode(buf[HeaderSize..len]).value);
        SplitKeepsSuffix(codec, tail);
        var rest := Split(codec, tail).rest;
        assert Split(codec, buf).rest == rest;
        assert tail[|tail| - |rest|..] == buf[|buf| - |rest|..];
        return;
      }
    }
    assert Split(codec, buf).rest == buf;
  }

  /** Accepts one chunk of bytes from the connection. */
  function Feed(codec: Codec, s: Stream, chunk: seq<byte>): (r: Step)
    ensures Settled(r.next)
    ensures s.Desynced? ==> r == Step(s, [])
  {
    match s
    case Desynced(_) => Step(s, [])
    case Streaming(buffer) =>
      var c := Split(codec, buffer + chunk);
      Step(Settle(c), c.messages)
  }

  /** The parser state a cut leaves: its remainder, or the fault that ended it. */
  function Settle(c: Cut): (s: Stream)
  {
    if c.fault.Some? then Desynced(c.fault.value) else Streaming(c.rest)
  }

  /** A fresh parser cuts the first chunk on its own. */
  lemma FeedFresh(codec: Codec, chunk: seq<byte>)
    ensures Feed(codec, Fresh, chunk) == Step(Settle(Split(codec, chunk)), Split(codec, chunk).messages)
  {
    assert [] + chunk == chunk;
  }

  /** Accepts a series of chunks, one after the other. */
  function FeedAll(codec: Codec, s: Stream, chunks: seq<seq<byte>>): (r: Step)
    ensures |chunks| > 0 || Settled(s) ==> Settled(r.next)
    ensures s.Desynced? ==> r == Step(s, [])
    decreases |chunks|
  {
    if |chunks| == 0 then Step(s, [])
    else
      var first := Feed(codec, s, chunks[0]);
      var others := FeedAll(codec, first.next, chunks[1..]);
      Step(others.next, first.messages + others.messages)
  }

  /** The bytes of all chunks, in order. */
  function Concat(chunks: seq<seq<byte>>): (bytes: seq<byte>)
    decreases |chunks|
  {
    if |chunks| == 0 then [] else chunks[0] + Concat(chunks[1..])
  }

  /** Continues a cut of some bytes once `more` bytes have arrived behind them. */
  function Resume(codec: Codec, c: Cut, more: seq<byte>): (r: Cut)
  {
    if c.fault.Some? then Cut(c.messages, c.rest + more, c.fault)
    else
      var d := Split(codec, c.rest + more);
      Cut(c.messages + d.messages, d.rest, d.fault)
  }

  /**
   Cutting `x + y` at once is the same as cutting `x` and resuming with `y`: the frames
   do not depend on where the byte stream was broken.
   */
  lemma {:induction false} SplitAppend(codec: Codec, x: seq<byte>, y: seq<byte>)
    ensures Split(codec, x + y) == Resume(codec, Split(codec, x), y)
    decreases |x|, 1
  {
    if |x| < 4 {
      assert [] + Split(codec, x + y).messages == Split(codec, x + y).messages;
    } else {
      assert (x + y)[..4] == x[..4];
      ReadSamePrefix(x + y, x);
      var len := ReadU32LE(x);
      if len < HeaderSize {
      } else if |x| < len {
        assert [] + Split(codec, x + y).messages == Split(codec, x + y).messages;
      } else {
        assert (x + y)[HeaderSize..len] == x[HeaderSize..len];
        match codec.decode(x[HeaderSize..len])
        case None =>
        case Some(v) =>
          SplitAppendFrame(codec, x, y, len, v);
      }
    }
  }

  /** The case of SplitAppend where `x` starts with a whole frame carrying `v`. */
  lemma {:induction false} SplitAppendFrame(codec: Codec, x: seq<byte>, y: seq<byte>, len: nat, v: Value)
    requires |x| >= 4 && len == ReadU32LE(x) && HeaderSize <= len <= |x|
    requires codec.decode(x[HeaderSize..len]) == Some(v)
    ensures Split(codec, x + y) == Resume(codec, Split(codec, x), y)
    decreases |x|, 0
  {
    var xy := x + y;
    assert xy[..4] == x[..4];
    assert xy[HeaderSize..len] == x[HeaderSize..len];
    assert xy[len..] == x[len..] + y;
    ReadSamePrefix(xy, x);
    calc {
      Split(codec, xy);
      { SplitStep(codec, xy, len, v); }
      Prepend(v, Split(codec, x[len..] + y));
      { SplitAppend(codec, x[len..], y); }
      Prepend(v, Resume(codec, Split(codec, x[len..]), y));
      { ResumePrepend(codec, v, Split(codec, x[len..]), y); }
      Resume(codec, Prepend(v, Split(codec, x[len..])), y);
      { SplitStep(codec, x, len, v); }
      Resume(codec, Split(codec, x), y);
    }
  }

  /** Resuming commutes with putting a message in front. */
  lemma ResumePrepend(codec: Codec, v: Value, c: Cut, more: seq<byte>)
    ensures Prepend(v, Resume(codec, c, more)) == Resume(codec, Prepend(v, c), more)
  {
    if c.fault.None? {
      var d := Split(codec, c.rest + more);
      assert [v] + (c.messages + d.messages) == ([v] + c.messages) + d.messages;
    }
  }

  /** Cutting a buffer that starts with a whole frame carrying `v`. */
  lemma SplitStep(codec: Codec, b: seq<byte>, len: nat, v: Value)
    requires |b| >= 4 && len == ReadU32LE(b) && HeaderSize <= len <= |b|
    requires codec.decode(b[HeaderSize..len]) == Some(v)
    ensures Split(codec, b) == Prepend(v, Split(codec, b[len..]))
  {
  }

  /** A buffer that holds no whole frame is kept as it is, and nothing is emitted. */
  lemma SplitPending(codec: Codec, b: seq<byte>)
    requires Pending(b)
    ensures Split(codec, b) == Cut([], b, None)
  {
  }

  /**
   Feeding two chunks one after the other emits the same messages, and leaves the same
   state, as feeding their concatenation once.
   */
  lemma FeedAppend(codec: Codec, s: Stream, a: seq<byte>, b: seq<byte>)
    ensures
      var first := Feed(codec, s, a);
      var second := Feed(codec, first.next, b);
      Feed(codec, s, a + b) == Step(second.next, first.messages + second.messages)
  {
    if s.Streaming? {
      assert s.buffer + (a + b) == (s.buffer + a) + b;
      SplitAppend(codec, s.buffer + a, b);
      var c := Split(codec, s.buffer + a);
      if c.fault.Some? {
        assert c.messages + [] == c.messages;
      }
    }
  }

  /**
   Reassembly: whatever the chunking, a settled parser fed a series of chunks behaves as
   if it had been fed all their bytes in one chunk.
   */
  lemma {:induction false} FeedAllIsFeedConcat(codec: Codec, s: Stream, chunks: seq<seq<byte>>)
    requires Settled(s)
    ensures FeedAll(codec, s, chunks) == Feed(codec, s, Concat(chunks))
    decreases |chunks|
  {
    if |chunks| == 0 {
      if s.Streaming? {
        assert s.buffer + [] == s.buffer;
        SplitPending(codec, s.buffer);
      }
    } else {
      var first := Feed(codec, s, chunks[0]);
      FeedAllIsFeedConcat(codec, first.next, chunks[1..]);
      FeedAppend(codec, s, chunks[0], Concat(chunks[1..]));
    }
  }

  /** A frame carrying `v` at the front of the buffer is emitted as `v`, and cutting goes on after it. */
  lemma SplitFrame(codec: Codec, frame: seq<byte>, v: Value, tail: seq<byte>)
    requires Carries(codec, frame, v)
    ensures Split(codec, frame + tail) == Prepend(v, Split(codec, tail))
  {
    assert (frame + tail)[..4] == frame[..4];
    ReadSamePrefix(frame + tail, frame);
    assert (frame + tail)[HeaderSize..|frame|] == frame[HeaderSize..];
    assert (frame + tail)[|frame|..] == tail;
    SplitStep(codec, frame + tail, |frame|, v);
  }

  /** One chunk holding exactly one whole frame makes a fresh parser emit exactly its message. */
  lemma OneFrameOneMessage(codec: Codec, frame: seq<byte>, v: Value)
    requires Carries(codec, frame, v)
    ensures Feed(codec, Fresh, frame) == Step(Fresh, [v])
  {
    SplitFrame(codec, frame, v, []);
    assert frame + [] == frame;
    assert Split(codec, []) == Cut([], [], None);
    assert Prepend(v, Cut([], [], None)) == Cut([v], [], None);
    FeedFresh(codec, frame);
  }

  /** Coalescing: one chunk holding K whole frames emits their K messages in order. */
  lemma {:induction false} FramesInOneChunk(codec: Codec, frames: seq<seq<byte>>, vs: seq<Value>)
    requires |frames| == |vs|
    requires forall i :: 0 <= i < |frames| ==> Carries(codec, frames[i], vs[i])
    ensures Feed(codec, Fresh, Concat(frames)) == Step(Fresh, vs)
    decreases |frames|
  {
    SplitFrames(codec, frames, vs);
    FeedFresh(codec, Concat(frames));
  }

  lemma {:induction false} SplitFrames(codec: Codec, frames: seq<seq<byte>>, vs: seq<Value>)
    requires |frames| == |vs|
    requires forall i :: 0 <= i < |frames| ==> Carries(codec, frames[i], vs[i])
    ensures Split(codec, Concat(frames)) == Cut(vs, [], None)
    decreases |frames|
  {
    if |frames| > 0 {
      SplitFrames(codec, frames[1..], vs[1..]);
      SplitFrame(codec, frames[0], vs[0], Concat(frames[1..]));
      assert [vs[0]] + vs[1..] == vs;
    }
  }

  /**
   Whole frames followed by the start of another: the whole frames are emitted in order
   and the unfinished one is kept for the next chunk.
   */
  lemma FramesThenPartial(codec: Codec, frames: seq<seq<byte>>, vs: seq<Value>, p: seq<byte>)
    requires |frames| == |vs|
    requires forall i :: 0 <= i < |frames| ==> Carries(codec, frames[i], vs[i])
    requires Pending(p)
    ensures Feed(codec, Fresh, Concat(frames) + p) == Step(Streaming(p), vs)
  {
    SplitFrames(codec, frames, vs);
    SplitAppend(codec, Concat(frames), p);
    SplitPending(codec, p);
    FeedFresh(codec, Concat(frames) + p);
    assert [] + p == p;
    assert vs + [] == vs;
  }

  /**
   Whole frames followed by one whose payload does not decode: the whole frames are
   emitted, then the parser is desynchronised and whatever follows is never read.
   */
  lemma FramesThenUndecodable(codec: Codec, frames: seq<seq<byte>>, vs: seq<Value>, bad: seq<byte>, tail: seq<byte>)
    requires |frames| == |vs|
    requires forall i :: 0 <= i < |frames| ==> Carries(codec, frames[i], vs[i])
    requires HeaderSize <= |bad| && ReadU32LE(bad) == |bad|
    requires codec.decode(bad[HeaderSize..]).None?
    ensures Feed(codec, Fresh, Concat(frames) + bad + tail) == Step(Desynced(UndecodablePayload), vs)
  {
    var rest := bad + tail;
    var all := Concat(frames) + rest;
    assert Concat(frames) + bad + tail == all;
    assert Split(codec, all) == Cut(vs, rest, Some(UndecodablePayload)) by {
      SplitUndecodable(codec, bad, tail);
      SplitFrames(codec, frames, vs);
      SplitAppend(codec, Concat(frames), rest);
      assert [] + rest == rest;
      assert vs + [] == vs;
    }
    FeedFresh(codec, all);
  }

  /** A frame whose payload does not decode stops the cut there, whatever follows it. */
  lemma SplitUndecodable(codec: Codec, bad: seq<byte>, tail: seq<byte>)
    requires HeaderSize <= |bad| && ReadU32LE(bad) == |bad|
    requires codec.decode(bad[HeaderSize..]).None?
    ensures Split(codec, bad + tail) == Cut([], bad + tail, Some(UndecodablePayload))
  {
    var rest := bad + tail;
    assert rest[..4] == bad[..4];
    ReadSamePrefix(rest, bad);
    assert rest[HeaderSize..|bad|] == bad[HeaderSize..];
  }

  /** A length field shorter than a header desynchronises the parser before anything is emitted. */
  lemma ShortLength(codec: Codec, b: seq<byte>)
    requires |b| >= 4 && ReadU32LE(b) < HeaderSize
    ensures Feed(codec, Fresh, b) == Step(Desynced(ImplausibleLength(ReadU32LE(b))), [])
  {
    FeedFresh(codec, b);
  }

  /** Never a partial frame: a strict prefix of a frame is retained whole and emits nothing. */
  lemma NoPartialFrame(codec: Codec, frame: seq<byte>, v: Value, k: nat)
    requires Carries(codec, frame, v)
    requires k < |frame|
    ensures Feed(codec, Fresh, frame[..k]) == Step(Streaming(frame[..k]), [])
  {
    FeedFresh(codec, frame[..k]);
    if k >= 4 {
      assert frame[..k][..4] == frame[..4];
      ReadSamePrefix(frame[..k], frame);
    }
    assert Pending(frame[..k]);
    SplitPending(codec, frame[..k]);
  }

  /**
   Fragmentation: one frame delivered as consecutive non-empty slices emits its message
   exactly once, on the last slice, and nothing before it.
   */
  lemma FragmentedFrame(codec: Codec, frame: seq<byte>, v: Value, chunks: seq<seq<byte>>)
    requires Carries(codec, frame, v)
    requires Concat(chunks) == frame
    requires forall i :: 0 <= i < |chunks| ==> chunks[i] != []
    ensures FeedAll(codec, Fresh, chunks) == Step(Fresh, [v])
    ensures forall k :: 0 <= k < |chunks| ==> FeedAll(codec, Fresh, chunks[..k]).messages == []
  {
    FeedAllIsFeedConcat(codec, Fresh, chunks);
    OneFrameOneMessage(codec, frame, v);
    forall k | 0 <= k < |chunks|
      ensures FeedAll(codec, Fresh, chunks[..k]).messages == []
    {
      ConcatSplit(chunks, k);
      ConcatNonEmpty(chunks[k..]);
      FeedAllIsFeedConcat(codec, Fresh, chunks[..k]);
      NoPartialFrame(codec, frame, v, |Concat(chunks[..k])|);
      assert frame[..|Concat(chunks[..k])|] == Concat(chunks[..k]);
    }
  }

  /** The bytes of a series of chunks are those of its first `k` chunks, then of the rest. */
  lemma {:induction false} ConcatSplit(chunks: seq<seq<byte>>, k: nat)
    requires k <= |chunks|
    ensures Concat(chunks) == Concat(chunks[..k]) + Concat(chunks[k..])
    decreases k
  {
    if k == 0 {
      assert chunks[k..] == chunks;
    } else {
      ConcatSplit(chunks[1..], k - 1);
      assert chunks[..k][1..] == chunks[1..][..k - 1];
      assert chunks[1..][k - 1..] == chunks[k..];
    }
  }

  /** A non-empty series of non-empty chunks holds at least one byte. */
  lemma ConcatNonEmpty(chunks: seq<seq<byte>>)
    requires |chunks| > 0
    requires forall i :: 0 <= i < |chunks| ==> chunks[i] != []
    ensures |Concat(chunks)| > 0
  {
  }

  /**
   The version, type and tag fields of a frame do not change what the parser emits for
   it and for what follows it, nor whether it faults.
   */
  lemma HeaderFieldsIgnored(codec: Codec, a: Header, b: Header, payload: seq<byte>, tail: seq<byte>)
    requires a.totalLength == b.totalLength
    ensures
      var x := Split(codec, EncodeHeader(a) + payload + tail);
      var y := Split(codec, EncodeHeader(b) + payload + tail);
      x.messages == y.messages && x.fault == y.fault
  {
    var x := EncodeHeader(a) + payload + tail;
    var y := EncodeHeader(b) + payload + tail;
    assert x[..4] == U32LE(a.totalLength) == y[..4];
    assert x[HeaderSize..] == payload + tail == y[HeaderSize..];
    SplitSameFrameBody(codec, x, y);
  }

  /** Two buffers that differ at most in bytes 4 to 15 are cut into the same messages. */
  lemma SplitSameFrameBody(codec: Codec, x: seq<byte>, y: seq<byte>)
    requires |x| == |y| >= HeaderSize
    requires x[..4] == y[..4] && x[HeaderSize..] == y[HeaderSize..]
    ensures Split(codec, x).messages == Split(codec, y).messages
    ensures Split(codec, x).fault == Split(codec, y).fault
  {
    ReadSamePrefix(x, y);
    var len := ReadU32LE(x);
    assert ReadU32LE(y) == len;
    if HeaderSize <= len <= |x| {
      assert x[len..] == x[HeaderSize..][len - HeaderSize..] == y[len..];
      assert x[HeaderSize..len] == x[HeaderSize..][..len - HeaderSize] == y[HeaderSize..len];
    }
  }

  /**
   The Attached fixture: its header holds length 0x2A8 and zero version, type and tag,
   and a fresh parser still emits its decoded payload.
   */
  lemma AttachedFixture(codec: Codec, frame: seq<byte>, v: Value)
    requires |frame| == 680
    requires frame[..HeaderSize] == [0xA8, 0x02, 0, 0, 0, 0, 0, 0, 0, 0, 0, 0, 0, 0, 0, 0]
    requires codec.decode(frame[HeaderSize..]) == Some(v)
    ensures Feed(codec, Fresh, frame) == Step(Fresh, [v])
  {
    assert frame[..4] == frame[..HeaderSize][..4];
    OneFrameOneMessage(codec, frame, v);
  }

  /**
   The Result fixture: its header holds length 0x126, version 1, type 8 and tag 1, and a
   fresh parser emits its decoded payload.
   */
  lemma ResultFixture(codec: Codec, frame: seq<byte>, v: Value)
    requires |frame| == 294
    requires frame[..HeaderSize] == [0x26, 0x01, 0, 0, 1, 0, 0, 0, 8, 0, 0, 0, 1, 0, 0, 0]
    requires codec.decode(frame[HeaderSize..]) == Some(v)
    ensures DecodeHeader(frame) == Header(294, ProtocolVersion, PlistMessage, FirstTag)
    ensures Feed(codec, Fresh, frame) == Step(Fresh, [v])
  {
    assert frame[0..4] == frame[..HeaderSize][0..4];
    assert frame[4..8] == frame[..HeaderSize][4..8];
    assert frame[8..12] == frame[..HeaderSize][8..12];
    assert frame[12..16] == frame[..HeaderSize][12..16];
    assert frame[..4] == frame[..HeaderSize][..4];
    OneFrameOneMessage(codec, frame, v);
  }
}
