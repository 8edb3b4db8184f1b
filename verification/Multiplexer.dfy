/**
  Framing on a connection: every message is written as a stream id, a length and its bytes, and read back by an
  incremental parser that gets the bytes in arbitrary pieces.
 */
module Multiplexer {
  import opened Common

  type Bytes = seq<Byte>

  const HEADER_LENGTH: nat := 8
  const MAX_MESSAGE_LENGTH: nat := 1000 * 1000 * 1024
  const U32_SIZE: nat := 0x1_0000_0000

  type StreamId = n: nat | n < U32_SIZE

  datatype Message = Message(stream: StreamId, body: Bytes)

  datatype ReadState =
    | ProcessingHeader(position: nat, header: Bytes)
    | ProcessingBody(msgLength: nat, stream: StreamId, sendBuffer: Bytes)
    | Failed

  const FRESH: ReadState := ProcessingHeader(0, [0, 0, 0, 0, 0, 0, 0, 0])

  // ---------- Big-endian numbers

  function U32(bs: Bytes): StreamId
    requires |bs| == 4
  {
    bs[0] as int * 0x100_0000 + bs[1] as int * 0x1_0000 + bs[2] as int * 256 + bs[3]
  }

  function U32Bytes(n: StreamId): Bytes {
    [n / 0x100_0000, n / 0x1_0000 % 256, n / 256 % 256, n % 256]
  }

  lemma {:induction false} U32RoundTrip(n: StreamId)
    ensures U32(U32Bytes(n)) == n
  {
    var a, b, c := n / 256, n / 0x1_0000, n / 0x100_0000;
    assert b == a / 256 && c == b / 256;
  }

  // ---------- The parser, one byte at a time

  /** A complete header starts a message on a known stream; an empty message is complete at once. */
  function Start(streams: set<StreamId>, header: Bytes): (ReadState, seq<Message>)
    requires |header| == HEADER_LENGTH
  {
    var stream, msgLength := U32(header[0..4]), U32(header[4..8]);
    if stream !in streams || msgLength > MAX_MESSAGE_LENGTH then (Failed, [])
    else if msgLength == 0 then (FRESH, [Message(stream, [])])
    else (ProcessingBody(msgLength, stream, []), [])
  }

  predicate AtRest(st: ReadState) {
    match st
    case ProcessingHeader(position, header) => position < HEADER_LENGTH && |header| == HEADER_LENGTH
    case ProcessingBody(msgLength, _, sendBuffer) => |sendBuffer| < msgLength
    case Failed => true
  }

  function FeedByte(streams: set<StreamId>, st: ReadState, b: Byte): (r: (ReadState, seq<Message>))
    requires AtRest(st)
    ensures AtRest(r.0)
  {
    match st
    case ProcessingHeader(position, header) =>
      if position + 1 < HEADER_LENGTH then (ProcessingHeader(position + 1, header[position := b]), [])
      else Start(streams, header[position := b])
    case ProcessingBody(msgLength, stream, sendBuffer) =>
      if |sendBuffer| + 1 < msgLength then (ProcessingBody(msgLength, stream, sendBuffer + [b]), [])
      else (FRESH, [Message(stream, sendBuffer + [b])])
    case Failed => (Failed, [])
  }

  /** Feeds all bytes; the state reached, and the messages delivered on the way. */
  function Feed(streams: set<StreamId>, st: ReadState, bytes: Bytes): (r: (ReadState, seq<Message>))
    requires AtRest(st)
    ensures AtRest(r.0)
    decreases |bytes|
  {
    if bytes == [] then (st, [])
    else
      var first := FeedByte(streams, st, bytes[0]);
      var rest := Feed(streams, first.0, bytes[1..]);
      (rest.0, first.1 + rest.1)
  }

  /** Feeds more bytes after a first result. */
  function Then(streams: set<StreamId>, first: (ReadState, seq<Message>), bytes: Bytes): (r: (ReadState, seq<Message>))
    requires AtRest(first.0)
    ensures AtRest(r.0)
  {
    var rest := Feed(streams, first.0, bytes);
    (rest.0, first.1 + rest.1)
  }

  lemma {:induction false} FeedConcat(streams: set<StreamId>, st: ReadState, a: Bytes, b: Bytes)
    requires AtRest(st)
    ensures Feed(streams, st, a + b) == Then(streams, Feed(streams, st, a), b)
    decreases |a|
  {
    if a == [] {
      assert a + b == b;
      NoMessages(Feed(streams, st, b).1);
    } else {
      assert (a + b)[1..] == a[1..] + b && (a + b)[0] == a[0];
      var first := FeedByte(streams, st, a[0]);
      FeedConcat(streams, first.0, a[1..], b);
      var middle := Feed(streams, first.0, a[1..]);
      var last := Feed(streams, middle.0, b);
      assert first.1 + (middle.1 + last.1) == first.1 + middle.1 + last.1;
    }
  }

  lemma NoMessages(msgs: seq<Message>)
    ensures [] + msgs == msgs && msgs + [] == msgs
  {
  }

  lemma {:induction false} FeedFailed(streams: set<StreamId>, bytes: Bytes)
    ensures Feed(streams, Failed, bytes) == (Failed, [])
    decreases |bytes|
  {
    if bytes != [] {
      FeedFailed(streams, bytes[1..]);
      NoMessages(Feed(streams, Failed, bytes[1..]).1);
    }
  }

  lemma {:induction false} FeedHeader(streams: set<StreamId>, position: nat, header: Bytes, bytes: Bytes)
    requires position < HEADER_LENGTH && |header| == HEADER_LENGTH && position + |bytes| <= HEADER_LENGTH
    ensures var filled := header[..position] + bytes + header[position + |bytes|..];
      Feed(streams, ProcessingHeader(position, header), bytes)
      == if position + |bytes| < HEADER_LENGTH then (ProcessingHeader(position + |bytes|, filled), [])
         else Start(streams, filled)
    decreases |bytes|
  {
    var filled := header[..position] + bytes + header[position + |bytes|..];
    if bytes == [] {
      assert filled == header;
    } else {
      var header' := header[position := bytes[0]];
      if position + 1 < HEADER_LENGTH {
        assert header'[..position + 1] + bytes[1..] + header'[position + |bytes|..] == filled;
        FeedHeader(streams, position + 1, header', bytes[1..]);
        NoMessages(Feed(streams, ProcessingHeader(position + 1, header'), bytes[1..]).1);
      } else {
        assert header' == filled && bytes[1..] == [];
        NoMessages(Start(streams, filled).1);
      }
    }
  }

  lemma {:induction false} FeedBody(streams: set<StreamId>, msgLength: nat, stream: StreamId, sent: Bytes, bytes: Bytes)
    requires |sent| < msgLength && |sent| + |bytes| <= msgLength
    ensures Feed(streams, ProcessingBody(msgLength, stream, sent), bytes)
         == if |sent| + |bytes| < msgLength then (ProcessingBody(msgLength, stream, sent + bytes), [])
            else (FRESH, [Message(stream, sent + bytes)])
    decreases |bytes|
  {
    if bytes == [] {
      assert sent + bytes == sent;
    } else {
      assert sent + [bytes[0]] + bytes[1..] == sent + bytes;
      if |sent| + 1 < msgLength {
        FeedBody(streams, msgLength, stream, sent + [bytes[0]], bytes[1..]);
        NoMessages(Feed(streams, ProcessingBody(msgLength, stream, sent + [bytes[0]]), bytes[1..]).1);
      } else {
        assert bytes[1..] == [] && sent + bytes == sent + [bytes[0]];
        FeedNothing(streams, FRESH);
        NoMessages([Message(stream, sent + bytes)]);
      }
    }
  }

  // ---------- The parser of the run loop, piece by piece

  /** A message whose last byte has arrived, or that has none, is sent on. */
  function Settle(st: ReadState): (ReadState, seq<Message>) {
    if st.ProcessingBody? && |st.sendBuffer| == st.msgLength then (FRESH, [Message(st.stream, st.sendBuffer)])
    else (st, [])
  }

  lemma FeedHeaderPart(streams: set<StreamId>, position: nat, header: Bytes, buf: Bytes)
    requires position < HEADER_LENGTH && |header| == HEADER_LENGTH
    ensures var n := Min(|buf|, HEADER_LENGTH - position);
      var filled := header[..position] + buf[..n] + header[position + n..];
      Feed(streams, ProcessingHeader(position, header), buf)
      == if position + n < HEADER_LENGTH then (ProcessingHeader(position + n, filled), [])
         else Then(streams, Start(streams, filled), buf[n..])
  {
    var n := Min(|buf|, HEADER_LENGTH - position);
    FeedHeader(streams, position, header, buf[..n]);
    FeedConcat(streams, ProcessingHeader(position, header), buf[..n], buf[n..]);
    assert buf == buf[..n] + buf[n..];
  }

  lemma FeedBodyPart(streams: set<StreamId>, msgLength: nat, stream: StreamId, sent: Bytes, buf: Bytes)
    requires |sent| <= msgLength
    ensures var n := Min(|buf|, msgLength - |sent|);
      Then(streams, Settle(ProcessingBody(msgLength, stream, sent)), buf)
      == if |sent| + n < msgLength then (ProcessingBody(msgLength, stream, sent + buf[..n]), [])
         else Then(streams, (FRESH, [Message(stream, sent + buf[..n])]), buf[n..])
  {
    var n := Min(|buf|, msgLength - |sent|);
    var st := ProcessingBody(msgLength, stream, sent);
    assert buf == buf[..n] + buf[n..];
    if |sent| < msgLength {
      FeedBody(streams, msgLength, stream, sent, buf[..n]);
      FeedConcat(streams, st, buf[..n], buf[n..]);
      NoMessages(Feed(streams, st, buf).1);
    } else {
      assert sent + buf[..n] == sent && buf[n..] == buf;
    }
  }

  class Connection {
    /** The streams with a running protocol; streams are only ever added. */
    var streamMap: set<StreamId>
    var readState: ReadState
    /** What the protocols have been sent, in order. */
    var delivered: seq<Message>
    /** The bytes written to the socket. */
    var written: Bytes

    constructor (streams: set<StreamId>)
      ensures streamMap == streams && readState == FRESH && delivered == [] && written == []
    {
      streamMap, readState, delivered, written := streams, FRESH, [], [];
    }

    method CreateStream(stream: StreamId) returns (ok: bool)
      modifies this`streamMap
      ensures ok == (stream !in old(streamMap)) && streamMap == old(streamMap) + {stream}
    {
      ok := stream !in streamMap;
      streamMap := streamMap + {stream};
    }

    method Send(msg: Message)
      requires |msg.body| < U32_SIZE
      modifies this`written
      ensures written == old(written) + Frame(msg)
    {
      written := written + U32Bytes(msg.stream);
      written := written + U32Bytes(|msg.body|);
      written := written + msg.body;
    }

    /** The read branch of the run loop. */
    method ReceiveChunk(buf: Bytes)
      requires AtRest(readState)
      modifies this`readState, this`delivered
      ensures (readState, delivered)
           == (Feed(streamMap, old(readState), buf).0, old(delivered) + Feed(streamMap, old(readState), buf).1)
      ensures AtRest(readState)
    {
      NoMessages(Feed(streamMap, readState, buf).1);
      readState := HandleReceive(readState, buf);
    }

    method HandleReceive(st: ReadState, buf: Bytes) returns (next: ReadState)
      requires AtRest(Settle(st).0)
      modifies this`delivered
      ensures var r := Then(streamMap, Settle(st), buf);
        next == r.0 && delivered == old(delivered) + r.1
      decreases |buf|, if st.ProcessingBody? then 1 else 0
    {
      hide Feed;
      match st {
        case ProcessingHeader(position, header) =>
          var receivedCount := Min(|buf|, HEADER_LENGTH - position);
          var high := position + receivedCount;
          var headerBuf, rest := buf[..receivedCount], buf[receivedCount..];
          var header' := header[..position] + headerBuf + header[high..];
          FeedHeaderPart(streamMap, position, header, buf);
          NoMessages(Feed(streamMap, st, buf).1);
          if high == HEADER_LENGTH {
            var stream := U32(header'[0..4]);
            var msgLength := U32(header'[4..8]);
            if stream !in streamMap || msgLength > MAX_MESSAGE_LENGTH {
              FeedFailed(streamMap, rest);
              return Failed;
            }
            next := HandleReceive(ProcessingBody(msgLength, stream, []), rest);
          } else {
            next := ProcessingHeader(high, header');
          }
        case ProcessingBody(msgLength, stream, sendBuffer) =>
          var receivedCount := Min(|buf|, msgLength - |sendBuffer|);
          var received, rest := buf[..receivedCount], buf[receivedCount..];
          var sendBuffer' := sendBuffer + received;
          FeedBodyPart(streamMap, msgLength, stream, sendBuffer, buf);
          if |sendBuffer'| == msgLength {
            delivered := delivered + [Message(stream, sendBuffer')];
            if rest != [] {
              next := HandleReceive(FRESH, rest);
            } else {
              next := FRESH;
              FeedNothing(streamMap, FRESH);
            }
          } else {
            next := ProcessingBody(msgLength, stream, sendBuffer');
          }
        case Failed =>
          FeedFailed(streamMap, buf);
          next := Failed;
      }
    }
  }

  lemma FeedNothing(streams: set<StreamId>, st: ReadState)
    requires AtRest(st)
    ensures Feed(streams, st, []) == (st, [])
  {
  }

  // ---------- Frames come through

  function Frame(msg: Message): Bytes
    requires |msg.body| < U32_SIZE
  {
    U32Bytes(msg.stream) + U32Bytes(|msg.body|) + msg.body
  }

  /** Where everything stands in a frame: first the stream id and then the length, the most significant byte first. */
  lemma FrameLayout(msg: Message)
    requires |msg.body| < U32_SIZE
    ensures var f := Frame(msg);
      && |f| == HEADER_LENGTH + |msg.body|
      && f[0] as int * 0x100_0000 + f[1] as int * 0x1_0000 + f[2] as int * 0x100 + f[3] as int == msg.stream
      && f[4] as int * 0x100_0000 + f[5] as int * 0x1_0000 + f[6] as int * 0x100 + f[7] as int == |msg.body|
      && f[HEADER_LENGTH..] == msg.body
  {
    U32RoundTrip(msg.stream);
    U32RoundTrip(|msg.body|);
  }

  ghost predicate Writable(msgs: seq<Message>) {
    forall k :: 0 <= k < |msgs| ==> |msgs[k].body| < U32_SIZE
  }

  function Frames(msgs: seq<Message>): Bytes
    requires forall k :: 0 <= k < |msgs| ==> |msgs[k].body| < U32_SIZE
  {
    if msgs == [] then [] else Frame(msgs[0]) + Frames(msgs[1..])
  }

  predicate Deliverable(streams: set<StreamId>, msg: Message) {
    msg.stream in streams && |msg.body| <= MAX_MESSAGE_LENGTH
  }

  /** A frame is delivered as the message it was written for, if that is allowed; otherwise the parser fails. */
  lemma {:induction false} FrameFate(streams: set<StreamId>, msg: Message)
    requires |msg.body| < U32_SIZE
    ensures Feed(streams, FRESH, Frame(msg)) == if Deliverable(streams, msg) then (FRESH, [msg]) else (Failed, [])
  {
    var header := U32Bytes(msg.stream) + U32Bytes(|msg.body|);
    U32RoundTrip(msg.stream);
    U32RoundTrip(|msg.body|);
    assert FRESH.header[..0] + header + FRESH.header[8..] == header;
    assert Frame(msg)[..8] == header && Frame(msg)[8..] == msg.body;
    assert header[0..4] == U32Bytes(msg.stream) && header[4..8] == U32Bytes(|msg.body|);
    assert U32(header[0..4]) == msg.stream && U32(header[4..8]) == |msg.body|;
    FeedHeaderPart(streams, 0, FRESH.header, Frame(msg));
    assert Feed(streams, FRESH, Frame(msg)) == Then(streams, Start(streams, header), msg.body);
    if Deliverable(streams, msg) {
      FeedBodyPart(streams, |msg.body|, msg.stream, [], msg.body);
      assert Start(streams, header) == Settle(ProcessingBody(|msg.body|, msg.stream, []));
      assert msg.body[..|msg.body|] == msg.body && [] + msg.body == msg.body;
      assert msg.body[|msg.body|..] == [];
      FeedNothing(streams, FRESH);
      NoMessages([msg]);
      assert Then(streams, (FRESH, [msg]), []) == (FRESH, [msg]);
    } else {
      assert Start(streams, header) == (Failed, []);
      FeedFailed(streams, msg.body);
      NoMessages([]);
      assert Then(streams, (Failed, []), msg.body) == (Failed, []);
    }
  }

  lemma {:induction false} FramesDelivered(streams: set<StreamId>, msgs: seq<Message>)
    requires Writable(msgs) && forall k :: 0 <= k < |msgs| ==> Deliverable(streams, msgs[k])
    ensures Feed(streams, FRESH, Frames(msgs)) == (FRESH, msgs)
    decreases |msgs|
  {
    if msgs != [] {
      FrameFate(streams, msgs[0]);
      FramesDelivered(streams, msgs[1..]);
      FeedConcat(streams, FRESH, Frame(msgs[0]), Frames(msgs[1..]));
      assert [msgs[0]] + msgs[1..] == msgs;
    }
  }

  /** A piece read from the socket, with the streams known at that time. */
  datatype Chunk = Chunk(streams: set<StreamId>, bytes: Bytes)

  function FeedChunks(st: ReadState, chunks: seq<Chunk>): (ReadState, seq<Message>)
    requires AtRest(st)
    decreases |chunks|
  {
    if chunks == [] then (st, [])
    else
      var first := Feed(chunks[0].streams, st, chunks[0].bytes);
      var rest := FeedChunks(first.0, chunks[1..]);
      (rest.0, first.1 + rest.1)
  }

  function Joined(chunks: seq<Chunk>): Bytes {
    if chunks == [] then [] else chunks[0].bytes + Joined(chunks[1..])
  }

  lemma {:induction false} MoreStreams(streams: set<StreamId>, streams': set<StreamId>, st: ReadState, bytes: Bytes)
    requires AtRest(st) && streams <= streams' && !Feed(streams, st, bytes).0.Failed?
    ensures Feed(streams', st, bytes) == Feed(streams, st, bytes)
    decreases |bytes|
  {
    if bytes != [] {
      var next := FeedByte(streams, st, bytes[0]).0;
      if next.Failed? {
        FeedFailed(streams, bytes[1..]);
      } else {
        MoreStreams(streams, streams', next, bytes[1..]);
      }
    }
  }

  /**
    How a byte stream is cut into pieces makes no difference to what is delivered and to the state that is reached,
    for any bytes and also while streams are being added.
   */
  lemma {:induction false} ChunkingIndependence(streams: set<StreamId>, st: ReadState, chunks: seq<Chunk>)
    requires AtRest(st) && forall k :: 0 <= k < |chunks| ==> streams <= chunks[k].streams
    requires Feed(streams, st, Joined(chunks)).0.Failed? ==>
      forall k :: 0 <= k < |chunks| ==> chunks[k].streams == streams
    ensures FeedChunks(st, chunks) == Feed(streams, st, Joined(chunks))
    decreases |chunks|
  {
    if chunks != [] {
      var first := Feed(streams, st, chunks[0].bytes);
      FeedConcat(streams, st, chunks[0].bytes, Joined(chunks[1..]));
      if first.0.Failed? {
        FeedFailed(streams, Joined(chunks[1..]));
      } else {
        MoreStreams(streams, chunks[0].streams, st, chunks[0].bytes);
      }
      ChunkingIndependence(streams, first.0, chunks[1..]);
    }
  }

  /** Messages within the limit on known streams arrive unchanged and in order, however their frames are cut up. */
  lemma {:induction false} FramesSurviveChunking(streams: set<StreamId>, msgs: seq<Message>, chunks: seq<Chunk>)
    requires Writable(msgs) && forall k :: 0 <= k < |msgs| ==> Deliverable(streams, msgs[k])
    requires Joined(chunks) == Frames(msgs) && forall k :: 0 <= k < |chunks| ==> streams <= chunks[k].streams
    ensures FeedChunks(FRESH, chunks) == (FRESH, msgs)
  {
    FramesDelivered(streams, msgs);
    ChunkingIndependence(streams, FRESH, chunks);
  }

  /** Nothing is delivered early: after any part of the bytes, a prefix of the messages has been delivered. */
  lemma PrefixDelivered(streams: set<StreamId>, st: ReadState, a: Bytes, b: Bytes)
    requires AtRest(st)
    ensures Feed(streams, st, a).1 <= Feed(streams, st, a + b).1
  {
    FeedConcat(streams, st, a, b);
  }

  /** Different messages are never written the same way. */
  lemma FramesUnambiguous(msgs: seq<Message>, msgs': seq<Message>)
    requires forall k :: 0 <= k < |msgs| ==> |msgs[k].body| <= MAX_MESSAGE_LENGTH
    requires forall k :: 0 <= k < |msgs'| ==> |msgs'[k].body| <= MAX_MESSAGE_LENGTH
    requires Frames(msgs) == Frames(msgs')
    ensures msgs == msgs'
  {
    var all := msgs + msgs';
    var streams := set k | 0 <= k < |all| :: all[k].stream;
    forall k | 0 <= k < |msgs|
      ensures msgs[k].stream in streams
    {
      assert all[k] == msgs[k];
    }
    forall k | 0 <= k < |msgs'|
      ensures msgs'[k].stream in streams
    {
      assert all[|msgs| + k] == msgs'[k];
    }
    FramesDelivered(streams, msgs);
    FramesDelivered(streams, msgs');
  }
}
