/** What the middleware writes through its buffered sink is what the client's parser
    dispatches, however the sink was flushed and the connection split the bytes. */
module IpcRoundTrip {
  import opened Basics
  import opened HamUri
  import opened Wire
  import opened IpcReader

  // ---- the buffered sink

  const MAXIMUM_SIZE: nat := 5 * 1024 * 1024

  datatype Sink = Sink(delivered: seq<Byte>, buffered: seq<Byte>)

  datatype SinkOp = Write(bytes: seq<Byte>) | Flush

  function FlushSink(s: Sink): Sink { Sink(s.delivered + s.buffered, []) }

  /** A write that would exceed the maximum, or the hint if there is one, flushes first; a
      write that is itself too big throws. */
  function WriteSink(s: Sink, hint: nat, bytes: seq<Byte>): Sink
    requires |bytes| <= MAXIMUM_SIZE
  {
    var size := |s.buffered| + |bytes|;
    var flushed := if size > MAXIMUM_SIZE || (hint > 0 && size > hint) then FlushSink(s) else s;
    flushed.(buffered := flushed.buffered + bytes)
  }

  ghost predicate Fits(ops: seq<SinkOp>) {
    forall i :: 0 <= i < |ops| && ops[i].Write? ==> |ops[i].bytes| <= MAXIMUM_SIZE
  }

  function RunSink(s: Sink, hint: nat, ops: seq<SinkOp>): Sink
    requires Fits(ops)
    decreases |ops|
  {
    if ops == [] then s
    else match ops[0]
      case Write(bytes) => RunSink(WriteSink(s, hint, bytes), hint, ops[1..])
      case Flush => RunSink(FlushSink(s), hint, ops[1..])
  }

  function Written(ops: seq<SinkOp>): seq<Byte> {
    if ops == [] then []
    else match ops[0]
      case Write(bytes) => bytes + Written(ops[1..])
      case Flush => Written(ops[1..])
  }

  /** Nothing is lost or reordered: delivered and buffered bytes are all the bytes written. */
  lemma {:induction false} SinkConserves(s: Sink, hint: nat, ops: seq<SinkOp>)
    requires Fits(ops)
    ensures var t := RunSink(s, hint, ops);
            t.delivered + t.buffered == s.delivered + s.buffered + Written(ops)
    decreases |ops|
  {
    if ops != [] {
      match ops[0]
      case Write(bytes) =>
        var t := WriteSink(s, hint, bytes);
        assert t.delivered + t.buffered == s.delivered + s.buffered + bytes;
        SinkConserves(t, hint, ops[1..]);
        assert s.delivered + s.buffered + bytes + Written(ops[1..]) == s.delivered + s.buffered + Written(ops);
      case Flush =>
        SinkConserves(FlushSink(s), hint, ops[1..]);
        assert s.delivered + s.buffered + [] == s.delivered + s.buffered;
    }
  }

  /** A piece of the output that was written by one call. */
  ghost predicate IsPiece(ops: seq<SinkOp>, bytes: seq<Byte>) {
    exists i :: 0 <= i < |ops| && ops[i] == Write(bytes)
  }

  /** The buffer never outgrows its maximum, nor the hint unless a single write is longer. */
  lemma {:induction false} SinkIsBounded(s: Sink, hint: nat, ops: seq<SinkOp>)
    requires Fits(ops) && |s.buffered| <= MAXIMUM_SIZE
    ensures var t := RunSink(s, hint, ops);
            && |t.buffered| <= MAXIMUM_SIZE
            && (hint == 0 || |t.buffered| <= hint || t.buffered == s.buffered || IsPiece(ops, t.buffered))
    decreases |ops|
  {
    if ops != [] {
      var next := if ops[0].Write? then WriteSink(s, hint, ops[0].bytes) else FlushSink(s);
      SinkIsBounded(next, hint, ops[1..]);
      var end := RunSink(next, hint, ops[1..]).buffered;
      if IsPiece(ops[1..], end) {
        var i :| 0 <= i < |ops[1..]| && ops[1..][i] == Write(end);
        assert ops[i + 1] == Write(end);
      }
      if ops[0].Write? && next.buffered == ops[0].bytes {
        assert ops[0] == Write(next.buffered);
      }
    }
  }

  class BufferedSink {
    var decorated: seq<Byte>
    var buf: seq<Byte>
    const flushHint: nat

    ghost function View(): Sink
      reads this
    {
      Sink(decorated, buf)
    }

    ghost predicate Valid()
      reads this
    {
      |buf| <= MAXIMUM_SIZE
    }

    /** Very small hints are ignored. */
    constructor (hint: int)
      ensures Valid() && View() == Sink([], [])
      ensures flushHint == if hint < 100 then 0 else hint
    {
      decorated, buf := [], [];
      flushHint := if hint < 100 then 0 else hint;
    }

    method WriteBytes(bytes: seq<Byte>) returns (ok: bool)
      requires Valid()
      modifies this
      ensures Valid() && ok == (|bytes| <= MAXIMUM_SIZE)
      ensures ok ==> View() == WriteSink(old(View()), flushHint, bytes)
      ensures !ok ==> View() == FlushSink(old(View()))
    {
      var size := |buf| + |bytes|;
      if size > MAXIMUM_SIZE {
        FlushBytes();
      } else if flushHint > 0 && size > flushHint {
        FlushBytes();
      }
      ok := |buf| + |bytes| <= MAXIMUM_SIZE;
      if ok {
        buf := buf + bytes;
      }
    }

    method FlushBytes()
      modifies this
      ensures View() == FlushSink(old(View()))
    {
      if buf != [] {
        decorated := decorated + buf;
        buf := [];
      }
    }
  }

  // ---- messages

  function Header(t: U16, f1: U16, f2: U32, f3: U32, size: U32): seq<Byte> {
    Encode16(t) + Encode16(f1) + Encode32(f2) + Encode32(f3) + Encode32(size)
  }

  /** A message object, and what reading one from a byte source gives. */
  datatype Frame = Frame(msgType: U16, field1: U16, field2: U32, field3: U32, content: seq<Byte>)

  datatype FrameRead = Incomplete | Complete(frame: Frame, rest: seq<Byte>)

  function Serialize(m: Frame): seq<Byte>
    requires |m.content| < 0x1_0000_0000
  {
    Header(m.msgType, m.field1, m.field2, m.field3, |m.content|) + m.content
  }

  function Deserialize(b: seq<Byte>): FrameRead {
    if |b| < 16 then Incomplete
    else
      var size := Decode32(b[12..16]);
      if |b| - 16 < size then Incomplete
      else Complete(Frame(Decode16(b[..2]), Decode16(b[2..4]), Decode32(b[4..8]), Decode32(b[8..12]), b[16..16 + size]), b[16 + size..])
  }

  /** Reading gives a message exactly when the bytes start with that message's serialization,
      and then takes exactly those bytes. */
  lemma FramesAreExact(b: seq<Byte>, m: Frame, rest: seq<Byte>)
    requires |m.content| < 0x1_0000_0000
    ensures Deserialize(b) == Complete(m, rest) <==> b == Serialize(m) + rest
  {
    if b == Serialize(m) + rest {
      HeaderFields(b, m, m.content + rest);
      assert b[16..] == m.content + rest;
      assert b[16..16 + |m.content|] == m.content && b[16 + |m.content|..] == rest;
    }
    if Deserialize(b) == Complete(m, rest) {
      Redecoded16(b[..2]);
      Redecoded16(b[2..4]);
      Redecoded32(b[4..8]);
      Redecoded32(b[8..12]);
      Redecoded32(b[12..16]);
      assert b == b[..2] + b[2..4] + b[4..8] + b[8..12] + b[12..16] + b[16..16 + |m.content|] + b[16 + |m.content|..];
    }
  }

  lemma HeaderFields(b: seq<Byte>, m: Frame, tail: seq<Byte>)
    requires |m.content| < 0x1_0000_0000 && b == Header(m.msgType, m.field1, m.field2, m.field3, |m.content|) + tail
    ensures |b| >= 16 && Decode16(b[..2]) == m.msgType && Decode16(b[2..4]) == m.field1
    ensures Decode32(b[4..8]) == m.field2 && Decode32(b[8..12]) == m.field3 && Decode32(b[12..16]) == |m.content|
  {
    assert b[..2] == Encode16(m.msgType) && b[2..4] == Encode16(m.field1);
    assert b[4..8] == Encode32(m.field2) && b[8..12] == Encode32(m.field3) && b[12..16] == Encode32(|m.content|);
    DecodeEncode(m.msgType, m.field2);
    DecodeEncode(m.field1, m.field3);
    DecodeEncode(m.field1, |m.content|);
  }

  lemma Redecoded16(b: seq<Byte>)
    requires |b| == 2
    ensures Encode16(Decode16(b)) == b
  {
  }

  lemma Redecoded32(b: seq<Byte>)
    requires |b| == 4
    ensures Encode32(Decode32(b)) == b
  {
    var high := (b[1] as int) + 256 * ((b[2] as int) + 256 * (b[3] as int));
    var n := Decode32(b);
    assert n == b[0] + 256 * high;
    assert n / 256 == high && n / 0x1_0000 == high / 256 && n / 0x100_0000 == high / 256 / 256;
  }

  datatype Outgoing =
    | SendResponse(field1: U16, field2: U32, field3: U32, content: seq<Byte>)
    | SendAck(stream: U16, socket: U32, seqNr: U32)
    | SendRetransmit(stream: U16, socket: U32, seqNr: U32)
    | SendPacket(socket: U32, source: Uri, data: seq<Byte>)

  /** The source of a packet is a parsed URI without zero characters, the receiving socket is
      registered with a receiver, and the declared size fits its field. */
  ghost predicate Sendable(sockets: map<U32, Receiver>, m: Outgoing) {
    match m
    case SendResponse(_, _, _, content) => |content| < 0x1_0000_0000
    case SendAck(_, _, _) => true
    case SendRetransmit(_, _, _) => true
    case SendPacket(socket, source, data) =>
      && socket in sockets && sockets[socket] != Bare
      && FromString(source.str) == source && IsByteString(source.str) && 0 !in ToBytes(source.str)
      && 8 + |source.str| + |data| < 0x1_0000_0000
  }

  function PacketContent(source: Uri, data: seq<Byte>): seq<Byte>
    requires IsByteString(source.str) && 8 + |source.str| + |data| < 0x1_0000_0000
  {
    WriteText(ToBytes(source.str)) + Encode32(|data|) + data
  }

  function Encode(sockets: map<U32, Receiver>, m: Outgoing): seq<Byte>
    requires Sendable(sockets, m)
  {
    match m
    case SendResponse(f1, f2, f3, content) => Header(SYNC_RESPONSE, f1, f2, f3, |content|) + content
    case SendAck(stream, socket, n) => Header(CUMULATIVE_ACK, stream, socket, n, 0)
    case SendRetransmit(stream, socket, n) => Header(RETRANSMIT, stream, socket, n, 0)
    case SendPacket(socket, source, data) =>
      Header(ASYNC_RECV, 0, socket, 0, 4 + |source.str| + 4 + |data|) + PacketContent(source, data)
  }

  function EventOf(sockets: map<U32, Receiver>, m: Outgoing): Event
    requires Sendable(sockets, m)
  {
    match m
    case SendResponse(f1, f2, f3, content) => Response(f1, f2, f3, content)
    case SendAck(stream, socket, n) => Acknowledgement(stream, socket, n)
    case SendRetransmit(stream, socket, n) => RetransmitRequest(stream, socket, n)
    case SendPacket(socket, source, data) =>
      if sockets[socket] == Callback then CallbackPacket(socket, source, |data|, data) else Packet(socket, source, data)
  }

  /** The declared size is the number of content bytes written. */
  lemma DeclaredSizeIsWritten(source: Uri, data: seq<Byte>)
    requires IsByteString(source.str) && 8 + |source.str| + |data| < 0x1_0000_0000
    ensures |PacketContent(source, data)| == 4 + |source.str| + 4 + |data|
  {
  }

  // ---- parsing one message

  lemma ParseField(sockets: map<U32, Receiver>, p: Parser, bytes: seq<Byte>, rest: seq<Byte>)
    requires p.state != RdContent && |bytes| == Need(p)
    ensures Parse(sockets, p, bytes + rest) == Parse(sockets, ReadField(p, bytes), rest)
  {
    assert (bytes + rest)[Need(p)..] == rest;
    FieldOfConcat(p, bytes, rest);
  }

  lemma DecodeEncode(n: U16, m: U32)
    ensures Decode16(Encode16(n)) == n && Decode32(Encode32(m)) == m
  {
    RoundTrip16(n, []);
    RoundTrip32(m, []);
    assert Encode16(n) + [] == Encode16(n) && Encode32(m) + [] == Encode32(m);
  }

  lemma ParseHeader(sockets: map<U32, Receiver>, p: Parser, t: U16, f1: U16, f2: U32, f3: U32, size: U32, rest: seq<Byte>)
    requires p.state == RdMsgType
    ensures Parse(sockets, p, Header(t, f1, f2, f3, size) + rest) == Parse(sockets, Parser(RdContent, t, f1, f2, f3, size), rest)
  {
    var r4 := Encode32(size) + rest;
    var r3 := Encode32(f3) + r4;
    var r2 := Encode32(f2) + r3;
    var r1 := Encode16(f1) + r2;
    assert Header(t, f1, f2, f3, size) + rest == Encode16(t) + r1;
    DecodeEncode(t, f2);
    DecodeEncode(f1, f3);
    DecodeEncode(f1, size);
    var p1 := p.(msgType := t, state := RdField1);
    var p2 := p1.(field1 := f1, state := RdField2);
    var p3 := p2.(field2 := f2, state := RdField3);
    var p4 := p3.(field3 := f3, state := RdContentSize);
    ParseField(sockets, p, Encode16(t), r1);
    ParseField(sockets, p1, Encode16(f1), r2);
    ParseField(sockets, p2, Encode32(f2), r3);
    ParseField(sockets, p3, Encode32(f3), r4);
    ParseField(sockets, p4, Encode32(size), rest);
  }

  lemma ParseContent(sockets: map<U32, Receiver>, p: Parser, content: seq<Byte>, rest: seq<Byte>, e: Event)
    requires p.state == RdContent && |content| == p.contentSize
    requires Handle(sockets, p, content) == Handled(e, |content|)
    ensures Parse(sockets, p, content + rest) == Before([e], Parse(sockets, p.(state := RdMsgType), rest))
  {
    assert (content + rest)[..p.contentSize] == content && (content + rest)[|content|..] == rest;
  }

  lemma HandlesPacket(sockets: map<U32, Receiver>, m: Outgoing)
    requires m.SendPacket? && Sendable(sockets, m)
    ensures HandlePacket(sockets, m.socket, PacketContent(m.source, m.data)) ==
            Handled(EventOf(sockets, m), |PacketContent(m.source, m.data)|)
  {
    var text := ToBytes(m.source.str);
    var content := PacketContent(m.source, m.data);
    var tail := Encode32(|m.data|) + m.data;
    assert content == WriteText(text) + tail;
    TextRoundTrip(text, tail);
    RoundTrip32(|m.data|, m.data);
    assert tail[4..] == m.data && m.data[..|m.data|] == m.data;
    TextOfBytes(m.source.str);
  }

  /** A message followed by anything is dispatched as its event, then the rest is parsed. */
  lemma ParseMessage(sockets: map<U32, Receiver>, p: Parser, m: Outgoing, rest: seq<Byte>) returns (q: Parser)
    requires p.state == RdMsgType && Sendable(sockets, m)
    ensures q.state == RdMsgType
    ensures Parse(sockets, p, Encode(sockets, m) + rest) == Before([EventOf(sockets, m)], Parse(sockets, q, rest))
  {
    match m
    case SendResponse(f1, f2, f3, content) =>
      q := Parser(RdContent, SYNC_RESPONSE, f1, f2, f3, |content|);
      assert Encode(sockets, m) + rest == Header(SYNC_RESPONSE, f1, f2, f3, |content|) + (content + rest);
      ParseHeader(sockets, p, SYNC_RESPONSE, f1, f2, f3, |content|, content + rest);
      ParseContent(sockets, q, content, rest, EventOf(sockets, m));
      q := q.(state := RdMsgType);
    case SendAck(stream, socket, n) =>
      q := Parser(RdContent, CUMULATIVE_ACK, stream, socket, n, 0);
      ParseHeader(sockets, p, CUMULATIVE_ACK, stream, socket, n, 0, rest);
      ParseContent(sockets, q, [], rest, EventOf(sockets, m));
      assert [] + rest == rest;
      q := q.(state := RdMsgType);
    case SendRetransmit(stream, socket, n) =>
      q := Parser(RdContent, RETRANSMIT, stream, socket, n, 0);
      ParseHeader(sockets, p, RETRANSMIT, stream, socket, n, 0, rest);
      ParseContent(sockets, q, [], rest, EventOf(sockets, m));
      assert [] + rest == rest;
      q := q.(state := RdMsgType);
    case SendPacket(_, _, _) => q := ParsePacket(sockets, p, m, rest);
  }

  lemma ParsePacket(sockets: map<U32, Receiver>, p: Parser, m: Outgoing, rest: seq<Byte>) returns (q: Parser)
    requires p.state == RdMsgType && Sendable(sockets, m) && m.SendPacket?
    ensures q.state == RdMsgType
    ensures Parse(sockets, p, Encode(sockets, m) + rest) == Before([EventOf(sockets, m)], Parse(sockets, q, rest))
  {
    var content := PacketContent(m.source, m.data);
    DeclaredSizeIsWritten(m.source, m.data);
    q := Parser(RdContent, ASYNC_RECV, 0, m.socket, 0, |content|);
    assert Encode(sockets, m) + rest == Header(ASYNC_RECV, 0, m.socket, 0, |content|) + (content + rest);
    ParseHeader(sockets, p, ASYNC_RECV, 0, m.socket, 0, |content|, content + rest);
    HandlesPacket(sockets, m);
    ParseContent(sockets, q, content, rest, EventOf(sockets, m));
    q := q.(state := RdMsgType);
  }

  // ---- whole conversations

  ghost predicate AllSendable(sockets: map<U32, Receiver>, ms: seq<Outgoing>) {
    forall i :: 0 <= i < |ms| ==> Sendable(sockets, ms[i])
  }

  function EncodeAll(sockets: map<U32, Receiver>, ms: seq<Outgoing>): seq<Byte>
    requires AllSendable(sockets, ms)
  {
    if ms == [] then [] else Encode(sockets, ms[0]) + EncodeAll(sockets, ms[1..])
  }

  function EventsOf(sockets: map<U32, Receiver>, ms: seq<Outgoing>): seq<Event>
    requires AllSendable(sockets, ms)
  {
    if ms == [] then [] else [EventOf(sockets, ms[0])] + EventsOf(sockets, ms[1..])
  }

  lemma {:induction false} ParseMessages(sockets: map<U32, Receiver>, p: Parser, ms: seq<Outgoing>)
    requires p.state == RdMsgType && AllSendable(sockets, ms)
    ensures var o := Parse(sockets, p, EncodeAll(sockets, ms));
            o.events == EventsOf(sockets, ms) && o.rest == [] && !o.failed && o.parser.state == RdMsgType
    decreases |ms|
  {
    if ms != [] {
      var q := ParseMessage(sockets, p, ms[0], EncodeAll(sockets, ms[1..]));
      ParseMessages(sockets, q, ms[1..]);
    }
  }

  /** Wire round trip: any sequence of responses, acknowledgements, retransmit requests and
      packets for registered sockets, written in any pieces through the sink with flushes
      anywhere and a last flush, and received in any pieces, is dispatched exactly. */
  lemma WireRoundTrip(sockets: map<U32, Receiver>, p: Parser, ms: seq<Outgoing>, hint: nat, ops: seq<SinkOp>, chunks: seq<seq<Byte>>)
    requires p.state == RdMsgType && AllSendable(sockets, ms)
    requires Fits(ops) && Written(ops) == EncodeAll(sockets, ms)
    requires Concat(chunks) == FlushSink(RunSink(Sink([], []), hint, ops)).delivered
    ensures var o := ReadAll(sockets, Outcome([], p, [], false), chunks);
            o.events == EventsOf(sockets, ms) && o.rest == [] && !o.failed && o.parser.state == RdMsgType
  {
    SinkConserves(Sink([], []), hint, ops);
    assert Concat(chunks) == EncodeAll(sockets, ms);
    var start := Outcome([], p, [], false);
    ChunkingIndependence(sockets, start, chunks);
    ParseMessages(sockets, p, ms);
    assert [] + Concat(chunks) == Concat(chunks);
    assert [] + EventsOf(sockets, ms) == EventsOf(sockets, ms);
  }
}
