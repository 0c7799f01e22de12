/** What becomes of the content that membership events and unclaimed packets leave in the stream:
    the parser takes it for a header, of an unknown type or of content that never fits the
    receive buffer, and dispatches nothing any more. */
module IpcLeftover {
  import opened Basics
  import opened HamUri
  import opened Wire
  import opened IpcReader
  import opened IpcRoundTrip

  /** The parser waits for more content than its buffer can ever hold. */
  ghost predicate Dead(o: Outcome) {
    && !o.failed && o.parser.state == RdContent
    && |o.rest| <= BUFFER_CAPACITY < o.parser.contentSize
  }

  /** Every call reads at most what the buffer has room for. */
  ghost predicate FitsBuffer(sockets: map<U32, Receiver>, o: Outcome, chunks: seq<seq<Byte>>)
    decreases |chunks|
  {
    chunks == [] ||
    (|o.rest| + |chunks[0]| <= BUFFER_CAPACITY && FitsBuffer(sockets, Read(sockets, o, chunks[0]), chunks[1..]))
  }

  /** Whatever arrives later, such a parser dispatches nothing any more. */
  lemma {:induction false} DeadForGood(sockets: map<U32, Receiver>, o: Outcome, chunks: seq<seq<Byte>>)
    requires Dead(o) && FitsBuffer(sockets, o, chunks)
    ensures Dead(ReadAll(sockets, o, chunks)) && ReadAll(sockets, o, chunks).events == o.events
    decreases |chunks|
  {
    if chunks != [] {
      assert o.events + [] == o.events;
      DeadForGood(sockets, Read(sockets, o, chunks[0]), chunks[1..]);
    }
  }

  predicate KnownType(t: U16) { t in {SYNC_RESPONSE, ASYNC_EVENT, ASYNC_RECV, CUMULATIVE_ACK, RETRANSMIT} }

  /** The parser has read the type of a message that nobody knows. */
  ghost predicate Astray(p: Parser) { p.state != RdMsgType && !KnownType(p.msgType) }

  ghost predicate Silent(o: Outcome) { o.failed || Dead(o) || Astray(o.parser) }

  /** An unknown type dispatches nothing: the parser waits for the message, then fails. */
  lemma {:induction false} AstrayDispatchesNothing(sockets: map<U32, Receiver>, p: Parser, b: seq<Byte>)
    requires Astray(p)
    ensures var o := Parse(sockets, p, b);
            o.events == [] && (o.failed || Astray(o.parser))
    decreases |b|, if p.state == RdContent then 1 else 0
  {
    if |b| >= Need(p) && p.state != RdContent {
      AstrayDispatchesNothing(sockets, ReadField(p, b), b[Need(p)..]);
    }
  }

  lemma {:induction false} SilentForGood(sockets: map<U32, Receiver>, o: Outcome, chunks: seq<seq<Byte>>)
    requires Silent(o) && FitsBuffer(sockets, o, chunks)
    ensures Silent(ReadAll(sockets, o, chunks)) && ReadAll(sockets, o, chunks).events == o.events
    decreases |chunks|
  {
    if Dead(o) {
      DeadForGood(sockets, o, chunks);
    } else if chunks != [] {
      if !o.failed {
        AstrayDispatchesNothing(sockets, o.parser, o.rest + chunks[0]);
        assert o.events + [] == o.events;
      }
      SilentForGood(sockets, Read(sockets, o, chunks[0]), chunks[1..]);
    }
  }

  /** A string without zero bytes ends its fourth word with a byte of at least 2^24. */
  lemma FourthWord(text: seq<Byte>)
    requires |text| >= 12 && 0 !in text
    ensures Decode32(text[8..12]) >= 0x100_0000
  {
    assert text[8..12][3] == text[11] && text[11] in text;
  }

  /** The length and the first twelve bytes of a string, read as a header. */
  lemma TextAsHeader(text: seq<Byte>, tail: seq<Byte>)
    requires 12 <= |text| < 0x1_0000_0000
    ensures var length := Encode32(|text|);
            WriteText(text) + tail ==
            Header(Decode16(length[..2]), Decode16(length[2..]), Decode32(text[..4]), Decode32(text[4..8]), Decode32(text[8..12]))
            + (text[12..] + tail)
  {
    var length := Encode32(|text|);
    Redecoded16(length[..2]);
    Redecoded16(length[2..]);
    Redecoded32(text[..4]);
    Redecoded32(text[4..8]);
    Redecoded32(text[8..12]);
    assert length == length[..2] + length[2..];
    assert text == text[..4] + text[4..8] + text[8..12] + text[12..];
  }

  lemma LongLeftover(sockets: map<U32, Receiver>, p: Parser, text: seq<Byte>, tail: seq<Byte>)
    requires p.state == RdMsgType && |text| >= 12 && 0 !in text && |text| + |tail| <= BUFFER_CAPACITY
    ensures var o := Parse(sockets, p, WriteText(text) + tail);
            Dead(o) && o.events == []
  {
    var length := Encode32(|text|);
    TextAsHeader(text, tail);
    FourthWord(text);
    ParseHeader(sockets, p, Decode16(length[..2]), Decode16(length[2..]), Decode32(text[..4]), Decode32(text[4..8]),
                Decode32(text[8..12]), text[12..] + tail);
  }

  /** The length of a short string is read as a type that is not known. */
  lemma ShortLeftover(sockets: map<U32, Receiver>, p: Parser, text: seq<Byte>, tail: seq<Byte>)
    requires p.state == RdMsgType && (|text| == 0 || 7 <= |text| < 12)
    ensures var o := Parse(sockets, p, WriteText(text) + tail);
            Silent(o) && o.events == []
  {
    var b := WriteText(text) + tail;
    assert b[0] == |text| && b[1] == 0;
    var q := p.(msgType := |text|, state := RdField1);
    assert ReadField(p, b) == q;
    AstrayDispatchesNothing(sockets, q, b[2..]);
  }

  /** A string left in the stream silences the parser. */
  lemma LeftoverSilences(sockets: map<U32, Receiver>, p: Parser, text: seq<Byte>, tail: seq<Byte>)
    requires p.state == RdMsgType && (|text| == 0 || |text| >= 7) && 0 !in text && |text| + |tail| <= BUFFER_CAPACITY
    ensures var o := Parse(sockets, p, WriteText(text) + tail);
            Silent(o) && o.events == []
  {
    if |text| >= 12 {
      LongLeftover(sockets, p, text, tail);
    } else {
      ShortLeftover(sockets, p, text, tail);
    }
  }

  // ---- all kinds of messages

  /** A URI as it is written: parsed, made of bytes, without a zero byte. */
  ghost predicate Writable(u: Uri) {
    FromString(u.str) == u && IsByteString(u.str) && 0 !in ToBytes(u.str)
  }

  /** The shortest URI is ham:, a namespace of one character, a colon and a group of one. */
  lemma UriLength(u: Uri)
    requires FromString(u.str) == u
    ensures u.str == "" || |u.str| >= 7
  {
    if u.str != "" {
      var p := AcceptedIsPrinted(u.str);
    }
  }

  datatype Message =
    | Regular(out: Outgoing)
    | EventMessage(kind: U16, interface: U32, group: Uri)
    | UnclaimedMessage(socket: U32, source: Uri, data: seq<Byte>)

  ghost predicate Valid(sockets: map<U32, Receiver>, m: Message) {
    match m
    case Regular(out) => Sendable(sockets, out)
    case EventMessage(kind, _, group) => 1 <= kind <= 3 && Writable(group) && group.str != "" && 4 + |group.str| < 0x1_0000_0000
    case UnclaimedMessage(socket, source, data) =>
      (socket !in sockets || sockets[socket] == Bare) && Writable(source) && 8 + |source.str| + |data| < 0x1_0000_0000
  }

  predicate Leaves(m: Message) { !m.Regular? }

  function ContentOf(m: Message): seq<Byte>
    requires Leaves(m) && (m.EventMessage? ==> IsByteString(m.group.str) && 4 + |m.group.str| < 0x1_0000_0000)
    requires m.UnclaimedMessage? ==> IsByteString(m.source.str) && 8 + |m.source.str| + |m.data| < 0x1_0000_0000
  {
    if m.EventMessage? then WriteText(ToBytes(m.group.str)) else PacketContent(m.source, m.data)
  }

  /** The parser when it has read the header of a message that leaves its content. */
  function Awaiting(sockets: map<U32, Receiver>, m: Message): Parser
    requires Valid(sockets, m) && Leaves(m)
  {
    if m.EventMessage? then Parser(RdContent, ASYNC_EVENT, m.kind, m.interface, 0, 4 + |m.group.str|)
    else Parser(RdContent, ASYNC_RECV, 0, m.socket, 0, 4 + |m.source.str| + 4 + |m.data|)
  }

  function HeadOf(sockets: map<U32, Receiver>, m: Message): seq<Byte>
    requires Valid(sockets, m) && Leaves(m)
  {
    var q := Awaiting(sockets, m);
    Header(q.msgType, q.field1, q.field2, q.field3, q.contentSize)
  }

  function BytesOf(sockets: map<U32, Receiver>, m: Message): seq<Byte>
    requires Valid(sockets, m)
  {
    if Leaves(m) then HeadOf(sockets, m) + ContentOf(m) else Encode(sockets, m.out)
  }

  /** The message as the header fields and the content that the message types prescribe. */
  function FrameOf(sockets: map<U32, Receiver>, m: Message): (f: Frame)
    requires Valid(sockets, m)
    ensures |f.content| < 0x1_0000_0000
  {
    match m
    case Regular(SendResponse(field1, field2, field3, content)) => Frame(1, field1, field2, field3, content)
    case Regular(SendAck(stream, socket, seqNr)) => Frame(5, stream, socket, seqNr, [])
    case Regular(SendRetransmit(stream, socket, seqNr)) => Frame(6, stream, socket, seqNr, [])
    case Regular(SendPacket(socket, source, data)) => Frame(4, 0, socket, 0, PacketContent(source, data))
    case UnclaimedMessage(socket, source, data) => Frame(4, 0, socket, 0, PacketContent(source, data))
    case EventMessage(kind, interface, group) => Frame(2, kind, interface, 0, WriteText(ToBytes(group.str)))
  }

  function Sum(b0: int, b1: int, b2: int, b3: int): int { b0 + 0x100 * b1 + 0x1_0000 * b2 + 0x100_0000 * b3 }

  /** A frame on the wire: the type in two bytes, the first field in two, the other two fields and the
      content's size in four each, all lowest byte first, and then the content. */
  ghost predicate LaidOut(f: Frame, b: seq<Byte>) {
    && |b| == 16 + |f.content|
    && Sum(b[0], b[1], 0, 0) == f.msgType && Sum(b[2], b[3], 0, 0) == f.field1
    && Sum(b[4], b[5], b[6], b[7]) == f.field2 && Sum(b[8], b[9], b[10], b[11]) == f.field3
    && Sum(b[12], b[13], b[14], b[15]) == |f.content|
    && b[16..] == f.content
  }

  /** Every message is written as its frame. */
  lemma MessageLayout(sockets: map<U32, Receiver>, m: Message)
    requires Valid(sockets, m)
    ensures LaidOut(FrameOf(sockets, m), BytesOf(sockets, m))
  {
    MessageIsFrame(sockets, m);
    FrameLayout(FrameOf(sockets, m));
  }

  lemma MessageIsFrame(sockets: map<U32, Receiver>, m: Message)
    requires Valid(sockets, m)
    ensures BytesOf(sockets, m) == Serialize(FrameOf(sockets, m))
  {
    if m.Regular? {
      RegularIsFrame(sockets, m.out);
    }
  }

  lemma RegularIsFrame(sockets: map<U32, Receiver>, out: Outgoing)
    requires Sendable(sockets, out)
    ensures Encode(sockets, out) == Serialize(FrameOf(sockets, Regular(out)))
  {
    if out.SendAck? {
      NoContent(Header(5, out.stream, out.socket, out.seqNr, 0));
    } else if out.SendRetransmit? {
      NoContent(Header(6, out.stream, out.socket, out.seqNr, 0));
    }
  }

  lemma NoContent(head: seq<Byte>)
    ensures head + [] == head
  {
  }

  lemma FrameLayout(f: Frame)
    requires |f.content| < 0x1_0000_0000
    ensures LaidOut(f, Serialize(f))
  {
    HeaderFields(Serialize(f), f, f.content);
    var b := Serialize(f);
    assert b[16..] == f.content;
  }

  function Dispatched(sockets: map<U32, Receiver>, m: Message): Event
    requires Valid(sockets, m)
  {
    match m
    case Regular(out) => EventOf(sockets, out)
    case EventMessage(kind, interface, group) => Membership(kind, interface, group)
    case UnclaimedMessage(socket, _, _) => UnclaimedPacket(socket)
  }

  /** The content is dispatched and then silences the parser, whatever follows within the buffer. */
  ghost predicate Silences(sockets: map<U32, Receiver>, q: Parser, content: seq<Byte>, e: Event) {
    forall more :: |content| + |more| <= BUFFER_CAPACITY ==>
      Silent(Parse(sockets, q, content + more)) && Parse(sockets, q, content + more).events == [e]
  }

  lemma ContentSilences(sockets: map<U32, Receiver>, q: Parser, text: seq<Byte>, inner: seq<Byte>, content: seq<Byte>, e: Event)
    requires q.state == RdContent && LeavesContent(sockets, q) && |text| < 0x1_0000_0000
    requires (|text| == 0 || |text| >= 7) && 0 !in text
    requires content == WriteText(text) + inner && q.contentSize == |content| && Handle(sockets, q, content) == Handled(e, 0)
    ensures Silences(sockets, q, content, e)
  {
    forall more | |content| + |more| <= BUFFER_CAPACITY ensures
      Silent(Parse(sockets, q, content + more)) && Parse(sockets, q, content + more).events == [e] {
      ContentLeftExactly(sockets, q, content, more);
      assert content + more == WriteText(text) + (inner + more);
      LeftoverSilences(sockets, q.(state := RdMsgType), text, inner + more);
    }
  }

  lemma EventIsHandled(q: Parser, group: Uri)
    requires Writable(group) && group.str != "" && |group.str| + 4 < 0x1_0000_0000 && 1 <= q.field1 <= 3
    ensures WriteText(ToBytes(group.str)) + [] == WriteText(ToBytes(group.str))
    ensures HandleEvent(q, WriteText(ToBytes(group.str))) == Handled(Membership(q.field1, q.field2, group), 0)
  {
    var text := ToBytes(group.str);
    assert WriteText(text) + [] == WriteText(text);
    TextRoundTrip(text, []);
    TextOfBytes(group.str);
  }

  lemma EventSilences(sockets: map<U32, Receiver>, m: Message)
    requires Valid(sockets, m) && m.EventMessage?
    ensures |ContentOf(m)| == Awaiting(sockets, m).contentSize
    ensures Silences(sockets, Awaiting(sockets, m), ContentOf(m), Dispatched(sockets, m))
  {
    EventIsHandled(Awaiting(sockets, m), m.group);
    UriLength(m.group);
    ContentSilences(sockets, Awaiting(sockets, m), ToBytes(m.group.str), [], ContentOf(m), Dispatched(sockets, m));
  }

  lemma UnclaimedSilences(sockets: map<U32, Receiver>, m: Message)
    requires Valid(sockets, m) && m.UnclaimedMessage?
    ensures |ContentOf(m)| == Awaiting(sockets, m).contentSize
    ensures Silences(sockets, Awaiting(sockets, m), ContentOf(m), Dispatched(sockets, m))
  {
    var inner := Encode32(|m.data|) + m.data;
    DeclaredSizeIsWritten(m.source, m.data);
    UriLength(m.source);
    assert ContentOf(m) == WriteText(ToBytes(m.source.str)) + inner;
    ContentSilences(sockets, Awaiting(sockets, m), ToBytes(m.source.str), inner, ContentOf(m), Dispatched(sockets, m));
  }

  lemma MessageSilences(sockets: map<U32, Receiver>, m: Message)
    requires Valid(sockets, m) && Leaves(m)
    ensures |ContentOf(m)| == Awaiting(sockets, m).contentSize > 0
    ensures Silences(sockets, Awaiting(sockets, m), ContentOf(m), Dispatched(sockets, m))
  {
    if m.EventMessage? {
      EventSilences(sockets, m);
    } else {
      UnclaimedSilences(sockets, m);
    }
  }

  // ---- reading past a message that leaves its content

  function Begin(p: Parser): Outcome { Outcome([], p, [], false) }

  lemma PrefixNotFailed(sockets: map<U32, Receiver>, p: Parser, a: seq<Byte>, b: seq<Byte>)
    ensures !Parse(sockets, p, a + b).failed ==> !Parse(sockets, p, a).failed
  {
    ParseConcat(sockets, p, a, b);
  }

  lemma PartIsBuffered(sockets: map<U32, Receiver>, p: Parser, head: seq<Byte>, q: Parser, part: seq<Byte>)
    requires Parse(sockets, p, head).parser == q && Parse(sockets, p, head).rest == [] && !Parse(sockets, p, head).failed
    requires q.state == RdContent && |part| < q.contentSize
    ensures !Parse(sockets, p, head + part).failed && Parse(sockets, p, head + part).rest == part
  {
    ParseConcat(sockets, p, head, part);
    assert [] + part == part;
  }

  /** While the content is incomplete, at least the part of it that arrived is in the buffer. */
  lemma StillBuffered(sockets: map<U32, Receiver>, p: Parser, head: seq<Byte>, q: Parser, size: nat, done: seq<Byte>, rest: seq<Byte>)
    requires Parse(sockets, p, head).parser == q && Parse(sockets, p, head).rest == [] && !Parse(sockets, p, head).failed
    requires q.state == RdContent && size == q.contentSize
    requires |done| < |head| + size && if |done| <= |head| then done + rest == head else done == head + rest
    ensures !Parse(sockets, p, done).failed && |Parse(sockets, p, done).rest| >= |done| - |head|
  {
    if |done| <= |head| {
      PrefixNotFailed(sockets, p, done, rest);
    } else {
      PartIsBuffered(sockets, p, head, q, rest);
    }
  }

  /** The content complete and what followed it in the same call. */
  lemma ContentArrived(sockets: map<U32, Receiver>, p: Parser, head: seq<Byte>, before: seq<Event>, q: Parser,
                       content: seq<Byte>, e: Event, tail: seq<Byte>)
    requires Parse(sockets, p, head) == Outcome(before, q, [], false)
    requires Silences(sockets, q, content, e) && |content| + |tail| <= BUFFER_CAPACITY
    ensures var o := Parse(sockets, p, head + (content + tail));
            o.events == before + [e] && Silent(o)
  {
    ParseConcat(sockets, p, head, content + tail);
    assert [] + (content + tail) == content + tail;
  }

  /** Where the bytes read so far end. */
  lemma Position(head: seq<Byte>, content: seq<Byte>, behind: seq<Byte>, done: seq<Byte>, coming: seq<Byte>) returns (rest: seq<Byte>)
    requires done + coming == head + content + behind
    ensures |done| <= |head| ==> done + rest == head
    ensures |head| < |done| < |head| + |content| ==> done == head + rest
    ensures |done| >= |head| + |content| ==> done == head + (content + rest)
  {
    var all := head + content + behind;
    assert done == all[..|done|];
    if |done| <= |head| {
      rest := head[|done|..];
      assert all[..|done|] == head[..|done|];
    } else if |done| < |head| + |content| {
      rest := done[|head|..];
      assert all[..|head|] == head;
    } else {
      rest := done[|head| + |content|..];
      assert all[..|head| + |content|] == head + content;
      assert done == done[..|head| + |content|] + rest;
    }
  }

  lemma ReadIsParse(sockets: map<U32, Receiver>, p: Parser, done: seq<Byte>, chunk: seq<Byte>)
    requires !Parse(sockets, p, done).failed
    ensures Read(sockets, Parse(sockets, p, done), chunk) == Parse(sockets, p, done + chunk)
  {
    ParseConcat(sockets, p, done, chunk);
  }

  lemma NextCall(done: seq<Byte>, chunks: seq<seq<Byte>>, all: seq<Byte>, size: nat) returns (more: seq<Byte>)
    requires done + Concat(chunks) == all && |done| < size <= |all|
    ensures chunks != [] && more == done + chunks[0] && more + Concat(chunks[1..]) == all
  {
    assert |done + Concat(chunks)| == |all|;
    more := done + chunks[0];
    Associated(done, chunks[0], Concat(chunks[1..]));
  }

  lemma Associated(a: seq<Byte>, b: seq<Byte>, c: seq<Byte>)
    ensures a + (b + c) == a + b + c
  {
  }

  lemma {:induction false} ReadPast(sockets: map<U32, Receiver>, p: Parser, head: seq<Byte>, before: seq<Event>, q: Parser,
                                    content: seq<Byte>, e: Event, behind: seq<Byte>, done: seq<Byte>, chunks: seq<seq<Byte>>)
    requires Parse(sockets, p, head) == Outcome(before, q, [], false)
    requires q.state == RdContent && |content| == q.contentSize && Silences(sockets, q, content, e)
    requires |done| < |head| + |content| && done + Concat(chunks) == head + content + behind
    requires FitsBuffer(sockets, Parse(sockets, p, done), chunks)
    ensures ReadAll(sockets, Parse(sockets, p, done), chunks).events == before + [e]
    ensures Silent(ReadAll(sockets, Parse(sockets, p, done), chunks))
    decreases |chunks|
  {
    var rest := Position(head, content, behind, done, Concat(chunks));
    StillBuffered(sockets, p, head, q, |content|, done, rest);
    var more := NextCall(done, chunks, head + content + behind, |head| + |content|);
    ReadIsParse(sockets, p, done, chunks[0]);
    if |more| < |head| + |content| {
      ReadPast(sockets, p, head, before, q, content, e, behind, more, chunks[1..]);
    } else {
      var tail := Position(head, content, behind, more, Concat(chunks[1..]));
      ReadOn(sockets, p, head, before, q, content, e, tail, more, chunks[1..]);
    }
  }

  lemma ReadOn(sockets: map<U32, Receiver>, p: Parser, head: seq<Byte>, before: seq<Event>, q: Parser,
               content: seq<Byte>, e: Event, tail: seq<Byte>, more: seq<Byte>, chunks: seq<seq<Byte>>)
    requires Parse(sockets, p, head) == Outcome(before, q, [], false) && Silences(sockets, q, content, e)
    requires more == head + (content + tail) && |content| + |tail| <= BUFFER_CAPACITY
    requires FitsBuffer(sockets, Parse(sockets, p, more), chunks)
    ensures ReadAll(sockets, Parse(sockets, p, more), chunks).events == before + [e]
    ensures Silent(ReadAll(sockets, Parse(sockets, p, more), chunks))
  {
    ContentArrived(sockets, p, head, before, q, content, e, tail);
    SilentForGood(sockets, Parse(sockets, p, more), chunks);
  }

  /** After one membership event the client dispatches nothing any more, however the event and
      everything after it arrive. */
  lemma EventSilencesReader(sockets: map<U32, Receiver>, p: Parser, m: Message, behind: seq<Byte>, chunks: seq<seq<Byte>>)
    requires p.state == RdMsgType && m.EventMessage? && Valid(sockets, m)
    requires Concat(chunks) == BytesOf(sockets, m) + behind && FitsBuffer(sockets, Begin(p), chunks)
    ensures var o := ReadAll(sockets, Begin(p), chunks);
            o.events == [Membership(m.kind, m.interface, m.group)] && Silent(o)
  {
    LeavingSilencesReader(sockets, p, m, behind, chunks);
  }

  /** The same after one packet for a socket without a receiver. */
  lemma UnclaimedPacketSilencesReader(sockets: map<U32, Receiver>, p: Parser, m: Message, behind: seq<Byte>, chunks: seq<seq<Byte>>)
    requires p.state == RdMsgType && m.UnclaimedMessage? && Valid(sockets, m)
    requires Concat(chunks) == BytesOf(sockets, m) + behind && FitsBuffer(sockets, Begin(p), chunks)
    ensures var o := ReadAll(sockets, Begin(p), chunks);
            o.events == [UnclaimedPacket(m.socket)] && Silent(o)
  {
    LeavingSilencesReader(sockets, p, m, behind, chunks);
  }

  lemma LeavingSilencesReader(sockets: map<U32, Receiver>, p: Parser, m: Message, behind: seq<Byte>, chunks: seq<seq<Byte>>)
    requires p.state == RdMsgType && Leaves(m) && Valid(sockets, m)
    requires Concat(chunks) == BytesOf(sockets, m) + behind && FitsBuffer(sockets, Begin(p), chunks)
    ensures var o := ReadAll(sockets, Begin(p), chunks);
            o.events == [Dispatched(sockets, m)] && Silent(o)
  {
    var q := Awaiting(sockets, m);
    MessageSilences(sockets, m);
    ParseHeadOf(sockets, p, m);
    ReadFromStart(sockets, p, HeadOf(sockets, m), [], q, ContentOf(m), Dispatched(sockets, m), behind, chunks);
    assert [] + [Dispatched(sockets, m)] == [Dispatched(sockets, m)];
  }

  lemma ParseHeadOf(sockets: map<U32, Receiver>, p: Parser, m: Message)
    requires p.state == RdMsgType && Leaves(m) && Valid(sockets, m)
    ensures Parse(sockets, p, HeadOf(sockets, m)) == Outcome([], Awaiting(sockets, m), [], false)
  {
    var q := Awaiting(sockets, m);
    ParseHeader(sockets, p, q.msgType, q.field1, q.field2, q.field3, q.contentSize, []);
    assert HeadOf(sockets, m) + [] == HeadOf(sockets, m);
  }

  // ---- whole conversations

  ghost predicate AllValid(sockets: map<U32, Receiver>, ms: seq<Message>) {
    forall i :: 0 <= i < |ms| ==> Valid(sockets, ms[i])
  }

  function AllBytes(sockets: map<U32, Receiver>, ms: seq<Message>): seq<Byte>
    requires AllValid(sockets, ms)
  {
    if ms == [] then [] else BytesOf(sockets, ms[0]) + AllBytes(sockets, ms[1..])
  }

  function AllDispatched(sockets: map<U32, Receiver>, ms: seq<Message>): (r: seq<Event>)
    requires AllValid(sockets, ms)
    ensures |r| == |ms|
  {
    if ms == [] then [] else [Dispatched(sockets, ms[0])] + AllDispatched(sockets, ms[1..])
  }

  /** How many messages there are up to and including the first that leaves its content. */
  function UpToFirst(ms: seq<Message>): (k: nat)
    ensures k <= |ms|
  {
    if ms == [] then 0 else if Leaves(ms[0]) then 1 else 1 + UpToFirst(ms[1..])
  }

  ghost predicate NoneLeaves(ms: seq<Message>) { forall i :: 0 <= i < |ms| ==> !Leaves(ms[i]) }

  lemma {:induction false} FirstLeaving(ms: seq<Message>)
    ensures var k := UpToFirst(ms);
            if NoneLeaves(ms) then k == |ms| else k > 0 && Leaves(ms[k - 1]) && NoneLeaves(ms[..k - 1])
  {
    if ms != [] && !Leaves(ms[0]) {
      var k := UpToFirst(ms);
      FirstLeaving(ms[1..]);
      assert forall i :: 0 < i < |ms| ==> ms[i] == ms[1..][i - 1];
      assert NoneLeaves(ms) <==> NoneLeaves(ms[1..]) by {
        assert forall i :: 0 <= i < |ms| - 1 ==> ms[1..][i] == ms[i + 1];
      }
      if !NoneLeaves(ms) {
        var front := ms[..k - 1];
        forall i | 0 <= i < |front| ensures !Leaves(front[i]) {
          if i > 0 {
            assert front[i] == ms[1..][..k - 2][i - 1];
          }
        }
      }
    }
  }

  lemma {:induction false} ParseRegular(sockets: map<U32, Receiver>, p: Parser, ms: seq<Message>)
    requires p.state == RdMsgType && AllValid(sockets, ms) && NoneLeaves(ms)
    ensures var o := Parse(sockets, p, AllBytes(sockets, ms));
            o.events == AllDispatched(sockets, ms) && o.rest == [] && !o.failed && o.parser.state == RdMsgType
    decreases |ms|
  {
    if ms != [] {
      var q := ParseMessage(sockets, p, ms[0].out, AllBytes(sockets, ms[1..]));
      ParseRegular(sockets, q, ms[1..]);
    }
  }

  lemma ParseToHead(sockets: map<U32, Receiver>, p: Parser, ms: seq<Message>, m: Message)
    requires p.state == RdMsgType && AllValid(sockets, ms) && NoneLeaves(ms) && Valid(sockets, m) && Leaves(m)
    ensures Parse(sockets, p, AllBytes(sockets, ms) + HeadOf(sockets, m)) ==
            Outcome(AllDispatched(sockets, ms), Awaiting(sockets, m), [], false)
  {
    var bytes, head := AllBytes(sockets, ms), HeadOf(sockets, m);
    ParseRegular(sockets, p, ms);
    ParseConcat(sockets, p, bytes, head);
    ParseHeadOf(sockets, Parse(sockets, p, bytes).parser, m);
    assert [] + head == head;
    assert AllDispatched(sockets, ms) + [] == AllDispatched(sockets, ms);
  }

  lemma {:induction false} BytesConcat(sockets: map<U32, Receiver>, a: seq<Message>, m: Message, b: seq<Message>)
    requires AllValid(sockets, a) && Valid(sockets, m) && AllValid(sockets, b)
    ensures AllValid(sockets, a + [m] + b)
    ensures AllBytes(sockets, a + [m] + b) == AllBytes(sockets, a) + (BytesOf(sockets, m) + AllBytes(sockets, b))
    decreases |a|
  {
    if a == [] {
      assert (a + [m] + b)[1..] == b;
    } else {
      assert (a + [m] + b)[1..] == a[1..] + [m] + b;
      BytesConcat(sockets, a[1..], m, b);
      Associated(BytesOf(sockets, a[0]), AllBytes(sockets, a[1..]), BytesOf(sockets, m) + AllBytes(sockets, b));
    }
  }

  lemma {:induction false} DispatchedLast(sockets: map<U32, Receiver>, a: seq<Message>, m: Message)
    requires AllValid(sockets, a) && Valid(sockets, m)
    ensures AllValid(sockets, a + [m])
    ensures AllDispatched(sockets, a + [m]) == AllDispatched(sockets, a) + [Dispatched(sockets, m)]
    decreases |a|
  {
    if a == [] {
      assert (a + [m])[1..] == [];
    } else {
      assert (a + [m])[1..] == a[1..] + [m];
      DispatchedLast(sockets, a[1..], m);
    }
  }

  lemma ReadToFirst(sockets: map<U32, Receiver>, p: Parser, a: seq<Message>, m: Message, b: seq<Message>, chunks: seq<seq<Byte>>)
    requires p.state == RdMsgType && AllValid(sockets, a) && NoneLeaves(a) && Valid(sockets, m) && Leaves(m) && AllValid(sockets, b)
    requires AllValid(sockets, a + [m] + b) && AllValid(sockets, a + [m])
    requires Concat(chunks) == AllBytes(sockets, a + [m] + b) && FitsBuffer(sockets, Begin(p), chunks)
    ensures ReadAll(sockets, Begin(p), chunks).events == AllDispatched(sockets, a + [m])
  {
    BytesConcat(sockets, a, m, b);
    DispatchedLast(sockets, a, m);
    var front, behind := AllBytes(sockets, a) + HeadOf(sockets, m), AllBytes(sockets, b);
    ParseToHead(sockets, p, a, m);
    MessageSilences(sockets, m);
    Reassociated(AllBytes(sockets, a), HeadOf(sockets, m), ContentOf(m), behind);
    ReadFromStart(sockets, p, front, AllDispatched(sockets, a), Awaiting(sockets, m), ContentOf(m), Dispatched(sockets, m), behind, chunks);
  }

  lemma Reassociated(a: seq<Byte>, b: seq<Byte>, c: seq<Byte>, d: seq<Byte>)
    ensures a + (b + c + d) == a + b + c + d
  {
  }

  lemma ReadFromStart(sockets: map<U32, Receiver>, p: Parser, head: seq<Byte>, before: seq<Event>, q: Parser,
                      content: seq<Byte>, e: Event, behind: seq<Byte>, chunks: seq<seq<Byte>>)
    requires Need(p) > 0 && Parse(sockets, p, head) == Outcome(before, q, [], false)
    requires q.state == RdContent && |content| == q.contentSize > 0 && Silences(sockets, q, content, e)
    requires Concat(chunks) == head + content + behind && FitsBuffer(sockets, Begin(p), chunks)
    ensures ReadAll(sockets, Begin(p), chunks).events == before + [e] && Silent(ReadAll(sockets, Begin(p), chunks))
  {
    assert [] + Concat(chunks) == Concat(chunks);
    ReadPast(sockets, p, head, before, q, content, e, behind, [], chunks);
  }

  lemma ReadAllRegular(sockets: map<U32, Receiver>, p: Parser, ms: seq<Message>, chunks: seq<seq<Byte>>)
    requires p.state == RdMsgType && AllValid(sockets, ms) && NoneLeaves(ms) && Concat(chunks) == AllBytes(sockets, ms)
    ensures ReadAll(sockets, Begin(p), chunks).events == AllDispatched(sockets, ms)
  {
    ParseRegular(sockets, p, ms);
    ChunkingIndependence(sockets, Begin(p), chunks);
    assert [] + Concat(chunks) == Concat(chunks);
    assert [] + AllDispatched(sockets, ms) == AllDispatched(sockets, ms);
  }

  lemma ReadUpToFirst(sockets: map<U32, Receiver>, p: Parser, ms: seq<Message>, chunks: seq<seq<Byte>>)
    requires p.state == RdMsgType && AllValid(sockets, ms)
    requires Concat(chunks) == AllBytes(sockets, ms) && FitsBuffer(sockets, Begin(p), chunks)
    ensures ReadAll(sockets, Begin(p), chunks).events == AllDispatched(sockets, ms[..UpToFirst(ms)])
  {
    var k := UpToFirst(ms);
    FirstLeaving(ms);
    if NoneLeaves(ms) {
      assert ms[..k] == ms;
      ReadAllRegular(sockets, p, ms, chunks);
    } else {
      var a, m, b := Cut(ms, k - 1);
      PartsValid(sockets, a, m, b);
      ReadToFirst(sockets, p, a, m, b, chunks);
    }
  }

  lemma PartsValid(sockets: map<U32, Receiver>, a: seq<Message>, m: Message, b: seq<Message>)
    requires AllValid(sockets, a + [m] + b)
    ensures AllValid(sockets, a) && Valid(sockets, m) && AllValid(sockets, b) && AllValid(sockets, a + [m])
  {
    var ms := a + [m] + b;
    assert forall i :: 0 <= i < |a| ==> a[i] == ms[i];
    assert ms[|a|] == m;
    forall i | 0 <= i < |b| ensures Valid(sockets, b[i]) {
      assert b[i] == ms[|a| + 1 + i];
    }
  }

  lemma Cut(ms: seq<Message>, k: nat) returns (a: seq<Message>, m: Message, b: seq<Message>)
    requires k < |ms|
    ensures ms == a + [m] + b && a == ms[..k] && ms[..k + 1] == a + [m] && m == ms[k]
  {
    a, m, b := ms[..k], ms[k], ms[k + 1..];
  }

  lemma {:induction false} UpToLast(ms: seq<Message>)
    ensures UpToFirst(ms) == |ms| <==> forall i :: 0 <= i < |ms| - 1 ==> !Leaves(ms[i])
  {
    if |ms| > 1 {
      UpToLast(ms[1..]);
      if !Leaves(ms[0]) {
        assert forall i :: 0 <= i < |ms| - 2 ==> ms[1..][i] == ms[i + 1];
        assert forall i :: 0 < i < |ms| - 1 ==> ms[i] == ms[1..][i - 1];
      }
    }
  }

  /** What the client dispatches of any conversation, with messages of all kinds, written in any
      pieces through the sink with flushes anywhere and a last flush, and received in any pieces
      that fit its buffer: the messages up to and including the first that leaves its content.
      So everything is dispatched if and only if no message but the last leaves its content. */
  lemma DispatchedExactly(sockets: map<U32, Receiver>, p: Parser, ms: seq<Message>, hint: nat, ops: seq<SinkOp>, chunks: seq<seq<Byte>>)
    requires p.state == RdMsgType && AllValid(sockets, ms)
    requires Fits(ops) && Written(ops) == AllBytes(sockets, ms)
    requires Concat(chunks) == FlushSink(RunSink(Sink([], []), hint, ops)).delivered
    requires FitsBuffer(sockets, Begin(p), chunks)
    ensures ReadAll(sockets, Begin(p), chunks).events == AllDispatched(sockets, ms[..UpToFirst(ms)])
    ensures ReadAll(sockets, Begin(p), chunks).events == AllDispatched(sockets, ms) <==>
            forall i :: 0 <= i < |ms| - 1 ==> !Leaves(ms[i])
  {
    SinkConserves(Sink([], []), hint, ops);
    assert Concat(chunks) == AllBytes(sockets, ms);
    ReadUpToFirst(sockets, p, ms, chunks);
    UpToLast(ms);
    assert ms[..|ms|] == ms;
  }
}
