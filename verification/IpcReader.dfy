/** The client's resumable parser of the byte stream from the middleware: it reads one field
    at a time, keeps what it could not use yet, and dispatches complete messages. */
module IpcReader {
  import opened Basics
  import opened HamUri
  import opened Wire

  datatype ReadState = RdMsgType | RdField1 | RdField2 | RdField3 | RdContentSize | RdContent

  datatype Parser = Parser(state: ReadState, msgType: U16, field1: U16, field2: U32, field3: U32, contentSize: U32)

  const SYNC_RESPONSE: U16 := 1
  const ASYNC_EVENT: U16 := 2
  const ASYNC_RECV: U16 := 4
  const CUMULATIVE_ACK: U16 := 5
  const RETRANSMIT: U16 := 6

  /** How a registered socket takes its packets. */
  datatype Receiver = Blocking | Callback | Bare

  datatype Event =
    | Packet(socket: U32, source: Uri, data: seq<Byte>)
    | CallbackPacket(socket: U32, source: Uri, size: U32, data: seq<Byte>)
    | UnclaimedPacket(socket: U32)
    | Response(field1: U16, field2: U32, field3: U32, content: seq<Byte>)
    | RetransmitRequest(stream: U16, socket: U32, seqNr: U32)
    | Acknowledgement(stream: U16, socket: U32, seqNr: U32)
    | Membership(kind: U16, interface: U32, group: Uri)

  /** What handling one message does: an event and the content bytes it consumes, or an exception. */
  datatype Handled = Exception | Handled(event: Event, consumed: nat)

  function HandlePacket(sockets: map<U32, Receiver>, socket: U32, content: seq<Byte>): Handled {
    if |content| == 0 then Exception
    else if socket !in sockets || sockets[socket] == Bare then Handled(UnclaimedPacket(socket), 0)
    else match ReadText(content)
      case NoText => Exception
      case TextRead(text, rest) =>
        if |rest| < 4 then Exception
        else
          var size, data := Decode32(rest), rest[4..];
          var source := FromString(ToText(text));
          if sockets[socket] == Callback then Handled(CallbackPacket(socket, source, size, data), |content|)
          else if |data| < size then Exception
          else Handled(Packet(socket, source, data[..size]), |content|)
  }

  function HandleEvent(p: Parser, content: seq<Byte>): Handled {
    match ReadText(content)
    case NoText => Exception
    case TextRead(text, _) =>
      var group := FromString(ToText(text));
      if group.str == "" || !(1 <= p.field1 <= 3) then Exception
      else Handled(Membership(p.field1, p.field2, group), 0)
  }

  /** Events and unclaimed packets do not consume their content. */
  function Handle(sockets: map<U32, Receiver>, p: Parser, content: seq<Byte>): Handled
    requires |content| == p.contentSize
  {
    if p.msgType == ASYNC_RECV then HandlePacket(sockets, p.field2, content)
    else if p.msgType == SYNC_RESPONSE then Handled(Response(p.field1, p.field2, p.field3, content), |content|)
    else if p.msgType == RETRANSMIT then
      if p.contentSize != 0 then Exception else Handled(RetransmitRequest(p.field1, p.field2, p.field3), 0)
    else if p.msgType == CUMULATIVE_ACK then
      if p.contentSize != 0 then Exception else Handled(Acknowledgement(p.field1, p.field2, p.field3), 0)
    else if p.msgType == ASYNC_EVENT then HandleEvent(p, content)
    else Exception
  }

  lemma HandledWithinContent(sockets: map<U32, Receiver>, p: Parser, content: seq<Byte>)
    requires |content| == p.contentSize
    ensures Handle(sockets, p, content).Handled? ==> Handle(sockets, p, content).consumed <= |content|
  {
  }

  /** How many bytes the parser waits for. */
  function Need(p: Parser): nat {
    match p.state
    case RdMsgType => 2
    case RdField1 => 2
    case RdField2 => 4
    case RdField3 => 4
    case RdContentSize => 4
    case RdContent => p.contentSize
  }

  function ReadField(p: Parser, b: seq<Byte>): Parser
    requires p.state != RdContent && |b| >= Need(p)
  {
    match p.state
    case RdMsgType => p.(msgType := Decode16(b), state := RdField1)
    case RdField1 => p.(field1 := Decode16(b), state := RdField2)
    case RdField2 => p.(field2 := Decode32(b), state := RdField3)
    case RdField3 => p.(field3 := Decode32(b), state := RdContentSize)
    case RdContentSize => p.(contentSize := Decode32(b), state := RdContent)
  }

  /** Everything a run of the parser leaves behind. */
  datatype Outcome = Outcome(events: seq<Event>, parser: Parser, rest: seq<Byte>, failed: bool)

  function Before(events: seq<Event>, o: Outcome): Outcome { o.(events := events + o.events) }

  /** Parses as far as the bytes go; ends by bytes left, then by having content to handle. */
  function Parse(sockets: map<U32, Receiver>, p: Parser, b: seq<Byte>): Outcome
    decreases |b|, if p.state == RdContent then 1 else 0
  {
    if |b| < Need(p) then Outcome([], p, b, false)
    else if p.state != RdContent then Parse(sockets, ReadField(p, b), b[Need(p)..])
    else
      HandledWithinContent(sockets, p, b[..p.contentSize]);
      match Handle(sockets, p, b[..p.contentSize])
      case Exception => Outcome([], p, [], true)
      case Handled(e, n) => Before([e], Parse(sockets, p.(state := RdMsgType), b[n..]))
  }

  /** One call of ipc_read: the residue of the last call and the new bytes. */
  function Read(sockets: map<U32, Receiver>, o: Outcome, chunk: seq<Byte>): Outcome {
    if o.failed then o else Before(o.events, Parse(sockets, o.parser, o.rest + chunk))
  }

  function ReadAll(sockets: map<U32, Receiver>, o: Outcome, chunks: seq<seq<Byte>>): Outcome
    decreases |chunks|
  {
    if chunks == [] then o else ReadAll(sockets, Read(sockets, o, chunks[0]), chunks[1..])
  }

  function Concat(chunks: seq<seq<Byte>>): seq<Byte> {
    if chunks == [] then [] else chunks[0] + Concat(chunks[1..])
  }

  // ---- chunking

  lemma BeforeTwice(a: seq<Event>, b: seq<Event>, o: Outcome)
    ensures Before(a, Before(b, o)) == Before(a + b, o)
  {
    assert a + (b + o.events) == (a + b) + o.events;
  }

  /** Parsing some bytes and later the rest is parsing all of them. */
  lemma {:induction false} ParseConcat(sockets: map<U32, Receiver>, p: Parser, a: seq<Byte>, b: seq<Byte>)
    ensures var o := Parse(sockets, p, a);
            Parse(sockets, p, a + b) == if o.failed then o else Before(o.events, Parse(sockets, o.parser, o.rest + b))
    decreases |a|, if p.state == RdContent then 1 else 0
  {
    if |a| < Need(p) {
      var o := Parse(sockets, p, a + b);
      assert [] + o.events == o.events;
    } else if p.state != RdContent {
      assert (a + b)[Need(p)..] == a[Need(p)..] + b;
      FieldOfConcat(p, a, b);
      ParseConcat(sockets, ReadField(p, a), a[Need(p)..], b);
    } else {
      ContentConcat(sockets, p, a, b);
    }
  }

  lemma FieldOfConcat(p: Parser, a: seq<Byte>, b: seq<Byte>)
    requires p.state != RdContent && |a| >= Need(p)
    ensures ReadField(p, a + b) == ReadField(p, a)
  {
  }

  lemma {:induction false} ContentConcat(sockets: map<U32, Receiver>, p: Parser, a: seq<Byte>, b: seq<Byte>)
    requires p.state == RdContent && |a| >= p.contentSize
    ensures var o := Parse(sockets, p, a);
            Parse(sockets, p, a + b) == if o.failed then o else Before(o.events, Parse(sockets, o.parser, o.rest + b))
    decreases |a|, 1, 0
  {
    var content := a[..p.contentSize];
    assert (a + b)[..p.contentSize] == content;
    HandledWithinContent(sockets, p, content);
    match Handle(sockets, p, content)
    case Exception =>
    case Handled(e, n) =>
      assert (a + b)[n..] == a[n..] + b;
      var q := p.(state := RdMsgType);
      ParseConcat(sockets, q, a[n..], b);
      var o := Parse(sockets, q, a[n..]);
      if !o.failed {
        BeforeTwice([e], o.events, Parse(sockets, o.parser, o.rest + b));
      }
  }

  lemma ReadConcat(sockets: map<U32, Receiver>, o: Outcome, a: seq<Byte>, b: seq<Byte>)
    ensures Read(sockets, Read(sockets, o, a), b) == Read(sockets, o, a + b)
  {
    if !o.failed {
      assert o.rest + (a + b) == (o.rest + a) + b;
      ParseConcat(sockets, o.parser, o.rest + a, b);
      var x := Parse(sockets, o.parser, o.rest + a);
      if !x.failed {
        BeforeTwice(o.events, x.events, Parse(sockets, x.parser, x.rest + b));
      }
    }
  }

  /** A state in which the parser stopped: it needs more than it has. */
  ghost predicate Settled(o: Outcome) {
    !o.failed ==> |o.rest| < Need(o.parser)
  }

  lemma {:induction false} ParseSettles(sockets: map<U32, Receiver>, p: Parser, b: seq<Byte>)
    ensures Settled(Parse(sockets, p, b))
    decreases |b|, if p.state == RdContent then 1 else 0
  {
    if |b| >= Need(p) {
      if p.state != RdContent {
        ParseSettles(sockets, ReadField(p, b), b[Need(p)..]);
      } else {
        HandledWithinContent(sockets, p, b[..p.contentSize]);
        match Handle(sockets, p, b[..p.contentSize])
        case Exception =>
        case Handled(_, n) => ParseSettles(sockets, p.(state := RdMsgType), b[n..]);
      }
    }
  }

  lemma ReadNothing(sockets: map<U32, Receiver>, o: Outcome)
    requires Settled(o)
    ensures Read(sockets, o, []) == o
  {
    if !o.failed {
      assert o.rest + [] == o.rest;
      assert o.events + [] == o.events;
    }
  }

  /** Chunking independence: however a byte stream is split across calls, the same messages
      are dispatched and the same parser state and residue remain as after one call on the
      whole stream. */
  lemma {:induction false} ChunkingIndependence(sockets: map<U32, Receiver>, o: Outcome, chunks: seq<seq<Byte>>)
    requires Settled(o)
    ensures ReadAll(sockets, o, chunks) == Read(sockets, o, Concat(chunks))
    decreases |chunks|
  {
    if chunks == [] {
      ReadNothing(sockets, o);
    } else {
      if !o.failed {
        ParseSettles(sockets, o.parser, o.rest + chunks[0]);
      }
      ChunkingIndependence(sockets, Read(sockets, o, chunks[0]), chunks[1..]);
      ReadConcat(sockets, o, chunks[0], Concat(chunks[1..]));
    }
  }

  const BUFFER_CAPACITY: nat := 5 * 1024 * 1024

  /** If the frame the parser waits for fits the receive buffer, there is room after the call. */
  lemma RoomForFrame(sockets: map<U32, Receiver>, o: Outcome, chunk: seq<Byte>)
    requires !Read(sockets, o, chunk).failed && Need(Read(sockets, o, chunk).parser) <= BUFFER_CAPACITY
    ensures |Read(sockets, o, chunk).rest| < BUFFER_CAPACITY
  {
    ParseSettles(sockets, o.parser, o.rest + chunk);
  }

  /** Membership events, and packets for a socket without a receiver. */
  predicate LeavesContent(sockets: map<U32, Receiver>, p: Parser) {
    p.msgType == ASYNC_EVENT || (p.msgType == ASYNC_RECV && (p.field2 !in sockets || sockets[p.field2] == Bare))
  }

  /** After a handled message the parser goes on with the rest of the stream, and before that, for
      exactly those messages, with their content as if it were the next header. */
  lemma ContentLeftExactly(sockets: map<U32, Receiver>, p: Parser, content: seq<Byte>, rest: seq<Byte>)
    requires p.state == RdContent && |content| == p.contentSize > 0 && Handle(sockets, p, content).Handled?
    ensures Handle(sockets, p, content).consumed == 0 <==> LeavesContent(sockets, p)
    ensures Parse(sockets, p, content + rest) ==
            Before([Handle(sockets, p, content).event],
                   Parse(sockets, p.(state := RdMsgType), if LeavesContent(sockets, p) then content + rest else rest))
  {
    var n := Handle(sockets, p, content).consumed;
    assert n == 0 || n == |content|;
    assert (content + rest)[..p.contentSize] == content;
    assert (content + rest)[|content|..] == rest && (content + rest)[0..] == content + rest;
  }

  // ---- the reader, updated in place

  class ClientReader {
    var rdState: ReadState
    var msgType: U16
    var field1: U16
    var field2: U32
    var field3: U32
    var contentSize: U32
    var wb: seq<Byte>
    var events: seq<Event>
    var failed: bool

    ghost function State(): Parser
      reads this
    {
      Parser(rdState, msgType, field1, field2, field3, contentSize)
    }

    ghost function View(): Outcome
      reads this
    {
      Outcome(events, State(), wb, failed)
    }

    constructor (t: U16, f1: U16, f2: U32, f3: U32, size: U32)
      ensures View() == Outcome([], Parser(RdMsgType, t, f1, f2, f3, size), [], false)
    {
      rdState, msgType, field1, field2, field3, contentSize := RdMsgType, t, f1, f2, f3, size;
      wb, events, failed := [], [], false;
    }

    /** Reads the field of the current state if its bytes are there. */
    method TryRead(buf: seq<Byte>, pos: nat) returns (next: nat, finished: bool)
      requires pos <= |buf| && rdState != RdContent
      modifies this`rdState, this`msgType, this`field1, this`field2, this`field3, this`contentSize
      ensures finished == (|buf| - pos < old(Need(State())))
      ensures finished ==> next == pos && State() == old(State())
      ensures !finished ==> next == pos + old(Need(State())) && State() == ReadField(old(State()), buf[pos..])
    {
      var rest := buf[pos..];
      var size := if rdState == RdMsgType || rdState == RdField1 then 2 else 4;
      next, finished := pos, |rest| < size;
      if finished { return; }
      next := pos + size;
      match rdState
      case RdMsgType => msgType, rdState := Decode16(rest), RdField1;
      case RdField1 => field1, rdState := Decode16(rest), RdField2;
      case RdField2 => field2, rdState := Decode32(rest), RdField3;
      case RdField3 => field3, rdState := Decode32(rest), RdContentSize;
      case RdContentSize => contentSize, rdState := Decode32(rest), RdContent;
    }

    /** What is dispatched in the end, seen from a position in the loop. */
    ghost function Goal(sockets: map<U32, Receiver>, rest: seq<Byte>): Outcome
      reads this
    {
      Before(events, Parse(sockets, State(), rest))
    }

    /** Handles a complete message, or waits for the rest of its content. */
    method TryContent(sockets: map<U32, Receiver>, buf: seq<Byte>, pos: nat, ghost goal: Outcome) returns (next: nat, finished: bool)
      requires pos <= |buf| && rdState == RdContent && !failed && Goal(sockets, buf[pos..]) == goal
      modifies this`rdState, this`events, this`failed
      ensures pos <= next <= |buf|
      ensures failed ==> finished && goal == Outcome(events, State(), [], true)
      ensures !failed ==> Goal(sockets, buf[next..]) == goal
      ensures !failed && finished ==> |buf| - next < Need(State())
      ensures !finished ==> rdState == RdMsgType
    {
      next, finished := pos, false;
      if contentSize > 0 && |buf| - pos < contentSize {
        finished := true;
        return;
      }
      var content := buf[pos..][..contentSize];
      var p := Parser(rdState, msgType, field1, field2, field3, contentSize);
      HandledWithinContent(sockets, p, content);
      match Handle(sockets, p, content) {
        case Exception =>
          assert events + [] == events;
          failed, finished := true, true;
        case Handled(e, n) =>
          next := pos + n;
          assert buf[pos..][n..] == buf[next..];
          BeforeTwice(events, [e], Parse(sockets, p.(state := RdMsgType), buf[next..]));
          events := events + [e];
          rdState := RdMsgType;
      }
    }

    /** One call on the bytes that arrived: the switch falls through its cases until bytes are
        missing, then keeps what was not read. */
    method IpcRead(sockets: map<U32, Receiver>, chunk: seq<Byte>)
      requires !failed
      modifies this
      ensures View() == Read(sockets, old(View()), chunk)
    {
      var buf := wb + chunk;
      var pos, finished := 0, false;
      ghost var goal := Goal(sockets, buf);
      assert buf[0..] == buf;
      while !finished
        invariant pos <= |buf|
        invariant failed ==> finished && goal == Outcome(events, State(), [], true)
        invariant !failed ==> Goal(sockets, buf[pos..]) == goal
        invariant finished && !failed ==> |buf| - pos < Need(State())
        decreases !finished, |buf| - pos, if rdState == RdContent then 1 else 0
      {
        if rdState != RdContent {
          pos, finished := FallThrough(sockets, buf, pos, goal);
        }
        if !finished {
          pos, finished := TryContent(sockets, buf, pos, goal);
        }
      }
      wb := if failed then [] else buf[pos..];
      if !failed {
        assert goal == Outcome(events + [], State(), wb, false);
        assert events + [] == events;
      }
    }

    /** The five header fields; each falls through to the next. */
    method FallThrough(sockets: map<U32, Receiver>, buf: seq<Byte>, start: nat, ghost goal: Outcome) returns (pos: nat, finished: bool)
      requires start <= |buf| && rdState != RdContent && Goal(sockets, buf[start..]) == goal
      modifies this`rdState, this`msgType, this`field1, this`field2, this`field3, this`contentSize
      ensures start <= pos <= |buf| && Goal(sockets, buf[pos..]) == goal
      ensures finished ==> |buf| - pos < Need(State())
      ensures !finished ==> pos > start && rdState == RdContent
    {
      pos, finished := start, false;
      while !finished && rdState != RdContent
        invariant start <= pos <= |buf| && Goal(sockets, buf[pos..]) == goal
        invariant finished ==> |buf| - pos < Need(State())
        invariant rdState == RdContent ==> pos > start
        decreases !finished, |buf| - pos
      {
        ghost var at := pos;
        pos, finished := TryRead(buf, pos);
        if !finished {
          assert buf[at..][pos - at..] == buf[pos..];
        }
      }
    }
  }
}
