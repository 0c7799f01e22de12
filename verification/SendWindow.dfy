/** The sliding window: what `pending_sends`, `last_sent` and the buffer mean in every run
    without a retransmit request. */
module SendWindow {
  import opened SendTypes
  import opened ClientSocket
  import opened SendProxy
  import opened SendSystem
  import opened SendPrefix
  import opened SendAccounting

  /** How many packets the client has dropped as acknowledged. */
  function Dropped(s: State): int { |s.numbered| - |s.client.buffer| }

  /** How many packets the client has put on the wire. */
  function SentBy(c: Client): nat { if c.nextSeqNr == 0 then 0 else c.lastSent + 1 }

  function Sent(s: State): nat { SentBy(s.client) }

  ghost predicate Undisturbed(s: State) {
    s.disturbances == 0 && |s.offered| <= MESSAGE_LIMIT
  }

  /** Sent packets form a window over the buffer, and unsent packets exist only if it is full. */
  ghost predicate ClientWindow(c: Client) {
    && |c.buffer| <= c.nextSeqNr
    && c.nextSeqNr - |c.buffer| <= SentBy(c) <= c.nextSeqNr
    && c.pendingSends == SentBy(c) - (c.nextSeqNr - |c.buffer|) <= MAX_PENDING_SENDS + 1
    && (SentBy(c) < c.nextSeqNr ==> c.pendingSends >= MAX_PENDING_SENDS)
  }

  /** The packets on the wire are numbered consecutively from e up to, but not including, sent. */
  ghost predicate WireOk(wire: seq<ToMiddleware>, e: nat, sent: nat) {
    if wire == [] then e == sent
    else match wire[0]
      case AsyncSend(n, _) => n == e && WireOk(wire[1..], e + 1, sent)
      case DeleteSocket => WireOk(wire[1..], e, sent)
  }

  /** Acknowledgements under way, from the last one read to the last one sent: each leads the
      finished jobs by at most 63 and rises by at most 63, or by 64 if the one before is covered,
      that is, names a packet the client has. */
  ghost predicate AcksOk(wire: seq<ToClient>, previous: nat, covered: bool, last: nat, done: nat, numbered: nat) {
    if wire == [] then previous == last
    else match wire[0]
      case CumulativeAck(a) =>
        && a <= previous + (if covered then 64 else 63) && a <= done + 62
        && AcksOk(wire[1..], a, a < numbered, last, done, numbered)
      case Retransmit(_) => false
      case DeleteResponse => AcksOk(wire[1..], previous, covered, last, done, numbered)
  }

  ghost predicate NoAcks(wire: seq<ToClient>) {
    forall i :: 0 <= i < |wire| ==> !wire[i].CumulativeAck?
  }

  ghost predicate WindowInv(s: State) {
    && ClientWindow(s.client)
    && |s.accepted| <= Sent(s)
    && (s.live ==> WireOk(s.toMw, |s.accepted|, Sent(s)))
    && AcksOk(s.toClient, s.lastRead, s.lastRead < Dropped(s), s.proxy.lastAck, s.done, |s.numbered|)
    && s.lastRead <= Dropped(s) + 62
    && (s.live && NoAcks(s.toClient) ==> Dropped(s) >= s.done - s.proxy.ackCounter)
  }

  // ---- the two wires

  lemma {:induction false} WireBounds(wire: seq<ToMiddleware>, e: nat, sent: nat)
    requires WireOk(wire, e, sent)
    ensures e <= sent
    decreases |wire|
  {
    if wire != [] {
      WireBounds(wire[1..], if wire[0].AsyncSend? then e + 1 else e, sent);
    }
  }

  lemma {:induction false} WireConcat(wire: seq<ToMiddleware>, more: seq<ToMiddleware>, e: nat, mid: nat, sent: nat)
    requires WireOk(wire, e, mid) && WireOk(more, mid, sent)
    ensures WireOk(wire + more, e, sent)
    decreases |wire|
  {
    if wire == [] {
      assert wire + more == more;
    } else {
      assert (wire + more)[1..] == wire[1..] + more;
      WireConcat(wire[1..], more, if wire[0].AsyncSend? then e + 1 else e, mid, sent);
    }
  }

  lemma {:induction false} WireOfRange(out: seq<ToMiddleware>, e: nat)
    requires forall i :: 0 <= i < |out| ==> out[i].AsyncSend? && out[i].seqNr == e + i
    ensures WireOk(out, e, e + |out|)
    decreases |out|
  {
    if out != [] {
      WireOfRange(out[1..], e + 1);
    }
  }

  lemma {:induction false} AcksAppend(wire: seq<ToClient>, previous: nat, covered: bool, last: nat, done: nat, numbered: nat, a: nat)
    requires AcksOk(wire, previous, covered, last, done, numbered) && a <= done + 62
    requires a <= last + 63 || (a == last + 64 && last < numbered && (NoAcks(wire) ==> covered))
    ensures AcksOk(wire + [CumulativeAck(a)], previous, covered, a, done, numbered)
    decreases |wire|
  {
    if wire == [] {
      assert wire + [CumulativeAck(a)] == [CumulativeAck(a)];
    } else {
      assert (wire + [CumulativeAck(a)])[1..] == wire[1..] + [CumulativeAck(a)];
      if wire[0].CumulativeAck? {
        AcksAppend(wire[1..], wire[0].seqNr, wire[0].seqNr < numbered, last, done, numbered, a) by {
          if NoAcks(wire[1..]) {
            AcksDrained(wire[1..], wire[0].seqNr, wire[0].seqNr < numbered, last, done, numbered);
          }
        }
      } else {
        NoAcksBehind(wire);
        AcksAppend(wire[1..], previous, covered, last, done, numbered, a);
      }
    }
  }

  lemma NoAcksBehind(wire: seq<ToClient>)
    requires wire != [] && !wire[0].CumulativeAck?
    ensures NoAcks(wire[1..]) ==> NoAcks(wire)
  {
    assert forall i :: 0 < i < |wire| ==> wire[i] == wire[1..][i - 1];
  }

  lemma {:induction false} AcksAppendResponse(wire: seq<ToClient>, previous: nat, covered: bool, last: nat, done: nat, numbered: nat)
    requires AcksOk(wire, previous, covered, last, done, numbered)
    ensures AcksOk(wire + [DeleteResponse], previous, covered, last, done, numbered)
    decreases |wire|
  {
    if wire == [] {
      assert wire + [DeleteResponse] == [DeleteResponse];
    } else {
      assert (wire + [DeleteResponse])[1..] == wire[1..] + [DeleteResponse];
      if wire[0].CumulativeAck? {
        AcksAppendResponse(wire[1..], wire[0].seqNr, wire[0].seqNr < numbered, last, done, numbered);
      } else {
        AcksAppendResponse(wire[1..], previous, covered, last, done, numbered);
      }
    }
  }

  lemma {:induction false} AcksLater(wire: seq<ToClient>, previous: nat, covered: bool, last: nat, done: nat, numbered: nat,
                                     coveredLater: bool, doneLater: nat, numberedLater: nat)
    requires AcksOk(wire, previous, covered, last, done, numbered)
    requires (covered ==> coveredLater) && done <= doneLater && numbered <= numberedLater
    ensures AcksOk(wire, previous, coveredLater, last, doneLater, numberedLater)
    decreases |wire|
  {
    if wire != [] {
      if wire[0].CumulativeAck? {
        var a := wire[0].seqNr;
        AcksLater(wire[1..], a, a < numbered, last, done, numbered, a < numberedLater, doneLater, numberedLater);
      } else {
        AcksLater(wire[1..], previous, covered, last, done, numbered, coveredLater, doneLater, numberedLater);
      }
    }
  }

  lemma {:induction false} AcksDrained(wire: seq<ToClient>, previous: nat, covered: bool, last: nat, done: nat, numbered: nat)
    requires AcksOk(wire, previous, covered, last, done, numbered) && NoAcks(wire)
    ensures previous == last
    decreases |wire|
  {
    if wire != [] {
      assert !wire[0].CumulativeAck?;
      AcksDrained(wire[1..], previous, covered, last, done, numbered);
    }
  }

  // ---- the client

  /** The first number still buffered once acknowledgement n is handled. */
  function AfterAck(dropped: nat, n: nat, numbered: nat): nat {
    if n < dropped then dropped else if n + 1 < numbered then n + 1 else numbered
  }

  lemma DropKeepsWindow(c: Client, n: nat)
    requires ClientWindow(c) && Spans(c.buffer, c.nextSeqNr - |c.buffer|, c.nextSeqNr)
    requires n <= c.nextSeqNr - |c.buffer| + 125
    ensures var d := Drop(c, n);
            var lo := AfterAck(c.nextSeqNr - |c.buffer|, n, c.nextSeqNr);
            && |d.buffer| == c.nextSeqNr - lo && Spans(d.buffer, lo, c.nextSeqNr)
            && lo <= SentBy(c) && d.pendingSends == SentBy(c) - lo
            && (SentBy(c) < c.nextSeqNr ==> d.pendingSends >= MAX_PENDING_SENDS - 126)
  {
    var lo := c.nextSeqNr - |c.buffer|;
    DropSpan(c, n, lo, c.nextSeqNr);
    SpanSize(Drop(c, n).buffer, AfterAck(lo, n, c.nextSeqNr), c.nextSeqNr);
  }

  /** Refilling a window that is not full sends everything unsent, or until 257 are pending. */
  lemma RefillKeepsWindow(d: Client, lo: nat)
    requires d.nextSeqNr <= MESSAGE_LIMIT && d.lastSent < U32
    requires Spans(d.buffer, lo, d.nextSeqNr) && |d.buffer| == d.nextSeqNr - lo
    requires lo <= SentBy(d) <= d.nextSeqNr && d.pendingSends == SentBy(d) - lo <= MAX_PENDING_SENDS + 1
    requires SentBy(d) < d.nextSeqNr ==> d.pendingSends >= MAX_PENDING_SENDS - 126
    ensures d.pendingSends < MAX_PENDING_SENDS ==> RangeDefined(d, RefillFrom(d), RefillTo(d))
    ensures var (r, out) := Refill(d);
            && ClientWindow(r) && r.buffer == d.buffer && r.nextSeqNr == d.nextSeqNr
            && SentBy(r) == SentBy(d) + |out|
            && WireOk(out, SentBy(d), SentBy(r))
  {
    var (r, out) := Refill(d);
    if d.pendingSends >= MAX_PENDING_SENDS {
      assert WireOk([], SentBy(d), SentBy(d));
    } else if d.nextSeqNr == 0 {
      assert RefillFrom(d) !in d.buffer;
      assert out == [];
    } else {
      RefillSendsUnsent(d, lo);
    }
  }

  lemma RefillSendsUnsent(d: Client, lo: nat)
    requires 0 < d.nextSeqNr <= MESSAGE_LIMIT && d.lastSent < U32
    requires Spans(d.buffer, lo, d.nextSeqNr) && |d.buffer| == d.nextSeqNr - lo
    requires lo <= SentBy(d) <= d.nextSeqNr && d.pendingSends == SentBy(d) - lo < MAX_PENDING_SENDS
    requires SentBy(d) < d.nextSeqNr ==> d.pendingSends >= MAX_PENDING_SENDS - 126
    ensures RangeDefined(d, RefillFrom(d), RefillTo(d))
    ensures var (r, out) := Refill(d);
            ClientWindow(r) && SentBy(r) == SentBy(d) + |out| && WireOk(out, SentBy(d), SentBy(r))
  {
    var from, last := RefillFrom(d), RefillTo(d);
    assert from == SentBy(d);
    if from == d.nextSeqNr {
      assert Packets(d.buffer, from, last) == [];
      return;
    }
    assert last == from + (MAX_PENDING_SENDS - d.pendingSends);
    PacketsOfSpan(d.buffer, lo, d.nextSeqNr, from, last);
    var out := Packets(d.buffer, from, last);
    WireOfRange(out, from);
    assert d.lastSent + |out| < U32;
  }

  /** Everything an acknowledgement in the permitted range does to the client. */
  lemma AckKeepsWindow(c: Client, n: nat)
    requires ClientWindow(c) && Spans(c.buffer, c.nextSeqNr - |c.buffer|, c.nextSeqNr)
    requires c.nextSeqNr <= MESSAGE_LIMIT && c.lastSent < U32
    requires n <= c.nextSeqNr - |c.buffer| + 125
    ensures AckDefined(c, n)
    ensures var r := ReadAck(c, n);
            && ClientWindow(r.client) && r.client.nextSeqNr == c.nextSeqNr
            && c.nextSeqNr - |r.client.buffer| == AfterAck(c.nextSeqNr - |c.buffer|, n, c.nextSeqNr)
            && WireOk(r.out, SentBy(c), SentBy(r.client))
            && SentBy(r.client) == SentBy(c) + |r.out|
  {
    DropKeepsWindow(c, n);
    RefillKeepsWindow(Drop(c, n), AfterAck(c.nextSeqNr - |c.buffer|, n, c.nextSeqNr));
  }

  /** What an acknowledgement may meet and bring, by the window and the bound on its rise. */
  ghost predicate AckExpected(c: Client, n: nat) {
    && ClientWindow(c) && c.lastSent < U32 && Spans(c.buffer, c.nextSeqNr - |c.buffer|, c.nextSeqNr)
    && n <= c.nextSeqNr - |c.buffer| + 125
  }

  /** A buffer that holds the same payload under every number from lo up to hi. */
  function Copies(lo: nat, hi: nat, p: Payload): (buffer: map<nat, Payload>)
    requires lo <= hi
    ensures Spans(buffer, lo, hi) && forall k :: k in buffer ==> buffer[k] == p
    decreases hi - lo
  {
    if lo == hi then map[] else Copies(lo, hi - 1, p)[hi - 1 := p]
  }

  /** A full window and one unsent packet, after `numbered` packets. */
  function FullWindow(numbered: nat, p: Payload): Client
    requires 257 <= numbered
  {
    Client(256, numbered - 2, numbered, Copies(numbered - 257, numbered, p), Uninitialized, false)
  }

  lemma WrappedRefill(numbered: nat, p: Payload)
    requires MESSAGE_LIMIT < numbered < U32
    ensures var c := FullWindow(numbered, p); var n := numbered - 132;
            AckExpected(c, n) && !AckDefined(c, n)
  {
    var c, n := FullWindow(numbered, p), numbered - 132;
    SpanSize(c.buffer, numbered - 257, numbered);
    DropKeepsWindow(c, n);
    var d := Drop(c, n);
    assert d.pendingSends == 130 && RefillFrom(d) == numbered - 1;
    assert RefillTo(d) == numbered + 125 - U32;
    assert numbered - 131 in d.buffer && numbered - 1 in d.buffer;
  }

  /** The limit is exact: the refill after an acknowledgement is a defined iteration in every
      state the window admits if and only if at most 2^32 - 126 packets are numbered. */
  lemma LimitIsExact(numbered: nat)
    requires numbered < U32
    ensures (forall c: Client, n: nat :: c.nextSeqNr == numbered && AckExpected(c, n) ==> AckDefined(c, n)) <==> numbered <= MESSAGE_LIMIT
  {
    if numbered <= MESSAGE_LIMIT {
      forall c: Client, n: nat | c.nextSeqNr == numbered && AckExpected(c, n) ensures AckDefined(c, n) {
        AckKeepsWindow(c, n);
      }
    } else {
      WrappedRefill(numbered, Payload([]));
    }
  }

  lemma PollPacketKeepsWindow(c: Client, p: Payload)
    requires ClientWindow(c) && Spans(c.buffer, c.nextSeqNr - |c.buffer|, c.nextSeqNr)
    requires c.nextSeqNr < MESSAGE_LIMIT && c.lastSent < U32
    ensures var (r, out) := PollPacket(c, p);
            && ClientWindow(r) && r.nextSeqNr == c.nextSeqNr + 1
            && r.nextSeqNr - |r.buffer| == c.nextSeqNr - |c.buffer|
            && WireOk(out, SentBy(c), SentBy(r))
            && SentBy(c) <= SentBy(r)
  {
    AppendSpan(c.buffer, c.nextSeqNr - |c.buffer|, c.nextSeqNr, p);
    WireOfRange(PollPacket(c, p).1, SentBy(c));
  }

  // ---- the steps

  /** The steps that touch neither the client's window nor the middleware nor the wires. */
  lemma QuietKeepsWindow(s: State, t: State)
    requires WindowInv(s)
    requires t.client == s.client && t.toMw == s.toMw && t.toClient == s.toClient && t.proxy == s.proxy && t.live == s.live
    requires t.accepted == s.accepted && t.numbered == s.numbered && t.done == s.done && t.lastRead == s.lastRead
    ensures WindowInv(t)
  {
  }

  /** A step of the client that sends `out`; the acknowledgements are argued separately. */
  lemma ClientStepKeepsWindow(s: State, t: State, out: seq<ToMiddleware>)
    requires WindowInv(s) && ClientWindow(t.client) && t.toMw == s.toMw + out
    requires WireOk(out, Sent(s), Sent(t)) && Sent(s) <= Sent(t)
    requires t.proxy == s.proxy && t.live == s.live && t.accepted == s.accepted && t.done == s.done
    requires AcksOk(t.toClient, t.lastRead, t.lastRead < Dropped(t), s.proxy.lastAck, s.done, |t.numbered|) && t.lastRead <= Dropped(t) + 62
    requires s.live && NoAcks(t.toClient) ==> Dropped(t) >= s.done - s.proxy.ackCounter
    ensures WindowInv(t)
  {
    if s.live {
      WireConcat(s.toMw, out, |s.accepted|, Sent(s), Sent(t));
    }
  }

  lemma PollPacketStep(s: State, p: Payload)
    requires WindowInv(s) && BufferOk(s.client, s.numbered) && s.queue != [] && s.queue[0] == Packet(p)
    requires |s.numbered| < MESSAGE_LIMIT
    ensures WindowInv(DoPoll(s))
  {
    var t := DoPoll(s);
    PollPacketKeepsWindow(s.client, p);
    assert t.client == PollPacket(s.client, p).0;
    var covered := s.lastRead < Dropped(s);
    AcksLater(s.toClient, s.lastRead, covered, s.proxy.lastAck, s.done, |s.numbered|, covered, s.done, |s.numbered| + 1);
    ClientStepKeepsWindow(s, t, PollPacket(s.client, p).1);
  }

  lemma PollCloseStep(s: State)
    requires WindowInv(s) && s.queue != [] && s.queue[0] == Close
    ensures WindowInv(DoPoll(s))
  {
    var t := DoPoll(s);
    var out := PollClose(s.client).1;
    assert WireOk(out, Sent(s), Sent(s));
    assert t.toMw == s.toMw + out;
    ClientStepKeepsWindow(s, t, out);
  }

  lemma MwReadKeepsWindow(s: State)
    requires WindowInv(s) && s.toMw != []
    requires s.proxy.nextExpected == |s.accepted|
    ensures DoMwRead(s).disturbances == s.disturbances ==> WindowInv(DoMwRead(s))
  {
    var t := DoMwRead(s);
    if s.live {
      match s.toMw[0]
      case DeleteSocket =>
        AcksAppendResponse(s.toClient, s.lastRead, s.lastRead < Dropped(s), s.proxy.lastAck, s.done, |s.numbered|);
      case AsyncSend(n, p) =>
        if Judge(s.proxy, n, p) == Accepted {
          WireBounds(s.toMw[1..], |s.accepted| + 1, Sent(s));
          assert s.toClient + [] == s.toClient;
        }
    } else if s.toMw[0].DeleteSocket? {
      AcksAppendResponse(s.toClient, s.lastRead, s.lastRead < Dropped(s), s.proxy.lastAck, s.done, |s.numbered|);
    }
  }

  lemma FinishJobKeepsWindow(s: State)
    requires WindowInv(s) && s.jobs != [] && s.jobs[0].seqNr == s.done <= |s.numbered|
    requires s.live ==> 0 <= Drift(s) && s.proxy.ackCounter < MAX_ACK_BLOCK_SIZE
    ensures WindowInv(DoFinishJob(s))
  {
    var t := DoFinishJob(s);
    var covered, last, numbered := s.lastRead < Dropped(s), s.proxy.lastAck, |s.numbered|;
    AcksLater(s.toClient, s.lastRead, covered, last, s.done, numbered, covered, s.done + 1, numbered);
    if s.live {
      var out := JobDone(s.proxy, s.jobs[0]).1;
      if out == [] {
        assert t.toClient == s.toClient;
      } else {
        if NoAcks(s.toClient) {
          AcksDrained(s.toClient, s.lastRead, covered, last, s.done, numbered);
        }
        AcksAppend(s.toClient, s.lastRead, covered, last, s.done + 1, numbered, s.done);
        assert t.toClient[|s.toClient|].CumulativeAck?;
      }
    }
  }

  lemma TimerKeepsWindow(s: State)
    requires WindowInv(s) && Enabled(s, Timer)
    requires Drift(s) < MAX_ACK_BLOCK_SIZE && s.proxy.ackCounter < MAX_ACK_BLOCK_SIZE
    requires s.proxy.lastAck + s.proxy.ackCounter < U32
    ensures WindowInv(Apply(s, Timer))
  {
    var t := Apply(s, Timer);
    AcksAppend(s.toClient, s.lastRead, s.lastRead < Dropped(s), s.proxy.lastAck, s.done, |s.numbered|,
               s.proxy.lastAck + s.proxy.ackCounter);
    assert t.toClient[|s.toClient|].CumulativeAck?;
  }

  lemma ReadAckKeepsWindow(s: State, n: nat)
    requires WindowInv(s) && BufferOk(s.client, s.numbered) && s.toClient != [] && s.toClient[0] == CumulativeAck(n)
    requires |s.numbered| <= MESSAGE_LIMIT && s.done <= |s.numbered|
    requires s.live ==> 0 <= Drift(s)
    ensures AckDefined(s.client, n)
    ensures WindowInv(DoClientRead(s))
  {
    var t := DoClientRead(s);
    AckKeepsWindow(s.client, n);
    AckStepFrame(s, n);
    var last, numbered := s.proxy.lastAck, |s.numbered|;
    if s.live && NoAcks(t.toClient) {
      AcksDrained(t.toClient, n, n < numbered, last, s.done, numbered);
    }
    AcksLater(t.toClient, n, n < numbered, last, s.done, numbered, n < Dropped(t), s.done, numbered);
    ClientStepKeepsWindow(s, t, ReadAck(s.client, n).out);
  }

  lemma AckStepFrame(s: State, n: nat)
    requires s.toClient != [] && s.toClient[0] == CumulativeAck(n)
    ensures var t := DoClientRead(s);
            var r := ReadAck(s.client, n);
            && t.client.buffer == r.client.buffer && t.client == r.client && t.toMw == s.toMw + r.out
            && t.toClient == s.toClient[1..] && t.lastRead == n && t.numbered == s.numbered && SameProxy(s, t)
  {
    var rest := s.(toClient := s.toClient[1..]);
    ReactFrame(rest, ReadAck(s.client, n));
  }

  lemma ReadResponseKeepsWindow(s: State)
    requires WindowInv(s) && s.toClient != [] && s.toClient[0].DeleteResponse?
    ensures WindowInv(DoClientRead(s))
  {
    assert s.toMw + [] == s.toMw;
    if NoAcks(s.toClient[1..]) {
      assert forall i :: 0 < i < |s.toClient| ==> s.toClient[i] == s.toClient[1..][i - 1];
      assert NoAcks(s.toClient);
    }
  }

  ghost predicate CalmInv(s: State) {
    AccountingInv(s) && (Undisturbed(s) ==> WindowInv(s))
  }

  lemma DriftFacts(s: State)
    requires AccountingInv(s) && s.live && |s.offered| <= MESSAGE_LIMIT
    ensures 0 <= Drift(s) < MAX_ACK_BLOCK_SIZE && s.proxy.ackCounter < MAX_ACK_BLOCK_SIZE
    ensures s.proxy.lastAck + s.proxy.ackCounter < U32
  {
    DoneAtMostOffered(s);
    NoWrap(s);
  }

  lemma PollingIsOffered(s: State)
    requires PrefixInv(s) && s.queue != [] && s.queue[0].Packet?
    ensures |s.numbered| < |s.offered|
  {
    OfferedWhenPolled(s, s.queue[0].payload);
  }

  lemma UndisturbedStep(s: State, step: Step)
    requires AccountingInv(s) && WindowInv(s) && Undisturbed(s) && Enabled(s, step) && Undisturbed(Apply(s, step))
    ensures WindowInv(Apply(s, step))
  {
    DoneAtMostOffered(s);
    if s.live {
      DriftFacts(s);
    }
    match step
    case ClientPoll =>
      if s.queue[0].Packet? {
        PollingIsOffered(s);
        PollPacketStep(s, s.queue[0].payload);
      } else {
        PollCloseStep(s);
      }
    case MwRead => MwReadKeepsWindow(s);
    case FinishJob => FinishJobKeepsWindow(s);
    case Timer => TimerKeepsWindow(s);
    case ClientRead =>
      if s.toClient[0].CumulativeAck? {
        ReadAckKeepsWindow(s, s.toClient[0].seqNr);
      } else {
        ReadResponseKeepsWindow(s);
      }
    case AppSend(_) => QuietKeepsWindow(s, Apply(s, step));
    case AppClose => QuietKeepsWindow(s, Apply(s, step));
    case Inject(_) =>
  }

  // ---- every run without a retransmit request

  lemma HistoryGrows(s: State, step: Step)
    requires Enabled(s, step)
    ensures s.offered <= Apply(s, step).offered && s.disturbances <= Apply(s, step).disturbances
  {
    if step == ClientRead {
      var rest := s.(toClient := s.toClient[1..]);
      match s.toClient[0]
      case CumulativeAck(n) => ReactHistory(rest, ReadAck(s.client, n));
      case Retransmit(n) => ReactHistory(rest, ReadRetransmit(s.client, n));
      case DeleteResponse => ReactHistory(rest, ReadDeleteResponse(s.client));
    }
  }

  lemma ReactHistory(s: State, r: Reaction)
    ensures React(s, r).disturbances == s.disturbances && React(s, r).offered == s.offered
  {
  }

  lemma LiveBefore(s: State, step: Step)
    requires Enabled(s, step) && Apply(s, step).live
    ensures s.live
  {
    if step == ClientRead {
      ReactKeepsProxy(s);
    }
  }

  lemma {:induction false} RunLiveBefore(s: State, steps: seq<Step>, t: State)
    requires Run(s, steps, t)
    ensures t.live ==> s.live
    ensures s.offered <= t.offered && s.disturbances <= t.disturbances
    decreases |steps|
  {
    if steps != [] {
      var next := Apply(s, steps[0]);
      RunLiveBefore(next, steps[1..], t);
      HistoryGrows(s, steps[0]);
      if t.live {
        LiveBefore(s, steps[0]);
      }
    }
  }

  // ---- the drift along a run

  /** An acknowledgement off a block boundary, sent because the budget is half full. */
  predicate HalfFullAck(s: State, step: Step) {
    Acknowledges(s, step) && (s.proxy.ackCounter + 1) % MAX_ACK_BLOCK_SIZE != 0
  }

  /** The drift that remains of d: the counter as the latest half-full acknowledgement left it,
      and 0 since a later block boundary. */
  function DriftAlong(s: State, steps: seq<Step>, d: int): int
    decreases |steps|
  {
    if steps == [] || !Enabled(s, steps[0]) then d
    else
      var next := Apply(s, steps[0]);
      DriftAlong(next, steps[1..],
                 if HalfFullAck(s, steps[0]) then next.proxy.ackCounter
                 else if Acknowledges(s, steps[0]) then 0
                 else d)
  }

  ghost predicate NoHalfFullAck(s: State, steps: seq<Step>)
    decreases |steps|
  {
    steps == [] ||
    (Enabled(s, steps[0]) && !HalfFullAck(s, steps[0]) && NoHalfFullAck(Apply(s, steps[0]), steps[1..]))
  }

  lemma {:induction false} DriftOfRun(s: State, steps: seq<Step>, t: State)
    requires AccountingInv(s) && Run(s, steps, t) && t.live && |t.offered| <= MESSAGE_LIMIT
    ensures Drift(t) == DriftAlong(s, steps, Drift(s))
    decreases |steps|
  {
    if steps != [] {
      RunLiveBefore(s, steps, t);
      DriftFacts(s);
      StepDrift(s, steps[0]);
      StepKeepsAccounting(s, steps[0]);
      DriftOfRun(Apply(s, steps[0]), steps[1..], t);
    }
  }

  lemma {:induction false} ZeroAlong(s: State, steps: seq<Step>)
    requires NoHalfFullAck(s, steps)
    ensures DriftAlong(s, steps, 0) == 0
    decreases |steps|
  {
    if steps != [] {
      ZeroAlong(Apply(s, steps[0]), steps[1..]);
    }
  }

  /** The drift over whole runs: it is determined by the acknowledgements of finished jobs alone,
      and once it is 0 it stays 0 until a half-full acknowledgement off a block boundary. */
  lemma DriftHistory(s0: State, before: seq<Step>, s: State, steps: seq<Step>, t: State)
    requires Initial(s0) && Run(s0, before, s) && Run(s, steps, t)
    requires t.live && |t.offered| <= MESSAGE_LIMIT
    ensures Drift(t) == DriftAlong(s, steps, Drift(s))
    ensures Drift(s) == 0 && NoHalfFullAck(s, steps) ==> Drift(t) == 0
  {
    ReachableAccounting(s0, before, s);
    DriftOfRun(s, steps, t);
    if Drift(s) == 0 && NoHalfFullAck(s, steps) {
      ZeroAlong(s, steps);
    }
  }

  lemma StepKeepsCalm(s: State, step: Step)
    requires CalmInv(s) && Enabled(s, step)
    ensures CalmInv(Apply(s, step))
  {
    StepKeepsAccounting(s, step);
    HistoryGrows(s, step);
    if Undisturbed(Apply(s, step)) {
      UndisturbedStep(s, step);
    }
  }

  lemma {:induction false} RunKeepsCalm(s: State, steps: seq<Step>, t: State)
    requires CalmInv(s) && Run(s, steps, t)
    ensures CalmInv(t)
    decreases |steps|
  {
    if steps != [] {
      StepKeepsCalm(s, steps[0]);
      RunKeepsCalm(Apply(s, steps[0]), steps[1..], t);
    }
  }

  lemma ReachableCalm(s: State, steps: seq<Step>, t: State)
    requires Initial(s) && Run(s, steps, t) && Undisturbed(t)
    ensures AccountingInv(t) && WindowInv(t)
  {
    InitialAccounting(s);
    RunKeepsCalm(s, steps, t);
  }

  /** The buffered packets that were sent. */
  function SentBuffered(c: Client): map<nat, Payload> {
    map k | k in c.buffer && k < SentBy(c) :: c.buffer[k]
  }

  /** `pending_sends` counts the sent packets still buffered and never exceeds 257; the
      buffer is contiguous; unsent packets exist only while at least 256 are pending. */
  lemma WindowConservation(s: State, steps: seq<Step>, t: State)
    requires Initial(s) && Run(s, steps, t) && Undisturbed(t)
    ensures t.client.pendingSends == |SentBuffered(t.client)| <= 257
    ensures |t.client.buffer| <= |t.numbered| && Spans(t.client.buffer, |t.numbered| - |t.client.buffer|, |t.numbered|)
    ensures SentBuffered(t.client) != t.client.buffer ==> t.client.pendingSends >= 256
  {
    ReachableCalm(s, steps, t);
    SpanSize(SentBuffered(t.client), |t.numbered| - |t.client.buffer|, Sent(t));
    if Sent(t) == |t.numbered| {
      assert SentBuffered(t.client) == t.client.buffer;
    }
  }

  /** The acknowledgement the client reads next removes only packets it has sent, rises by at
      most 64 over the last one it read, and is always handled without undefined iteration. */
  lemma NoUnsentDrop(s: State, steps: seq<Step>, t: State, n: nat)
    requires Initial(s) && Run(s, steps, t) && Undisturbed(t)
    requires t.toClient != [] && t.toClient[0] == CumulativeAck(n)
    ensures forall k :: k in t.client.buffer && k <= n ==> k < Sent(t)
    ensures n <= t.lastRead + 64
    ensures Enabled(t, ClientRead)
  {
    ReachableCalm(s, steps, t);
    DoneAtMostOffered(t);
    if t.live {
      DriftFacts(t);
    }
    ReadAckKeepsWindow(t, n);
  }

  /** Work conservation: when both wires and the queue are empty, every job is finished and
      no acknowledgement is owed, the client's buffer is empty and everything is accepted. */
  lemma QuiescentIsEmpty(s: State, steps: seq<Step>, t: State)
    requires Initial(s) && Run(s, steps, t) && Undisturbed(t) && t.live
    requires t.queue == [] && t.toMw == [] && t.jobs == [] && t.toClient == [] && t.proxy.ackCounter == 0
    ensures t.client.buffer == map[]
    ensures t.accepted == t.offered
  {
    ReachableCalm(s, steps, t);
    QuietStateIsEmpty(t);
  }

  lemma QuietStateIsEmpty(t: State)
    requires AccountingInv(t) && WindowInv(t) && t.live
    requires t.queue == [] && t.toMw == [] && t.jobs == [] && t.toClient == [] && t.proxy.ackCounter == 0
    ensures t.client.buffer == map[]
    ensures t.accepted == t.offered
  {
    assert NoAcks(t.toClient);
    assert Dropped(t) >= t.done;
    assert |t.accepted| == Sent(t) == |t.numbered|;
    assert t.accepted == t.numbered;
    assert |t.client.buffer| == 0;
  }
}
