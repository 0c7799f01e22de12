/** What a retransmit request does. The client counts a resent packet as a further sent one, so
    it skips a number; unless that number is asked for, nothing from it on is ever accepted. */
module SendStall {
  import opened SendTypes
  import opened ClientSocket
  import opened SendProxy
  import opened SendSystem
  import opened SendPrefix
  import opened SendAccounting
  import opened SendWindow

  // ---- a skipped number

  ghost predicate OffWire(wire: seq<ToMiddleware>, n: nat) {
    forall i :: 0 <= i < |wire| && wire[i].AsyncSend? ==> wire[i].seqNr != n
  }

  ghost predicate Unasked(wire: seq<ToClient>) {
    forall i :: 0 <= i < |wire| ==> !wire[i].Retransmit?
  }

  /** Number n counts as sent and is not accepted, but it is not under way and nobody asks for it. */
  ghost predicate Passed(s: State, n: nat) {
    && s.numbered != []
    && n <= s.client.lastSent < U32 - 1
    && |s.accepted| <= n && OffWire(s.toMw, n) && Unasked(s.toClient)
  }

  ghost predicate Skipped(s: State, n: nat) { PrefixInv(s) && Passed(s, n) }

  lemma {:induction false} PacketAt(buffer: map<nat, Payload>, from: nat, last: nat, i: nat)
    requires i < |Packets(buffer, from, last)|
    ensures from + i in buffer && from + i <= last && Packets(buffer, from, last)[i] == AsyncSend(from + i, buffer[from + i])
    decreases last + 1 - from
  {
    if i > 0 {
      PacketAt(buffer, from + 1, last, i - 1);
    }
  }

  lemma PacketNumbers(buffer: map<nat, Payload>, from: nat, last: nat)
    ensures var out := Packets(buffer, from, last);
            && (forall i :: 0 <= i < |out| ==> out[i].AsyncSend? && out[i].seqNr == from + i)
            && (out != [] ==> from + |out| - 1 in buffer && from + |out| - 1 <= last && from in buffer)
  {
    var out := Packets(buffer, from, last);
    forall i | 0 <= i < |out| ensures out[i].AsyncSend? && out[i].seqNr == from + i {
      PacketAt(buffer, from, last, i);
    }
    if out != [] {
      PacketAt(buffer, from, last, |out| - 1);
    }
  }

  /** What the client sends on its own account is numbered above last_sent. */
  lemma RefillSkips(c: Client, numbered: seq<Payload>, n: nat)
    requires BufferOk(c, numbered) && n <= c.lastSent < U32 - 1
    ensures var (r, out) := Refill(c);
            n <= r.lastSent < U32 - 1 && OffWire(out, n)
  {
    if c.pendingSends < MAX_PENDING_SENDS {
      PacketNumbers(c.buffer, RefillFrom(c), RefillTo(c));
    }
  }

  lemma ReadAckSkips(s: State, n: nat, a: nat)
    requires Passed(s, n) && BufferOk(s.client, s.numbered) && s.toClient != [] && s.toClient[0] == CumulativeAck(a)
    ensures Passed(DoClientRead(s), n)
  {
    DropKeepsBuffer(s.client, a, s.numbered);
    RefillSkips(Drop(s.client, a), s.numbered, n);
    AckStepFrame(s, a);
  }

  lemma PollSkips(s: State, n: nat)
    requires Passed(s, n) && s.queue != [] && s.client.nextSeqNr == |s.numbered|
    requires s.queue[0].Packet? ==> |s.numbered| < U32 - 1
    ensures Passed(DoPoll(s), n)
  {
  }

  lemma MwReadSkips(s: State, n: nat)
    requires Passed(s, n) && s.toMw != [] && s.proxy.nextExpected == |s.accepted| && Unasked(DoMwRead(s).toClient)
    ensures Passed(DoMwRead(s), n)
  {
    assert forall i :: 0 <= i < |s.toMw| - 1 ==> s.toMw[1..][i] == s.toMw[i + 1];
  }

  lemma StepSkips(s: State, n: nat, step: Step)
    requires Skipped(s, n) && Enabled(s, step) && Unasked(Apply(s, step).toClient)
    ensures Skipped(Apply(s, step), n)
  {
    StepKeepsPrefix(s, step);
    match step
    case ClientPoll =>
      if s.queue[0].Packet? {
        PollingIsOffered(s);
      }
      PollSkips(s, n);
    case MwRead => MwReadSkips(s, n);
    case ClientRead =>
      if s.toClient[0].CumulativeAck? {
        ReadAckSkips(s, n, s.toClient[0].seqNr);
      }
    case _ =>
  }

  /** An honest step asks for nothing unless it refuses a packet. */
  lemma StaysUnasked(s: State, step: Step)
    requires Unasked(s.toClient) && Enabled(s, step) && !step.Inject?
    requires Apply(s, step).disturbances == s.disturbances
    ensures Unasked(Apply(s, step).toClient)
  {
    if step == ClientRead {
      ReadTakesOne(s);
    }
  }

  lemma ReadTakesOne(s: State)
    requires s.toClient != []
    ensures DoClientRead(s).toClient == s.toClient[1..] && DoClientRead(s).disturbances == s.disturbances
  {
  }

  /** A skipped number blocks everything from it on, in every continuation without a request. */
  lemma {:induction false} SkippedBlocks(s: State, n: nat, steps: seq<Step>, t: State)
    requires Skipped(s, n) && Run(s, steps, t) && Honest(steps) && t.disturbances == s.disturbances
    ensures Skipped(t, n)
    decreases |steps|
  {
    if steps != [] {
      var next := Apply(s, steps[0]);
      HistoryGrows(s, steps[0]);
      RunLiveBefore(next, steps[1..], t);
      StaysUnasked(s, steps[0]);
      StepSkips(s, n, steps[0]);
      SkippedBlocks(next, n, steps[1..], t);
    }
  }

  /** If everything before the skipped number is accepted, no packet can be refused any more. */
  lemma NothingToRefuse(s: State, n: nat, step: Step)
    requires Skipped(s, n) && |s.accepted| == n && Enabled(s, step) && !step.Inject?
    ensures Apply(s, step).disturbances == s.disturbances && Apply(s, step).accepted == s.accepted
  {
    match step
    case MwRead =>
    case ClientRead =>
      ReadTakesOne(s);
      ReactKeepsProxy(s);
    case _ =>
  }

  /** Then the socket is lost: in every continuation at all nothing is accepted any more. */
  lemma {:induction false} SkippedForGood(s: State, n: nat, steps: seq<Step>, t: State)
    requires Skipped(s, n) && |s.accepted| == n && Run(s, steps, t) && Honest(steps)
    ensures t.accepted == s.accepted
    decreases |steps|
  {
    if steps != [] {
      NothingToRefuse(s, n, steps[0]);
      StaysUnasked(s, steps[0]);
      StepSkips(s, n, steps[0]);
      SkippedForGood(Apply(s, steps[0]), n, steps[1..], t);
    }
  }

  // ---- every first retransmit request skips a number

  function Requests(wire: seq<ToClient>): nat {
    if wire == [] then 0 else (if wire[0].Retransmit? then 1 else 0) + Requests(wire[1..])
  }

  lemma {:induction false} RequestsConcat(a: seq<ToClient>, b: seq<ToClient>)
    ensures Requests(a + b) == Requests(a) + Requests(b)
  {
    if a == [] {
      assert a + b == b;
    } else {
      assert (a + b)[1..] == a[1..] + b;
      RequestsConcat(a[1..], b);
    }
  }

  lemma {:induction false} NoRequestIsUnasked(wire: seq<ToClient>)
    requires Requests(wire) == 0
    ensures Unasked(wire)
  {
    if wire != [] {
      NoRequestIsUnasked(wire[1..]);
      assert forall i :: 0 < i < |wire| ==> wire[i] == wire[1..][i - 1];
    }
  }

  /** The numbers on the wire rise from lo on and stay below hi. */
  ghost predicate Rising(wire: seq<ToMiddleware>, lo: nat, hi: nat) {
    if wire == [] then true
    else match wire[0]
      case AsyncSend(n, _) => lo <= n < hi && Rising(wire[1..], n + 1, hi)
      case DeleteSocket => Rising(wire[1..], lo, hi)
  }

  lemma {:induction false} RisingConcat(a: seq<ToMiddleware>, b: seq<ToMiddleware>, lo: nat, mid: nat, hi: nat)
    requires Rising(a, lo, mid) && Rising(b, mid, hi) && lo <= mid <= hi
    ensures Rising(a + b, lo, hi)
    decreases |a|
  {
    if a == [] {
      assert a + b == b;
      RisingFrom(b, mid, lo, hi);
    } else {
      assert (a + b)[1..] == a[1..] + b;
      RisingConcat(a[1..], b, if a[0].AsyncSend? then a[0].seqNr + 1 else lo, mid, hi);
    }
  }

  lemma {:induction false} RisingFrom(wire: seq<ToMiddleware>, lo: nat, lower: nat, hi: nat)
    requires Rising(wire, lo, hi) && lower <= lo
    ensures Rising(wire, lower, hi)
    decreases |wire|
  {
    if wire != [] && wire[0].DeleteSocket? {
      RisingFrom(wire[1..], lo, lower, hi);
    }
  }

  lemma {:induction false} RisingBounds(wire: seq<ToMiddleware>, lo: nat, hi: nat)
    requires Rising(wire, lo, hi)
    ensures forall i :: 0 <= i < |wire| && wire[i].AsyncSend? ==> lo <= wire[i].seqNr < hi
    decreases |wire|
  {
    if wire != [] {
      RisingBounds(wire[1..], if wire[0].AsyncSend? then wire[0].seqNr + 1 else lo, hi);
      assert forall i :: 0 < i < |wire| ==> wire[i] == wire[1..][i - 1];
    }
  }

  lemma {:induction false} ConsecutiveRise(out: seq<ToMiddleware>, e: nat)
    requires forall i :: 0 <= i < |out| ==> out[i].AsyncSend? && out[i].seqNr == e + i
    ensures Rising(out, e, e + |out|)
    decreases |out|
  {
    if out != [] {
      ConsecutiveRise(out[1..], e + 1);
    }
  }

  /** No retransmit request has been handled yet. */
  ghost predicate Fresh(s: State) { Requests(s.toClient) == s.disturbances }

  ghost predicate NothingPending(c: Client) { c.nextSeqNr == 0 ==> c.pendingSends == 0 }

  /** Until the first request is handled each number goes on the wire once, in order, and the
      request is for the next number expected, which has left the wire. */
  ghost predicate FirstPass(s: State) {
    && s.disturbances <= 1 && |s.accepted| <= Sent(s) <= |s.numbered|
    && Rising(s.toMw, |s.accepted| + s.disturbances, Sent(s))
    && (s.disturbances == 1 ==> |s.accepted| < Sent(s))
    && NothingPending(s.client)
    && forall i :: 0 <= i < |s.toClient| && s.toClient[i].Retransmit? ==> s.toClient[i].seqNr == |s.accepted|
  }

  ghost predicate FirstInv(s: State) {
    PrefixInv(s) && Requests(s.toClient) <= s.disturbances && (Fresh(s) ==> FirstPass(s))
  }

  /** The client's steps: what they send continues the numbers. */
  lemma ClientSendsOn(s: State, t: State, out: seq<ToMiddleware>)
    requires FirstPass(s) && t.toMw == s.toMw + out && Rising(out, Sent(s), Sent(t)) && Sent(s) <= Sent(t) <= |t.numbered|
    requires t.accepted == s.accepted && t.disturbances == s.disturbances && NothingPending(t.client)
    requires forall i :: 0 <= i < |t.toClient| && t.toClient[i].Retransmit? ==> t.toClient[i] in s.toClient
    ensures FirstPass(t)
  {
    if |s.accepted| + s.disturbances <= Sent(s) {
      RisingConcat(s.toMw, out, |s.accepted| + s.disturbances, Sent(s), Sent(t));
    }
  }

  lemma RefillRises(c: Client, numbered: seq<Payload>)
    requires BufferOk(c, numbered) && SentBy(c) <= |numbered| && NothingPending(c)
    ensures var (r, out) := Refill(c);
            Rising(out, SentBy(c), SentBy(r)) && SentBy(c) <= SentBy(r) <= |numbered| && NothingPending(r)
  {
    if c.pendingSends < MAX_PENDING_SENDS && c.nextSeqNr > 0 {
      PacketNumbers(c.buffer, RefillFrom(c), RefillTo(c));
      ConsecutiveRise(Packets(c.buffer, RefillFrom(c), RefillTo(c)), SentBy(c));
    } else {
      assert c.nextSeqNr == 0 ==> c.buffer == map[];
    }
  }

  lemma PacketRises(c: Client, p: Payload)
    requires c.nextSeqNr < U32 - 1 && c.lastSent < U32 && SentBy(c) <= c.nextSeqNr && NothingPending(c)
    ensures var (r, out) := PollPacket(c, p);
            Rising(out, SentBy(c), SentBy(r)) && SentBy(c) <= SentBy(r) <= c.nextSeqNr + 1
  {
    ConsecutiveRise(PollPacket(c, p).1, SentBy(c));
  }

  lemma PollFirst(s: State)
    requires FirstPass(s) && s.queue != [] && s.client.nextSeqNr == |s.numbered| && s.client.lastSent < U32
    requires s.queue[0].Packet? ==> |s.numbered| < U32 - 1
    ensures FirstPass(DoPoll(s))
  {
    var t := DoPoll(s);
    if s.queue[0].Packet? {
      var p := s.queue[0].payload;
      PacketRises(s.client, p);
      assert t.client == PollPacket(s.client, p).0 && t.toMw == s.toMw + PollPacket(s.client, p).1;
      ClientSendsOn(s, t, PollPacket(s.client, p).1);
    } else {
      var out := PollClose(s.client).1;
      assert t.toMw == s.toMw + out && Rising(out, Sent(s), Sent(s));
      ClientSendsOn(s, t, out);
    }
  }

  lemma AckFirst(s: State, n: nat)
    requires FirstPass(s) && BufferOk(s.client, s.numbered) && s.toClient != [] && s.toClient[0] == CumulativeAck(n)
    ensures FirstPass(DoClientRead(s))
  {
    var t := DoClientRead(s);
    DropKeepsBuffer(s.client, n, s.numbered);
    assert s.client.nextSeqNr == 0 ==> s.client.buffer == map[];
    RefillRises(Drop(s.client, n), s.numbered);
    AckStepFrame(s, n);
    ReadTakesOne(s);
    ClientSendsOn(s, t, ReadAck(s.client, n).out);
  }

  lemma MwReadFirst(s: State)
    requires FirstPass(s) && Fresh(s) && s.toMw != [] && s.proxy.nextExpected == |s.accepted|
    ensures FirstPass(DoMwRead(s))
  {
    if s.disturbances == 0 {
      NoRequestIsUnasked(s.toClient);
    }
    if s.toMw[0].AsyncSend? {
      SendFirst(s, s.toMw[0].seqNr, s.toMw[0].payload);
    }
  }

  lemma SendFirst(s: State, n: nat, p: Payload)
    requires FirstPass(s) && s.toMw != [] && s.toMw[0] == AsyncSend(n, p) && s.proxy.nextExpected == |s.accepted|
    requires s.disturbances == 0 ==> Unasked(s.toClient)
    ensures FirstPass(DoMwRead(s))
  {
    var t := DoMwRead(s);
    RisingFrom(s.toMw[1..], n + 1, |s.accepted| + s.disturbances, Sent(s));
    if n == |s.accepted| {
      assert s.disturbances == 0 && |s.accepted| < Sent(s);
    }
    assert t.toMw == s.toMw[1..] && Sent(t) == Sent(s);
  }

  lemma StepCounts(s: State, step: Step)
    requires Enabled(s, step) && !step.Inject?
    ensures var t := Apply(s, step);
            t.disturbances - Requests(t.toClient) ==
            s.disturbances - Requests(s.toClient) + if step == ClientRead && s.toClient[0].Retransmit? then 1 else 0
  {
    match step
    case MwRead => MwReadCounts(s);
    case FinishJob => FinishCounts(s);
    case Timer => RequestsConcat(s.toClient, ForceAck(s.proxy).1);
    case ClientRead => ReadTakesOne(s);
    case _ =>
  }

  lemma MwReadCounts(s: State)
    requires s.toMw != []
    ensures DoMwRead(s).disturbances - Requests(DoMwRead(s).toClient) == s.disturbances - Requests(s.toClient)
  {
    match s.toMw[0]
    case DeleteSocket => RequestsConcat(s.toClient, [DeleteResponse]);
    case AsyncSend(n, p) => RequestsConcat(s.toClient, HandleSend(s.proxy, n, p).1);
  }

  lemma FinishCounts(s: State)
    requires s.jobs != []
    ensures DoFinishJob(s).disturbances == s.disturbances && Requests(DoFinishJob(s).toClient) == Requests(s.toClient)
  {
    RequestsConcat(s.toClient, JobDone(s.proxy, s.jobs[0]).1);
  }

  lemma StepKeepsFirst(s: State, step: Step)
    requires FirstInv(s) && Enabled(s, step) && !step.Inject?
    ensures FirstInv(Apply(s, step))
  {
    StepKeepsPrefix(s, step);
    StepCounts(s, step);
    if Fresh(Apply(s, step)) {
      match step
      case ClientPoll =>
        if s.queue[0].Packet? {
          PollingIsOffered(s);
        }
        PollFirst(s);
      case MwRead => MwReadFirst(s);
      case ClientRead =>
        if s.toClient[0].CumulativeAck? {
          AckFirst(s, s.toClient[0].seqNr);
        } else {
          ResponseFirst(s);
        }
      case _ =>
    }
  }

  lemma ResponseFirst(s: State)
    requires FirstPass(s) && s.toClient != [] && s.toClient[0].DeleteResponse?
    ensures FirstPass(DoClientRead(s))
  {
    ReadTakesOne(s);
    ReactKeepsProxy(s);
    assert DoClientRead(s).toMw == s.toMw + [];
    ClientSendsOn(s, DoClientRead(s), []);
  }

  lemma {:induction false} RunKeepsFirst(s: State, steps: seq<Step>, t: State)
    requires FirstInv(s) && Run(s, steps, t) && Honest(steps)
    ensures FirstInv(t)
    decreases |steps|
  {
    if steps != [] {
      StepKeepsFirst(s, steps[0]);
      RunKeepsFirst(Apply(s, steps[0]), steps[1..], t);
    }
  }

  /** Handling the first request skips the number after the last one sent, or the requested
      number itself if an acknowledgement has dropped it meanwhile. */
  lemma FirstRequestSkips(s: State) returns (n: nat)
    requires FirstInv(s) && Fresh(s) && s.disturbances == 1 && s.toClient != [] && s.toClient[0].Retransmit?
    requires s.client.lastSent + |s.client.buffer| < U32 - 1
    ensures n <= Sent(s) && Skipped(DoClientRead(s), n)
  {
    var k := s.toClient[0].seqNr;
    var t := DoClientRead(s);
    ClientReadKeepsPrefix(s);
    ReadTakesOne(s);
    ReactKeepsProxy(s);
    NoRequestIsUnasked(s.toClient[1..]);
    RisingBounds(s.toMw, k + 1, Sent(s));
    PacketNumbers(s.client.buffer, k, s.client.lastSent);
    var out := Packets(s.client.buffer, k, s.client.lastSent);
    assert t.toMw == s.toMw + out && t.client.lastSent == Wrap(s.client.lastSent + |out|);
    if k in s.client.buffer {
      n := Sent(s);
      PacketsFit(s.client.buffer, |s.numbered| - |s.client.buffer|, |s.numbered|, k, s.client.lastSent);
    } else {
      n := k;
    }
  }

  lemma PacketsFit(buffer: map<nat, Payload>, lo: nat, hi: nat, from: nat, last: nat)
    requires Spans(buffer, lo, hi)
    ensures |Packets(buffer, from, last)| <= hi - lo
  {
    PacketNumbers(buffer, from, last);
  }

  /** A run of application, client and middleware in which exactly one retransmit request is made:
      once the client has handled it, nothing after the packets sent by then is ever accepted. */
  lemma OneRequestStalls(s0: State, before: seq<Step>, s: State, after: seq<Step>, t: State)
    requires Initial(s0) && Run(s0, before, s) && Honest(before)
    requires s.disturbances == 1 && Enabled(s, ClientRead) && s.toClient[0].Retransmit?
    requires s.client.lastSent + |s.client.buffer| < U32 - 1
    requires Run(Apply(s, ClientRead), after, t) && Honest(after) && t.disturbances == 1
    ensures |t.accepted| <= Sent(s)
    ensures |t.offered| > Sent(s) ==> t.accepted < t.offered
  {
    RunKeepsFirst(s0, before, s);
    var n := FirstRequestSkips(s);
    ReadTakesOne(s);
    SkippedBlocks(Apply(s, ClientRead), n, after, t);
  }
}
