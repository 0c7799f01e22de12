/** Prefix delivery: whatever acknowledgements and retransmit requests arrive, the
    middleware accepts a prefix of what the application sent, each packet once and in order. */
module SendPrefix {
  import opened SendTypes
  import opened ClientSocket
  import opened SendProxy
  import opened SendSystem

  ghost predicate Genuine(m: ToMiddleware, numbered: seq<Payload>) {
    m.AsyncSend? ==> m.seqNr < |numbered| && m.payload == numbered[m.seqNr]
  }

  ghost predicate AllGenuine(wire: seq<ToMiddleware>, numbered: seq<Payload>) {
    forall i :: 0 <= i < |wire| ==> Genuine(wire[i], numbered)
  }

  ghost predicate BufferOk(c: Client, numbered: seq<Payload>) {
    && c.nextSeqNr == |numbered| < U32
    && c.lastSent < U32
    && |c.buffer| <= |numbered|
    && Spans(c.buffer, |numbered| - |c.buffer|, |numbered|)
    && forall k :: k in c.buffer ==> c.buffer[k] == numbered[k]
  }

  ghost predicate PrefixInv(s: State) {
    && |s.offered| < U32
    && s.offered == s.numbered + Payloads(s.queue)
    && BufferOk(s.client, s.numbered)
    && AllGenuine(s.toMw, s.numbered)
    && s.proxy.nextExpected == |s.accepted|
    && s.accepted <= s.numbered
  }

  lemma {:induction false} PacketsGenuine(buffer: map<nat, Payload>, from: nat, last: nat, numbered: seq<Payload>)
    requires forall k :: k in buffer ==> k < |numbered| && buffer[k] == numbered[k]
    ensures AllGenuine(Packets(buffer, from, last), numbered)
    decreases last + 1 - from
  {
    if from in buffer && from <= last {
      PacketsGenuine(buffer, from + 1, last, numbered);
    }
  }

  lemma DropKeepsBuffer(c: Client, n: nat, numbered: seq<Payload>)
    requires BufferOk(c, numbered)
    ensures BufferOk(Drop(c, n), numbered)
  {
    var lo := |numbered| - |c.buffer|;
    DropSpan(c, n, lo, |numbered|);
    SpanSize(Drop(c, n).buffer, if n < lo then lo else if n + 1 < |numbered| then n + 1 else |numbered|, |numbered|);
  }

  lemma SendRangeKeepsBuffer(c: Client, from: nat, last: nat, numbered: seq<Payload>)
    requires BufferOk(c, numbered)
    ensures BufferOk(SendRange(c, from, last).0, numbered)
    ensures AllGenuine(SendRange(c, from, last).1, numbered)
  {
    PacketsGenuine(c.buffer, from, last, numbered);
  }

  lemma ReadKeepsBuffer(c: Client, m: ToClient, numbered: seq<Payload>)
    requires BufferOk(c, numbered)
    ensures m.CumulativeAck? ==> BufferOk(ReadAck(c, m.seqNr).client, numbered) && AllGenuine(ReadAck(c, m.seqNr).out, numbered)
    ensures m.Retransmit? ==> BufferOk(ReadRetransmit(c, m.seqNr).client, numbered) && AllGenuine(ReadRetransmit(c, m.seqNr).out, numbered)
  {
    if m.CumulativeAck? {
      var d := Drop(c, m.seqNr);
      DropKeepsBuffer(c, m.seqNr, numbered);
      if d.pendingSends < MAX_PENDING_SENDS {
        SendRangeKeepsBuffer(d, RefillFrom(d), RefillTo(d), numbered);
      }
    } else if m.Retransmit? {
      SendRangeKeepsBuffer(c, m.seqNr, c.lastSent, numbered);
    }
  }

  lemma PollPacketKeepsBuffer(c: Client, p: Payload, numbered: seq<Payload>)
    requires BufferOk(c, numbered) && |numbered| + 1 < U32
    ensures BufferOk(PollPacket(c, p).0, numbered + [p])
    ensures AllGenuine(PollPacket(c, p).1, numbered + [p])
  {
    AppendSpan(c.buffer, |numbered| - |c.buffer|, |numbered|, p);
  }

  lemma GenuineGrows(wire: seq<ToMiddleware>, numbered: seq<Payload>, p: Payload)
    requires AllGenuine(wire, numbered)
    ensures AllGenuine(wire, numbered + [p])
  {
  }

  lemma OfferedWhenPolled(s: State, p: Payload)
    requires s.queue != [] && s.queue[0] == Packet(p)
    requires s.offered == s.numbered + Payloads(s.queue)
    ensures s.offered == s.numbered + [p] + Payloads(s.queue[1..])
  {
  }

  lemma PollKeepsPrefix(s: State)
    requires PrefixInv(s) && s.queue != []
    ensures PrefixInv(DoPoll(s))
  {
    match s.queue[0]
    case Packet(p) =>
      OfferedWhenPolled(s, p);
      PollPacketKeepsBuffer(s.client, p, s.numbered);
      GenuineGrows(s.toMw, s.numbered, p);
      PolledPacket(s, p, PollPacket(s.client, p).0, PollPacket(s.client, p).1);
    case Close =>
      assert Payloads(s.queue) == Payloads(s.queue[1..]);
  }

  lemma PolledPacket(s: State, p: Payload, c: Client, out: seq<ToMiddleware>)
    requires PrefixInv(s) && s.queue != []
    requires s.offered == s.numbered + [p] + Payloads(s.queue[1..])
    requires BufferOk(c, s.numbered + [p])
    requires AllGenuine(s.toMw, s.numbered + [p]) && AllGenuine(out, s.numbered + [p])
    ensures PrefixInv(s.(queue := s.queue[1..], client := c, toMw := s.toMw + out, numbered := s.numbered + [p]))
  {
  }

  lemma MwReadKeepsPrefix(s: State)
    requires PrefixInv(s) && s.toMw != []
    ensures PrefixInv(DoMwRead(s))
  {
    var m := s.toMw[0];
    assert Genuine(m, s.numbered);
    assert AllGenuine(s.toMw[1..], s.numbered);
    if m.AsyncSend? && s.live && Judge(s.proxy, m.seqNr, m.payload) == Accepted {
      assert s.accepted + [m.payload] <= s.numbered;
    }
  }

  lemma ReactKeepsPrefix(s: State, r: Reaction)
    requires PrefixInv(s) && BufferOk(r.client, s.numbered) && AllGenuine(r.out, s.numbered)
    ensures PrefixInv(React(s, r))
  {
    PayloadsConcat(s.queue, [Close]);
    assert Payloads(s.queue + [Close]) == Payloads(s.queue);
  }

  lemma ClientReadKeepsPrefix(s: State)
    requires PrefixInv(s) && s.toClient != []
    ensures PrefixInv(DoClientRead(s))
  {
    var rest := s.(toClient := s.toClient[1..]);
    ReadKeepsBuffer(s.client, s.toClient[0], s.numbered);
    match s.toClient[0]
    case CumulativeAck(n) => ReactKeepsPrefix(rest, ReadAck(s.client, n));
    case Retransmit(n) => ReactKeepsPrefix(rest, ReadRetransmit(s.client, n));
    case DeleteResponse => ReactKeepsPrefix(rest, ReadDeleteResponse(s.client));
  }

  lemma StepKeepsPrefix(s: State, step: Step)
    requires PrefixInv(s) && Enabled(s, step)
    ensures PrefixInv(Apply(s, step))
  {
    match step
    case AppSend(p) =>
      PayloadsConcat(s.queue, [Packet(p)]);
      assert Payloads([Packet(p)]) == [p];
    case AppClose =>
      PayloadsConcat(s.queue, [Close]);
      assert Payloads(s.queue + [Close]) == Payloads(s.queue);
    case ClientPoll => PollKeepsPrefix(s);
    case MwRead => MwReadKeepsPrefix(s);
    case ClientRead => ClientReadKeepsPrefix(s);
    case FinishJob =>
    case Timer =>
    case Inject(_) =>
  }

  lemma {:induction false} RunKeepsPrefix(s: State, steps: seq<Step>, t: State)
    requires PrefixInv(s) && Run(s, steps, t)
    ensures PrefixInv(t)
    decreases |steps|
  {
    if steps != [] {
      StepKeepsPrefix(s, steps[0]);
      RunKeepsPrefix(Apply(s, steps[0]), steps[1..], t);
    }
  }

  /** In every run, also one with arbitrary injected acknowledgements and retransmit
      requests, the accepted payloads are a prefix of the offered ones. */
  lemma PrefixDelivery(s: State, steps: seq<Step>, t: State)
    requires Initial(s) && Run(s, steps, t)
    ensures t.accepted <= t.offered
  {
    RunKeepsPrefix(s, steps, t);
  }
}
