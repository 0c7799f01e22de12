/** The delayed close: the request to delete a socket waits until its buffer is empty, so the
    middleware deletes the socket only after accepting everything offered before the request. */
module SendClose {
  import opened SendTypes
  import opened ClientSocket
  import opened SendProxy
  import opened SendSystem
  import opened SendPrefix
  import opened SendAccounting
  import opened SendWindow
  import opened SendNoLoss

  function Closes(queue: seq<QueueItem>): nat {
    if queue == [] then 0 else (if queue[0].Close? then 1 else 0) + Closes(queue[1..])
  }

  function Deletes(wire: seq<ToMiddleware>): nat {
    if wire == [] then 0 else (if wire[0].DeleteSocket? then 1 else 0) + Deletes(wire[1..])
  }

  /** At least mark packets were numbered before, or are queued before, the close request. */
  ghost predicate QueueMark(queue: seq<QueueItem>, n: nat, mark: nat) {
    queue != [] ==>
      if queue[0].Packet? then QueueMark(queue[1..], n + 1, mark)
      else mark <= n && QueueMark(queue[1..], n, mark)
  }

  /** Nothing is queued behind the close request. */
  ghost predicate CloseIsLast(queue: seq<QueueItem>) {
    queue != [] ==> if queue[0].Packet? then CloseIsLast(queue[1..]) else Payloads(queue[1..]) == []
  }

  /** Exactly mark packets are accepted, or on the wire before, the delete request. */
  ghost predicate WireMark(wire: seq<ToMiddleware>, e: nat, mark: nat) {
    wire != [] ==>
      if wire[0].AsyncSend? then WireMark(wire[1..], e + 1, mark)
      else e == mark && WireMark(wire[1..], e, mark)
  }

  function Count(b: bool): nat { if b then 1 else 0 }

  /** The one request is queued, delayed, on the wire, or done: never lost, never doubled. */
  ghost predicate TokenInv(s: State) {
    && Closes(s.queue) + Count(s.client.delayedClose) + Deletes(s.toMw) + Count(!s.live) == Count(s.closeRequested)
    && s.delays == s.requeues + Count(s.client.delayedClose)
    && (s.client.delayedClose ==> s.client.state == AboutToClose && s.client.buffer != map[])
    && (forall i :: 0 <= i < |s.toClient| && s.toClient[i].DeleteResponse? ==> !s.live)
  }

  /** If nothing is offered after the request, it is delayed at most once. */
  ghost predicate SingleDelayInv(s: State) {
    && (!s.closeRequested ==> s.delays == 0 && !s.lateSend)
    && (s.closeRequested && !s.lateSend ==>
      && s.delays <= 1
      && CloseIsLast(s.queue)
      && (Closes(s.queue) == 0 || s.delays == 1 ==> Payloads(s.queue) == [])
      && (s.delays == 1 && !s.client.delayedClose ==> s.client.buffer == map[]))
  }

  ghost predicate MarkInv(s: State) {
    && QueueMark(s.queue, |s.numbered|, s.closeMark)
    && (s.client.delayedClose ==> s.closeMark <= |s.numbered|)
    && (Deletes(s.toMw) > 0 ==> s.closeMark <= s.wireMark)
    && (s.live ==> WireMark(s.toMw, |s.accepted|, s.wireMark))
    && (!s.live ==> s.closeMark <= |s.accepted|)
  }

  // ---- the queue and the wire

  lemma {:induction false} ClosesConcat(a: seq<QueueItem>, b: seq<QueueItem>)
    ensures Closes(a + b) == Closes(a) + Closes(b)
  {
    if a == [] {
      assert a + b == b;
    } else {
      assert (a + b)[1..] == a[1..] + b;
      ClosesConcat(a[1..], b);
    }
  }

  lemma {:induction false} DeletesConcat(a: seq<ToMiddleware>, b: seq<ToMiddleware>)
    ensures Deletes(a + b) == Deletes(a) + Deletes(b)
  {
    if a == [] {
      assert a + b == b;
    } else {
      assert (a + b)[1..] == a[1..] + b;
      DeletesConcat(a[1..], b);
    }
  }

  lemma {:induction false} NoDeletes(out: seq<ToMiddleware>)
    requires forall i :: 0 <= i < |out| ==> out[i].AsyncSend?
    ensures Deletes(out) == 0
  {
    if out != [] {
      NoDeletes(out[1..]);
    }
  }

  lemma {:induction false} QueueMarkAppend(queue: seq<QueueItem>, n: nat, mark: nat, item: QueueItem)
    requires QueueMark(queue, n, mark) && (item.Close? ==> mark <= n + |Payloads(queue)|)
    ensures QueueMark(queue + [item], n, mark)
    decreases |queue|
  {
    if queue == [] {
      assert (queue + [item])[1..] == [];
    } else {
      assert (queue + [item])[1..] == queue[1..] + [item];
      QueueMarkAppend(queue[1..], if queue[0].Packet? then n + 1 else n, mark, item);
    }
  }

  /** A queue without a request meets every mark. */
  lemma {:induction false} QueueMarkFree(queue: seq<QueueItem>, n: nat, mark: nat)
    requires Closes(queue) == 0
    ensures QueueMark(queue, n, mark) && CloseIsLast(queue)
    decreases |queue|
  {
    if queue != [] {
      QueueMarkFree(queue[1..], n + 1, mark);
    }
  }

  lemma {:induction false} CloseIsLastAppend(queue: seq<QueueItem>)
    requires Closes(queue) == 0
    ensures CloseIsLast(queue + [Close])
    decreases |queue|
  {
    if queue == [] {
      assert (queue + [Close])[1..] == [];
    } else {
      assert (queue + [Close])[1..] == queue[1..] + [Close];
      CloseIsLastAppend(queue[1..]);
    }
  }

  lemma {:induction false} WireMarkAppend(wire: seq<ToMiddleware>, e: nat, mark: nat, sent: nat, out: seq<ToMiddleware>)
    requires WireMark(wire, e, mark) && WireOk(wire, e, sent) && WireMark(out, sent, mark)
    ensures WireMark(wire + out, e, mark)
    decreases |wire|
  {
    if wire == [] {
      assert wire + out == out;
    } else {
      assert (wire + out)[1..] == wire[1..] + out;
      WireMarkAppend(wire[1..], if wire[0].AsyncSend? then e + 1 else e, mark, sent, out);
    }
  }

  lemma {:induction false} WireMarkFree(wire: seq<ToMiddleware>, e: nat, mark: nat)
    requires Deletes(wire) == 0
    ensures WireMark(wire, e, mark)
    decreases |wire|
  {
    if wire != [] {
      WireMarkFree(wire[1..], e + 1, mark);
    }
  }

  /** Whatever the client sends from its buffer carries no delete request. */
  lemma {:induction false} PacketsAreSends(buffer: map<nat, Payload>, from: nat, last: nat)
    ensures forall i :: 0 <= i < |Packets(buffer, from, last)| ==> Packets(buffer, from, last)[i].AsyncSend?
    decreases last + 1 - from
  {
    if from in buffer && from <= last {
      PacketsAreSends(buffer, from + 1, last);
    }
  }

  // ---- the client

  /** What a reaction to an inbound message does to the close request. */
  ghost predicate ClosePreserving(c: Client, r: Reaction) {
    && Deletes(r.out) == 0
    && r.client.nextSeqNr == c.nextSeqNr
    && (r.requeue ==> c.delayedClose && r.client.buffer == map[])
    && r.client.delayedClose == (c.delayedClose && !r.requeue)
    && (r.client.delayedClose && c.state == AboutToClose ==> r.client.state == AboutToClose && r.client.buffer != map[])
    && (c.buffer == map[] ==> r.client.buffer == map[])
  }

  lemma AckPreservesClose(c: Client, n: nat)
    requires c.delayedClose ==> c.state == AboutToClose
    ensures ClosePreserving(c, ReadAck(c, n))
  {
    var d := Drop(c, n);
    if d.pendingSends < MAX_PENDING_SENDS {
      PacketsAreSends(d.buffer, RefillFrom(d), RefillTo(d));
      NoDeletes(Packets(d.buffer, RefillFrom(d), RefillTo(d)));
    }
  }

  lemma RetransmitPreservesClose(c: Client, n: nat)
    requires c.delayedClose ==> c.buffer != map[]
    ensures ClosePreserving(c, ReadRetransmit(c, n))
  {
    PacketsAreSends(c.buffer, n, c.lastSent);
    NoDeletes(Packets(c.buffer, n, c.lastSent));
  }

  // ---- the token

  lemma ReactKeepsToken(s: State, r: Reaction)
    requires TokenInv(s) && ClosePreserving(s.client, r)
    ensures TokenInv(React(s, r))
  {
    DeletesConcat(s.toMw, r.out);
    ClosesConcat(s.queue, [Close]);
    assert Closes([Close]) == 1;
  }

  lemma ReadKeepsToken(s: State)
    requires TokenInv(s) && s.toClient != []
    ensures TokenInv(DoClientRead(s))
  {
    var rest := s.(toClient := s.toClient[1..]);
    assert TokenInv(rest);
    match s.toClient[0]
    case CumulativeAck(n) =>
      AckPreservesClose(s.client, n);
      ReactKeepsToken(rest, ReadAck(s.client, n));
    case Retransmit(n) =>
      RetransmitPreservesClose(s.client, n);
      ReactKeepsToken(rest, ReadRetransmit(s.client, n));
    case DeleteResponse =>
      assert !s.live;
      assert s.toMw + [] == s.toMw;
  }

  lemma PollKeepsToken(s: State)
    requires TokenInv(s) && s.queue != []
    ensures TokenInv(DoPoll(s))
  {
    match s.queue[0]
    case Packet(p) =>
      var (c, out) := PollPacket(s.client, p);
      NoDeletes(out);
      DeletesConcat(s.toMw, out);
      assert c.delayedClose == s.client.delayedClose && c.state == s.client.state;
      assert c.buffer != map[] by {
        assert s.client.nextSeqNr in c.buffer;
      }
    case Close =>
      DeletesConcat(s.toMw, [DeleteSocket]);
      assert Deletes([DeleteSocket]) == 1;
  }

  lemma MwReadKeepsToken(s: State)
    requires TokenInv(s) && s.toMw != []
    ensures TokenInv(DoMwRead(s))
  {
  }

  lemma FinishJobKeepsToken(s: State)
    requires TokenInv(s) && s.jobs != []
    ensures TokenInv(DoFinishJob(s))
  {
  }

  lemma StepKeepsToken(s: State, step: Step)
    requires TokenInv(s) && Enabled(s, step)
    ensures TokenInv(Apply(s, step))
  {
    match step
    case AppSend(p) =>
      ClosesConcat(s.queue, [Packet(p)]);
      assert Closes([Packet(p)]) == 0;
    case AppClose =>
      ClosesConcat(s.queue, [Close]);
      assert Closes([Close]) == 1;
    case ClientPoll => PollKeepsToken(s);
    case MwRead => MwReadKeepsToken(s);
    case FinishJob => FinishJobKeepsToken(s);
    case Timer =>
    case ClientRead => ReadKeepsToken(s);
    case Inject(_) =>
  }

  // ---- delayed at most once

  lemma PollKeepsSingleDelay(s: State)
    requires TokenInv(s) && SingleDelayInv(s) && s.queue != []
    ensures SingleDelayInv(DoPoll(s))
  {
    if s.queue[0].Close? {
      assert Closes(s.queue[1..]) == 0;
      QueueMarkFree(s.queue[1..], 0, 0);
    }
  }

  lemma ReactKeepsSingleDelay(s: State, r: Reaction)
    requires TokenInv(s) && SingleDelayInv(s) && ClosePreserving(s.client, r)
    ensures SingleDelayInv(React(s, r))
  {
    if r.requeue {
      CloseIsLastAppend(s.queue);
      PayloadsConcat(s.queue, [Close]);
      assert Payloads([Close]) == [];
    }
  }

  lemma ReadKeepsSingleDelay(s: State)
    requires TokenInv(s) && SingleDelayInv(s) && s.toClient != []
    ensures SingleDelayInv(DoClientRead(s))
  {
    var rest := s.(toClient := s.toClient[1..]);
    assert TokenInv(rest);
    match s.toClient[0]
    case CumulativeAck(n) =>
      AckPreservesClose(s.client, n);
      ReactKeepsSingleDelay(rest, ReadAck(s.client, n));
    case Retransmit(n) =>
      RetransmitPreservesClose(s.client, n);
      ReactKeepsSingleDelay(rest, ReadRetransmit(s.client, n));
    case DeleteResponse =>
  }

  lemma StepKeepsSingleDelay(s: State, step: Step)
    requires TokenInv(s) && SingleDelayInv(s) && Enabled(s, step)
    ensures SingleDelayInv(Apply(s, step))
  {
    match step
    case AppClose =>
      CloseIsLastAppend(s.queue);
      ClosesConcat(s.queue, [Close]);
      assert Closes([Close]) == 1;
    case ClientPoll => PollKeepsSingleDelay(s);
    case ClientRead => ReadKeepsSingleDelay(s);
    case _ =>
  }

  // ---- the marks

  lemma PollPacketKeepsMark(s: State, p: Payload)
    requires TokenInv(s) && MarkInv(s) && WindowInv(s) && s.queue != [] && s.queue[0] == Packet(p)
    ensures MarkInv(DoPoll(s))
  {
    var (c, out) := PollPacket(s.client, p);
    NoDeletes(out);
    DeletesConcat(s.toMw, out);
    if s.live {
      WireMarkFree(out, Sent(s), s.wireMark);
      WireMarkAppend(s.toMw, |s.accepted|, s.wireMark, Sent(s), out);
    }
  }

  lemma PollCloseKeepsMark(s: State)
    requires TokenInv(s) && MarkInv(s) && WindowInv(s) && s.queue != [] && s.queue[0] == Close
    requires s.client.nextSeqNr == |s.numbered|
    ensures MarkInv(DoPoll(s))
  {
    if s.client.buffer == map[] {
      assert Closes(s.queue) >= 1 && Deletes(s.toMw) == 0 && s.live;
      WireMarkFree(s.toMw, |s.accepted|, |s.numbered|);
      assert Sent(s) == |s.numbered|;
      assert WireMark([DeleteSocket], Sent(s), |s.numbered|);
      WireMarkAppend(s.toMw, |s.accepted|, |s.numbered|, Sent(s), [DeleteSocket]);
    }
  }

  lemma MwReadKeepsMark(s: State)
    requires TokenInv(s) && MarkInv(s) && WindowInv(s) && s.toMw != []
    requires s.proxy.nextExpected == |s.accepted| && DoMwRead(s).disturbances == s.disturbances
    ensures MarkInv(DoMwRead(s))
  {
  }

  lemma ReactKeepsMark(s: State, r: Reaction)
    requires MarkInv(s) && WindowInv(s) && ClosePreserving(s.client, r)
    ensures MarkInv(React(s, r))
  {
    DeletesConcat(s.toMw, r.out);
    if s.live {
      WireMarkFree(r.out, Sent(s), s.wireMark);
      WireMarkAppend(s.toMw, |s.accepted|, s.wireMark, Sent(s), r.out);
    }
    if r.requeue {
      QueueMarkAppend(s.queue, |s.numbered|, s.closeMark, Close);
    }
  }

  lemma ReadKeepsMark(s: State)
    requires TokenInv(s) && MarkInv(s) && WindowInv(s) && s.toClient != []
    ensures MarkInv(DoClientRead(s))
  {
    var rest := s.(toClient := s.toClient[1..]);
    match s.toClient[0]
    case CumulativeAck(n) =>
      AckPreservesClose(s.client, n);
      ReactMark(s, rest, ReadAck(s.client, n));
    case Retransmit(n) =>
      assert false;
    case DeleteResponse =>
      assert s.toMw + [] == s.toMw;
  }

  /** Reading the head of the inbound wire does not bear on the marks. */
  lemma ReactMark(s: State, rest: State, r: Reaction)
    requires MarkInv(s) && WindowInv(s) && ClosePreserving(s.client, r)
    requires s.toClient != [] && rest == s.(toClient := s.toClient[1..])
    ensures MarkInv(React(rest, r))
  {
    ReactKeepsMark(s, r);
    assert React(rest, r) == React(s, r).(toClient := s.toClient[1..]);
  }

  lemma StepKeepsMark(s: State, step: Step)
    requires TokenInv(s) && MarkInv(s) && PrefixInv(s) && WindowInv(s) && Enabled(s, step)
    requires Apply(s, step).disturbances == s.disturbances
    ensures MarkInv(Apply(s, step))
  {
    match step
    case AppSend(p) => QueueMarkAppend(s.queue, |s.numbered|, s.closeMark, Packet(p));
    case AppClose =>
      QueueMarkFree(s.queue, |s.numbered|, |s.offered|);
      QueueMarkAppend(s.queue, |s.numbered|, |s.offered|, Close);
    case ClientPoll =>
      if s.queue[0].Packet? {
        PollPacketKeepsMark(s, s.queue[0].payload);
      } else {
        PollCloseKeepsMark(s);
      }
    case MwRead => MwReadKeepsMark(s);
    case ClientRead => ReadKeepsMark(s);
    case FinishJob =>
    case Timer =>
    case Inject(_) =>
  }

  ghost predicate CloseInv(s: State) {
    TokenInv(s) && SingleDelayInv(s) && (Undisturbed(s) ==> MarkInv(s))
  }

  lemma {:induction false} RunKeepsClose(s: State, steps: seq<Step>, t: State)
    requires CalmInv(s) && CloseInv(s) && Run(s, steps, t)
    ensures CalmInv(t) && CloseInv(t)
    decreases |steps|
  {
    if steps != [] {
      StepKeepsClose(s, steps[0]);
      RunKeepsClose(Apply(s, steps[0]), steps[1..], t);
    }
  }

  lemma StepKeepsClose(s: State, step: Step)
    requires CalmInv(s) && CloseInv(s) && Enabled(s, step)
    ensures CalmInv(Apply(s, step)) && CloseInv(Apply(s, step))
  {
    StepKeepsCalm(s, step);
    StepKeepsToken(s, step);
    StepKeepsSingleDelay(s, step);
    HistoryGrows(s, step);
    if Undisturbed(Apply(s, step)) {
      StepKeepsMark(s, step);
    }
  }

  lemma InitialClose(s: State)
    requires Initial(s)
    ensures CalmInv(s) && CloseInv(s)
  {
    InitialAccounting(s);
  }

  /** Graceful close: in every run without a retransmit request, once the middleware has
      deleted the socket it has accepted everything offered before the close was requested. */
  lemma GracefulClose(s: State, steps: seq<Step>, t: State)
    requires Initial(s) && Run(s, steps, t) && Undisturbed(t) && !t.live
    ensures t.closeRequested && t.closeMark <= |t.offered|
    ensures t.offered[..t.closeMark] <= t.accepted
  {
    InitialClose(s);
    RunKeepsClose(s, steps, t);
    AcceptedIsOffered(t);
  }

  /** The same with a condition the application controls: no message above 52428 bytes. */
  lemma SmallGracefulClose(s: State, steps: seq<Step>, t: State)
    requires Initial(s) && Run(s, steps, t) && !t.live
    requires Honest(steps)
    requires Small(t) && |t.offered| <= MESSAGE_LIMIT
    ensures t.closeRequested && t.closeMark <= |t.offered|
    ensures t.offered[..t.closeMark] <= t.accepted
  {
    SmallIsUndisturbed(s, steps, t);
    GracefulClose(s, steps, t);
  }

  lemma AcceptedIsOffered(t: State)
    requires PrefixInv(t) && t.closeMark <= |t.accepted|
    ensures t.closeMark <= |t.offered| && t.offered[..t.closeMark] <= t.accepted
  {
    assert t.accepted <= t.offered;
  }

  /** In every run at all, the close request exists in exactly one place, each delay but a
      current one was undone by one re-queueing, a delayed request waits for a non-empty
      buffer, and without later sends there is at most one delay. */
  lemma CloseNeverLost(s: State, steps: seq<Step>, t: State)
    requires Initial(s) && Run(s, steps, t)
    ensures Closes(t.queue) + Count(t.client.delayedClose) + Deletes(t.toMw) + Count(!t.live) == Count(t.closeRequested)
    ensures t.delays == t.requeues + Count(t.client.delayedClose)
    ensures t.client.delayedClose ==> t.client.buffer != map[]
    ensures t.closeRequested && !t.lateSend ==> t.delays <= 1
  {
    InitialClose(s);
    RunKeepsClose(s, steps, t);
  }
}
