/** Progress: left alone, the system stops after boundedly many steps, and when it stops
    everything the application offered has been accepted and acknowledged. */
module SendDrain {
  import opened SendTypes
  import opened ClientSocket
  import opened SendProxy
  import opened SendSystem
  import opened SendPrefix
  import opened SendAccounting
  import opened SendWindow
  import opened SendNoLoss
  import opened SendClose

  /** The steps the client and the middleware take by themselves. */
  predicate Internal(step: Step) {
    step in {ClientPoll, MwRead, FinishJob, Timer, ClientRead}
  }

  /** Work still to be done: each item is worth more than all it can turn into. */
  function Work(s: State): int {
    7 * |s.queue| + 6 * Count(s.client.delayedClose) + |s.client.buffer|
    + 5 * (|s.numbered| - Sent(s)) + 5 * |s.toMw| + 4 * |s.jobs|
    + (if s.live then 2 * s.proxy.ackCounter else 0) + |s.toClient|
  }

  lemma PollWorks(s: State)
    requires WindowInv(s) && BufferOk(s.client, s.numbered) && s.queue != []
    requires s.queue[0].Packet? ==> |s.numbered| < MESSAGE_LIMIT
    ensures Work(DoPoll(s)) < Work(s)
  {
    if s.queue[0].Packet? {
      var p := s.queue[0].payload;
      PollPacketKeepsWindow(s.client, p);
      PollPacketWorks(s.client, p);
    }
  }

  lemma PollPacketWorks(c: Client, p: Payload)
    requires ClientWindow(c) && Spans(c.buffer, c.nextSeqNr - |c.buffer|, c.nextSeqNr)
    requires c.nextSeqNr < MESSAGE_LIMIT && c.lastSent < U32
    ensures var (r, out) := PollPacket(c, p);
            && |r.buffer| == |c.buffer| + 1 && r.delayedClose == c.delayedClose
            && |out| <= 1 && SentBy(r) == SentBy(c) + |out|
  {
    AppendSpan(c.buffer, c.nextSeqNr - |c.buffer|, c.nextSeqNr, p);
  }

  lemma MwReadWorks(s: State)
    requires s.toMw != [] && DoMwRead(s).disturbances == s.disturbances
    ensures Work(DoMwRead(s)) < Work(s)
  {
  }

  lemma FinishJobWorks(s: State)
    requires s.jobs != []
    ensures Work(DoFinishJob(s)) < Work(s)
  {
  }

  lemma TimerWorks(s: State)
    requires Enabled(s, Timer)
    ensures Work(Apply(s, Timer)) < Work(s)
  {
  }

  lemma ReadAckWorks(s: State, n: nat)
    requires WindowInv(s) && BufferOk(s.client, s.numbered) && |s.numbered| <= MESSAGE_LIMIT && TokenInv(s)
    requires s.toClient != [] && s.toClient[0] == CumulativeAck(n)
    ensures Work(DoClientRead(s)) < Work(s)
  {
    AckKeepsWindow(s.client, n);
    AckPreservesClose(s.client, n);
    AckStepFrame(s, n);
    AckQueue(s, n);
    AckWeighs(s, ReadAck(s.client, n), DoClientRead(s));
  }

  lemma AckQueue(s: State, n: nat)
    requires s.toClient != [] && s.toClient[0] == CumulativeAck(n)
    ensures DoClientRead(s).queue == s.queue + if ReadAck(s.client, n).requeue then [Close] else []
  {
  }

  /** What the acknowledgement sends and re-queues weighs less than what it removes. */
  lemma AckWeighs(s: State, r: Reaction, t: State)
    requires s.toClient != [] && SameProxy(s, t) && t.client == r.client && t.toMw == s.toMw + r.out
    requires t.toClient == s.toClient[1..] && t.numbered == s.numbered
    requires t.queue == s.queue + if r.requeue then [Close] else []
    requires SentBy(r.client) == SentBy(s.client) + |r.out|
    requires |r.client.buffer| <= |s.client.buffer|
    requires if r.requeue then s.client.delayedClose && !r.client.delayedClose && |r.client.buffer| < |s.client.buffer|
             else r.client.delayedClose == s.client.delayedClose
    ensures Work(t) < Work(s)
  {
  }

  lemma InternalStepWorks(s: State, step: Step)
    requires AccountingInv(s) && WindowInv(s) && TokenInv(s) && Undisturbed(s)
    requires Internal(step) && Enabled(s, step) && Apply(s, step).disturbances == s.disturbances
    ensures Work(Apply(s, step)) < Work(s)
  {
    match step
    case ClientPoll =>
      if s.queue[0].Packet? {
        PollingIsOffered(s);
      }
      PollWorks(s);
    case MwRead => MwReadWorks(s);
    case FinishJob => FinishJobWorks(s);
    case Timer => TimerWorks(s);
    case ClientRead =>
      DoneAtMostOffered(s);
      if s.toClient[0].CumulativeAck? {
        ReadAckWorks(s, s.toClient[0].seqNr);
      }
  }

  lemma WorkIsNatural(s: State)
    requires WindowInv(s) && PrefixInv(s)
    ensures 0 <= Work(s)
  {
  }

  lemma {:induction false} RunWorks(s: State, more: seq<Step>, t: State)
    requires CalmInv(s) && CloseInv(s) && Run(s, more, t) && Undisturbed(t)
    requires forall i :: 0 <= i < |more| ==> Internal(more[i])
    ensures Undisturbed(s) && CalmInv(t) && 0 <= Work(t) <= Work(s) - |more|
    decreases |more|
  {
    if more == [] {
      WorkIsNatural(s);
    } else {
      var next := Apply(s, more[0]);
      StepKeepsClose(s, more[0]);
      RunWorks(next, more[1..], t);
      HistoryGrows(s, more[0]);
      InternalStepWorks(s, more[0]);
    }
  }

  ghost predicate Stuck(s: State) {
    forall step :: Internal(step) ==> !Enabled(s, step)
  }

  /** A live state in which nothing can move is the quiescent one. */
  lemma StuckIsQuiescent(t: State)
    requires AccountingInv(t) && WindowInv(t) && Undisturbed(t) && t.live && Stuck(t)
    ensures t.client.buffer == map[] && t.accepted == t.offered
  {
    assert !Enabled(t, ClientPoll) && !Enabled(t, MwRead) && !Enabled(t, FinishJob) && !Enabled(t, Timer);
    if t.toClient != [] {
      if t.toClient[0].CumulativeAck? {
        DoneAtMostOffered(t);
        DriftFacts(t);
        ReadAckKeepsWindow(t, t.toClient[0].seqNr);
      }
      assert Enabled(t, ClientRead);
      assert false;
    }
    QuietStateIsEmpty(t);
  }

  /** Progress in every run without a retransmit request: from any reachable state, at most
      Work(s) internal steps are possible, in any order, and when none is left and the socket
      is open, everything offered has been accepted and the client's buffer is empty. */
  lemma Drains(s0: State, steps: seq<Step>, s: State, more: seq<Step>, t: State)
    requires Initial(s0) && Run(s0, steps, s) && Run(s, more, t) && Undisturbed(t)
    requires forall i :: 0 <= i < |more| ==> Internal(more[i])
    ensures |more| <= Work(s)
    ensures t.live && Stuck(t) ==> t.client.buffer == map[] && t.accepted == t.offered
  {
    InitialClose(s0);
    RunKeepsClose(s0, steps, s);
    RunWorks(s, more, t);
    if t.live && Stuck(t) {
      StuckIsQuiescent(t);
    }
  }

  /** The same with a condition the application controls: no message above 52428 bytes. */
  lemma SmallDrains(s0: State, steps: seq<Step>, s: State, more: seq<Step>, t: State)
    requires Initial(s0) && Run(s0, steps, s) && Run(s, more, t)
    requires Honest(steps) && forall i :: 0 <= i < |more| ==> Internal(more[i])
    requires Small(t) && |t.offered| <= MESSAGE_LIMIT
    ensures |more| <= Work(s)
    ensures t.live && Stuck(t) ==> t.client.buffer == map[] && t.accepted == t.offered
  {
    RunsJoin(s0, steps, s, more, t);
    SmallIsUndisturbed(s0, steps + more, t);
    Drains(s0, steps, s, more, t);
  }

  // ---- what the application asked for

  /** The messages the application sent, in order. */
  function Sends(steps: seq<Step>): seq<Payload> {
    if steps == [] then []
    else (if steps[0].AppSend? then [steps[0].payload] else []) + Sends(steps[1..])
  }

  /** How many of them it sent before it closed the socket. */
  function SendsBeforeClose(steps: seq<Step>): nat {
    if steps == [] || steps[0].AppClose? then 0
    else (if steps[0].AppSend? then 1 else 0) + SendsBeforeClose(steps[1..])
  }

  /** What was sent, whether the socket was closed, and how much was sent before. */
  datatype History = History(sent: seq<Payload>, closed: bool, mark: nat)

  function HistoryOf(s: State): History { History(s.offered, s.closeRequested, s.closeMark) }

  function NextHistory(h: History, step: Step): History {
    match step
    case AppSend(p) => h.(sent := h.sent + [p])
    case AppClose => if h.closed then h else History(h.sent, true, |h.sent|)
    case _ => h
  }

  function HistoryAfter(h: History, steps: seq<Step>): History
    decreases |steps|
  {
    if steps == [] then h else HistoryAfter(NextHistory(h, steps[0]), steps[1..])
  }

  lemma PollHistory(s: State)
    requires s.queue != []
    ensures HistoryOf(DoPoll(s)) == HistoryOf(s)
  {
  }

  lemma ReadHistory(s: State)
    requires s.toClient != []
    ensures HistoryOf(DoClientRead(s)) == HistoryOf(s)
  {
  }

  lemma MwReadHistory(s: State)
    requires s.toMw != []
    ensures HistoryOf(DoMwRead(s)) == HistoryOf(s)
  {
  }

  lemma StepHistory(s: State, step: Step)
    requires Enabled(s, step)
    ensures HistoryOf(Apply(s, step)) == NextHistory(HistoryOf(s), step)
  {
    match step
    case ClientPoll => PollHistory(s);
    case MwRead => MwReadHistory(s);
    case ClientRead => ReadHistory(s);
    case _ =>
  }

  lemma {:induction false} RunHistory(s: State, steps: seq<Step>, t: State)
    requires Run(s, steps, t)
    ensures HistoryOf(t) == HistoryAfter(HistoryOf(s), steps)
    decreases |steps|
  {
    if steps != [] {
      StepHistory(s, steps[0]);
      RunHistory(Apply(s, steps[0]), steps[1..], t);
    }
  }

  lemma {:induction false} HistoryIsSends(h: History, steps: seq<Step>)
    ensures var after := HistoryAfter(h, steps);
            && after.sent == h.sent + Sends(steps)
            && (after.closed <==> h.closed || AppClose in steps)
            && (after.closed ==> after.mark == if h.closed then h.mark else |h.sent| + SendsBeforeClose(steps))
    decreases |steps|
  {
    if steps != [] {
      HistoryIsSends(NextHistory(h, steps[0]), steps[1..]);
      assert steps == [steps[0]] + steps[1..];
    }
  }

  lemma ClosedWhenStuck(t: State)
    requires CalmInv(t) && CloseInv(t) && Undisturbed(t) && Stuck(t) && t.closeRequested
    ensures !t.live
  {
    assert !Enabled(t, ClientPoll) && !Enabled(t, MwRead);
    if t.live {
      StuckIsQuiescent(t);
      assert false;
    }
  }

  /** End to end, for every run without a retransmit request in which nothing is left to do: without
      a close everything the application sent is accepted, in order, and the socket is open; with
      one the socket is deleted, and what was sent before the close is accepted, in order. */
  lemma EveryRunCompletes(s: State, steps: seq<Step>, t: State)
    requires Initial(s) && Run(s, steps, t) && Undisturbed(t) && Stuck(t)
    ensures AppClose !in steps ==> t.live && t.accepted == Sends(steps)
    ensures AppClose in steps ==>
              !t.live && SendsBeforeClose(steps) <= |Sends(steps)| && Sends(steps)[..SendsBeforeClose(steps)] <= t.accepted
  {
    RunHistory(s, steps, t);
    HistoryIsSends(HistoryOf(s), steps);
    assert t.offered == Sends(steps);
    InitialClose(s);
    RunKeepsClose(s, steps, t);
    if AppClose in steps {
      ClosedWhenStuck(t);
      AcceptedIsOffered(t);
    } else {
      CloseNeverLost(s, steps, t);
      StuckIsQuiescent(t);
    }
  }
}
