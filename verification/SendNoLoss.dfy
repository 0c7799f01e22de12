/** With messages of at most 52428 bytes nothing is ever refused: every run without injected
    messages stays undisturbed, and no payload is lost. The default maximum is 8 KiB. */
module SendNoLoss {
  import opened SendTypes
  import opened ClientSocket
  import opened SendProxy
  import opened SendSystem
  import opened SendPrefix
  import opened SendAccounting
  import opened SendWindow

  ghost predicate Within(s: State, size: nat) {
    forall i :: 0 <= i < |s.offered| ==> s.offered[i].Size() <= size
  }

  /** 320 of these fit the middleware's budget. */
  const SAFE_SIZE: nat := 52428

  /** 258 of these fill less than half of it. */
  const LIGHT_SIZE: nat := 32513

  ghost predicate Small(s: State) { Within(s, SAFE_SIZE) }

  ghost predicate Light(s: State) { Within(s, LIGHT_SIZE) }

  /** What the client dropped leads the finished jobs by at most the largest drift. */
  ghost predicate LeadInv(s: State) { Dropped(s) <= s.done + 63 }

  ghost predicate AcksTight(wire: seq<ToClient>, done: nat) {
    forall i :: 0 <= i < |wire| && wire[i].CumulativeAck? ==> wire[i].seqNr <= done
  }

  /** Without half-full acknowledgements the drift is its initial 1 or 0. */
  ghost predicate TightInv(s: State) {
    && (s.live ==> Drift(s) <= 1)
    && AcksTight(s.toClient, s.done)
    && Dropped(s) <= s.done + 1
  }

  ghost predicate QuietInv(s: State) {
    AccountingInv(s) &&
    (Small(s) && |s.offered| <= MESSAGE_LIMIT ==>
       s.disturbances == 0 && WindowInv(s) && LeadInv(s) && (Light(s) ==> TightInv(s)))
  }

  lemma {:induction false} BytesBound(jobs: seq<Job>, limit: nat)
    requires forall i :: 0 <= i < |jobs| ==> jobs[i].payload.Size() <= limit
    ensures Bytes(jobs) <= |jobs| * limit
  {
    if jobs != [] {
      BytesBound(jobs[1..], limit);
      assert |jobs| * limit == limit + |jobs[1..]| * limit;
    }
  }

  /** At most 258 accepted packets are unfinished. */
  lemma Backlog(s: State)
    requires WindowInv(s) && TightInv(s) && |s.accepted| == s.done + |s.jobs|
    requires |s.client.buffer| <= |s.numbered| == s.client.nextSeqNr
    ensures |s.jobs| <= 258
  {
  }

  lemma JobsWithin(s: State, size: nat)
    requires AccountingInv(s) && Within(s, size)
    ensures forall i :: 0 <= i < |s.jobs| ==> s.jobs[i].payload.Size() <= size
  {
    forall i | 0 <= i < |s.jobs| ensures s.jobs[i].payload.Size() <= size {
      var k := s.done + i;
      assert s.jobs[i].payload == s.accepted[k];
      assert s.accepted[k] == s.numbered[k];
      assert s.numbered[k] == s.offered[k];
    }
  }

  /** Light packets never fill half of the budget. */
  lemma BudgetSuffices(s: State)
    requires AccountingInv(s) && WindowInv(s) && TightInv(s) && Light(s) && s.live
    ensures |s.jobs| <= 258
    ensures Bytes(s.jobs) <= 258 * LIGHT_SIZE
    ensures !HalfFull(s.proxy) && s.proxy.available >= LIGHT_SIZE
  {
    Backlog(s);
    JobsWithin(s, LIGHT_SIZE);
    BytesBound(s.jobs, 32513);
  }

  /** At most 320 accepted packets are unfinished, and 319 while one more is under way. */
  lemma LongBacklog(s: State)
    requires WindowInv(s) && LeadInv(s) && |s.accepted| == s.done + |s.jobs|
    requires |s.client.buffer| <= |s.numbered| == s.client.nextSeqNr
    ensures |s.jobs| <= 320
    ensures s.live && s.toMw != [] && s.toMw[0].AsyncSend? ==> |s.jobs| <= 319
  {
    if s.live && s.toMw != [] && s.toMw[0].AsyncSend? {
      WireBounds(s.toMw[1..], |s.accepted| + 1, Sent(s));
    }
  }

  /** So the budget has room for a small packet that arrives. */
  lemma RoomForNext(s: State)
    requires AccountingInv(s) && WindowInv(s) && LeadInv(s) && Small(s) && s.live
    requires s.toMw != [] && s.toMw[0].AsyncSend?
    ensures Judge(s.proxy, s.toMw[0].seqNr, s.toMw[0].payload) == Accepted
  {
    LongBacklog(s);
    JobsWithin(s, SAFE_SIZE);
    BytesBound(s.jobs, 52428);
    HeadWithin(s, SAFE_SIZE);
  }

  lemma HeadWithin(s: State, size: nat)
    requires PrefixInv(s) && Within(s, size) && s.toMw != [] && s.toMw[0].AsyncSend?
    ensures s.toMw[0].payload.Size() <= size
  {
    assert Genuine(s.toMw[0], s.numbered);
    assert s.numbered[s.toMw[0].seqNr] == s.offered[s.toMw[0].seqNr];
  }

  /** Under the size limit no honest step requests a retransmit. */
  lemma NoRefusal(s: State, step: Step)
    requires AccountingInv(s) && WindowInv(s) && LeadInv(s) && Small(s) && Enabled(s, step) && !step.Inject?
    ensures Apply(s, step).disturbances == s.disturbances
  {
    match step
    case MwRead =>
      if s.live && s.toMw[0].AsyncSend? {
        RoomForNext(s);
      }
    case ClientRead => ReadNeverDisturbs(s);
    case _ =>
  }

  lemma ReadNeverDisturbs(s: State)
    requires s.toClient != []
    ensures DoClientRead(s).disturbances == s.disturbances
  {
  }

  lemma FinishJobKeepsTight(s: State)
    requires TightInv(s) && s.jobs != [] && s.jobs[0].seqNr == s.done
    requires s.live ==> !HalfFull(s.proxy) && s.proxy.ackCounter < MAX_ACK_BLOCK_SIZE
    ensures TightInv(DoFinishJob(s))
  {
  }

  lemma TimerKeepsTight(s: State)
    requires TightInv(s) && Enabled(s, Timer) && s.proxy.lastAck + s.proxy.ackCounter < U32
    ensures TightInv(Apply(s, Timer))
  {
  }

  lemma ReadAckKeepsTight(s: State, n: nat)
    requires TightInv(s) && WindowInv(s) && BufferOk(s.client, s.numbered)
    requires s.toClient != [] && s.toClient[0] == CumulativeAck(n) && |s.numbered| <= MESSAGE_LIMIT
    ensures TightInv(DoClientRead(s))
  {
    AckKeepsWindow(s.client, n);
    AckStepFrame(s, n);
  }

  lemma PollKeepsTight(s: State)
    requires TightInv(s) && WindowInv(s) && BufferOk(s.client, s.numbered) && s.queue != []
    requires s.queue[0].Packet? ==> |s.numbered| < MESSAGE_LIMIT
    ensures TightInv(DoPoll(s))
  {
    if s.queue[0].Packet? {
      PollPacketKeepsWindow(s.client, s.queue[0].payload);
    }
  }

  lemma MwReadKeepsTight(s: State)
    requires TightInv(s) && s.toMw != [] && DoMwRead(s).disturbances == s.disturbances
    ensures TightInv(DoMwRead(s))
  {
  }

  lemma ReadAckKeepsLead(s: State, n: nat)
    requires LeadInv(s) && WindowInv(s) && BufferOk(s.client, s.numbered)
    requires s.toClient != [] && s.toClient[0] == CumulativeAck(n) && |s.numbered| <= MESSAGE_LIMIT
    ensures LeadInv(DoClientRead(s))
  {
    AckKeepsWindow(s.client, n);
    AckStepFrame(s, n);
  }

  lemma PollKeepsLead(s: State)
    requires LeadInv(s) && WindowInv(s) && BufferOk(s.client, s.numbered) && s.queue != []
    requires s.queue[0].Packet? ==> |s.numbered| < MESSAGE_LIMIT
    ensures LeadInv(DoPoll(s))
  {
    if s.queue[0].Packet? {
      PollPacketKeepsWindow(s.client, s.queue[0].payload);
    }
  }

  lemma StepKeepsLead(s: State, step: Step)
    requires AccountingInv(s) && WindowInv(s) && LeadInv(s) && Enabled(s, step)
    requires |s.offered| <= MESSAGE_LIMIT && Apply(s, step).disturbances == s.disturbances
    ensures LeadInv(Apply(s, step))
  {
    match step
    case ClientPoll =>
      if s.queue[0].Packet? {
        PollingIsOffered(s);
      }
      PollKeepsLead(s);
    case ClientRead =>
      if s.toClient[0].CumulativeAck? {
        ReadAckKeepsLead(s, s.toClient[0].seqNr);
      }
    case _ =>
  }

  lemma StepKeepsTight(s: State, step: Step)
    requires AccountingInv(s) && WindowInv(s) && TightInv(s) && Light(s) && Enabled(s, step)
    requires |s.offered| <= MESSAGE_LIMIT && Apply(s, step).disturbances == s.disturbances
    ensures TightInv(Apply(s, step))
  {
    if s.live {
      BudgetSuffices(s);
      DriftFacts(s);
    }
    match step
    case ClientPoll =>
      if s.queue[0].Packet? {
        PollingIsOffered(s);
      }
      PollKeepsTight(s);
    case MwRead => MwReadKeepsTight(s);
    case FinishJob => FinishJobKeepsTight(s);
    case Timer => TimerKeepsTight(s);
    case ClientRead =>
      if s.toClient[0].CumulativeAck? {
        ReadAckKeepsTight(s, s.toClient[0].seqNr);
      }
    case AppSend(_) =>
    case AppClose =>
    case Inject(_) =>
  }

  lemma StepKeepsQuiet(s: State, step: Step)
    requires QuietInv(s) && Enabled(s, step) && !step.Inject?
    ensures QuietInv(Apply(s, step))
  {
    var t := Apply(s, step);
    StepKeepsAccounting(s, step);
    HistoryGrows(s, step);
    if Small(t) && |t.offered| <= MESSAGE_LIMIT {
      assert forall i :: 0 <= i < |s.offered| ==> s.offered[i] == t.offered[i];
      NoRefusal(s, step);
      UndisturbedStep(s, step);
      StepKeepsLead(s, step);
      if Light(t) {
        StepKeepsTight(s, step);
      }
    }
  }

  // ---- where every payload is

  function OnWire(wire: seq<ToMiddleware>): seq<Payload> {
    if wire == [] then []
    else if wire[0].AsyncSend? then [wire[0].payload] + OnWire(wire[1..])
    else OnWire(wire[1..])
  }

  /** What the client buffered but has not sent yet, in order. */
  function Unsent(c: Client): seq<Payload> {
    OnWire(Packets(c.buffer, SentBy(c), c.nextSeqNr))
  }

  lemma {:induction false} OnWireIs(wire: seq<ToMiddleware>, e: nat, sent: nat, numbered: seq<Payload>)
    requires WireOk(wire, e, sent) && AllGenuine(wire, numbered) && sent <= |numbered|
    ensures e <= sent && OnWire(wire) == numbered[e..sent]
    decreases |wire|
  {
    WireBounds(wire, e, sent);
    if wire != [] {
      assert Genuine(wire[0], numbered);
      assert AllGenuine(wire[1..], numbered);
      if wire[0].AsyncSend? {
        WireBounds(wire[1..], e + 1, sent);
        OnWireIs(wire[1..], e + 1, sent, numbered);
        assert numbered[e..sent] == [numbered[e]] + numbered[e + 1..sent];
      } else {
        OnWireIs(wire[1..], e, sent, numbered);
      }
    }
  }

  lemma UnsentIs(c: Client, numbered: seq<Payload>)
    requires BufferOk(c, numbered) && ClientWindow(c)
    ensures Unsent(c) == numbered[SentBy(c)..]
  {
    var out := Packets(c.buffer, SentBy(c), c.nextSeqNr);
    PacketsOfSpan(c.buffer, |numbered| - |c.buffer|, |numbered|, SentBy(c), c.nextSeqNr);
    PacketsGenuine(c.buffer, SentBy(c), c.nextSeqNr, numbered);
    WireOfRange(out, SentBy(c));
    OnWireIs(out, SentBy(c), |numbered|, numbered);
  }

  /** Every payload is accepted, on the wire, buffered and unsent, or queued: in this order. */
  lemma NothingLost(s: State)
    requires PrefixInv(s) && WindowInv(s) && s.live
    ensures s.offered == s.accepted + OnWire(s.toMw) + Unsent(s.client) + Payloads(s.queue)
  {
    OnWireIs(s.toMw, |s.accepted|, Sent(s), s.numbered);
    UnsentIs(s.client, s.numbered);
    ThreeParts(s.numbered, |s.accepted|, Sent(s));
  }

  lemma ThreeParts(numbered: seq<Payload>, a: nat, b: nat)
    requires a <= b <= |numbered|
    ensures numbered == numbered[..a] + numbered[a..b] + numbered[b..]
  {
  }

  lemma {:induction false} RunKeepsQuiet(s: State, steps: seq<Step>, t: State)
    requires QuietInv(s) && Run(s, steps, t)
    requires Honest(steps)
    ensures QuietInv(t)
    decreases |steps|
  {
    if steps != [] {
      StepKeepsQuiet(s, steps[0]);
      RunKeepsQuiet(Apply(s, steps[0]), steps[1..], t);
    }
  }

  lemma InitialQuiet(s: State)
    requires Initial(s)
    ensures QuietInv(s)
  {
    InitialAccounting(s);
  }

  /** Messages of at most 52428 bytes never cause a retransmit request. */
  lemma SmallIsUndisturbed(s: State, steps: seq<Step>, t: State)
    requires Initial(s) && Run(s, steps, t) && Honest(steps) && Small(t) && |t.offered| <= MESSAGE_LIMIT
    ensures Undisturbed(t)
  {
    InitialQuiet(s);
    RunKeepsQuiet(s, steps, t);
  }

  /** No loss: in every run with messages of at most 52428 bytes no payload is lost or refused and
      at most 320 accepted packets are unfinished; with messages of at most 32513 bytes there
      are at most 258 and the budget never fills half. */
  lemma NoLoss(s: State, steps: seq<Step>, t: State)
    requires Initial(s) && Run(s, steps, t) && Honest(steps)
    requires Small(t) && |t.offered| <= MESSAGE_LIMIT && t.live
    ensures t.disturbances == 0
    ensures t.offered == t.accepted + OnWire(t.toMw) + Unsent(t.client) + Payloads(t.queue)
    ensures |t.jobs| <= 320 && DEFAULT_MAX_BUFFER_SIZE - t.proxy.available == Bytes(t.jobs)
    ensures Light(t) ==> |t.jobs| <= 258 && !HalfFull(t.proxy)
    ensures t.toMw != [] && t.toMw[0].AsyncSend? ==> Judge(t.proxy, t.toMw[0].seqNr, t.toMw[0].payload) == Accepted
  {
    InitialQuiet(s);
    RunKeepsQuiet(s, steps, t);
    NothingLost(t);
    LongBacklog(t);
    if Light(t) {
      BudgetSuffices(t);
    }
    if t.toMw != [] && t.toMw[0].AsyncSend? {
      RoomForNext(t);
    }
  }
}
