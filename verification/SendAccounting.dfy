/** What the middleware's counters mean in every run: the send budget is the size of the
    unfinished jobs, and a forced acknowledgement leads the finished jobs by a bounded drift. */
module SendAccounting {
  import opened SendTypes
  import opened ClientSocket
  import opened SendProxy
  import opened SendSystem
  import opened SendPrefix

  /** Up to this many messages no sequence number computed by either side wraps around. */
  const MESSAGE_LIMIT: nat := U32 - 126

  function Bytes(jobs: seq<Job>): nat {
    if jobs == [] then 0 else jobs[0].payload.Size() + Bytes(jobs[1..])
  }

  lemma {:induction false} BytesAppend(jobs: seq<Job>, j: Job)
    ensures Bytes(jobs + [j]) == Bytes(jobs) + j.payload.Size()
  {
    if jobs == [] {
      assert Bytes([j]) == j.payload.Size() + Bytes([]);
    } else {
      assert (jobs + [j])[1..] == jobs[1..] + [j];
      BytesAppend(jobs[1..], j);
    }
  }

  /** Finished and unfinished jobs together are the accepted packets, in order. */
  ghost predicate JobsInv(s: State) {
    && |s.accepted| == s.done + |s.jobs|
    && forall i :: 0 <= i < |s.jobs| ==> s.jobs[i] == Job(s.done + i, s.accepted[s.done + i])
  }

  ghost predicate BudgetInv(s: State) {
    s.live ==> 0 <= s.proxy.available == DEFAULT_MAX_BUFFER_SIZE - Bytes(s.jobs)
  }

  /** How far the acknowledgement that the timer would force leads the last finished job. */
  function Drift(s: State): int {
    s.proxy.lastAck + s.proxy.ackCounter - (s.done as int - 1)
  }

  ghost predicate DriftInv(s: State) {
    s.live && |s.offered| <= MESSAGE_LIMIT ==>
      s.proxy.ackCounter < MAX_ACK_BLOCK_SIZE && 0 <= Drift(s) < MAX_ACK_BLOCK_SIZE
  }

  ghost predicate AccountingInv(s: State) {
    PrefixInv(s) && ProxyInv(s)
  }

  /** The next job to finish decides to send an acknowledgement. */
  predicate Acknowledges(s: State, step: Step) {
    step == FinishJob && s.jobs != [] && s.live && JobDone(s.proxy, s.jobs[0]).1 != []
  }

  lemma NoWrap(s: State)
    requires s.live && |s.offered| <= MESSAGE_LIMIT && s.done <= |s.offered| && DriftInv(s)
    ensures s.proxy.lastAck + s.proxy.ackCounter < U32
  {
  }

  lemma DoneAtMostOffered(s: State)
    requires AccountingInv(s)
    ensures s.done <= |s.accepted| <= |s.numbered| <= |s.offered|
  {
  }

  /** Only an acknowledged job changes the drift, and then to the counter's new value: to 0
      at a block boundary, to the counter when a half-full budget forced it. */
  lemma StepDrift(s: State, step: Step)
    requires Enabled(s, step)
    requires s.live && s.proxy.ackCounter < MAX_ACK_BLOCK_SIZE && s.proxy.lastAck + s.proxy.ackCounter < U32
    requires s.jobs != [] ==> s.jobs[0].seqNr == s.done
    ensures Drift(Apply(s, step)) == if Acknowledges(s, step) then Apply(s, step).proxy.ackCounter else Drift(s)
    ensures Acknowledges(s, step) && (s.proxy.ackCounter + 1) % MAX_ACK_BLOCK_SIZE == 0 ==> Drift(Apply(s, step)) == 0
  {
    match step
    case ClientRead => ReactKeepsProxy(s);
    case _ =>
  }

  /** The steps that leave the middleware's side and the accepted packets alone. */
  ghost predicate SameProxy(s: State, t: State) {
    && t.proxy == s.proxy && t.live == s.live && t.jobs == s.jobs && t.done == s.done
    && t.accepted == s.accepted && |t.offered| >= |s.offered|
  }

  lemma ReactFrame(s: State, r: Reaction)
    ensures SameProxy(s, React(s, r))
  {
  }

  lemma ReactKeepsProxy(s: State)
    requires s.toClient != []
    ensures SameProxy(s, DoClientRead(s))
  {
    var rest := s.(toClient := s.toClient[1..]);
    match s.toClient[0]
    case CumulativeAck(n) => ReactFrame(rest, ReadAck(s.client, n));
    case Retransmit(n) => ReactFrame(rest, ReadRetransmit(s.client, n));
    case DeleteResponse => ReactFrame(rest, ReadDeleteResponse(s.client));
  }

  /** The part of the invariant that speaks about the middleware only. */
  ghost predicate ProxyInv(s: State) {
    JobsInv(s) && BudgetInv(s) && DriftInv(s)
  }

  lemma SameProxyKeepsProxyInv(s: State, t: State)
    requires ProxyInv(s) && SameProxy(s, t)
    ensures ProxyInv(t)
  {
  }

  lemma AcceptKeepsProxyInv(s: State, n: nat, p: Payload)
    requires PrefixInv(s) && ProxyInv(s) && s.toMw != [] && s.toMw[0] == AsyncSend(n, p)
    requires s.live && Judge(s.proxy, n, p) == Accepted
    ensures ProxyInv(DoMwRead(s))
  {
    var t := DoMwRead(s);
    BytesAppend(s.jobs, Job(n, p));
    assert t.jobs == s.jobs + [Job(n, p)] && t.accepted == s.accepted + [p];
    assert JobsInv(t);
    assert BudgetInv(t);
  }

  lemma MwReadKeepsProxyInv(s: State)
    requires PrefixInv(s) && ProxyInv(s) && s.toMw != []
    ensures ProxyInv(DoMwRead(s))
  {
    var m := s.toMw[0];
    if m.AsyncSend? && s.live && Judge(s.proxy, m.seqNr, m.payload) == Accepted {
      AcceptKeepsProxyInv(s, m.seqNr, m.payload);
    }
  }

  lemma FinishJobKeepsProxyInv(s: State)
    requires ProxyInv(s) && s.jobs != [] && s.done <= |s.offered|
    ensures ProxyInv(DoFinishJob(s))
  {
    if s.live && |s.offered| <= MESSAGE_LIMIT {
      NoWrap(s);
      StepDrift(s, FinishJob);
    }
  }

  lemma TimerKeepsProxyInv(s: State)
    requires ProxyInv(s) && Enabled(s, Timer) && s.done <= |s.offered|
    ensures ProxyInv(Apply(s, Timer))
  {
    if |s.offered| <= MESSAGE_LIMIT {
      NoWrap(s);
    }
  }

  lemma StepKeepsProxyInv(s: State, step: Step)
    requires PrefixInv(s) && ProxyInv(s) && Enabled(s, step)
    ensures ProxyInv(Apply(s, step))
  {
    DoneAtMostOffered(s);
    match step
    case MwRead => MwReadKeepsProxyInv(s);
    case FinishJob => FinishJobKeepsProxyInv(s);
    case Timer => TimerKeepsProxyInv(s);
    case ClientRead =>
      ReactKeepsProxy(s);
      SameProxyKeepsProxyInv(s, Apply(s, step));
    case _ => SameProxyKeepsProxyInv(s, Apply(s, step));
  }

  lemma StepKeepsAccounting(s: State, step: Step)
    requires AccountingInv(s) && Enabled(s, step)
    ensures AccountingInv(Apply(s, step))
  {
    StepKeepsPrefix(s, step);
    StepKeepsProxyInv(s, step);
  }

  lemma {:induction false} RunKeepsAccounting(s: State, steps: seq<Step>, t: State)
    requires AccountingInv(s) && Run(s, steps, t)
    ensures AccountingInv(t)
    decreases |steps|
  {
    if steps != [] {
      StepKeepsAccounting(s, steps[0]);
      RunKeepsAccounting(Apply(s, steps[0]), steps[1..], t);
    }
  }

  lemma InitialAccounting(s: State)
    requires Initial(s)
    ensures AccountingInv(s)
  {
  }

  lemma ReachableAccounting(s: State, steps: seq<Step>, t: State)
    requires Initial(s) && Run(s, steps, t)
    ensures AccountingInv(t)
  {
    InitialAccounting(s);
    RunKeepsAccounting(s, steps, t);
  }

  lemma ForcedAckMeaning(s: State)
    requires ProxyInv(s) && s.live && s.done <= |s.offered| <= MESSAGE_LIMIT && s.proxy.ackCounter > 0
    ensures ForceAck(s.proxy).1 == [CumulativeAck(s.done - 1 + Drift(s))]
  {
    NoWrap(s);
  }

  /** In every run, the acknowledgement the timer would force covers every finished job and
      leads by at most 63, and the budget holds exactly the bytes of the unfinished jobs. */
  lemma AckDrift(s: State, steps: seq<Step>, t: State)
    requires Initial(s) && Run(s, steps, t)
    requires |t.offered| <= MESSAGE_LIMIT && t.live
    ensures 0 <= Drift(t) <= 63
    ensures t.proxy.ackCounter > 0 ==> ForceAck(t.proxy).1 == [CumulativeAck(t.done - 1 + Drift(t))]
    ensures DEFAULT_MAX_BUFFER_SIZE - t.proxy.available == Bytes(t.jobs)
    ensures |t.accepted| == t.done + |t.jobs|
  {
    ReachableAccounting(s, steps, t);
    DoneAtMostOffered(t);
    if t.proxy.ackCounter > 0 {
      ForcedAckMeaning(t);
    }
  }
}
