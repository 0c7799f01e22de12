/** The asynchronous send protocol of one socket as a system of atomic steps: the
    application, the client's loop, the middleware's session loop, the interfaces that
    finish jobs, the timer, and two FIFO wires between client and middleware. */
module SendSystem {
  import opened SendTypes
  import opened ClientSocket
  import opened SendProxy

  datatype QueueItem = Packet(payload: Payload) | Close

  /** The first block of fields is the state of the program; the second records history
      that no step reads back. */
  datatype State = State(
    queue: seq<QueueItem>,
    client: Client,
    toMw: seq<ToMiddleware>,
    proxy: Proxy,
    live: bool,
    jobs: seq<Job>,
    toClient: seq<ToClient>,

    offered: seq<Payload>,    // what the application pushed
    numbered: seq<Payload>,   // what the client gave a sequence number, by number
    accepted: seq<Payload>,   // what the middleware accepted, in order
    done: nat,                // how many accepted jobs are finished
    lastRead: nat,            // the last acknowledgement the client handled
    disturbances: nat,        // retransmit requests and injected messages so far
    closeRequested: bool,
    closeMark: nat,           // how much was offered when the close was requested
    wireMark: nat,            // how much was numbered when the close went on the wire
    delays: nat,
    requeues: nat,
    lateSend: bool)           // something was offered after the close

  datatype Step =
    | AppSend(payload: Payload)
    | AppClose
    | ClientPoll
    | MwRead
    | FinishJob
    | Timer
    | ClientRead
    | Inject(message: ToClient)

  ghost predicate Initial(s: State) {
    exists anyLastSent: nat :: anyLastSent < U32 && s == Start(anyLastSent)
  }

  /** `last_sent` has no initial value, so every number is a start. */
  function Start(anyLastSent: nat): State {
    State([], Client(0, anyLastSent, 0, map[], Uninitialized, false), [], FRESH_PROXY, true, [], [],
          [], [], [], 0, 0, 0, false, 0, 0, 0, 0, false)
  }

  predicate Enabled(s: State, step: Step) {
    match step
    case AppSend(_) => |s.offered| + 1 < U32
    case AppClose => !s.closeRequested
    case ClientPoll => s.queue != []
    case MwRead => s.toMw != []
    case FinishJob => s.jobs != []
    case Timer => s.live && s.proxy.ackCounter > 0
    case ClientRead => s.toClient != [] && ReadDefined(s.client, s.toClient[0])
    case Inject(m) => !m.DeleteResponse? && m.seqNr < U32
  }

  predicate ReadDefined(c: Client, m: ToClient) {
    match m
    case CumulativeAck(n) => AckDefined(c, n)
    case Retransmit(n) => RangeDefined(c, n, c.lastSent)
    case DeleteResponse => true
  }

  function Apply(s: State, step: Step): State
    requires Enabled(s, step)
  {
    match step
    case AppSend(p) => s.(queue := s.queue + [Packet(p)], offered := s.offered + [p], lateSend := s.lateSend || s.closeRequested)
    case AppClose => s.(queue := s.queue + [Close], closeRequested := true, closeMark := |s.offered|)
    case ClientPoll => DoPoll(s)
    case MwRead => DoMwRead(s)
    case FinishJob => DoFinishJob(s)
    case Timer => var (p, out) := ForceAck(s.proxy); s.(proxy := p, toClient := s.toClient + out)
    case ClientRead => DoClientRead(s)
    case Inject(m) => s.(toClient := s.toClient + [m], disturbances := s.disturbances + 1)
  }

  function DoPoll(s: State): State
    requires s.queue != []
  {
    match s.queue[0]
    case Packet(p) =>
      var (c, out) := PollPacket(s.client, p);
      s.(queue := s.queue[1..], client := c, toMw := s.toMw + out, numbered := s.numbered + [p])
    case Close =>
      var (c, out) := PollClose(s.client);
      if out == []
      then s.(queue := s.queue[1..], client := c, delays := s.delays + 1)
      else s.(queue := s.queue[1..], client := c, toMw := s.toMw + out, wireMark := |s.numbered|)
  }

  /** A deleted socket is unknown to the session, which then ignores its packets. */
  function DoMwRead(s: State): State
    requires s.toMw != []
  {
    var rest := s.(toMw := s.toMw[1..]);
    match s.toMw[0]
    case DeleteSocket => rest.(live := false, toClient := s.toClient + [DeleteResponse])
    case AsyncSend(n, p) =>
      if !s.live then rest else
      var (proxy, out) := HandleSend(s.proxy, n, p);
      var next := rest.(proxy := proxy, toClient := s.toClient + out, disturbances := s.disturbances + |out|);
      if Judge(s.proxy, n, p) == Accepted
      then next.(jobs := s.jobs + [Job(n, p)], accepted := s.accepted + [p])
      else next
  }

  function DoFinishJob(s: State): State
    requires s.jobs != []
  {
    var rest := s.(jobs := s.jobs[1..], done := s.done + 1);
    if !s.live then rest else
    var (p, out) := JobDone(s.proxy, s.jobs[0]);
    rest.(proxy := p, toClient := s.toClient + out)
  }

  function React(s: State, r: Reaction): State {
    var next := s.(client := r.client, toMw := s.toMw + r.out);
    if r.requeue then next.(queue := s.queue + [Close], requeues := s.requeues + 1) else next
  }

  function DoClientRead(s: State): State
    requires s.toClient != []
  {
    var rest := s.(toClient := s.toClient[1..]);
    match s.toClient[0]
    case CumulativeAck(n) => React(rest, ReadAck(s.client, n)).(lastRead := n)
    case Retransmit(n) => React(rest, ReadRetransmit(s.client, n))
    case DeleteResponse => React(rest, ReadDeleteResponse(s.client))
  }

  /** The steps lead from s to t. */
  ghost predicate Run(s: State, steps: seq<Step>, t: State)
    decreases |steps|
  {
    if steps == [] then s == t
    else Enabled(s, steps[0]) && Run(Apply(s, steps[0]), steps[1..], t)
  }

  lemma {:induction false} RunsJoin(s: State, steps: seq<Step>, t: State, more: seq<Step>, u: State)
    requires Run(s, steps, t) && Run(t, more, u)
    ensures Run(s, steps + more, u)
    decreases |steps|
  {
    if steps == [] {
      assert steps + more == more;
    } else {
      assert (steps + more)[1..] == steps[1..] + more;
      RunsJoin(Apply(s, steps[0]), steps[1..], t, more, u);
    }
  }

  /** Client, middleware and application alone. */
  ghost predicate Honest(steps: seq<Step>) {
    forall i :: 0 <= i < |steps| ==> !steps[i].Inject?
  }

  /** The packets waiting in the queue, in order. */
  function Payloads(queue: seq<QueueItem>): seq<Payload> {
    if queue == [] then []
    else if queue[0].Packet? then [queue[0].payload] + Payloads(queue[1..])
    else Payloads(queue[1..])
  }

  lemma {:induction false} PayloadsConcat(a: seq<QueueItem>, b: seq<QueueItem>)
    ensures Payloads(a + b) == Payloads(a) + Payloads(b)
  {
    if a == [] {
      assert a + b == b;
    } else {
      assert (a + b)[1..] == a[1..] + b;
      PayloadsConcat(a[1..], b);
    }
  }
}
