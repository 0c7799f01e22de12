/** The middleware's bookkeeping for one outgoing socket: the next expected number, the
    send budget, and the counters behind cumulative acknowledgements. */
module SendProxy {
  import opened SendTypes

  datatype Proxy = Proxy(lastAck: nat, nextExpected: nat, ackCounter: nat, available: int)

  const FRESH_PROXY := Proxy(0, 0, 0, DEFAULT_MAX_BUFFER_SIZE)

  datatype Verdict = Accepted | Refused | OutOfOrder

  function Judge(p: Proxy, seqNr: nat, payload: Payload): Verdict {
    if p.nextExpected != seqNr then OutOfOrder
    else if p.available - payload.Size() < 0 then Refused
    else Accepted
  }

  function HandleSend(p: Proxy, seqNr: nat, payload: Payload): (Proxy, seq<ToClient>) {
    match Judge(p, seqNr, payload)
    case Accepted => (p.(available := p.available - payload.Size(), nextExpected := Wrap(p.nextExpected + 1)), [])
    case Refused => (p, [Retransmit(seqNr)])
    case OutOfOrder => (p, [])
  }

  predicate HalfFull(p: Proxy) {
    (DEFAULT_MAX_BUFFER_SIZE - p.available) * 2 >= DEFAULT_MAX_BUFFER_SIZE
  }

  function JobDone(p: Proxy, j: Job): (Proxy, seq<ToClient>) {
    var ac := (p.ackCounter + 1) % MAX_ACK_BLOCK_SIZE;
    var released := p.(available := p.available + j.payload.Size(), ackCounter := ac);
    if ac == 0 || HalfFull(p)
    then (released.(lastAck := j.seqNr), [CumulativeAck(j.seqNr)])
    else (released, [])
  }

  function ForceAck(p: Proxy): (Proxy, seq<ToClient>) {
    if p.ackCounter > 0 then
      var n := Wrap(p.lastAck + p.ackCounter);
      (p.(lastAck := n, ackCounter := 0), [CumulativeAck(n)])
    else (p, [])
  }

  /** The send half of the middleware's socket object. Streams are numbered from 0; every
      interface has its own queue of jobs. */
  class SocketProxy {
    var lastAcknowledged: nat
    var nextExpectedSeqNr: nat
    var ackCounter: nat
    var available: int
    var numStreams: nat
    var interfaceQueues: seq<seq<Job>>

    ghost function View(): Proxy
      reads this
    {
      Proxy(lastAcknowledged, nextExpectedSeqNr, ackCounter, available)
    }

    constructor (interfaces: nat)
      ensures View() == FRESH_PROXY && numStreams == 0
      ensures interfaceQueues == seq(interfaces, i => [])
    {
      lastAcknowledged, nextExpectedSeqNr, ackCounter := 0, 0, 0;
      available, numStreams := DEFAULT_MAX_BUFFER_SIZE, 0;
      interfaceQueues := seq(interfaces, i => []);
    }

    /** A packet on an unknown stream is ignored; an accepted one reaches every interface. */
    method HandleAsyncSend(stream: nat, seqNr: nat, payload: Payload) returns (out: seq<ToClient>)
      modifies this
      ensures stream >= numStreams ==> View() == old(View()) && out == []
      ensures stream < numStreams ==> (View(), out) == HandleSend(old(View()), seqNr, payload)
      ensures |interfaceQueues| == |old(interfaceQueues)|
      ensures var accepted := stream < numStreams && Judge(old(View()), seqNr, payload) == Accepted;
              forall i :: 0 <= i < |interfaceQueues| ==>
                interfaceQueues[i] == old(interfaceQueues)[i] + if accepted then [Job(seqNr, payload)] else []
      ensures numStreams == old(numStreams)
    {
      out := [];
      if stream < numStreams && nextExpectedSeqNr == seqNr {
        if available - payload.Size() >= 0 {
          available := available - payload.Size();
          for i := 0 to |interfaceQueues|
            invariant |interfaceQueues| == |old(interfaceQueues)|
            invariant forall k :: 0 <= k < i ==> interfaceQueues[k] == old(interfaceQueues)[k] + [Job(seqNr, payload)]
            invariant forall k :: i <= k < |interfaceQueues| ==> interfaceQueues[k] == old(interfaceQueues)[k]
            invariant unchanged(`lastAcknowledged, `nextExpectedSeqNr, `ackCounter, `numStreams)
            invariant available == old(available) - payload.Size()
          {
            interfaceQueues := interfaceQueues[i := interfaceQueues[i] + [Job(seqNr, payload)]];
          }
          nextExpectedSeqNr := Wrap(nextExpectedSeqNr + 1);
        } else {
          out := [Retransmit(seqNr)];
        }
      }
    }

    method AsyncJobDone(stream: nat, j: Job) returns (out: seq<ToClient>)
      modifies this`lastAcknowledged, this`ackCounter, this`available
      ensures stream >= numStreams ==> View() == old(View()) && out == []
      ensures stream < numStreams ==> (View(), out) == JobDone(old(View()), j)
    {
      out := [];
      if stream < numStreams {
        var ac := (ackCounter + 1) % MAX_ACK_BLOCK_SIZE;
        if ac == 0 || (DEFAULT_MAX_BUFFER_SIZE - available) * 2 >= DEFAULT_MAX_BUFFER_SIZE {
          out := [CumulativeAck(j.seqNr)];
          lastAcknowledged := j.seqNr;
        }
        available := available + j.payload.Size();
        ackCounter := ac;
      }
    }

    /** The loop visits every stream, but only the first one can find a positive counter. */
    method ForceAcks() returns (forced: bool, out: seq<ToClient>)
      modifies this`lastAcknowledged, this`ackCounter
      ensures numStreams > 0 ==> (View(), out) == ForceAck(old(View()))
      ensures numStreams == 0 ==> View() == old(View()) && out == []
      ensures forced == (out != [])
    {
      forced, out := false, [];
      for i := 0 to numStreams
        invariant i == 0 ==> View() == old(View()) && out == []
        invariant i > 0 ==> (View(), out) == ForceAck(old(View()))
        invariant i > 0 ==> ackCounter == 0
        invariant forced == (out != [])
      {
        if ackCounter > 0 {
          forced := true;
          var n := Wrap(lastAcknowledged + ackCounter);
          out := out + [CumulativeAck(n)];
          assert out == [CumulativeAck(n)];
          lastAcknowledged := n;
          ackCounter := 0;
        }
      }
    }

    method AddStream() returns (stream: nat)
      modifies this`numStreams
      ensures stream == old(numStreams) && numStreams == stream + 1
    {
      stream := numStreams;
      numStreams := numStreams + 1;
    }
  }
}
