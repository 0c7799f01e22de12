/** The client's bookkeeping for one outgoing socket: numbering, window, buffer of
    unacknowledged packets, and the delayed close. */
module ClientSocket {
  import opened SendTypes

  datatype SocketState = Uninitialized | Open | AboutToClose | Closed

  datatype Client = Client(
    pendingSends: int,
    lastSent: nat,
    nextSeqNr: nat,
    buffer: map<nat, Payload>,
    state: SocketState,
    delayedClose: bool)

  /** The keys of the buffer are exactly the numbers from lo up to, but not including, hi. */
  ghost predicate Spans(buffer: map<nat, Payload>, lo: nat, hi: nat) {
    lo <= hi && forall k: nat :: k in buffer <==> lo <= k < hi
  }

  /** The packets numbered from..last of the buffer, in ascending order; stops at the first gap. */
  function Packets(buffer: map<nat, Payload>, from: nat, last: nat): (out: seq<ToMiddleware>)
    decreases last + 1 - from
  {
    if from in buffer && from <= last
    then [AsyncSend(from, buffer[from])] + Packets(buffer, from + 1, last)
    else []
  }

  /** What is left of the buffer once every number up to n is acknowledged. */
  function Kept(buffer: map<nat, Payload>, n: nat): map<nat, Payload> {
    map k | k in buffer && n < k :: buffer[k]
  }

  function Drop(c: Client, n: nat): Client {
    var kept := Kept(c.buffer, n);
    c.(buffer := kept, pendingSends := c.pendingSends - (|c.buffer| - |kept|))
  }

  /** Iterating from the packet `from` to the first one above `last` is defined if and only if
      that end does not lie before the start; an end just at the start is an empty range. */
  predicate RangeDefined(c: Client, from: nat, last: nat) {
    from in c.buffer && last < from ==> forall k :: k in c.buffer && last < k ==> from <= k
  }

  function SendRange(c: Client, from: nat, last: nat): (Client, seq<ToMiddleware>) {
    var out := Packets(c.buffer, from, last);
    (c.(pendingSends := c.pendingSends + |out|, lastSent := Wrap(c.lastSent + |out|)), out)
  }

  function RefillFrom(c: Client): nat { Wrap(c.lastSent + 1) }

  function RefillTo(c: Client): nat
    requires c.pendingSends < MAX_PENDING_SENDS
  {
    Wrap(RefillFrom(c) + (MAX_PENDING_SENDS - c.pendingSends))
  }

  function Refill(c: Client): (Client, seq<ToMiddleware>) {
    if c.pendingSends < MAX_PENDING_SENDS
    then SendRange(c, RefillFrom(c), RefillTo(c))
    else (c, [])
  }

  predicate RequeuesClose(c: Client) {
    c.state == AboutToClose && c.buffer == map[] && c.delayedClose
  }

  /** Result of handling one inbound control message: the new client, what went on the
      wire, and whether the delayed close request was pushed back to the queue. */
  datatype Reaction = Reaction(client: Client, out: seq<ToMiddleware>, requeue: bool)

  function ReadAck(c: Client, n: nat): Reaction {
    var (refilled, out) := Refill(Drop(c, n));
    if RequeuesClose(refilled)
    then Reaction(refilled.(delayedClose := false), out, true)
    else Reaction(refilled, out, false)
  }

  predicate AckDefined(c: Client, n: nat) {
    var d := Drop(c, n);
    d.pendingSends < MAX_PENDING_SENDS ==> RangeDefined(d, RefillFrom(d), RefillTo(d))
  }

  function ReadRetransmit(c: Client, n: nat): Reaction {
    var (c', out) := SendRange(c, n, c.lastSent);
    Reaction(c', out, false)
  }

  function ReadDeleteResponse(c: Client): Reaction {
    Reaction(c.(state := Closed), [], false)
  }

  predicate SendsAtOnce(c: Client) {
    (c.nextSeqNr == 0 || c.nextSeqNr == Wrap(c.lastSent + 1)) && c.pendingSends < MAX_PENDING_SENDS
  }

  function PollPacket(c: Client, p: Payload): (Client, seq<ToMiddleware>) {
    var n := c.nextSeqNr;
    var numbered := c.(
      nextSeqNr := Wrap(n + 1),
      buffer := if n in c.buffer then c.buffer else c.buffer[n := p]);
    if SendsAtOnce(c)
    then (numbered.(pendingSends := c.pendingSends + 1, lastSent := n), [AsyncSend(n, p)])
    else (numbered, [])
  }

  function PollClose(c: Client): (Client, seq<ToMiddleware>) {
    if c.buffer != map[]
    then (c.(delayedClose := true, state := AboutToClose), [])
    else (c, [DeleteSocket])
  }

  /** The bytes counted for the packets numbered lo..hi-1, small ones rounded up to a chunk. */
  function ReleasedBytes(buffer: map<nat, Payload>, lo: nat, hi: nat): nat
    requires forall k :: lo <= k < hi ==> k in buffer
    decreases hi - lo
  {
    if lo >= hi then 0 else
    var size := buffer[hi - 1].Size();
    ReleasedBytes(buffer, lo, hi - 1) + (if size < MIN_BUFFER_CHUNK then MIN_BUFFER_CHUNK else size)
  }

  lemma {:induction false} SpanSize(buffer: map<nat, Payload>, lo: nat, hi: nat)
    requires Spans(buffer, lo, hi)
    ensures |buffer| == hi - lo
    decreases hi - lo
  {
    if lo < hi {
      var rest := buffer - {hi - 1};
      SpanSize(rest, lo, hi - 1);
      assert buffer.Keys == rest.Keys + {hi - 1};
      assert |rest.Keys| == |rest| && |buffer.Keys| == |buffer|;
    } else {
      assert buffer == map[];
    }
  }

  lemma AppendSpan(buffer: map<nat, Payload>, lo: nat, hi: nat, p: Payload)
    requires Spans(buffer, lo, hi)
    ensures hi !in buffer && Spans(buffer[hi := p], lo, hi + 1) && |buffer[hi := p]| == |buffer| + 1
  {
    SpanSize(buffer, lo, hi);
    SpanSize(buffer[hi := p], lo, hi + 1);
  }

  /** Dropping acknowledged numbers keeps the buffer contiguous and counts what it removed. */
  lemma DropSpan(c: Client, n: nat, lo: nat, hi: nat)
    requires Spans(c.buffer, lo, hi)
    ensures var lo' := if n < lo then lo else if n + 1 < hi then n + 1 else hi;
            Spans(Drop(c, n).buffer, lo', hi) && Drop(c, n).pendingSends == c.pendingSends - (lo' - lo)
  {
    var lo' := if n < lo then lo else if n + 1 < hi then n + 1 else hi;
    SpanSize(c.buffer, lo, hi);
    SpanSize(Kept(c.buffer, n), lo', hi);
  }

  /** On a contiguous buffer, a range that starts inside it yields every packet up to the
      range's end or the buffer's end, each once and in order. */
  lemma {:induction false} PacketsOfSpan(buffer: map<nat, Payload>, lo: nat, hi: nat, from: nat, last: nat)
    requires Spans(buffer, lo, hi)
    requires lo <= from <= hi && from <= last + 1
    ensures var end := if last + 1 < hi then last + 1 else hi;
            |Packets(buffer, from, last)| == end - from &&
            forall i :: 0 <= i < end - from ==> Packets(buffer, from, last)[i] == AsyncSend(from + i, buffer[from + i])
    decreases last + 1 - from
  {
    if from < hi && from <= last {
      PacketsOfSpan(buffer, lo, hi, from + 1, last);
      var rest := Packets(buffer, from + 1, last);
      assert Packets(buffer, from, last) == [AsyncSend(from, buffer[from])] + rest;
      forall i | 0 < i < |rest| + 1 ensures Packets(buffer, from, last)[i] == AsyncSend(from + i, buffer[from + i]) {
        assert rest[i - 1] == AsyncSend(from + 1 + (i - 1), buffer[from + 1 + (i - 1)]);
      }
    }
  }

  /** The client's record of one socket, updated in place. */
  class SocketData {
    var pendingSends: int
    var lastSent: nat
    var seqNrs: nat
    var buffer: map<nat, Payload>
    var state: SocketState
    var delayedCloseMessage: bool

    ghost function View(): Client
      reads this
    {
      Client(pendingSends, lastSent, seqNrs, buffer, state, delayedCloseMessage)
    }

    ghost predicate Valid()
      reads this
    {
      seqNrs < U32 && lastSent < U32 && |buffer| <= seqNrs && Spans(buffer, seqNrs - |buffer|, seqNrs)
    }

    constructor (anyLastSent: nat)
      requires anyLastSent < U32
      ensures Valid()
      ensures View() == Client(0, anyLastSent, 0, map[], Uninitialized, false)
    {
      pendingSends, lastSent, seqNrs, buffer := 0, anyLastSent, 0, map[];
      state, delayedCloseMessage := Uninitialized, false;
    }

    /** Removes every packet numbered at most n and returns the bytes they were counted for. */
    method DropSmallerOrEqual(n: nat) returns (released: nat)
      requires Valid()
      modifies this
      ensures Valid()
      ensures View() == Drop(old(View()), n)
      ensures var lo := old(seqNrs - |buffer|);
              var hi := if n < lo then lo else if n + 1 < seqNrs then n + 1 else seqNrs;
              Spans(buffer, hi, seqNrs) && released == Wrap(ReleasedBytes(old(buffer), lo, hi))
    {
      var lo := seqNrs - |buffer|;
      var k, total, removed := lo, 0, 0;
      while k in buffer && k <= n
        invariant lo <= k <= seqNrs
        invariant k <= n + 1 || k == lo
        invariant total == ReleasedBytes(buffer, lo, k)
        invariant removed == k - lo
        decreases seqNrs - k
      {
        total := total + if buffer[k].Size() < MIN_BUFFER_CHUNK then MIN_BUFFER_CHUNK else buffer[k].Size();
        removed := removed + 1;
        k := k + 1;
      }
      DropSpan(View(), n, lo, seqNrs);
      buffer := Kept(buffer, n);
      pendingSends := pendingSends - removed;
      SpanSize(buffer, k, seqNrs);
      released := Wrap(total);
    }

    /** Writes the buffered packets numbered from..last and counts them as sent. */
    method DoSend(from: nat, last: nat) returns (out: seq<ToMiddleware>)
      requires Valid()
      requires RangeDefined(View(), from, last)
      modifies this`pendingSends, this`lastSent
      ensures Valid()
      ensures (View(), out) == SendRange(old(View()), from, last)
    {
      out := [];
      if from !in buffer {
        return;
      }
      var k := from;
      while k in buffer && k <= last
        invariant from <= k
        invariant out + Packets(buffer, k, last) == Packets(buffer, from, last)
        decreases last + 1 - k
      {
        out := out + [AsyncSend(k, buffer[k])];
        k := k + 1;
      }
      assert out == out + Packets(buffer, k, last);
      pendingSends := pendingSends + |out|;
      lastSent := Wrap(lastSent + |out|);
    }

    /** Handles a cumulative acknowledgement: drop, refill the window, release a delayed close. */
    method HandleAck(n: nat) returns (out: seq<ToMiddleware>, requeue: bool)
      requires Valid()
      requires AckDefined(View(), n)
      modifies this
      ensures Valid()
      ensures Reaction(View(), out, requeue) == ReadAck(old(View()), n)
    {
      var released := DropSmallerOrEqual(n);
      out := [];
      if pendingSends < MAX_PENDING_SENDS {
        var from := Wrap(lastSent + 1);
        var last := Wrap(from + (MAX_PENDING_SENDS - pendingSends));
        out := DoSend(from, last);
      }
      requeue := false;
      if state == AboutToClose && buffer == map[] && delayedCloseMessage {
        requeue := true;
        delayedCloseMessage := false;
      }
    }

    method HandleRetransmit(n: nat) returns (out: seq<ToMiddleware>)
      requires Valid()
      requires RangeDefined(View(), n, lastSent)
      modifies this`pendingSends, this`lastSent
      ensures Valid()
      ensures Reaction(View(), out, false) == ReadRetransmit(old(View()), n)
    {
      out := DoSend(n, lastSent);
    }

    /** Numbers a packet taken from the queue, sends it if the window allows, and buffers it. */
    method HandlePacket(p: Payload) returns (out: seq<ToMiddleware>)
      requires Valid()
      requires seqNrs + 1 < U32
      modifies this
      ensures Valid()
      ensures (View(), out) == PollPacket(old(View()), p)
    {
      var n := seqNrs;
      seqNrs := Wrap(n + 1);
      out := [];
      if n == 0 || n == Wrap(lastSent + 1) {
        if pendingSends < MAX_PENDING_SENDS {
          pendingSends := pendingSends + 1;
          out := [AsyncSend(n, p)];
          lastSent := n;
        }
      }
      AppendSpan(buffer, n - |buffer|, n, p);
      buffer := buffer[n := p];
    }

    method HandleClose() returns (out: seq<ToMiddleware>)
      requires Valid()
      modifies this`state, this`delayedCloseMessage
      ensures Valid()
      ensures (View(), out) == PollClose(old(View()))
    {
      if buffer != map[] {
        delayedCloseMessage := true;
        state := AboutToClose;
        out := [];
      } else {
        out := [DeleteSocket];
      }
    }
  }
}
