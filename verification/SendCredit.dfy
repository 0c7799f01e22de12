/** The blocking credit in front of the send queue, and the exact size of messages up to which no
    run with it asks for a retransmission. */
module SendCredit {
  import opened SendTypes
  import opened ClientSocket
  import opened SendProxy
  import opened SendSystem
  import opened SendPrefix
  import opened SendAccounting
  import opened SendWindow
  import opened SendNoLoss
  import opened SendStall

  /** What a message takes from the credit: small ones count as a chunk. */
  function Cost(p: Payload): nat {
    if p.Size() < MIN_BUFFER_CHUNK then MIN_BUFFER_CHUNK else p.Size()
  }

  function CostUpTo(buffer: map<nat, Payload>, n: nat): nat {
    (if n in buffer then Cost(buffer[n]) else 0) + if n == 0 then 0 else CostUpTo(buffer, n - 1)
  }

  /** What an acknowledgement gives back: the cost of what it dropped, at least one chunk; the sum
      is a 32-bit number that the credit reads as a signed one. */
  function GivenBack(c: Client, n: nat): nat {
    var sum := Wrap(CostUpTo(c.buffer, n));
    if MIN_BUFFER_CHUNK <= sum < 0x8000_0000 then sum else MIN_BUFFER_CHUNK
  }

  /** The cost of what an acknowledgement drops is what dropping reports. */
  lemma {:induction false} CostIsReleased(buffer: map<nat, Payload>, lo: nat, hi: nat, n: nat)
    requires Spans(buffer, lo, hi)
    ensures CostUpTo(buffer, n) == ReleasedBytes(buffer, lo, AfterAck(lo, n, hi))
    decreases n
  {
    if n > 0 {
      CostIsReleased(buffer, lo, hi, n - 1);
    }
  }

  lemma {:induction false} SmallPacketsGiveChunks(buffer: map<nat, Payload>, lo: nat, hi: nat)
    requires lo <= hi && forall k :: lo <= k < hi ==> k in buffer && buffer[k].Size() < 32768
    ensures ReleasedBytes(buffer, lo, hi) == 32768 * (hi - lo)
    decreases hi - lo
  {
    if lo < hi {
      SmallPacketsGiveChunks(buffer, lo, hi - 1);
    }
  }

  /** An acknowledgement of k packets, each smaller than a chunk of 32 KiB, gives back exactly k chunks,
      which is what they took; a larger packet takes its size and gives it back. */
  lemma CreditOfPackets(c: Client, lo: nat, hi: nat, n: nat, p: Payload)
    requires Spans(c.buffer, lo, hi) && lo <= n < hi && n - lo < 0xFFFF
    ensures Cost(p) == if p.Size() < 32768 then 32768 else p.Size()
    ensures (forall k :: lo <= k <= n ==> c.buffer[k].Size() < 32768) ==> GivenBack(c, n) == 32768 * (n + 1 - lo)
    ensures n == lo && 32768 <= c.buffer[n].Size() < 0x8000_0000 ==> GivenBack(c, n) == c.buffer[n].Size()
  {
    CostIsReleased(c.buffer, lo, hi, n);
    if forall k :: lo <= k <= n ==> c.buffer[k].Size() < 32768 {
      SmallPacketsGiveChunks(c.buffer, lo, n + 1);
    }
    if n == lo {
      assert ReleasedBytes(c.buffer, lo, lo) == 0;
    }
  }

  datatype Credited = Credited(state: State, credit: int)

  predicate MayTake(s: Credited, step: Step) {
    Enabled(s.state, step) && (step.AppSend? ==> Cost(step.payload) <= s.credit)
  }

  function Take(s: Credited, step: Step): Credited
    requires MayTake(s, step)
  {
    var credit :=
      if step.AppSend? then s.credit - Cost(step.payload)
      else if step == ClientRead && s.state.toClient[0].CumulativeAck?
      then s.credit + GivenBack(s.state.client, s.state.toClient[0].seqNr)
      else s.credit;
    Credited(Apply(s.state, step), credit)
  }

  ghost predicate CreditRun(s: Credited, steps: seq<Step>, t: Credited)
    decreases |steps|
  {
    if steps == [] then s == t
    else MayTake(s, steps[0]) && CreditRun(Take(s, steps[0]), steps[1..], t)
  }

  /** Every run with credit is a run, so whatever holds in all runs holds with credit. */
  lemma {:induction false} CreditRunIsRun(s: Credited, steps: seq<Step>, t: Credited)
    requires CreditRun(s, steps, t)
    ensures Run(s.state, steps, t.state)
    decreases |steps|
  {
    if steps != [] {
      CreditRunIsRun(Take(s, steps[0]), steps[1..], t);
    }
  }

  lemma {:induction false} TakeOneMore(s: Credited, steps: seq<Step>, t: Credited, step: Step) returns (longer: seq<Step>, u: Credited)
    requires CreditRun(s, steps, t) && MayTake(t, step) && Honest(steps) && !step.Inject?
    ensures CreditRun(s, longer, u) && u == Take(t, step) && Honest(longer) && longer == steps + [step]
    decreases |steps|
  {
    longer, u := steps + [step], Take(t, step);
    if steps == [] {
      assert longer[1..] == [];
    } else {
      var rest, v := TakeOneMore(Take(s, steps[0]), steps[1..], t, step);
      assert longer[1..] == rest;
    }
  }

  function Begin(anyLastSent: nat): Credited { Credited(Start(anyLastSent), DEFAULT_MAX_BUFFER_SIZE) }

  /** The next packet is next in line everywhere, and nothing is under way. */
  ghost predicate InLine(s: State) {
    && s.queue == [] && s.toMw == [] && s.live
    && s.client.nextSeqNr == s.client.lastSent + 1 == s.proxy.nextExpected < U32 - 1
    && s.client.nextSeqNr !in s.client.buffer && s.client.pendingSends < MAX_PENDING_SENDS
    && |s.offered| + 1 < U32
  }

  /** After the application has sent p and the client has put it on the wire. */
  function Sending(s: State, p: Payload): State {
    var n := s.client.nextSeqNr;
    s.(client := s.client.(pendingSends := s.client.pendingSends + 1, lastSent := n, nextSeqNr := n + 1,
                           buffer := s.client.buffer[n := p]),
       toMw := [AsyncSend(n, p)], offered := s.offered + [p], numbered := s.numbered + [p],
       lateSend := s.lateSend || s.closeRequested)
  }

  lemma SendOne(s: State, p: Payload)
    requires InLine(s)
    ensures Enabled(s, AppSend(p)) && Enabled(Apply(s, AppSend(p)), ClientPoll)
    ensures Apply(Apply(s, AppSend(p)), ClientPoll) == Sending(s, p)
  {
    var t := Apply(s, AppSend(p));
    assert t.queue == [Packet(p)] && t.queue[1..] == [];
    assert DoPoll(t).toMw == [AsyncSend(s.client.nextSeqNr, p)];
  }

  /** The middleware accepts it if its budget allows, and asks for it again otherwise. */
  function Answered(s: State, p: Payload): State {
    var n := s.client.nextSeqNr;
    var t := Sending(s, p).(toMw := []);
    if p.Size() <= s.proxy.available
    then t.(proxy := s.proxy.(available := s.proxy.available - p.Size(), nextExpected := n + 1),
            jobs := s.jobs + [Job(n, p)], accepted := s.accepted + [p])
    else t.(toClient := s.toClient + [Retransmit(n)], disturbances := s.disturbances + 1)
  }

  lemma AnswerOne(s: State, p: Payload)
    requires InLine(s)
    ensures Enabled(Sending(s, p), MwRead) && Apply(Sending(s, p), MwRead) == Answered(s, p)
  {
    assert s.toClient + [] == s.toClient;
  }

  lemma SendAndAnswer(s: Credited, before: seq<Step>, t: Credited, p: Payload) returns (steps: seq<Step>)
    requires CreditRun(s, before, t) && Honest(before) && InLine(t.state) && Cost(p) <= t.credit
    ensures CreditRun(s, steps, Credited(Answered(t.state, p), t.credit - Cost(p))) && Honest(steps)
  {
    SendOne(t.state, p);
    AnswerOne(t.state, p);
    var u;
    steps, u := TakeOneMore(s, before, t, AppSend(p));
    steps, u := TakeOneMore(s, steps, u, ClientPoll);
    steps, u := TakeOneMore(s, steps, u, MwRead);
  }

  // ---- a run with messages of 52429 bytes

  const SIZE: nat := 52429

  function Repeated(p: Payload, k: nat): (r: seq<Payload>)
    ensures |r| == k && forall i :: 0 <= i < k ==> r[i] == p
  {
    seq(k, i => p)
  }

  function JobsFrom(p: Payload, lo: nat, hi: nat): (r: seq<Job>)
    requires lo <= hi
    ensures |r| == hi - lo && forall i :: 0 <= i < hi - lo ==> r[i] == Job(lo + i, p)
  {
    seq(hi - lo, i requires 0 <= i < hi - lo => Job(lo + i, p))
  }

  /** n packets sent and accepted, the first lo of them dropped by the client, `done` finished. */
  datatype Calm = Calm(n: nat, lo: nat, done: nat, lastAck: nat, counter: nat, acks: seq<ToClient>, lastRead: nat, credit: int)

  ghost predicate Fine(c: Calm) { 1 <= c.n < 1000 && c.lo <= c.n && c.done <= c.n && c.counter < 64 && c.lastAck < 1000 }

  function ClientAt(p: Payload, n: nat, lo: nat): Client
    requires 1 <= n && lo <= n
  {
    Client(n - lo, n - 1, n, Copies(lo, n, p), Uninitialized, false)
  }

  function At(p: Payload, c: Calm): Credited
    requires 1 <= c.n && c.lo <= c.n && c.done <= c.n
  {
    var sent := Repeated(p, c.n);
    Credited(
      Start(0).(client := ClientAt(p, c.n, c.lo),
                proxy := Proxy(c.lastAck, c.n, c.counter, DEFAULT_MAX_BUFFER_SIZE - (c.n - c.done) * 52429),
                jobs := JobsFrom(p, c.done, c.n), toClient := c.acks,
                offered := sent, numbered := sent, accepted := sent, done := c.done, lastRead := c.lastRead),
      c.credit)
  }

  ghost predicate Reaches(s: Credited, t: Credited) { exists steps :: CreditRun(s, steps, t) && Honest(steps) }

  lemma ReachTake(s: Credited, t: Credited, step: Step)
    requires Reaches(s, t) && MayTake(t, step) && !step.Inject?
    ensures Reaches(s, Take(t, step))
  {
    var steps :| CreditRun(s, steps, t) && Honest(steps);
    var longer, u := TakeOneMore(s, steps, t, step);
  }

  lemma ReachSend(s: Credited, t: Credited, p: Payload)
    requires Reaches(s, t) && InLine(t.state) && Cost(p) <= t.credit
    ensures Reaches(s, Credited(Answered(t.state, p), t.credit - Cost(p)))
  {
    var before :| CreditRun(s, before, t) && Honest(before);
    var steps := SendAndAnswer(s, before, t, p);
  }

  /** The very first packet, whatever last_sent was. */
  lemma FirstPacket(anyLastSent: nat, p: Payload)
    requires anyLastSent < U32 && p.Size() == SIZE
    ensures Reaches(Begin(anyLastSent), At(p, Calm(1, 0, 0, 0, 0, [], 0, DEFAULT_MAX_BUFFER_SIZE - SIZE)))
  {
    var s := Begin(anyLastSent);
    var steps, t := TakeOneMore(s, [], s, AppSend(p));
    assert t.state.queue == [Packet(p)];
    steps, t := TakeOneMore(s, steps, t, ClientPoll);
    assert t.state.toMw == [AsyncSend(0, p)] && t.state.queue == [];
    steps, t := TakeOneMore(s, steps, t, MwRead);
    assert t.state.jobs == JobsFrom(p, 0, 1) && t.state.toMw == [] && t.state.toClient == [];
    assert t.state.offered == Repeated(p, 1) && t.state.client == ClientAt(p, 1, 0);
    assert t == At(p, Calm(1, 0, 0, 0, 0, [], 0, DEFAULT_MAX_BUFFER_SIZE - SIZE));
  }

  lemma SendOneMore(s: Credited, p: Payload, c: Calm)
    requires p.Size() == SIZE && Fine(c) && c.n - c.lo < 256 && (c.n + 1 - c.done) * 52429 <= DEFAULT_MAX_BUFFER_SIZE
    requires SIZE <= c.credit && Reaches(s, At(p, c))
    ensures Reaches(s, At(p, c.(n := c.n + 1, credit := c.credit - SIZE)))
  {
    var t := At(p, c);
    ReachSend(s, t, p);
    var u := At(p, c.(n := c.n + 1, credit := c.credit - SIZE)).state;
    var v := Answered(t.state, p);
    assert t.state.offered + [p] == Repeated(p, c.n + 1);
    assert t.state.jobs + [Job(c.n, p)] == JobsFrom(p, c.done, c.n + 1);
    assert Copies(c.lo, c.n, p)[c.n := p] == Copies(c.lo, c.n + 1, p);
    assert v.client == u.client && v.proxy == u.proxy && v.jobs == u.jobs;
    assert v == u;
  }

  lemma {:induction false} SendMany(s: Credited, p: Payload, c: Calm, k: nat)
    requires p.Size() == SIZE && Fine(c) && c.n + k < 1000 && c.n + k - c.lo <= 256
    requires (c.n + k - c.done) * 52429 <= DEFAULT_MAX_BUFFER_SIZE && k * 52429 <= c.credit && Reaches(s, At(p, c))
    ensures Reaches(s, At(p, c.(n := c.n + k, credit := c.credit - k * 52429)))
    decreases k
  {
    if k > 0 {
      SendMany(s, p, c, k - 1);
      SendOneMore(s, p, c.(n := c.n + (k - 1), credit := c.credit - (k - 1) * 52429));
    }
  }

  /** The oldest job finishes while the budget is at least half full. */
  lemma Finish(s: Credited, p: Payload, c: Calm)
    requires p.Size() == SIZE && Fine(c) && c.done + 160 <= c.n && c.acks == [] && Reaches(s, At(p, c))
    ensures Reaches(s, At(p, c.(done := c.done + 1, lastAck := c.done, counter := (c.counter + 1) % 64, acks := [CumulativeAck(c.done)])))
  {
    var t := At(p, c);
    assert [] + [CumulativeAck(c.done)] == [CumulativeAck(c.done)];
    ReachTake(s, t, FinishJob);
    assert t.state.jobs[0] == Job(c.done, p) && t.state.jobs[1..] == JobsFrom(p, c.done + 1, c.n);
    assert HalfFull(t.state.proxy);
  }

  lemma Force(s: Credited, p: Payload, c: Calm)
    requires Fine(c) && c.counter > 0 && c.acks == [] && Reaches(s, At(p, c))
    ensures Reaches(s, At(p, c.(lastAck := c.lastAck + c.counter, counter := 0, acks := [CumulativeAck(c.lastAck + c.counter)])))
  {
    ReachTake(s, At(p, c), Timer);
    assert [] + [CumulativeAck(c.lastAck + c.counter)] == [CumulativeAck(c.lastAck + c.counter)];
  }

  /** An acknowledgement of everything below a drops the packets from lo on; nothing is unsent. */
  lemma AckDrops(p: Payload, n: nat, lo: nat, a: nat)
    requires p.Size() == SIZE && 1 <= n < 1000 && lo <= n && (a == lo < n || a + 1 == lo)
    ensures var c := ClientAt(p, n, lo);
            AckDefined(c, a) && ReadAck(c, a) == Reaction(ClientAt(p, n, a + 1), [], false)
  {
    var c := ClientAt(p, n, lo);
    SpanSize(c.buffer, lo, n);
    SpanSize(Copies(a + 1, n, p), a + 1, n);
    assert Kept(c.buffer, a) == Copies(a + 1, n, p);
    assert Drop(c, a) == ClientAt(p, n, a + 1);
    assert n !in Copies(a + 1, n, p);
  }

  lemma OneCost(p: Payload, n: nat, lo: nat, a: nat)
    requires p.Size() == SIZE && lo <= n && (a == lo < n || a + 1 == lo)
    ensures CostUpTo(Copies(lo, n, p), a) == if a == lo then SIZE else 0
  {
    CostIsReleased(Copies(lo, n, p), lo, n, a);
    assert a == lo ==> ReleasedBytes(Copies(lo, n, p), lo, lo + 1) == ReleasedBytes(Copies(lo, n, p), lo, lo) + SIZE;
  }

  /** Reading the only acknowledgement under way, if no delayed close is involved. */
  lemma OnlyAck(s: State, a: nat, c: Client, out: seq<ToMiddleware>)
    requires s.toClient == [CumulativeAck(a)] && AckDefined(s.client, a) && ReadAck(s.client, a) == Reaction(c, out, false)
    ensures Enabled(s, ClientRead)
    ensures Apply(s, ClientRead) == s.(client := c, toMw := s.toMw + out, toClient := [], lastRead := a)
  {
    assert s.toClient[1..] == [];
  }

  lemma ReachOnlyAck(s: Credited, t: Credited, a: nat, c: Client, out: seq<ToMiddleware>, back: nat)
    requires Reaches(s, t) && t.state.toClient == [CumulativeAck(a)] && GivenBack(t.state.client, a) == back
    requires AckDefined(t.state.client, a) && ReadAck(t.state.client, a) == Reaction(c, out, false)
    ensures Reaches(s, Credited(t.state.(client := c, toMw := t.state.toMw + out, toClient := [], lastRead := a), t.credit + back))
  {
    OnlyAck(t.state, a, c, out);
    ReachTake(s, t, ClientRead);
  }

  lemma ReadFrom(s: Credited, t: Credited, p: Payload, n: nat, lo: nat, a: nat)
    requires p.Size() == SIZE && 1 <= n < 1000 && lo <= n && (a == lo < n || a + 1 == lo) && Reaches(s, t)
    requires t.state.client == ClientAt(p, n, lo) && t.state.toClient == [CumulativeAck(a)]
    ensures Reaches(s, Credited(t.state.(client := ClientAt(p, n, a + 1), toMw := t.state.toMw + [], toClient := [], lastRead := a),
                                t.credit + if a == lo then SIZE else MIN_BUFFER_CHUNK))
  {
    AckDrops(p, n, lo, a);
    OneCost(p, n, lo, a);
    ReachOnlyAck(s, t, a, ClientAt(p, n, a + 1), [], if a == lo then SIZE else MIN_BUFFER_CHUNK);
  }

  lemma ReadOne(s: Credited, p: Payload, c: Calm, a: nat)
    requires p.Size() == SIZE && Fine(c) && c.acks == [CumulativeAck(a)] && (a == c.lo < c.n || a + 1 == c.lo) && Reaches(s, At(p, c))
    ensures Reaches(s, At(p, c.(lo := a + 1, acks := [], lastRead := a,
                                credit := c.credit + if a == c.lo then SIZE else MIN_BUFFER_CHUNK)))
  {
    ReadFrom(s, At(p, c), p, c.n, c.lo, a);
    assert At(p, c).state.toMw + [] == [];
  }

  lemma FinishAndRead(s: Credited, p: Payload, c: Calm)
    requires p.Size() == SIZE && Fine(c) && c.done + 160 <= c.n && c.acks == [] && Reaches(s, At(p, c))
    requires c.lo == c.done || c.lo == c.done + 1
    ensures Reaches(s, At(p, c.(done := c.done + 1, lo := c.done + 1, lastAck := c.done, counter := (c.counter + 1) % 64, lastRead := c.done,
                                credit := c.credit + if c.lo == c.done then SIZE else MIN_BUFFER_CHUNK)))
  {
    Finish(s, p, c);
    ReadOne(s, p, c.(done := c.done + 1, lastAck := c.done, counter := (c.counter + 1) % 64, acks := [CumulativeAck(c.done)]), c.done);
  }

  const BUDGET: int := DEFAULT_MAX_BUFFER_SIZE

  /** An acknowledgement that drops nothing still gives a chunk of credit back. */
  lemma GainCredit(anyLastSent: nat, p: Payload)
    requires anyLastSent < U32 && p.Size() == SIZE
    ensures Reaches(Begin(anyLastSent), At(p, Calm(258, 2, 2, 1, 1, [], 1, BUDGET - 256 * 52429 + MIN_BUFFER_CHUNK)))
  {
    var s := Begin(anyLastSent);
    FirstPacket(anyLastSent, p);
    SendMany(s, p, Calm(1, 0, 0, 0, 0, [], 0, BUDGET - SIZE), 255);
    FinishAndRead(s, p, Calm(256, 0, 0, 0, 0, [], 0, BUDGET - 256 * 52429));
    Force(s, p, Calm(256, 1, 1, 0, 1, [], 0, BUDGET - 255 * 52429));
    ReadOne(s, p, Calm(256, 1, 1, 1, 0, [CumulativeAck(1)], 0, BUDGET - 255 * 52429), 1);
    FinishAndRead(s, p, Calm(256, 2, 1, 1, 0, [], 1, BUDGET - 254 * 52429));
    SendMany(s, p, Calm(256, 2, 2, 1, 1, [], 1, BUDGET - 254 * 52429 + MIN_BUFFER_CHUNK), 2);
  }

  function Counting(k: nat): Calm {
    Calm(258, k + 2, k + 2, k + 1, k + 1, [], k + 1, BUDGET - (256 - k as int) * 52429 + MIN_BUFFER_CHUNK)
  }

  lemma {:induction false} CountUp(s: Credited, p: Payload, k: nat)
    requires p.Size() == SIZE && k <= 62 && Reaches(s, At(p, Counting(0)))
    ensures Reaches(s, At(p, Counting(k)))
    decreases k
  {
    if k > 0 {
      CountUp(s, p, k - 1);
      FinishAndRead(s, p, Counting(k - 1));
    }
  }

  /** The drift at its largest: 64 finished, 126 acknowledged, and again 256 pending. */
  lemma LargestDrift(anyLastSent: nat, p: Payload)
    requires anyLastSent < U32 && p.Size() == SIZE
    ensures Reaches(Begin(anyLastSent), At(p, Calm(320, 64, 64, 126, 0, [CumulativeAck(126)], 63, BUDGET - 256 * 52429 + MIN_BUFFER_CHUNK)))
  {
    var s := Begin(anyLastSent);
    GainCredit(anyLastSent, p);
    CountUp(s, p, 62);
    Force(s, p, Counting(62));
    SendMany(s, p, Calm(258, 64, 64, 126, 0, [CumulativeAck(126)], 63, BUDGET - 194 * 52429 + MIN_BUFFER_CHUNK), 62);
  }

  /** k further packets that the full window keeps back. */
  function Held(p: Payload, k: nat): Credited {
    var t := At(p, Calm(320, 64, 64, 126, 0, [CumulativeAck(126)], 63, 0)).state;
    Credited(t.(client := Client(256, 319, 320 + k, Copies(64, 320 + k, p), Uninitialized, false),
                offered := Repeated(p, 320 + k), numbered := Repeated(p, 320 + k)),
             BUDGET - (256 + k) * 52429 + MIN_BUFFER_CHUNK)
  }

  lemma HoldOne(s: Credited, p: Payload, k: nat)
    requires p.Size() == SIZE && k < 64 && Reaches(s, Held(p, k))
    ensures Reaches(s, Held(p, k + 1))
  {
    var t := Held(p, k);
    ReachTake(s, t, AppSend(p));
    var u := Take(t, AppSend(p));
    assert u.state.queue == [Packet(p)] && u.state.queue[1..] == [];
    ReachTake(s, u, ClientPoll);
    assert Repeated(p, 320 + k) + [p] == Repeated(p, 321 + k);
    assert Copies(64, 320 + k, p)[320 + k := p] == Copies(64, 321 + k, p);
    assert u.state.toMw + [] == u.state.toMw;
    assert Take(u, ClientPoll).state.client == Held(p, k + 1).state.client;
    assert Take(u, ClientPoll) == Held(p, k + 1);
  }

  lemma {:induction false} HoldMany(s: Credited, p: Payload, k: nat)
    requires p.Size() == SIZE && k <= 64 && Reaches(s, Held(p, 0))
    ensures Reaches(s, Held(p, k))
    decreases k
  {
    if k > 0 {
      HoldMany(s, p, k - 1);
      HoldOne(s, p, k - 1);
    }
  }

  function Sends(p: Payload, lo: nat, hi: nat): (r: seq<ToMiddleware>)
    requires lo <= hi
    ensures |r| == hi - lo && forall i :: 0 <= i < hi - lo ==> r[i] == AsyncSend(lo + i, p)
  {
    seq(hi - lo, i requires 0 <= i < hi - lo => AsyncSend(lo + i, p))
  }

  lemma {:induction false} PacketsOfCopies(p: Payload, lo: nat, hi: nat, from: nat)
    requires lo <= from <= hi && hi > 0
    ensures Packets(Copies(lo, hi, p), from, hi - 1) == Sends(p, from, hi)
    decreases hi - from
  {
    if from < hi {
      PacketsOfCopies(p, lo, hi, from + 1);
    }
  }

  lemma {:induction false} ReleasedCopies(p: Payload, buffer: map<nat, Payload>, lo: nat, hi: nat)
    requires p.Size() == SIZE && lo <= hi && forall k :: lo <= k < hi ==> k in buffer && buffer[k] == p
    ensures ReleasedBytes(buffer, lo, hi) == (hi - lo) * 52429
    decreases hi - lo
  {
    if lo < hi {
      ReleasedCopies(p, buffer, lo, hi - 1);
    }
  }

  /** The acknowledgement makes room for 64 packets at once: 257 are pending. */
  lemma AckBursts(p: Payload, k: nat, a: nat)
    requires k == 64 && a == 126
    ensures var c := Held(p, k).state.client;
            && AckDefined(c, a)
            && ReadAck(c, a) == Reaction(Bursted(p, 320 + k), Sends(p, 320, 320 + k), false)
  {
    var c := Held(p, k).state.client;
    SpanSize(c.buffer, 64, 320 + k);
    SpanSize(Copies(a + 1, 320 + k, p), a + 1, 320 + k);
    assert Kept(c.buffer, a) == Copies(a + 1, 320 + k, p);
    assert Drop(c, a) == Client(193, 319, 320 + k, Copies(a + 1, 320 + k, p), Uninitialized, false);
    PacketsOfCopies(p, a + 1, 320 + k, 320);
  }

  lemma BurstCredit(p: Payload, k: nat, a: nat)
    requires p.Size() == SIZE && k == 64 && a == 126
    ensures GivenBack(Held(p, k).state.client, a) == 63 * 52429
  {
    CopiesCost(p, 64, 320 + k, a);
  }

  lemma CopiesCost(p: Payload, lo: nat, hi: nat, a: nat)
    requires p.Size() == SIZE && lo <= a < hi
    ensures CostUpTo(Copies(lo, hi, p), a) == (a + 1 - lo) * 52429
  {
    CostIsReleased(Copies(lo, hi, p), lo, hi, a);
    ReleasedCopies(p, Copies(lo, hi, p), lo, a + 1);
  }

  /** The last 257 of n packets pending. */
  function Bursted(p: Payload, n: nat): Client
    requires 257 <= n
  {
    Client(257, n - 1, n, Copies(n - 257, n, p), Uninitialized, false)
  }

  /** All n packets sent, k of the 64 of the burst accepted. */
  function Taken(p: Payload, k: nat, n: nat): Credited
    requires n == 384 && k <= 64
  {
    Credited(
      Start(0).(client := Bursted(p, n), toMw := Sends(p, 320 + k, n),
                proxy := Proxy(126, 320 + k, 0, DEFAULT_MAX_BUFFER_SIZE - (256 + k) * 52429),
                jobs := JobsFrom(p, 64, 320 + k), offered := Repeated(p, n), numbered := Repeated(p, n),
                accepted := Repeated(p, 320 + k), done := 64, lastRead := 126),
      BUDGET - 257 * 52429 + MIN_BUFFER_CHUNK)
  }

  lemma Burst(s: Credited, t: Credited, p: Payload, k: nat, a: nat)
    requires p.Size() == SIZE && k == 64 && a == 126 && Reaches(s, t)
    requires t.state.client == Held(p, k).state.client && t.state.toClient == [CumulativeAck(a)]
    ensures Reaches(s, Credited(t.state.(client := Bursted(p, 320 + k), toMw := t.state.toMw + Sends(p, 320, 320 + k), toClient := [], lastRead := a),
                                t.credit + 63 * 52429))
  {
    AckBursts(p, k, a);
    BurstCredit(p, k, a);
    ReachOnlyAck(s, t, a, Bursted(p, 320 + k), Sends(p, 320, 320 + k), 63 * 52429);
  }

  lemma ReachBurst(s: Credited, p: Payload, k: nat)
    requires p.Size() == SIZE && k == 64 && Reaches(s, Held(p, k))
    ensures Reaches(s, Taken(p, 0, 320 + k))
  {
    Burst(s, Held(p, k), p, k, k + 62);
    assert [] + Sends(p, 320, 320 + k) == Sends(p, 320, 320 + k);
  }

  lemma TakeOne(s: Credited, p: Payload, k: nat, n: nat)
    requires p.Size() == SIZE && k < 63 && n == 384 && Reaches(s, Taken(p, k, n))
    ensures Reaches(s, Taken(p, k + 1, n))
  {
    var t := Taken(p, k, n);
    assert t.state.toMw[0] == AsyncSend(320 + k, p) && t.state.toMw[1..] == Sends(p, 321 + k, n);
    ReachTake(s, t, MwRead);
    assert Repeated(p, 320 + k) + [p] == Repeated(p, 321 + k);
    assert JobsFrom(p, 64, 320 + k) + [Job(320 + k, p)] == JobsFrom(p, 64, 321 + k);
    assert t.state.toClient + [] == [];
    assert Take(t, MwRead) == Taken(p, k + 1, n);
  }

  lemma {:induction false} TakeMany(s: Credited, p: Payload, k: nat, n: nat)
    requires p.Size() == SIZE && k <= 63 && n == 384 && Reaches(s, Taken(p, 0, n))
    ensures Reaches(s, Taken(p, k, n))
    decreases k
  {
    if k > 0 {
      TakeMany(s, p, k - 1, n);
      TakeOne(s, p, k - 1, n);
    }
  }

  /** 319 packets unfinished: the next one is refused. */
  function Refusing(p: Payload, n: nat): Credited
    requires n == 384
  {
    var t := Taken(p, 63, n);
    t.(state := t.state.(toMw := [], toClient := [Retransmit(383)], disturbances := 1))
  }

  lemma Refuse(s: Credited, p: Payload, n: nat)
    requires p.Size() == SIZE && n == 384 && Reaches(s, Taken(p, 63, n))
    ensures Reaches(s, Refusing(p, n))
  {
    var t := Taken(p, 63, n);
    assert t.state.toMw == [AsyncSend(383, p)];
    ReachTake(s, t, MwRead);
    assert t.state.toClient + [Retransmit(383)] == [Retransmit(383)];
    assert Take(t, MwRead) == Refusing(p, n);
  }

  lemma ReachRefusing(anyLastSent: nat, p: Payload, k: nat)
    requires anyLastSent < U32 && p.Size() == SIZE && k == 64
    ensures Reaches(Begin(anyLastSent), Refusing(p, 320 + k))
  {
    var s := Begin(anyLastSent);
    LargestDrift(anyLastSent, p);
    assert At(p, Calm(320, 64, 64, 126, 0, [CumulativeAck(126)], 63, BUDGET - 256 * 52429 + MIN_BUFFER_CHUNK)) == Held(p, 0);
    HoldMany(s, p, k);
    ReachBurst(s, p, k);
    TakeMany(s, p, 63, 320 + k);
    Refuse(s, p, 320 + k);
  }

  /** One job finished, the refused packet resent. */
  function Resending(p: Payload, n: nat): Credited
    requires n == 384
  {
    var t := Refusing(p, n);
    t.(state := t.state.(
         client := t.state.client.(lastSent := n, pendingSends := 258), toMw := [AsyncSend(383, p)], toClient := [CumulativeAck(64)],
         proxy := Proxy(64, 383, 1, DEFAULT_MAX_BUFFER_SIZE - 318 * 52429), jobs := JobsFrom(p, 65, 383), done := 65))
  }

  /** The oldest job finishes in time for the resent packet. */
  function Finishing(p: Payload, n: nat): Credited
    requires n == 384
  {
    var t := Refusing(p, n);
    t.(state := t.state.(toClient := [Retransmit(383), CumulativeAck(64)],
         proxy := Proxy(64, 383, 1, DEFAULT_MAX_BUFFER_SIZE - 318 * 52429), jobs := JobsFrom(p, 65, 383), done := 65))
  }

  lemma FinishInTime(s: Credited, p: Payload, n: nat)
    requires p.Size() == SIZE && n == 384 && Reaches(s, Refusing(p, n))
    ensures Reaches(s, Finishing(p, n))
  {
    var t := Refusing(p, n);
    ReachTake(s, t, FinishJob);
    assert HalfFull(t.state.proxy) && t.state.jobs[0] == Job(64, p) && t.state.jobs[1..] == JobsFrom(p, 65, 383);
    assert [Retransmit(383)] + [CumulativeAck(64)] == [Retransmit(383), CumulativeAck(64)];
    assert Take(t, FinishJob) == Finishing(p, n);
  }

  lemma Resend(s: Credited, p: Payload, n: nat)
    requires n == 384 && Reaches(s, Finishing(p, n))
    ensures Reaches(s, Resending(p, n))
  {
    var t := Finishing(p, n);
    PacketsOfCopies(p, n - 257, n, n - 1);
    assert Sends(p, n - 1, n) == [AsyncSend(383, p)];
    ReachTake(s, t, ClientRead);
    var v := Take(t, ClientRead);
    assert v.state.toMw == [AsyncSend(383, p)] && v.state.toClient == [CumulativeAck(64)];
    assert v == Resending(p, n);
  }

  /** The resent packet accepted, number 384 skipped, and one more packet offered. */
  lemma LoseSocket(anyLastSent: nat, p: Payload, k: nat) returns (t: Credited)
    requires anyLastSent < U32 && p.Size() == SIZE && k == 64
    ensures Reaches(Begin(anyLastSent), t) && t.state.live && t.state.offered == Repeated(p, 385)
    ensures Skipped(t.state, 384) && |t.state.accepted| == 384
  {
    var s := Begin(anyLastSent);
    ReachRefusing(anyLastSent, p, k);
    FinishInTime(s, p, 320 + k);
    Resend(s, p, 320 + k);
    var u := Resending(p, 320 + k);
    ReachTake(s, u, MwRead);
    var v := Take(u, MwRead);
    assert v.state.toMw == [] && v.state.toClient == [CumulativeAck(64)] && |v.state.accepted| == 384;
    ReachTake(s, v, AppSend(p));
    t := Take(v, AppSend(p));
    assert Repeated(p, 320 + k) + [p] == Repeated(p, 385);
    ReachedPrefix(s, t);
  }

  lemma ReachedPrefix(s: Credited, t: Credited)
    requires Initial(s.state) && Reaches(s, t)
    ensures PrefixInv(t.state)
  {
    var steps :| CreditRun(s, steps, t) && Honest(steps);
    CreditRunIsRun(s, steps, t);
    RunKeepsPrefix(s.state, steps, t.state);
  }

  // ---- the exact condition

  /** Runs of application, client and middleware with credit, and messages of at most `size` bytes. */
  ghost predicate Possible(size: nat, t: Credited) {
    (exists anyLastSent: nat :: anyLastSent < U32 && Reaches(Begin(anyLastSent), t)) && Within(t.state, size)
  }

  /** The socket is open, something offered is not accepted, and nothing ever will be. */
  ghost predicate Lost(t: State) {
    t.live && t.accepted < t.offered && forall more, u :: Run(t, more, u) && Honest(more) ==> u.accepted == t.accepted
  }

  /** If 320 messages of the maximum size do not fit the middleware's budget, a socket can be lost. */
  lemma RetransmissionLosesSocket(anyLastSent: nat, size: nat) returns (t: Credited)
    requires anyLastSent < U32 && 320 * size > DEFAULT_MAX_BUFFER_SIZE
    ensures Reaches(Begin(anyLastSent), t) && Within(t.state, size) && |t.state.offered| == 385 && Lost(t.state)
  {
    var p := Payload(seq(52429, i => 0));
    t := LoseSocket(anyLastSent, p, 64);
    assert t.state.accepted <= t.state.numbered <= t.state.offered;
    forall more, u | Run(t.state, more, u) && Honest(more) ensures u.accepted == t.state.accepted {
      SkippedForGood(t.state, 384, more, u);
    }
  }

  /** Runs without the credit. */
  ghost predicate Uncredited(size: nat, t: State) {
    (exists s, steps :: Initial(s) && Run(s, steps, t) && Honest(steps)) && Within(t, size)
  }

  lemma CreditedIsUncredited(size: nat, t: Credited)
    requires Possible(size, t)
    ensures Uncredited(size, t.state)
  {
    var anyLastSent: nat :| anyLastSent < U32 && Reaches(Begin(anyLastSent), t);
    var s := Begin(anyLastSent);
    var steps :| CreditRun(s, steps, t) && Honest(steps);
    CreditRunIsRun(s, steps, t);
    assert Initial(s.state);
  }

  /** The exact condition on the configured maximum message size: no run asks for a retransmission,
      with the credit or without it, if and only if 320 messages of that size fit the
      middleware's budget. */
  lemma SizeLimitIsExact(size: nat)
    ensures (forall t :: Possible(size, t) && |t.state.offered| <= MESSAGE_LIMIT ==> t.state.disturbances == 0) <==>
            320 * size <= DEFAULT_MAX_BUFFER_SIZE
    ensures (forall t :: Uncredited(size, t) && |t.offered| <= MESSAGE_LIMIT ==> t.disturbances == 0) <==>
            320 * size <= DEFAULT_MAX_BUFFER_SIZE
  {
    if 320 * size <= DEFAULT_MAX_BUFFER_SIZE {
      forall t | Uncredited(size, t) && |t.offered| <= MESSAGE_LIMIT ensures t.disturbances == 0 {
        SafeIsUndisturbed(size, t);
      }
      forall t | Possible(size, t) && |t.state.offered| <= MESSAGE_LIMIT ensures t.state.disturbances == 0 {
        CreditedIsUncredited(size, t);
      }
    } else {
      var t := RefusingAt(size);
      CreditedIsUncredited(size, t);
    }
  }

  lemma RefusingAt(size: nat) returns (t: Credited)
    requires 320 * size > DEFAULT_MAX_BUFFER_SIZE
    ensures Possible(size, t) && |t.state.offered| <= MESSAGE_LIMIT && t.state.disturbances == 1
  {
    var p := Payload(seq(52429, i => 0));
    ReachRefusing(0, p, 64);
    t := Refusing(p, 384);
  }

  lemma SafeIsUndisturbed(size: nat, t: State)
    requires 320 * size <= DEFAULT_MAX_BUFFER_SIZE && Uncredited(size, t) && |t.offered| <= MESSAGE_LIMIT
    ensures Undisturbed(t)
  {
    var s, steps :| Initial(s) && Run(s, steps, t) && Honest(steps);
    SmallIsUndisturbed(s, steps, t);
  }
}
