/** Delivery of received packets: any number of receiving threads take bytes from the sockets'
    receive budgets by compare-and-swap and push messages to the sockets' sessions. */
module Receive {
  type Sock = nat

  const MAX_PACKET: nat := 65536
  const BUDGET: nat := 16 * 1024 * 1024

  /** The size of the message buffer a packet is copied into; there are ten buffer types. */
  function SlotSize(len: nat): (size: nat)
    requires len <= MAX_PACKET
    ensures len <= size <= MAX_PACKET && (size == 128 || size <= 2 * len)
  {
    if len < 128 then 128
    else if len < 256 then 256
    else if len < 512 then 512
    else if len < 1024 then 1024
    else if len < 2048 then 2048
    else if len < 4096 then 4096
    else if len < 8192 then 8192
    else if len < 16384 then 16384
    else if len < 32768 then 32768
    else 65536
  }

  // ---- one packet, one thread

  datatype Message = Message(sock: Sock, source: string, data: seq<bv8>, slot: nat)

  class ReceiveBudget {
    var available: int
    const id: Sock

    constructor (sock: Sock)
      ensures available == BUDGET && id == sock
    {
      available, id := BUDGET, sock;
    }

    method TryAcquire(n: nat) returns (ok: bool)
      modifies this
      ensures ok == (old(available) >= n) && available == if ok then old(available) - n else old(available)
    {
      ok := available - n >= 0;
      if ok {
        available := available - n;
      }
    }
  }

  /** The messages of one packet: one for each listed socket that was granted its bytes. */
  function MessagesFor(ids: seq<Sock>, granted: seq<bool>, source: string, data: seq<bv8>): seq<Message>
    requires |ids| == |granted| && |data| <= MAX_PACKET
  {
    if ids == [] then []
    else (if granted[0] then [Message(ids[0], source, data, SlotSize(|data|))] else []) +
         MessagesFor(ids[1..], granted[1..], source, data)
  }

  lemma {:induction false} MessagesLast(ids: seq<Sock>, granted: seq<bool>, id: Sock, g: bool, source: string, data: seq<bv8>)
    requires |ids| == |granted| && |data| <= MAX_PACKET
    ensures MessagesFor(ids + [id], granted + [g], source, data) ==
            MessagesFor(ids, granted, source, data) + if g then [Message(id, source, data, SlotSize(|data|))] else []
  {
    if ids != [] {
      MessagesLast(ids[1..], granted[1..], id, g, source, data);
      assert (ids + [id])[1..] == ids[1..] + [id] && (granted + [g])[1..] == granted[1..] + [g];
    }
  }

  ghost function Ids(socks: seq<ReceiveBudget>): seq<Sock> {
    seq(|socks|, k requires 0 <= k < |socks| => socks[k].id)
  }

  /** A packet of illegal size is dropped; any other one queues one message to every listed
      socket whose budget allows it, in list order, and takes its bytes there only. */
  method HandleReceive(data: seq<bv8>, source: string, socks: seq<ReceiveBudget>) returns (messages: seq<Message>, ghost granted: seq<bool>)
    requires forall i, j :: 0 <= i < j < |socks| ==> socks[i] != socks[j]
    modifies socks
    ensures |granted| == |socks|
    ensures forall k :: 0 <= k < |socks| ==> granted[k] == (|data| <= MAX_PACKET && old(socks[k].available) >= |data|)
    ensures forall k :: 0 <= k < |socks| ==> socks[k].available == old(socks[k].available) - if granted[k] then |data| else 0
    ensures messages == if |data| > MAX_PACKET then [] else MessagesFor(Ids(socks), granted, source, data)
  {
    messages, granted := [], [];
    if |data| > MAX_PACKET {
      granted := seq(|socks|, k => false);
      return;
    }
    for n := 0 to |socks|
      invariant |granted| == n && messages == MessagesFor(Ids(socks)[..n], granted, source, data)
      invariant forall k :: 0 <= k < n ==> granted[k] == (old(socks[k].available) >= |data|)
      invariant forall k :: 0 <= k < n ==> socks[k].available == old(socks[k].available) - if granted[k] then |data| else 0
      invariant forall k :: n <= k < |socks| ==> socks[k].available == old(socks[k].available)
    {
      var ok := socks[n].TryAcquire(|data|);
      MessagesLast(Ids(socks)[..n], granted, socks[n].id, ok, source, data);
      assert Ids(socks)[..n + 1] == Ids(socks)[..n] + [socks[n].id];
      if ok {
        messages := messages + [Message(socks[n].id, source, data, SlotSize(|data|))];
      }
      granted := granted + [ok];
    }
    assert Ids(socks)[..|socks|] == Ids(socks);
  }

  // ---- all threads

  /** A verdict records the available bytes read when it was reached. */
  datatype Verdict = Refused(available: int) | Granted(available: int)

  datatype Call = Call(len: nat, listed: seq<Sock>, verdicts: seq<Verdict>)

  datatype Queued = Queued(sock: Sock, len: nat)

  datatype Thread =
    | Free
    | Ready(call: nat)                       // about to read the next socket's budget
    | Seen(call: nat, av: int)               // about to compare and swap
    | Holding(call: nat, sock: Sock, len: nat) // bytes taken, message not pushed yet

  /** calls and pushes are history: every packet handled so far, and every message pushed so
      far with the packet it belongs to. */
  datatype State = State(
    parent: seq<nat>, available: seq<int>, live: set<Sock>, lists: map<string, seq<Sock>>,
    queues: seq<seq<Queued>>, threads: seq<Thread>, calls: seq<Call>, pushes: seq<(nat, Sock)>)

  datatype Step =
    | Create(session: nat)
    | Remove(sock: Sock)
    | Relist(group: string, list: seq<Sock>)
    | Arrive(t: nat, group: string, len: nat)
    | Read(t: nat)
    | Cas(t: nat)
    | Push(t: nat)
    | Poll(session: nat)

  function Initial(sessions: nat, threads: nat): State {
    State([], [], {}, map[], seq(sessions, i => []), seq(threads, i => Free), [], [])
  }

  predicate InCall(st: State, t: nat) {
    t < |st.threads| && !st.threads[t].Free? && st.threads[t].call < |st.calls|
  }

  /** The call of thread t and the socket it has to decide next. */
  predicate Undecided(st: State, t: nat) {
    InCall(st, t) &&
    var c := st.calls[st.threads[t].call];
    |c.verdicts| < |c.listed| && c.listed[|c.verdicts|] < |st.available|
  }

  predicate Enabled(st: State, step: Step) {
    match step
    case Create(q) => q < |st.queues|
    case Remove(s) => true
    case Relist(_, list) => forall k :: 0 <= k < |list| ==> list[k] < |st.available|
    case Arrive(t, _, _) => t < |st.threads| && st.threads[t].Free?
    case Read(t) => Undecided(st, t) && st.threads[t].Ready?
    case Cas(t) => Undecided(st, t) && st.threads[t].Seen?
    case Push(t) =>
      && InCall(st, t) && st.threads[t].Holding?
      && st.threads[t].sock < |st.parent| && st.parent[st.threads[t].sock] < |st.queues|
    case Poll(q) => q < |st.queues| && st.queues[q] != []
  }

  function Next(calls: seq<Call>, c: nat): Thread
    requires c < |calls|
  {
    if |calls[c].verdicts| < |calls[c].listed| then Ready(c) else Free
  }

  function Decide(calls: seq<Call>, c: nat, v: Verdict): seq<Call>
    requires c < |calls|
  {
    calls[c := calls[c].(verdicts := calls[c].verdicts + [v])]
  }

  function DoArrive(st: State, t: nat, group: string, len: nat): State
    requires Enabled(st, Arrive(t, group, len))
  {
    if len > MAX_PACKET then st
    else
      var calls := st.calls + [Call(len, if group in st.lists then st.lists[group] else [], [])];
      st.(calls := calls, threads := st.threads[t := Next(calls, |st.calls|)])
  }

  function DoRead(st: State, t: nat): State
    requires Enabled(st, Read(t))
  {
    var n := st.threads[t].call;
    var c := st.calls[n];
    var av := st.available[c.listed[|c.verdicts|]];
    if av - c.len < 0 then
      var calls := Decide(st.calls, n, Refused(av));
      st.(calls := calls, threads := st.threads[t := Next(calls, n)])
    else st.(threads := st.threads[t := Seen(n, av)])
  }

  function DoCas(st: State, t: nat): State
    requires Enabled(st, Cas(t))
  {
    var n := st.threads[t].call;
    var c := st.calls[n];
    var s := c.listed[|c.verdicts|];
    if st.available[s] != st.threads[t].av then st.(threads := st.threads[t := Ready(n)])
    else
      st.(available := st.available[s := st.threads[t].av - c.len],
          calls := Decide(st.calls, n, Granted(st.available[s])),
          threads := st.threads[t := Holding(n, s, c.len)])
  }

  function DoPush(st: State, t: nat): State
    requires Enabled(st, Push(t))
  {
    var h := st.threads[t];
    var q := st.parent[h.sock];
    st.(queues := st.queues[q := st.queues[q] + [Queued(h.sock, h.len)]],
        pushes := st.pushes + [(h.call, h.sock)],
        threads := st.threads[t := Next(st.calls, h.call)])
  }

  /** A removed socket's packet is dropped without giving its bytes back. */
  function DoPoll(st: State, q: nat): State
    requires Enabled(st, Poll(q))
  {
    var m := st.queues[q][0];
    var popped := st.(queues := st.queues[q := st.queues[q][1..]]);
    if m.sock in st.live && m.sock < |st.available| then
      popped.(available := st.available[m.sock := st.available[m.sock] + m.len])
    else popped
  }

  function Apply(st: State, step: Step): State
    requires Enabled(st, step)
  {
    match step
    case Create(q) =>
      st.(parent := st.parent + [q], available := st.available + [BUDGET], live := st.live + {|st.available|})
    case Remove(s) => st.(live := st.live - {s})
    case Relist(group, list) => st.(lists := st.lists[group := list])
    case Arrive(t, group, len) => DoArrive(st, t, group, len)
    case Read(t) => DoRead(st, t)
    case Cas(t) => DoCas(st, t)
    case Push(t) => DoPush(st, t)
    case Poll(q) => DoPoll(st, q)
  }

  ghost predicate Run(st: State, steps: seq<Step>, t: State)
    decreases |steps|
  {
    if steps == [] then st == t
    else Enabled(st, steps[0]) && Run(Apply(st, steps[0]), steps[1..], t)
  }

  // ---- shape

  ghost predicate Known(st: State, list: seq<Sock>) {
    forall k :: 0 <= k < |list| ==> list[k] < |st.available|
  }

  ghost predicate ThreadFine(st: State, h: Thread) {
    h.Free? ||
    (h.call < |st.calls| &&
     var c := st.calls[h.call];
     match h
     case Ready(_) => |c.verdicts| < |c.listed|
     case Seen(_, av) => |c.verdicts| < |c.listed| && av >= c.len
     case Holding(_, s, len) =>
       0 < |c.verdicts| <= |c.listed| && s == c.listed[|c.verdicts| - 1] && len == c.len && c.verdicts[|c.verdicts| - 1].Granted?)
  }

  ghost predicate VerdictFine(c: Call, v: Verdict) {
    match v case Refused(av) => av < c.len case Granted(av) => av >= c.len
  }

  ghost predicate CallFine(st: State, c: Call) {
    && Known(st, c.listed) && |c.verdicts| <= |c.listed| && c.len <= MAX_PACKET
    && forall k :: 0 <= k < |c.verdicts| ==> VerdictFine(c, c.verdicts[k])
  }

  ghost predicate Shape(st: State) {
    && |st.parent| == |st.available|
    && (forall s :: 0 <= s < |st.parent| ==> st.parent[s] < |st.queues|)
    && (forall s :: s in st.live ==> s < |st.available|)
    && (forall g :: g in st.lists ==> Known(st, st.lists[g]))
  }

  ghost predicate CallsFine(st: State) {
    forall n :: 0 <= n < |st.calls| ==> CallFine(st, st.calls[n])
  }

  ghost predicate ThreadsFine(st: State) {
    && (forall t :: 0 <= t < |st.threads| ==> ThreadFine(st, st.threads[t]))
    && (forall t, u :: 0 <= t < u < |st.threads| && !st.threads[t].Free? && !st.threads[u].Free? ==>
          st.threads[t].call != st.threads[u].call)
  }

  ghost predicate ShapeInv(st: State) {
    Shape(st) && CallsFine(st) && ThreadsFine(st)
  }

  lemma ReadKeepsShape(st: State, t: nat)
    requires ShapeInv(st) && Enabled(st, Read(t))
    ensures ShapeInv(DoRead(st, t))
  {
    var n := st.threads[t].call;
    assert CallFine(st, st.calls[n]);
    var u := DoRead(st, t);
    forall m | 0 <= m < |u.calls| ensures CallFine(u, u.calls[m]) {
      assert CallFine(st, st.calls[m]);
    }
    forall w | 0 <= w < |u.threads| ensures ThreadFine(u, u.threads[w]) {
      assert ThreadFine(st, st.threads[w]);
    }
  }

  lemma CasKeepsShape(st: State, t: nat)
    requires ShapeInv(st) && Enabled(st, Cas(t))
    ensures ShapeInv(DoCas(st, t))
  {
    var n := st.threads[t].call;
    assert CallFine(st, st.calls[n]);
    assert ThreadFine(st, st.threads[t]);
    var u := DoCas(st, t);
    forall m | 0 <= m < |u.calls| ensures CallFine(u, u.calls[m]) {
      assert CallFine(st, st.calls[m]);
      assert Known(st, st.calls[m].listed);
    }
    forall w | 0 <= w < |u.threads| ensures ThreadFine(u, u.threads[w]) {
      assert ThreadFine(st, st.threads[w]);
    }
    forall g | g in u.lists ensures Known(u, u.lists[g]) {
      assert Known(st, st.lists[g]);
    }
  }

  lemma PushKeepsShape(st: State, t: nat)
    requires ShapeInv(st) && Enabled(st, Push(t))
    ensures ShapeInv(DoPush(st, t))
  {
    var u := DoPush(st, t);
    forall w | 0 <= w < |u.threads| ensures ThreadFine(u, u.threads[w]) {
      assert ThreadFine(st, st.threads[w]);
    }
    forall m | 0 <= m < |u.calls| ensures CallFine(u, u.calls[m]) {
      assert CallFine(st, st.calls[m]);
      assert Known(st, st.calls[m].listed);
    }
    forall g | g in u.lists ensures Known(u, u.lists[g]) {
      assert Known(st, st.lists[g]);
    }
  }

  lemma ArriveKeepsShape(st: State, t: nat, group: string, len: nat)
    requires ShapeInv(st) && Enabled(st, Arrive(t, group, len))
    ensures ShapeInv(DoArrive(st, t, group, len))
  {
    var u := DoArrive(st, t, group, len);
    forall m | 0 <= m < |u.calls| ensures CallFine(u, u.calls[m]) {
      if m < |st.calls| {
        assert CallFine(st, st.calls[m]);
      }
    }
    forall w | 0 <= w < |u.threads| ensures ThreadFine(u, u.threads[w]) {
      assert ThreadFine(st, st.threads[w]);
    }
  }

  lemma OtherStepsKeepShape(st: State, step: Step)
    requires ShapeInv(st) && Enabled(st, step) && (step.Create? || step.Remove? || step.Relist? || step.Poll?)
    ensures ShapeInv(Apply(st, step))
  {
    var u := Apply(st, step);
    forall m | 0 <= m < |u.calls| ensures CallFine(u, u.calls[m]) {
      assert CallFine(st, st.calls[m]);
      assert Known(st, st.calls[m].listed);
    }
    forall w | 0 <= w < |u.threads| ensures ThreadFine(u, u.threads[w]) {
      assert ThreadFine(st, st.threads[w]);
    }
    forall g | g in u.lists ensures Known(u, u.lists[g]) {
      if g in st.lists {
        assert Known(st, st.lists[g]);
      }
    }
  }

  lemma StepKeepsShape(st: State, step: Step)
    requires ShapeInv(st) && Enabled(st, step)
    ensures ShapeInv(Apply(st, step))
  {
    match step
    case Read(t) => ReadKeepsShape(st, t);
    case Cas(t) => CasKeepsShape(st, t);
    case Push(t) => PushKeepsShape(st, t);
    case Arrive(t, group, len) => ArriveKeepsShape(st, t, group, len);
    case Create(_) => OtherStepsKeepShape(st, step);
    case Remove(_) => OtherStepsKeepShape(st, step);
    case Relist(_, _) => OtherStepsKeepShape(st, step);
    case Poll(_) => OtherStepsKeepShape(st, step);
  }

  // ---- budget conservation

  function QueuedBytes(queue: seq<Queued>, s: Sock): nat {
    if queue == [] then 0 else (if queue[0].sock == s then queue[0].len else 0) + QueuedBytes(queue[1..], s)
  }

  function HeldBy(h: Thread, s: Sock): nat {
    if h.Holding? && h.sock == s then h.len else 0
  }

  function HeldBytes(threads: seq<Thread>, s: Sock): nat {
    if threads == [] then 0 else HeldBy(threads[0], s) + HeldBytes(threads[1..], s)
  }

  lemma {:induction false} QueuedOneMore(queue: seq<Queued>, m: Queued, s: Sock)
    ensures QueuedBytes(queue + [m], s) == QueuedBytes(queue, s) + if m.sock == s then m.len else 0
  {
    if queue != [] {
      QueuedOneMore(queue[1..], m, s);
      assert (queue + [m])[1..] == queue[1..] + [m];
    }
  }

  lemma {:induction false} HeldUpdate(threads: seq<Thread>, t: nat, h: Thread, s: Sock)
    requires t < |threads|
    ensures HeldBytes(threads[t := h], s) + HeldBy(threads[t], s) == HeldBytes(threads, s) + HeldBy(h, s)
  {
    var updated := threads[t := h];
    if t > 0 {
      HeldUpdate(threads[1..], t - 1, h, s);
      assert updated[1..] == threads[1..][t - 1 := h];
    } else {
      assert updated[1..] == threads[1..];
    }
  }

  /** The bytes of a socket's packets that are queued or about to be pushed. */
  ghost function Outstanding(st: State, s: Sock): nat
    requires s < |st.parent| && st.parent[s] < |st.queues|
  {
    QueuedBytes(st.queues[st.parent[s]], s) + HeldBytes(st.threads, s)
  }

  ghost predicate Conserved(st: State, s: Sock)
    requires Shape(st) && s < |st.available|
  {
    st.available[s] >= 0 && (s in st.live ==> st.available[s] + Outstanding(st, s) == BUDGET)
  }

  /** No message waits outside its socket's session, or for a socket not yet created. */
  ghost predicate AtHome(st: State) {
    && (forall q, k :: 0 <= q < |st.queues| && 0 <= k < |st.queues[q]| ==>
          st.queues[q][k].sock < |st.parent| && st.parent[st.queues[q][k].sock] == q)
    && (forall t :: 0 <= t < |st.threads| && st.threads[t].Holding? ==> st.threads[t].sock < |st.parent|)
  }

  ghost predicate BudgetInv(st: State) {
    ShapeInv(st) && AtHome(st) && forall s :: 0 <= s < |st.available| ==> Conserved(st, s)
  }

  lemma {:induction false} NothingQueued(queue: seq<Queued>, s: Sock)
    requires forall k :: 0 <= k < |queue| ==> queue[k].sock != s
    ensures QueuedBytes(queue, s) == 0
  {
    if queue != [] {
      NothingQueued(queue[1..], s);
    }
  }

  lemma {:induction false} NothingHeld(threads: seq<Thread>, s: Sock)
    requires forall k :: 0 <= k < |threads| ==> HeldBy(threads[k], s) == 0
    ensures HeldBytes(threads, s) == 0
  {
    if threads != [] {
      NothingHeld(threads[1..], s);
    }
  }

  lemma CreateConserves(st: State, q: nat)
    requires BudgetInv(st) && Enabled(st, Create(q))
    ensures BudgetInv(Apply(st, Create(q)))
  {
    var u := Apply(st, Create(q));
    StepKeepsShape(st, Create(q));
    forall s | 0 <= s < |u.available| ensures Conserved(u, s) {
      if s < |st.available| {
        assert Conserved(st, s);
      } else {
        NothingQueued(u.queues[q], s);
        NothingHeld(u.threads, s);
      }
    }
  }

  /** A thread that neither takes nor gives bytes conserves every budget. */
  lemma ThreadConserves(st: State, u: State, t: nat)
    requires BudgetInv(st) && ShapeInv(u) && t < |st.threads| && !st.threads[t].Holding? && |u.threads| == |st.threads|
    requires u.threads == st.threads[t := u.threads[t]] && !u.threads[t].Holding?
    requires u.available == st.available && u.parent == st.parent && u.live == st.live && u.queues == st.queues
    ensures BudgetInv(u)
  {
    forall s | 0 <= s < |u.available| ensures Conserved(u, s) {
      assert Conserved(st, s);
      HeldUpdate(st.threads, t, u.threads[t], s);
    }
  }

  lemma CasConserves(st: State, t: nat)
    requires BudgetInv(st) && Enabled(st, Cas(t))
    ensures BudgetInv(DoCas(st, t))
  {
    var u := DoCas(st, t);
    StepKeepsShape(st, Cas(t));
    assert ThreadFine(st, st.threads[t]);
    if u.threads[t].Ready? {
      ThreadConserves(st, u, t);
    } else {
      forall s | 0 <= s < |u.available| ensures Conserved(u, s) {
        assert Conserved(st, s);
        HeldUpdate(st.threads, t, u.threads[t], s);
      }
    }
  }

  lemma PushConserves(st: State, t: nat)
    requires BudgetInv(st) && Enabled(st, Push(t))
    ensures BudgetInv(DoPush(st, t))
  {
    var u := DoPush(st, t);
    var h := st.threads[t];
    StepKeepsShape(st, Push(t));
    forall s | 0 <= s < |u.available| ensures Conserved(u, s) {
      assert Conserved(st, s);
      HeldUpdate(st.threads, t, u.threads[t], s);
      QueuedOneMore(st.queues[st.parent[h.sock]], Queued(h.sock, h.len), s);
    }
  }

  lemma PollConserves(st: State, q: nat)
    requires BudgetInv(st) && Enabled(st, Poll(q))
    ensures BudgetInv(DoPoll(st, q))
  {
    var u := DoPoll(st, q);
    StepKeepsShape(st, Poll(q));
    forall s | 0 <= s < |u.available| ensures Conserved(u, s) {
      assert Conserved(st, s);
    }
  }

  lemma StepConserves(st: State, step: Step)
    requires BudgetInv(st) && Enabled(st, step)
    ensures BudgetInv(Apply(st, step))
  {
    StepKeepsShape(st, step);
    var u := Apply(st, step);
    match step
    case Create(q) => CreateConserves(st, q);
    case Remove(_) =>
      forall s | 0 <= s < |u.available| ensures Conserved(u, s) { assert Conserved(st, s); }
    case Relist(_, _) =>
      forall s | 0 <= s < |u.available| ensures Conserved(u, s) { assert Conserved(st, s); }
    case Arrive(t, _, _) => ThreadConserves(st, u, t);
    case Read(t) => ThreadConserves(st, u, t);
    case Cas(t) => CasConserves(st, t);
    case Push(t) => PushConserves(st, t);
    case Poll(q) => PollConserves(st, q);
  }

  lemma {:induction false} RunConserves(st: State, steps: seq<Step>, t: State)
    requires BudgetInv(st) && Run(st, steps, t)
    ensures BudgetInv(t)
    decreases |steps|
  {
    if steps != [] {
      StepConserves(st, steps[0]);
      RunConserves(Apply(st, steps[0]), steps[1..], t);
    }
  }

  /** Receive-budget conservation: in every run, with any number of threads and any interleaving,
      the bytes taken from a live socket's budget are exactly the bytes of its packets queued or
      about to be pushed; so these never exceed the budget. */
  lemma BudgetConservation(sessions: nat, threads: nat, steps: seq<Step>, t: State, s: Sock)
    requires Run(Initial(sessions, threads), steps, t) && s in t.live
    ensures s < |t.available| && s < |t.parent| && t.parent[s] < |t.queues|
    ensures BUDGET - t.available[s] == Outstanding(t, s) <= BUDGET
  {
    RunConserves(Initial(sessions, threads), steps, t);
    assert Conserved(t, s);
  }

  // ---- exact delivery

  /** The listed sockets with a granted verdict, in list order. */
  function Chosen(listed: seq<Sock>, verdicts: seq<Verdict>): seq<Sock>
    requires |verdicts| <= |listed|
  {
    if verdicts == [] then []
    else
      var k := |verdicts| - 1;
      Chosen(listed, verdicts[..k]) + if verdicts[k].Granted? then [listed[k]] else []
  }

  function PushedBy(pushes: seq<(nat, Sock)>, c: nat): seq<Sock> {
    if pushes == [] then []
    else
      var k := |pushes| - 1;
      PushedBy(pushes[..k], c) + if pushes[k].0 == c then [pushes[k].1] else []
  }

  predicate At(h: Thread, c: nat) { !h.Free? && h.call == c }

  /** What call c has pushed: everything decided, less what its thread still holds. */
  ghost predicate Exact(st: State, c: nat)
    requires c < |st.calls| && |st.calls[c].verdicts| <= |st.calls[c].listed|
  {
    var k := st.calls[c];
    var pushed := PushedBy(st.pushes, c);
    && (forall t :: 0 <= t < |st.threads| && At(st.threads[t], c) ==>
          if st.threads[t].Holding? then pushed + [st.threads[t].sock] == Chosen(k.listed, k.verdicts)
          else pushed == Chosen(k.listed, k.verdicts))
    && ((forall t :: 0 <= t < |st.threads| ==> !At(st.threads[t], c)) ==>
          pushed == Chosen(k.listed, k.verdicts) && |k.verdicts| == |k.listed|)
  }

  ghost predicate ExactInv(st: State) {
    && ShapeInv(st)
    && (forall c :: 0 <= c < |st.calls| ==> |st.calls[c].verdicts| <= |st.calls[c].listed|)
    && (forall c :: 0 <= c < |st.calls| ==> Exact(st, c))
    && (forall p :: 0 <= p < |st.pushes| ==> st.pushes[p].0 < |st.calls|)
  }

  lemma ChosenOneMore(listed: seq<Sock>, verdicts: seq<Verdict>, v: Verdict)
    requires |verdicts| < |listed|
    ensures Chosen(listed, verdicts + [v]) == Chosen(listed, verdicts) + if v.Granted? then [listed[|verdicts|]] else []
  {
    assert (verdicts + [v])[..|verdicts|] == verdicts;
  }

  lemma PushedOneMore(pushes: seq<(nat, Sock)>, p: (nat, Sock), c: nat)
    ensures PushedBy(pushes + [p], c) == PushedBy(pushes, c) + if p.0 == c then [p.1] else []
  {
    assert (pushes + [p])[..|pushes|] == pushes;
  }

  lemma {:induction false} NothingPushed(pushes: seq<(nat, Sock)>, c: nat)
    requires forall p :: 0 <= p < |pushes| ==> pushes[p].0 < c
    ensures PushedBy(pushes, c) == []
  {
    if pushes != [] {
      NothingPushed(pushes[..|pushes| - 1], c);
    }
  }

  /** Calls that thread t does not work on are not concerned by its step. */
  lemma OtherCall(st: State, u: State, t: nat, c: nat)
    requires ExactInv(st) && t < |st.threads| && c < |st.calls| && c < |u.calls| && u.calls[c] == st.calls[c]
    requires |u.threads| == |st.threads| && u.threads == st.threads[t := u.threads[t]]
    requires !At(st.threads[t], c) && !At(u.threads[t], c)
    requires PushedBy(u.pushes, c) == PushedBy(st.pushes, c)
    ensures Exact(u, c)
  {
    assert Exact(st, c);
    forall w | 0 <= w < |st.threads| && w != t ensures u.threads[w] == st.threads[w] {}
    assert At(u.threads[t], c) == At(st.threads[t], c);
    if forall w :: 0 <= w < |u.threads| ==> !At(u.threads[w], c) {
      forall w | 0 <= w < |st.threads| ensures !At(st.threads[w], c) {
        assert !At(u.threads[w], c);
      }
    }
  }

  /** The call of thread t, when no other thread works on it. */
  lemma OwnCall(u: State, t: nat, c: nat)
    requires t < |u.threads| && c < |u.calls| && |u.calls[c].verdicts| <= |u.calls[c].listed|
    requires forall w :: 0 <= w < |u.threads| && w != t ==> !At(u.threads[w], c)
    requires var k := u.calls[c]; var pushed := PushedBy(u.pushes, c);
             if At(u.threads[t], c) then
               if u.threads[t].Holding? then pushed + [u.threads[t].sock] == Chosen(k.listed, k.verdicts)
               else pushed == Chosen(k.listed, k.verdicts)
             else pushed == Chosen(k.listed, k.verdicts) && |k.verdicts| == |k.listed|
    ensures Exact(u, c)
  {
  }

  lemma NewCallExact(st: State, t: nat, group: string, len: nat)
    requires ThreadsFine(st) && Enabled(st, Arrive(t, group, len)) && len <= MAX_PACKET
    requires forall p :: 0 <= p < |st.pushes| ==> st.pushes[p].0 < |st.calls|
    ensures Exact(DoArrive(st, t, group, len), |st.calls|)
  {
    var u := DoArrive(st, t, group, len);
    NothingPushed(st.pushes, |st.calls|);
    forall w | 0 <= w < |u.threads| && w != t ensures !At(u.threads[w], |st.calls|) {
      assert ThreadFine(st, st.threads[w]);
    }
    OwnCall(u, t, |st.calls|);
  }

  lemma ArriveExact(st: State, t: nat, group: string, len: nat)
    requires ExactInv(st) && Enabled(st, Arrive(t, group, len))
    ensures ExactInv(DoArrive(st, t, group, len))
  {
    var u := DoArrive(st, t, group, len);
    StepKeepsShape(st, Arrive(t, group, len));
    if len <= MAX_PACKET {
      var n := |st.calls|;
      forall c | 0 <= c < |u.calls| ensures Exact(u, c) {
        if c < n {
          OtherCall(st, u, t, c);
        } else {
          NewCallExact(st, t, group, len);
        }
      }
    }
  }

  lemma Alone(st: State, t: nat, w: nat)
    requires ThreadsFine(st) && t < |st.threads| && w < |st.threads| && w != t && !st.threads[t].Free?
    ensures !At(st.threads[w], st.threads[t].call)
  {
  }

  lemma ReadExact(st: State, t: nat)
    requires ExactInv(st) && Enabled(st, Read(t))
    ensures ExactInv(DoRead(st, t))
  {
    var u := DoRead(st, t);
    StepKeepsShape(st, Read(t));
    var n := st.threads[t].call;
    forall c | 0 <= c < |u.calls| ensures Exact(u, c) {
      if c != n {
        OtherCall(st, u, t, c);
      } else {
        assert Exact(st, n) && At(st.threads[t], n);
        ChosenOneMore(st.calls[n].listed, st.calls[n].verdicts, Refused(st.available[st.calls[n].listed[|st.calls[n].verdicts|]]));
        forall w | 0 <= w < |u.threads| && w != t ensures !At(u.threads[w], n) { Alone(st, t, w); }
        OwnCall(u, t, n);
      }
    }
  }

  lemma CasExact(st: State, t: nat)
    requires ExactInv(st) && Enabled(st, Cas(t))
    ensures ExactInv(DoCas(st, t))
  {
    var u := DoCas(st, t);
    StepKeepsShape(st, Cas(t));
    var n := st.threads[t].call;
    forall c | 0 <= c < |u.calls| ensures Exact(u, c) {
      if c != n {
        OtherCall(st, u, t, c);
      } else {
        assert Exact(st, n) && At(st.threads[t], n);
        ChosenOneMore(st.calls[n].listed, st.calls[n].verdicts, Granted(st.available[st.calls[n].listed[|st.calls[n].verdicts|]]));
        forall w | 0 <= w < |u.threads| && w != t ensures !At(u.threads[w], n) { Alone(st, t, w); }
        OwnCall(u, t, n);
      }
    }
  }

  lemma PushExact(st: State, t: nat)
    requires ExactInv(st) && Enabled(st, Push(t))
    ensures ExactInv(DoPush(st, t))
  {
    var u := DoPush(st, t);
    StepKeepsShape(st, Push(t));
    var h := st.threads[t];
    forall c | 0 <= c < |u.calls| ensures Exact(u, c) {
      PushedOneMore(st.pushes, (h.call, h.sock), c);
      if c != h.call {
        OtherCall(st, u, t, c);
      } else {
        assert Exact(st, c) && At(st.threads[t], c);
        forall w | 0 <= w < |u.threads| && w != t ensures !At(u.threads[w], c) { Alone(st, t, w); }
        OwnCall(u, t, c);
      }
    }
  }

  lemma StepExact(st: State, step: Step)
    requires ExactInv(st) && Enabled(st, step)
    ensures ExactInv(Apply(st, step))
  {
    StepKeepsShape(st, step);
    match step
    case Arrive(t, group, len) => ArriveExact(st, t, group, len);
    case Read(t) => ReadExact(st, t);
    case Cas(t) => CasExact(st, t);
    case Push(t) => PushExact(st, t);
    case Create(_) => SameCalls(st, Apply(st, step));
    case Remove(_) => SameCalls(st, Apply(st, step));
    case Relist(_, _) => SameCalls(st, Apply(st, step));
    case Poll(_) => SameCalls(st, Apply(st, step));
  }

  lemma SameCalls(st: State, u: State)
    requires ExactInv(st) && ShapeInv(u) && u.calls == st.calls && u.threads == st.threads && u.pushes == st.pushes
    ensures ExactInv(u)
  {
    forall c | 0 <= c < |u.calls| ensures Exact(u, c) {
      assert Exact(st, c);
    }
  }

  lemma {:induction false} RunExact(st: State, steps: seq<Step>, t: State)
    requires ExactInv(st) && Run(st, steps, t)
    ensures ExactInv(t)
    decreases |steps|
  {
    if steps != [] {
      StepExact(st, steps[0]);
      RunExact(Apply(st, steps[0]), steps[1..], t);
    }
  }

  // ---- which list a packet is delivered to

  /** The list last set for the group, or none. */
  function LastList(steps: seq<Step>, group: string): seq<Sock> {
    if steps == [] then []
    else
      var k := |steps| - 1;
      if steps[k].Relist? && steps[k].group == group then steps[k].list else LastList(steps[..k], group)
  }

  datatype Arrival = Arrival(len: nat, listed: seq<Sock>)

  /** The packets of legal size that arrived, each with the list its group had at that moment. */
  function Arrivals(steps: seq<Step>): seq<Arrival> {
    if steps == [] then []
    else
      var k := |steps| - 1;
      var before := Arrivals(steps[..k]);
      if steps[k].Arrive? && steps[k].len <= 65536
      then before + [Arrival(steps[k].len, LastList(steps[..k], steps[k].group))]
      else before
  }

  function ListNow(st: State, group: string): seq<Sock> { if group in st.lists then st.lists[group] else [] }

  /** The state's lists and calls are what the steps so far say. */
  ghost predicate Follows(st: State, done: seq<Step>) {
    && (forall group :: ListNow(st, group) == LastList(done, group))
    && |st.calls| == |Arrivals(done)|
    && (forall c :: 0 <= c < |st.calls| ==> Arrival(st.calls[c].len, st.calls[c].listed) == Arrivals(done)[c])
  }

  lemma InitialFollows(sessions: nat, threads: nat)
    ensures Follows(Initial(sessions, threads), [])
  {
  }

  lemma StepFollows(st: State, done: seq<Step>, step: Step)
    requires Follows(st, done) && Enabled(st, step)
    ensures Follows(Apply(st, step), done + [step])
  {
    assert (done + [step])[..|done|] == done;
    forall group ensures ListNow(Apply(st, step), group) == LastList(done + [step], group) {
      assert ListNow(st, group) == LastList(done, group);
    }
  }

  lemma {:induction false} RunFollows(st: State, done: seq<Step>, steps: seq<Step>, t: State)
    requires Follows(st, done) && Run(st, steps, t)
    ensures Follows(t, done + steps)
    decreases |steps|
  {
    if steps == [] {
      assert done + steps == done;
    } else {
      StepFollows(st, done, steps[0]);
      RunFollows(Apply(st, steps[0]), done + [steps[0]], steps[1..], t);
      assert done + steps == done + [steps[0]] + steps[1..];
    }
  }

  lemma {:induction false} ArrivalsStay(before: seq<Step>, after: seq<Step>)
    ensures Arrivals(before) <= Arrivals(before + after)
    decreases |after|
  {
    if after == [] {
      assert before + after == before;
    } else {
      var k := |after| - 1;
      ArrivalsStay(before, after[..k]);
      assert (before + after)[..|before| + k] == before + after[..k];
    }
  }

  /** Every packet of legal size becomes exactly one call, in order of arrival, for the list that was
      last set for its group before it arrived; a longer packet becomes none. */
  lemma SnapshotIsLastList(sessions: nat, threads: nat, before: seq<Step>, arrive: Step, after: seq<Step>, t: State)
    requires arrive.Arrive? && Run(Initial(sessions, threads), before + [arrive] + after, t)
    ensures |t.calls| == |Arrivals(before + [arrive] + after)|
    ensures |Arrivals(before + [arrive])| == |Arrivals(before)| + if arrive.len <= 65536 then 1 else 0
    ensures var c := |Arrivals(before)|;
            arrive.len <= 65536 ==>
              c < |t.calls| && t.calls[c].len == arrive.len && t.calls[c].listed == LastList(before, arrive.group)
  {
    var steps := before + [arrive] + after;
    InitialFollows(sessions, threads);
    RunFollows(Initial(sessions, threads), [], steps, t);
    assert [] + steps == steps;
    assert (before + [arrive])[..|before|] == before;
    ArrivalsStay(before + [arrive], after);
    if arrive.len <= 65536 {
      var c := |Arrivals(before)|;
      assert Arrivals(steps)[c] == Arrivals(before + [arrive])[c];
    }
  }

  // ---- how a socket is decided

  /** In every run a step leaves a packet alone, or decides its next socket by the budget of that
      very moment and takes the bytes only if they are granted. */
  lemma DecidedByBudget(sessions: nat, threads: nat, steps: seq<Step>, t: State, step: Step, c: nat)
    requires Run(Initial(sessions, threads), steps, t) && Enabled(t, step) && c < |t.calls|
    ensures var u, k := Apply(t, step), |t.calls[c].verdicts|;
            c < |u.calls| && u.calls[c].len == t.calls[c].len && u.calls[c].listed == t.calls[c].listed &&
            (u.calls[c].verdicts == t.calls[c].verdicts ||
             (k < |t.calls[c].listed| && t.calls[c].listed[k] < |t.available| &&
              var s := t.calls[c].listed[k];
              if t.available[s] < t.calls[c].len
              then u.calls[c].verdicts == t.calls[c].verdicts + [Refused(t.available[s])] && u.available == t.available
              else u.calls[c].verdicts == t.calls[c].verdicts + [Granted(t.available[s])] &&
                   u.available == t.available[s := t.available[s] - t.calls[c].len]))
  {
    RunExact(Initial(sessions, threads), steps, t);
    if step.Cas? {
      assert ThreadFine(t, t.threads[step.t]);
    }
  }

  /** A thread that is left alone refuses its next socket at once if the budget is too small, and
      otherwise takes the bytes and pushes one message to the end of that socket's session queue. */
  lemma UndisturbedDecision(sessions: nat, threads: nat, steps: seq<Step>, t: State, w: nat) returns (more: seq<Step>, u: State)
    requires Run(Initial(sessions, threads), steps, t) && w < |t.threads| && t.threads[w].Ready?
    ensures Run(t, more, u)
    ensures var c := t.threads[w].call;
            c < |t.calls| == |u.calls| && |t.calls[c].verdicts| < |t.calls[c].listed| &&
            var s, len := t.calls[c].listed[|t.calls[c].verdicts|], t.calls[c].len;
            s < |t.available| == |t.parent| && t.parent[s] < |t.queues| &&
            if t.available[s] < len
            then u.calls[c].verdicts == t.calls[c].verdicts + [Refused(t.available[s])] &&
                 u.queues == t.queues && u.available == t.available
            else u.calls[c].verdicts == t.calls[c].verdicts + [Granted(t.available[s])] &&
                 u.queues == t.queues[t.parent[s] := t.queues[t.parent[s]] + [Queued(s, len)]] &&
                 u.available == t.available[s := t.available[s] - len]
  {
    RunExact(Initial(sessions, threads), steps, t);
    assert ThreadFine(t, t.threads[w]);
    var c := t.threads[w].call;
    assert CallFine(t, t.calls[c]);
    var s, len := t.calls[c].listed[|t.calls[c].verdicts|], t.calls[c].len;
    var a := Apply(t, Read(w));
    if t.available[s] < len {
      more, u := [Read(w)], a;
      assert more[1..] == [];
    } else {
      var b := Apply(a, Cas(w));
      more, u := [Read(w), Cas(w), Push(w)], Apply(b, Push(w));
      assert more[1..] == [Cas(w), Push(w)] && more[1..][1..] == [Push(w)] && more[1..][1..][1..] == [];
      assert Run(b, [Push(w)], u);
      assert Run(a, [Cas(w), Push(w)], u);
    }
  }

  /** Delivery: in every run, a packet no thread works on any more has a verdict for every socket
      of the list its group had when it arrived, and its pushed messages are exactly one for each
      granted socket, in list order. A socket is refused only when its available bytes were too
      few. */
  lemma ExactDelivery(sessions: nat, threads: nat, steps: seq<Step>, t: State, c: nat)
    requires Run(Initial(sessions, threads), steps, t) && c < |t.calls|
    requires forall w :: 0 <= w < |t.threads| ==> !At(t.threads[w], c)
    ensures c < |Arrivals(steps)| && Arrivals(steps)[c] == Arrival(t.calls[c].len, t.calls[c].listed)
    ensures |t.calls[c].verdicts| == |Arrivals(steps)[c].listed|
    ensures PushedBy(t.pushes, c) == Chosen(Arrivals(steps)[c].listed, t.calls[c].verdicts)
    ensures forall k :: 0 <= k < |t.calls[c].verdicts| ==>
              (t.calls[c].verdicts[k].Granted? <==> t.calls[c].verdicts[k].available >= t.calls[c].len)
  {
    RunExact(Initial(sessions, threads), steps, t);
    InitialFollows(sessions, threads);
    RunFollows(Initial(sessions, threads), [], steps, t);
    assert [] + steps == steps;
    assert Exact(t, c) && CallFine(t, t.calls[c]);
    forall k | 0 <= k < |t.calls[c].verdicts| ensures
      t.calls[c].verdicts[k].Granted? <==> t.calls[c].verdicts[k].available >= t.calls[c].len {
      assert VerdictFine(t.calls[c], t.calls[c].verdicts[k]);
    }
  }
}
