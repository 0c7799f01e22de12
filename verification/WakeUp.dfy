/** The message queue of a channel together with its wake-up pipe. Pushers link a node into
    a lock-free stack and then write one byte to the pipe; the loop reads up to 64 bytes and
    pops that many messages, taking the whole stack and reversing it when its private cache
    is empty. Every access to shared memory is one step. */
module WakeUp {
  import opened Basics

  type Tid = nat
  type Node = nat

  datatype Pc =
    | Idle
    | PushRead(node: Node)
    | PushCas(node: Node, seen: Option<Node>)
    | Notifying

  datatype LoopPc =
    | Ready(owed: nat)
    | Taking(owed: nat, seen: Node)
    | Walking(owed: nat, at: Option<Node>)
    | PoppedNull

  /** The last block of fields is history that no step reads back: the nodes of the three
      linked lists, and the nodes pushed and popped so far. */
  datatype State = State(
    stack: Option<Node>,
    cache: Option<Node>,
    next: map<Node, Option<Node>>,
    pcs: map<Tid, Pc>,
    loop: LoopPc,
    pipe: nat,

    stacked: seq<Node>,
    cached: seq<Node>,
    walked: seq<Node>,
    pushed: seq<Node>,
    popped: seq<Node>)

  datatype Step =
    | StartPush(tid: Tid, node: Node)   // a freshly allocated message
    | MovePusher(tid: Tid)
    | LoopRead
    | LoopPop
    | LoopPeek
    | LoopMove

  function Start(threads: set<Tid>): State {
    State(None, None, map[], map t | t in threads :: Idle, Ready(0), 0, [], [], [], [], [])
  }

  predicate Pending(pc: Pc, n: Node) {
    (pc.PushRead? || pc.PushCas?) && pc.node == n
  }

  /** The node is allocated: linked, or owned by a pusher. Freed nodes may be used again. */
  predicate InUse(s: State, n: Node) {
    n in s.stacked || n in s.cached || n in s.walked || exists t :: t in s.pcs && Pending(s.pcs[t], n)
  }

  predicate Enabled(s: State, step: Step) {
    match step
    case StartPush(t, n) => t in s.pcs && s.pcs[t] == Idle && !InUse(s, n)
    case MovePusher(t) => t in s.pcs && s.pcs[t] != Idle
    case LoopRead => s.loop == Ready(0) && s.pipe > 0
    case LoopPop => s.loop.Ready? && s.loop.owed > 0
    case LoopPeek => s.loop.Ready? && s.cache == None && s.stack != None
    case LoopMove =>
      s.loop.Taking? || (s.loop.Walking? && (s.loop.at == None || s.loop.at.value in s.next))
  }

  function Apply(s: State, step: Step): State
    requires Enabled(s, step)
  {
    match step
    case StartPush(t, n) => s.(pcs := s.pcs[t := PushRead(n)])
    case MovePusher(t) => DoPusher(s, t, s.pcs[t])
    case LoopRead =>
      var num := if s.pipe < 64 then s.pipe else 64;
      s.(pipe := s.pipe - num, loop := Ready(num))
    case LoopPop => DoPop(s)
    case LoopPeek => s.(loop := Taking(s.loop.owed, s.stack.value))
    case LoopMove => DoTake(s)
  }

  function DoPusher(s: State, t: Tid, pc: Pc): State {
    match pc
    case Idle => s
    case PushRead(n) => s.(next := s.next[n := s.stack], pcs := s.pcs[t := PushCas(n, s.stack)])
    case PushCas(n, seen) =>
      if s.stack == seen
      then s.(stack := Some(n), pcs := s.pcs[t := Notifying], stacked := [n] + s.stacked, pushed := s.pushed + [n])
      else s.(pcs := s.pcs[t := PushRead(n)])
    case Notifying => s.(pipe := s.pipe + 1, pcs := s.pcs[t := Idle])
  }

  /** try_pop: from the cache, else look at the stack; an empty queue would yield null. */
  function DoPop(s: State): State
    requires s.loop.Ready? && s.loop.owed > 0
  {
    match s.cache
    case Some(n) =>
      s.(cache := if n in s.next then s.next[n] else None, loop := Ready(s.loop.owed - 1),
         cached := if s.cached == [] then [] else s.cached[1..], popped := s.popped + [n])
    case None =>
      match s.stack
      case None => s.(loop := PoppedNull)
      case Some(n) => s.(loop := Taking(s.loop.owed, n))
  }

  /** take_public_tail: swap the stack for null, then reverse it into the cache. */
  function DoTake(s: State): State
    requires s.loop.Taking? || (s.loop.Walking? && (s.loop.at == None || s.loop.at.value in s.next))
  {
    match s.loop
    case Taking(owed, seen) =>
      if s.stack == Some(seen)
      then s.(stack := None, loop := Walking(owed, Some(seen)), walked := s.stacked, stacked := [])
      else (match s.stack
            case None => s.(loop := PoppedNull)
            case Some(n) => s.(loop := Taking(owed, n)))
    case Walking(owed, Some(n)) =>
      s.(next := s.next[n := s.cache], cache := Some(n), loop := Walking(owed, s.next[n]),
         walked := if s.walked == [] then [] else s.walked[1..], cached := [n] + s.cached)
    case Walking(owed, None) => s.(loop := Ready(owed))
    case _ => s
  }

  ghost predicate Run(s: State, steps: seq<Step>, t: State)
    decreases |steps|
  {
    if steps == [] then s == t
    else Enabled(s, steps[0]) && Run(Apply(s, steps[0]), steps[1..], t)
  }

  // ---- the linked lists

  /** Following `next` from head visits exactly the nodes of the list. */
  ghost predicate Linked(next: map<Node, Option<Node>>, head: Option<Node>, nodes: seq<Node>)
    decreases |nodes|
  {
    if nodes == [] then head == None
    else head == Some(nodes[0]) && nodes[0] in next && Linked(next, next[nodes[0]], nodes[1..])
  }

  lemma {:induction false} LinkedFrame(next: map<Node, Option<Node>>, head: Option<Node>, nodes: seq<Node>, n: Node, target: Option<Node>)
    requires Linked(next, head, nodes) && n !in nodes
    ensures Linked(next[n := target], head, nodes)
    decreases |nodes|
  {
    if nodes != [] {
      LinkedFrame(next, next[nodes[0]], nodes[1..], n, target);
    }
  }

  function Reversed(nodes: seq<Node>): seq<Node> {
    if nodes == [] then [] else Reversed(nodes[1..]) + [nodes[0]]
  }

  lemma {:induction false} ReversedSize(nodes: seq<Node>)
    ensures |Reversed(nodes)| == |nodes|
  {
    if nodes != [] {
      ReversedSize(nodes[1..]);
    }
  }

  /** What the queue holds, oldest first. */
  function Contents(s: State): seq<Node> {
    Reversed(s.walked) + s.cached + Reversed(s.stacked)
  }

  function NotifyingThreads(s: State): set<Tid> { set t | t in s.pcs && s.pcs[t] == Notifying }

  function Owed(s: State): nat { if s.loop.PoppedNull? then 0 else s.loop.owed }

  ghost predicate ListsOk(s: State) {
    && Linked(s.next, s.stack, s.stacked)
    && Linked(s.next, s.cache, s.cached)
    && Distinct(s.walked + s.cached + s.stacked)
    && match s.loop
       case Ready(_) => s.walked == []
       case Taking(_, _) => s.walked == s.cached == [] && s.stacked != []
       case Walking(_, at) => Linked(s.next, at, s.walked) && (s.walked != [] || s.cached != [])
       case PoppedNull => false
  }

  ghost predicate PusherOk(s: State, t: Tid)
    requires t in s.pcs
  {
    match s.pcs[t]
    case PushRead(n) => n !in s.stacked && n !in s.cached && n !in s.walked
    case PushCas(n, seen) =>
      n !in s.stacked && n !in s.cached && n !in s.walked && n in s.next && s.next[n] == seen
    case _ => true
  }

  ghost predicate PushersOk(s: State) {
    && (forall t :: t in s.pcs ==> PusherOk(s, t))
    && (forall t, u, n :: t in s.pcs && u in s.pcs && t != u && Pending(s.pcs[t], n) ==> !Pending(s.pcs[u], n))
  }

  /** Bytes in the pipe, pops still owed and pushers that have not yet notified account for
      exactly the messages in the queue. */
  ghost predicate WakeUpsMatch(s: State) {
    s.pipe + Owed(s) + |NotifyingThreads(s)| == |s.walked| + |s.cached| + |s.stacked|
  }

  ghost predicate Inv(s: State) {
    ListsOk(s) && PushersOk(s) && WakeUpsMatch(s) && s.pushed == s.popped + Contents(s)
  }

  // ---- the pushers

  /** A step of one pusher leaves the lists of the others' nodes and their links alone. */
  lemma OthersOk(s: State, next: State, t: Tid)
    requires PushersOk(s) && t in s.pcs && t in next.pcs && next.pcs == s.pcs[t := next.pcs[t]]
    requires forall u, n :: u in s.pcs && u != t && Pending(s.pcs[u], n) ==>
               && (n in next.stacked ==> n in s.stacked) && (n in next.cached ==> n in s.cached) && (n in next.walked ==> n in s.walked)
               && (n in s.next ==> n in next.next && next.next[n] == s.next[n])
    ensures forall u :: u in s.pcs && u != t ==> PusherOk(next, u)
  {
    forall u | u in s.pcs && u != t ensures PusherOk(next, u) {
      assert PusherOk(s, u);
      match s.pcs[u]
      case PushRead(n) => assert Pending(s.pcs[u], n);
      case PushCas(n, _) => assert Pending(s.pcs[u], n);
      case _ =>
    }
  }

  lemma StartPushKeepsInv(s: State, t: Tid, n: Node)
    requires Inv(s) && Enabled(s, StartPush(t, n))
    ensures Inv(Apply(s, StartPush(t, n)))
  {
    var next := Apply(s, StartPush(t, n));
    OthersOk(s, next, t);
    assert NotifyingThreads(next) == NotifyingThreads(s);
  }

  lemma PushReadKeepsInv(s: State, t: Tid, n: Node)
    requires Inv(s) && t in s.pcs && s.pcs[t] == PushRead(n)
    ensures Inv(Apply(s, MovePusher(t)))
  {
    var next := Apply(s, MovePusher(t));
    assert PusherOk(s, t) && Pending(s.pcs[t], n);
    LinkedFrame(s.next, s.stack, s.stacked, n, s.stack);
    LinkedFrame(s.next, s.cache, s.cached, n, s.stack);
    if s.loop.Walking? {
      LinkedFrame(s.next, s.loop.at, s.walked, n, s.stack);
    }
    OthersOk(s, next, t);
    assert NotifyingThreads(next) == NotifyingThreads(s);
  }

  lemma PushedIsLinked(s: State, t: Tid, n: Node, seen: Option<Node>)
    requires ListsOk(s) && t in s.pcs && s.pcs[t] == PushCas(n, seen) && PusherOk(s, t) && s.stack == seen
    ensures ListsOk(Apply(s, MovePusher(t)))
  {
    assert ([n] + s.stacked)[1..] == s.stacked;
    var before := s.walked + s.cached;
    assert before + ([n] + s.stacked) == before + [n] + s.stacked;
    forall i, j | 0 <= i < j < |before + [n] + s.stacked|
      ensures (before + [n] + s.stacked)[i] != (before + [n] + s.stacked)[j]
    {
      var i' := if i < |before| then i else i - 1;
      var j' := if j < |before| then j else j - 1;
      var rest := before + s.stacked;
      if i != |before| && j != |before| {
        assert rest[i'] != rest[j'];
      } else if i == |before| {
        assert s.stacked[j - |before| - 1] != n;
      } else {
        assert before[i] in s.walked || before[i] in s.cached;
      }
    }
  }

  lemma PushSucceeds(s: State, t: Tid, n: Node)
    requires Inv(s) && t in s.pcs && s.pcs[t] == PushCas(n, s.stack)
    ensures Inv(Apply(s, MovePusher(t)))
  {
    var next := Apply(s, MovePusher(t));
    assert PusherOk(s, t) && Pending(s.pcs[t], n);
    OthersOk(s, next, t);
    PushedIsLinked(s, t, n, s.stack);
    assert NotifyingThreads(next) == NotifyingThreads(s) + {t};
    PushedIsLast(s, next, n);
  }

  lemma PushedIsLast(s: State, next: State, n: Node)
    requires s.pushed == s.popped + Contents(s)
    requires next.pushed == s.pushed + [n] && next.popped == s.popped
    requires next.walked == s.walked && next.cached == s.cached && next.stacked == [n] + s.stacked
    ensures next.pushed == next.popped + Contents(next)
  {
    assert ([n] + s.stacked)[1..] == s.stacked;
    assert Contents(next) == Contents(s) + [n];
  }

  lemma PushCasKeepsInv(s: State, t: Tid, n: Node, seen: Option<Node>)
    requires Inv(s) && t in s.pcs && s.pcs[t] == PushCas(n, seen)
    ensures Inv(Apply(s, MovePusher(t)))
  {
    var next := Apply(s, MovePusher(t));
    if s.stack == seen {
      PushSucceeds(s, t, n);
    } else {
      assert PusherOk(s, t) && Pending(s.pcs[t], n);
      OthersOk(s, next, t);
      assert NotifyingThreads(next) == NotifyingThreads(s);
    }
  }

  lemma NotifyKeepsInv(s: State, t: Tid)
    requires Inv(s) && t in s.pcs && s.pcs[t] == Notifying
    ensures Inv(Apply(s, MovePusher(t)))
  {
    var next := Apply(s, MovePusher(t));
    OthersOk(s, next, t);
    assert t in NotifyingThreads(s);
    assert NotifyingThreads(next) == NotifyingThreads(s) - {t};
  }

  // ---- the loop

  /** A step of the loop that keeps every pusher's node out of the lists, and its link. */
  lemma PushersKeep(s: State, next: State)
    requires PushersOk(s) && next.pcs == s.pcs
    requires forall u, n :: u in s.pcs && Pending(s.pcs[u], n) && n !in s.stacked && n !in s.cached && n !in s.walked ==>
               && n !in next.stacked && n !in next.cached && n !in next.walked
               && (n in s.next ==> n in next.next && next.next[n] == s.next[n])
    ensures PushersOk(next) && NotifyingThreads(next) == NotifyingThreads(s)
  {
    forall u | u in s.pcs ensures PusherOk(next, u) {
      assert PusherOk(s, u);
      match s.pcs[u]
      case PushRead(n) => assert Pending(s.pcs[u], n);
      case PushCas(n, _) => assert Pending(s.pcs[u], n);
      case _ =>
    }
  }

  lemma PoppedIsFirst(s: State, next: State, n: Node)
    requires s.pushed == s.popped + Contents(s) && s.walked == next.walked == [] && s.cached != [] && s.cached[0] == n
    requires next.pushed == s.pushed && next.popped == s.popped + [n]
    requires next.cached == s.cached[1..] && next.stacked == s.stacked
    ensures next.pushed == next.popped + Contents(next)
  {
    assert s.cached == [n] + s.cached[1..];
    assert Contents(s) == [n] + Contents(next);
  }

  lemma PopKeepsInv(s: State)
    requires Inv(s) && Enabled(s, LoopPop)
    ensures Inv(Apply(s, LoopPop))
  {
    var next := Apply(s, LoopPop);
    PushersKeep(s, next);
    if s.cache == None {
      assert s.cached == [];
      assert s.stacked != [];
    } else {
      PoppedIsFirst(s, next, s.cache.value);
      assert s.walked + s.cached[1..] + s.stacked == (s.walked + s.cached + s.stacked)[1..];
    }
  }

  lemma TakeKeepsInv(s: State)
    requires Inv(s) && s.loop.Taking?
    ensures Inv(Apply(s, LoopMove))
  {
    var next := Apply(s, LoopMove);
    PushersKeep(s, next);
    if s.stack == Some(s.loop.seen) {
      assert s.stacked + [] + [] == [] + [] + s.stacked;
      assert Contents(s) == Reversed(s.stacked) == Contents(next);
    }
  }

  lemma WalkedIsLinked(s: State, n: Node)
    requires ListsOk(s) && s.loop.Walking? && s.loop.at == Some(n)
    ensures s.walked != [] && s.walked[0] == n && n in s.next
    ensures ListsOk(DoTake(s))
  {
    var rest := s.walked[1..];
    assert s.walked == [n] + rest;
    var all := s.walked + s.cached + s.stacked;
    assert all[0] == n;
    forall m | m in rest ensures m != n {
      var i :| 0 <= i < |rest| && rest[i] == m;
      assert all[i + 1] == m;
    }
    forall m | m in s.cached ensures m != n {
      var i :| 0 <= i < |s.cached| && s.cached[i] == m;
      assert all[|s.walked| + i] == m;
    }
    forall m | m in s.stacked ensures m != n {
      var i :| 0 <= i < |s.stacked| && s.stacked[i] == m;
      assert all[|s.walked| + |s.cached| + i] == m;
    }
    LinkedFrame(s.next, s.stack, s.stacked, n, s.cache);
    LinkedFrame(s.next, s.cache, s.cached, n, s.cache);
    LinkedFrame(s.next, s.next[n], rest, n, s.cache);
    assert ([n] + s.cached)[1..] == s.cached;
    RotatedDistinct(rest, n, s.cached, s.stacked);
  }

  lemma RotatedDistinct(rest: seq<Node>, n: Node, cached: seq<Node>, stacked: seq<Node>)
    requires Distinct([n] + rest + cached + stacked)
    ensures Distinct(rest + ([n] + cached) + stacked)
  {
    var a := [n] + rest + cached + stacked;
    var b := rest + ([n] + cached) + stacked;
    forall i, j | 0 <= i < j < |b| ensures b[i] != b[j] {
      var i' := if i < |rest| then i + 1 else if i == |rest| then 0 else i;
      var j' := if j < |rest| then j + 1 else if j == |rest| then 0 else j;
      assert b[i] == a[i'] && b[j] == a[j'];
    }
  }

  lemma WalkKeepsInv(s: State)
    requires Inv(s) && s.loop.Walking? && Enabled(s, LoopMove)
    ensures Inv(Apply(s, LoopMove))
  {
    var next := Apply(s, LoopMove);
    if s.loop.at == None {
      assert s.walked == [];
    } else {
      var n := s.loop.at.value;
      WalkedIsLinked(s, n);
      assert Contents(s) == Reversed(s.walked[1..]) + [n] + s.cached + Reversed(s.stacked);
      assert Contents(next) == Contents(s);
    }
    PushersKeep(s, next);
  }

  lemma StepKeepsInv(s: State, step: Step)
    requires Inv(s) && Enabled(s, step)
    ensures Inv(Apply(s, step))
  {
    match step
    case StartPush(t, n) => StartPushKeepsInv(s, t, n);
    case MovePusher(t) =>
      match s.pcs[t] {
        case PushRead(n) => PushReadKeepsInv(s, t, n);
        case PushCas(n, seen) => PushCasKeepsInv(s, t, n, seen);
        case Notifying => NotifyKeepsInv(s, t);
      }
    case LoopRead => PushersKeep(s, Apply(s, step));
    case LoopPop => PopKeepsInv(s);
    case LoopPeek => PushersKeep(s, Apply(s, step));
    case LoopMove =>
      if s.loop.Taking? {
        TakeKeepsInv(s);
      } else {
        WalkKeepsInv(s);
      }
  }

  lemma {:induction false} RunKeepsInv(s: State, steps: seq<Step>, t: State)
    requires Inv(s) && Run(s, steps, t)
    ensures Inv(t)
    decreases |steps|
  {
    if steps != [] {
      StepKeepsInv(s, steps[0]);
      RunKeepsInv(Apply(s, steps[0]), steps[1..], t);
    }
  }

  lemma StartInv(threads: set<Tid>)
    ensures Inv(Start(threads))
  {
    assert NotifyingThreads(Start(threads)) == {};
  }

  /** Wake-up accounting, for any number of pushers and any interleaving with the loop:
      pipe bytes plus pops still owed are the queue length less the pushers between push and
      notify, so a pop that is owed never finds the queue empty. */
  lemma WakeUpAccounting(threads: set<Tid>, steps: seq<Step>, s: State)
    requires Run(Start(threads), steps, s)
    ensures s.pipe + Owed(s) + |NotifyingThreads(s)| == |Contents(s)|
    ensures !s.loop.PoppedNull?
    ensures Enabled(s, LoopPop) ==> !Apply(s, LoopPop).loop.PoppedNull?
    ensures Contents(s) != [] && NotifyingThreads(s) == {} && Owed(s) == 0 ==> s.pipe > 0
  {
    StartInv(threads);
    RunKeepsInv(Start(threads), steps, s);
    ReversedSize(s.walked);
    ReversedSize(s.stacked);
    if Enabled(s, LoopPop) {
      PopKeepsInv(s);
    }
  }

  /** The queue is first in, first out: what was popped is a prefix of what was pushed, and
      the rest is what the stack, the cache and a reversal under way still hold. */
  lemma QueueIsFifo(threads: set<Tid>, steps: seq<Step>, s: State)
    requires Run(Start(threads), steps, s)
    ensures s.pushed == s.popped + Contents(s)
    ensures s.loop.Ready? ==> Linked(s.next, s.cache, s.cached) && Linked(s.next, s.stack, s.stacked) && s.walked == []
    ensures s.loop.Walking? ==> Enabled(s, LoopMove)
  {
    StartInv(threads);
    RunKeepsInv(Start(threads), steps, s);
  }

  // ---- what pushing and popping achieve

  /** A compare-and-swap whose copy is current links the node as the newest message and goes on to
      notify; an outdated one starts over with the same node. */
  lemma PushLinks(threads: set<Tid>, steps: seq<Step>, s: State, t: Tid)
    requires Run(Start(threads), steps, s) && t in s.pcs && s.pcs[t].PushCas?
    ensures var next, n := Apply(s, MovePusher(t)), s.pcs[t].node;
            if s.stack == s.pcs[t].seen
            then next.pcs[t] == Notifying && Contents(next) == Contents(s) + [n] &&
                 next.stack == Some(n) && Linked(next.next, Some(n), [n] + s.stacked)
            else next.pcs[t] == PushRead(n) && Contents(next) == Contents(s)
  {
    StartInv(threads);
    RunKeepsInv(Start(threads), steps, s);
    PusherIsOk(s, t);
    CasEffect(s, t);
  }

  lemma PusherIsOk(s: State, t: Tid)
    requires Inv(s) && t in s.pcs
    ensures ListsOk(s) && PusherOk(s, t)
  {
  }

  lemma CasEffect(s: State, t: Tid)
    requires ListsOk(s) && t in s.pcs && PusherOk(s, t) && s.pcs[t].PushCas?
    ensures var next, n := Apply(s, MovePusher(t)), s.pcs[t].node;
            if s.stack == s.pcs[t].seen
            then next.pcs[t] == Notifying && Contents(next) == Contents(s) + [n] &&
                 next.stack == Some(n) && Linked(next.next, Some(n), [n] + s.stacked)
            else next.pcs[t] == PushRead(n) && Contents(next) == Contents(s)
  {
    if s.stack == s.pcs[t].seen {
      PushedIsLinked(s, t, s.pcs[t].node, s.stack);
      NewestLast(s.stacked, s.pcs[t].node);
    }
  }

  lemma NewestLast(stacked: seq<Node>, n: Node)
    ensures Reversed([n] + stacked) == Reversed(stacked) + [n]
  {
    assert ([n] + stacked)[1..] == stacked;
  }

  /** A push that nobody disturbs appends its message and writes one byte to the pipe. */
  lemma UndisturbedPush(threads: set<Tid>, steps: seq<Step>, s: State, t: Tid, n: Node) returns (u: State)
    requires Run(Start(threads), steps, s) && Enabled(s, StartPush(t, n))
    ensures Run(s, [StartPush(t, n), MovePusher(t)] + [MovePusher(t), MovePusher(t)], u)
    ensures t in u.pcs && u.pcs[t] == Idle && u.pipe == s.pipe + 1 && Contents(u) == Contents(s) + [n]
  {
    StartInv(threads);
    RunKeepsInv(Start(threads), steps, s);
    var b := PushBegins(s, t, n);
    CasEffect(b, t);
    var c := Apply(b, MovePusher(t));
    u := Apply(c, MovePusher(t));
    TwoSteps(b, MovePusher(t), MovePusher(t));
    RunThen(s, [StartPush(t, n), MovePusher(t)], b, [MovePusher(t), MovePusher(t)], u);
  }

  lemma PushBegins(s: State, t: Tid, n: Node) returns (b: State)
    requires Inv(s) && Enabled(s, StartPush(t, n))
    ensures Run(s, [StartPush(t, n), MovePusher(t)], b) && t in b.pcs && b.pcs[t] == PushCas(n, b.stack)
    ensures ListsOk(b) && PusherOk(b, t) && Contents(b) == Contents(s) && b.pipe == s.pipe
  {
    var a := Apply(s, StartPush(t, n));
    StepKeepsInv(s, StartPush(t, n));
    StepKeepsInv(a, MovePusher(t));
    b := Apply(a, MovePusher(t));
    PusherIsOk(b, t);
    TwoSteps(s, StartPush(t, n), MovePusher(t));
  }

  lemma TwoSteps(s: State, x: Step, y: Step)
    requires Enabled(s, x) && Enabled(Apply(s, x), y)
    ensures Run(s, [x, y], Apply(Apply(s, x), y))
  {
    assert [x, y][1..] == [y] && [y][1..] == [];
    assert Run(Apply(s, x), [y], Apply(Apply(s, x), y));
  }

  lemma Cancelled(front: seq<Node>, a: seq<Node>, b: seq<Node>)
    requires front + a == front + b
    ensures a == b
  {
    assert a == (front + a)[|front|..] && b == (front + b)[|front|..];
  }

  /** The loop's own steps of popping. */
  ghost predicate LoopOnly(steps: seq<Step>) {
    forall k :: 0 <= k < |steps| ==> steps[k] == LoopPop || steps[k] == LoopMove
  }

  /** Reversing a taken stack ends with the loop ready again and the contents as they were. */
  lemma {:induction false} ReversalEnds(s: State) returns (more: seq<Step>, u: State)
    requires Inv(s) && s.loop.Walking?
    ensures Run(s, more, u) && LoopOnly(more)
    ensures Inv(u) && u.loop == Ready(s.loop.owed) && u.cache != None
    ensures u.popped == s.popped && Contents(u) == Contents(s)
    decreases |s.walked|
  {
    WalkKeepsInv(s);
    var next := Apply(s, LoopMove);
    Cancelled(s.popped, Contents(next), Contents(s));
    if s.loop.at == None {
      more, u := [LoopMove], next;
      assert more[1..] == [];
    } else {
      WalkedIsLinked(s, s.loop.at.value);
      more, u := ReversalEnds(next);
      assert ([LoopMove] + more)[1..] == more;
      more := [LoopMove] + more;
    }
  }

  /** With a cached message a pop yields the oldest one. */
  lemma CachedPop(s: State)
    requires Inv(s) && Enabled(s, LoopPop) && s.cache != None
    ensures var u := Apply(s, LoopPop);
            Contents(s) != [] && u.popped == s.popped + [Contents(s)[0]] && Contents(u) == Contents(s)[1..] &&
            u.loop == Ready(s.loop.owed - 1)
  {
    var u := Apply(s, LoopPop);
    PopKeepsInv(s);
    assert Contents(s)[0] == s.cached[0];
    assert s.popped + Contents(s) == s.popped + ([s.cached[0]] + Contents(u));
    Cancelled(s.popped, Contents(s), [s.cached[0]] + Contents(u));
  }

  /** Taking a stack that nobody changes meanwhile leads to a reversal. */
  lemma TakeBegins(s: State) returns (b: State)
    requires Inv(s) && Enabled(s, LoopPop) && s.cache == None
    ensures Run(s, [LoopPop, LoopMove], b) && Inv(b) && b.loop.Walking? && b.loop.owed == s.loop.owed
    ensures b.popped == s.popped && Contents(b) == Contents(s)
  {
    PopKeepsInv(s);
    var a := Apply(s, LoopPop);
    TakeKeepsInv(a);
    b := Apply(a, LoopMove);
    assert [LoopPop, LoopMove][1..] == [LoopMove] && [LoopMove][1..] == [];
    assert Run(a, [LoopMove], b);
    Cancelled(s.popped, Contents(b), Contents(s));
  }

  lemma {:induction false} RunThen(s: State, steps: seq<Step>, t: State, more: seq<Step>, u: State)
    requires Run(s, steps, t) && Run(t, more, u)
    ensures Run(s, steps + more, u)
    decreases |steps|
  {
    if steps == [] {
      assert steps + more == more;
    } else {
      assert (steps + more)[1..] == steps[1..] + more;
      RunThen(Apply(s, steps[0]), steps[1..], t, more, u);
    }
  }

  /** An owed pop gets a cached message, if need be by taking and reversing the stack. */
  lemma CacheIsFilled(s: State) returns (more: seq<Step>, u: State)
    requires Inv(s) && Enabled(s, LoopPop)
    ensures Run(s, more, u) && LoopOnly(more)
    ensures Inv(u) && u.loop == s.loop && u.cache != None && u.popped == s.popped && Contents(u) == Contents(s)
  {
    if s.cache == None {
      var b := TakeBegins(s);
      more, u := ReversalEnds(b);
      RunThen(s, [LoopPop, LoopMove], b, more, u);
      more := [LoopPop, LoopMove] + more;
    } else {
      more, u := [], s;
    }
  }

  /** In every reachable state an owed pop that the loop is left to finish yields exactly the oldest
      message, whether it was cached or the stack has to be taken and reversed first. */
  lemma PopYieldsOldest(threads: set<Tid>, steps: seq<Step>, s: State) returns (more: seq<Step>, u: State)
    requires Run(Start(threads), steps, s) && Enabled(s, LoopPop)
    ensures Run(s, more, u) && LoopOnly(more)
    ensures Contents(s) != [] && u.popped == s.popped + [Contents(s)[0]] && Contents(u) == Contents(s)[1..]
    ensures u.loop == Ready(s.loop.owed - 1)
  {
    StartInv(threads);
    RunKeepsInv(Start(threads), steps, s);
    more, u := PopFrom(s);
  }

  lemma PopFrom(s: State) returns (more: seq<Step>, u: State)
    requires Inv(s) && Enabled(s, LoopPop)
    ensures Run(s, more, u) && LoopOnly(more)
    ensures Contents(s) != [] && u.popped == s.popped + [Contents(s)[0]] && Contents(u) == Contents(s)[1..]
    ensures u.loop == Ready(s.loop.owed - 1)
  {
    var filling, b := CacheIsFilled(s);
    u := OnePop(b);
    RunThen(s, filling, b, [LoopPop], u);
    more := filling + [LoopPop];
  }

  lemma OnePop(s: State) returns (u: State)
    requires Inv(s) && Enabled(s, LoopPop) && s.cache != None
    ensures Run(s, [LoopPop], u) && u.loop == Ready(s.loop.owed - 1)
    ensures Contents(s) != [] && u.popped == s.popped + [Contents(s)[0]] && Contents(u) == Contents(s)[1..]
  {
    CachedPop(s);
    u := Apply(s, LoopPop);
    assert [LoopPop][1..] == [];
  }
}
