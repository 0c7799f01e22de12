/** All sockets and all technology modules together. A socket operation sends its worker
    messages one after another, each waiting for its answer; messages of different sockets
    interleave arbitrarily at the workers. */
module Membership {
  import opened Basics
  import opened JoinTable
  import opened SocketMembership

  /** pending[s] holds the worker messages that the running operation of socket s still has to
      get answered; its length is the number of sockets ever created. */
  datatype State = State(sockets: map<Sock, Socket>, modules: map<Iface, Table>, pending: seq<seq<Msg>>)

  /** How the lists of a change of interfaces were arranged by sorting, and the order in which the
      joined groups are iterated over. */
  datatype Arrangement = Arrangement(wanted: seq<Iface>, current: seq<Iface>, order: seq<string>)

  datatype Step =
    | AddSocket(first: Iface)
    | JoinOn(s: Sock, group: string)
    | LeaveOn(s: Sock, group: string)
    | SetIfs(s: Sock, ids: seq<Iface>, how: Arrangement)
    | AddIf(s: Sock, id: Iface, how: Arrangement)
    | RemoveIf(s: Sock, id: Iface, how: Arrangement)
    | RemoveSocket(s: Sock)
    | Deliver(s: Sock, order: seq<string>)

  type Comparison = (Iface, Iface) -> bool

  ghost predicate Arranged(less: Comparison, x: Socket, ids: seq<Iface>, how: Arrangement) {
    && multiset(how.wanted) == multiset(ids) && Sorted(less, how.wanted)
    && multiset(how.current) == multiset(x.interfaces) && Sorted(less, how.current)
    && Enumerates(how.order, x.joined)
  }

  function Initial(ids: set<Iface>): State {
    State(map[], map i | i in ids :: EMPTY_TABLE, [])
  }

  predicate Idle(st: State, s: Sock) {
    s < |st.pending| ==> st.pending[s] == []
  }

  /** A socket's session thread works on one operation at a time; a delivery may leave groups, in
      the order given. */
  ghost predicate Enabled(less: Comparison, st: State, step: Step) {
    match step
    case AddSocket(first) => first in st.modules
    case JoinOn(s, _) => Idle(st, s)
    case LeaveOn(s, _) => Idle(st, s)
    case SetIfs(s, ids, how) => Idle(st, s) && (s in st.sockets ==> Arranged(less, st.sockets[s], ids, how))
    case AddIf(s, id, how) => Idle(st, s) && (s in st.sockets ==> Arranged(less, st.sockets[s], st.sockets[s].interfaces + [id], how))
    case RemoveIf(s, id, how) => Idle(st, s) && (s in st.sockets ==> Arranged(less, st.sockets[s], Erase(st.sockets[s].interfaces, id), how))
    case RemoveSocket(s) => Idle(st, s)
    case Deliver(s, order) => CanDeliver(st, s, order)
  }

  predicate CanDeliver(st: State, s: Sock, order: seq<string>) {
    && s < |st.pending| && st.pending[s] != []
    && st.pending[s][0].iface in st.modules
    && OrderFits(st.modules[st.pending[s][0].iface], st.pending[s][0].request, s, order)
  }

  function Start(st: State, s: Sock, after: Socket, msgs: seq<Msg>): State
    requires s < |st.pending|
  {
    st.(sockets := st.sockets[s := after], pending := st.pending[s := msgs])
  }

  /** An empty request or an unknown interface is refused, and so is an unknown socket. */
  predicate Accepts(st: State, s: Sock, ids: seq<Iface>) {
    s in st.sockets && s < |st.pending| && ids != [] && forall i :: i in ids ==> i in st.modules
  }

  function CommonOf(less: Comparison, how: Arrangement): seq<Iface> { SetIntersection(less, how.wanted, how.current) }

  function Replaced(less: Comparison, x: Socket, how: Arrangement): Socket {
    x.(interfaces := Regrouped(how.wanted, CommonOf(less, how)))
  }

  function ReplaceMsgs(less: Comparison, how: Arrangement): seq<Msg> {
    RegroupMsgs(how.current, how.wanted, CommonOf(less, how), how.order)
  }

  function DoSetIfs(less: Comparison, st: State, s: Sock, ids: seq<Iface>, how: Arrangement): State {
    if !Accepts(st, s, ids) then st
    else Start(st, s, Replaced(less, st.sockets[s], how), ReplaceMsgs(less, how))
  }

  function DoDeliver(f: Mapping, st: State, s: Sock, order: seq<string>): State
    requires CanDeliver(st, s, order)
  {
    var m := st.pending[s][0];
    st.(modules := st.modules[m.iface := Work(st.modules[m.iface], g => f(m.iface, g), m.request, s, order)],
        pending := st.pending[s := st.pending[s][1..]])
  }

  function Apply(f: Mapping, less: Comparison, st: State, step: Step): State
    requires Enabled(less, st, step)
  {
    match step
    case AddSocket(first) =>
      State(st.sockets[|st.pending| := Socket({}, [first])], st.modules, st.pending + [[]])
    case JoinOn(s, g) =>
      if s !in st.sockets || s >= |st.pending| then st
      else Start(st, s, st.sockets[s].(joined := st.sockets[s].joined + {g}), JoinMsgs(st.sockets[s], g))
    case LeaveOn(s, g) =>
      if s !in st.sockets || s >= |st.pending| then st
      else Start(st, s, st.sockets[s].(joined := st.sockets[s].joined - {g}), LeaveMsgs(st.sockets[s], g))
    case SetIfs(s, ids, how) => DoSetIfs(less, st, s, ids, how)
    case AddIf(s, id, how) =>
      if s !in st.sockets || id in st.sockets[s].interfaces then st
      else DoSetIfs(less, st, s, st.sockets[s].interfaces + [id], how)
    case RemoveIf(s, id, how) =>
      if s !in st.sockets || id !in st.sockets[s].interfaces then st
      else DoSetIfs(less, st, s, Erase(st.sockets[s].interfaces, id), how)
    case RemoveSocket(s) =>
      if s !in st.sockets || s >= |st.pending| then st
      else State(st.sockets - {s}, st.modules, st.pending[s := Broadcast(st.sockets[s].interfaces, LeaveAll)])
    case Deliver(s, order) => DoDeliver(f, st, s, order)
  }

  ghost predicate Run(f: Mapping, less: Comparison, st: State, steps: seq<Step>, t: State)
    decreases |steps|
  {
    if steps == [] then st == t
    else Enabled(less, st, steps[0]) && Run(f, less, Apply(f, less, st, steps[0]), steps[1..], t)
  }

  /** A change of interfaces keeps the memberships right. */
  ghost predicate KeepsRight(less: Comparison, x: Socket, how: Arrangement) {
    Keeps(x.(interfaces := how.current), how.wanted, CommonOf(less, how))
  }

  /** Every change of interfaces keeps the memberships right; a group that is left is not mapped
      like another joined one. */
  ghost predicate Plain(f: Mapping, less: Comparison, st: State, step: Step) {
    match step
    case SetIfs(s, ids, how) => Accepts(st, s, ids) ==> KeepsRight(less, st.sockets[s], how)
    case AddIf(s, id, how) => s in st.sockets && id !in st.sockets[s].interfaces && id in st.modules ==> KeepsRight(less, st.sockets[s], how)
    case RemoveIf(s, id, how) =>
      s in st.sockets && id in st.sockets[s].interfaces && Erase(st.sockets[s].interfaces, id) != [] ==> KeepsRight(less, st.sockets[s], how)
    case LeaveOn(s, g) => s in st.sockets && g in st.sockets[s].joined ==> Apart(f, st.sockets[s], g)
    case _ => true
  }

  ghost predicate PlainRun(f: Mapping, less: Comparison, st: State, steps: seq<Step>, t: State)
    decreases |steps|
  {
    if steps == [] then st == t
    else
      && Enabled(less, st, steps[0]) && Plain(f, less, st, steps[0])
      && PlainRun(f, less, Apply(f, less, st, steps[0]), steps[1..], t)
  }

  // ---- invariants

  function SocketOf(st: State, s: Sock): Socket {
    if s in st.sockets then st.sockets[s] else Socket({}, [])
  }

  ghost predicate ModulesAgree(st: State) {
    forall i :: i in st.modules ==> Agrees(st.modules[i])
  }

  ghost predicate OnlyCreated(st: State) {
    forall i, group, w: Sock :: i in st.modules && Listed(st.modules[i], group, w) ==> w < |st.pending|
  }

  ghost predicate SocketFine(st: State, x: Socket) {
    x.interfaces != [] && forall i :: i in x.interfaces ==> i in st.modules
  }

  ghost predicate SocketsFine(st: State) {
    forall s :: s in st.sockets ==> s < |st.pending| && SocketFine(st, st.sockets[s])
  }

  /** Once a socket's pending messages are answered, its listing is what it wants. */
  ghost predicate WillAgree(f: Mapping, st: State, s: Sock)
    requires s < |st.pending|
  {
    forall i, group :: i in st.modules ==>
      ListedAfter(f, Listed(st.modules[i], group, s), st.pending[s], i, group) == Wants(f, SocketOf(st, s), i, group)
  }

  ghost predicate AllWillAgree(f: Mapping, st: State) {
    forall s :: 0 <= s < |st.pending| ==> WillAgree(f, st, s)
  }

  ghost predicate Reach(st: State, msgs: seq<Msg>) {
    forall k :: 0 <= k < |msgs| ==> msgs[k].iface in st.modules
  }

  ghost predicate AllReach(st: State) {
    forall s :: 0 <= s < |st.pending| ==> Reach(st, st.pending[s])
  }

  /** What every run keeps, whatever the mapping and the requests. */
  ghost predicate Structure(st: State) {
    AllReach(st) && ModulesAgree(st) && OnlyCreated(st) && SocketsFine(st)
  }

  /** The start of an operation of s that sends the messages pending in t. */
  ghost predicate Starts(st: State, s: Sock, t: State) {
    && s < |st.pending| && st.pending[s] == [] && t.modules == st.modules && |t.pending| == |st.pending|
    && (forall w :: 0 <= w < |st.pending| && w != s ==> t.pending[w] == st.pending[w])
    && (forall w :: w != s ==> (w in t.sockets <==> w in st.sockets) && SocketOf(t, w) == SocketOf(st, w))
  }

  lemma StartKeepsStructure(st: State, s: Sock, t: State)
    requires Structure(st) && Starts(st, s, t) && Reach(st, t.pending[s])
    requires s in t.sockets ==> SocketFine(st, t.sockets[s])
    ensures Structure(t)
  {
    forall w | 0 <= w < |t.pending| ensures Reach(t, t.pending[w]) {
      assert Reach(st, st.pending[w]);
    }
    forall w | w in t.sockets ensures w < |t.pending| && SocketFine(t, t.sockets[w]) {
      if w != s {
        assert SocketOf(t, w) == SocketOf(st, w);
      }
    }
  }

  /** An operation whose messages achieve its new socket keeps every socket's agreement. */
  lemma StartKeepsAgreement(f: Mapping, st: State, s: Sock, t: State)
    requires AllWillAgree(f, st) && Starts(st, s, t)
    requires Achieves(f, SocketOf(st, s), t.pending[s], SocketOf(t, s))
    ensures AllWillAgree(f, t)
  {
    forall w | 0 <= w < |t.pending| ensures WillAgree(f, t, w) {
      assert WillAgree(f, st, w);
      if w == s {
        forall i, group | i in t.modules ensures
          ListedAfter(f, Listed(t.modules[i], group, s), t.pending[s], i, group) == Wants(f, SocketOf(t, s), i, group) {
          assert Listed(st.modules[i], group, s) == ListedAfter(f, Listed(st.modules[i], group, s), [], i, group);
          assert Listed(st.modules[i], group, s) == Wants(f, SocketOf(st, s), i, group);
        }
      } else {
        assert SocketOf(t, w) == SocketOf(st, w);
      }
    }
  }

  lemma {:induction false} BroadcastReaches(st: State, list: seq<Iface>, r: Request)
    requires forall i :: i in list ==> i in st.modules
    ensures Reach(st, Broadcast(list, r))
  {
    if list != [] {
      BroadcastReaches(st, list[1..], r);
    }
  }

  lemma {:induction false} JoinsReach(st: State, list: seq<Iface>, groups: seq<string>)
    requires forall i :: i in list ==> i in st.modules
    ensures Reach(st, BroadcastJoins(list, groups))
  {
    if groups != [] {
      BroadcastReaches(st, list, Join(groups[0]));
      JoinsReach(st, list, groups[1..]);
    }
  }

  lemma RegroupReaches(st: State, current: seq<Iface>, wanted: seq<Iface>, common: seq<Iface>, order: seq<string>)
    requires forall i :: i in current || i in wanted ==> i in st.modules
    ensures Reach(st, RegroupMsgs(current, wanted, common, order))
  {
    forall i ensures i in EraseAll(current, common) ==> i in current
             ensures i in EraseAll(wanted, common) ==> i in wanted {
      EraseAllMember(current, common, i);
      EraseAllMember(wanted, common, i);
      assert i in current <==> multiset(current)[i] > 0;
      assert i in wanted <==> multiset(wanted)[i] > 0;
    }
    BroadcastReaches(st, EraseAll(current, common), LeaveAll);
    JoinsReach(st, EraseAll(wanted, common), order);
  }

  lemma AddKeepsStructure(f: Mapping, less: Comparison, st: State, first: Iface)
    requires Structure(st) && first in st.modules
    ensures Structure(Apply(f, less, st, AddSocket(first)))
  {
    var t := Apply(f, less, st, AddSocket(first));
    forall w | 0 <= w < |t.pending| ensures Reach(t, t.pending[w]) {
      if w < |st.pending| {
        assert Reach(st, st.pending[w]);
      }
    }
  }

  lemma AddKeepsAgreement(f: Mapping, less: Comparison, st: State, first: Iface)
    requires Structure(st) && AllWillAgree(f, st) && first in st.modules
    ensures AllWillAgree(f, Apply(f, less, st, AddSocket(first)))
  {
    var t := Apply(f, less, st, AddSocket(first));
    var s := |st.pending|;
    forall w | 0 <= w < |t.pending| ensures WillAgree(f, t, w) {
      if w < s {
        assert WillAgree(f, st, w);
        assert SocketOf(t, w) == SocketOf(st, w) && t.pending[w] == st.pending[w];
      } else {
        assert SocketOf(t, w) == Socket({}, [first]) && t.pending[w] == [];
        forall i, group | i in t.modules ensures !Listed(t.modules[i], group, w) {
          assert Listed(t.modules[i], group, w) ==> w < |st.pending|;
        }
      }
    }
  }

  lemma NothingAchieves(f: Mapping, x: Socket)
    ensures Achieves(f, x, [], x)
  {
  }

  lemma JoinKeepsStructure(f: Mapping, less: Comparison, st: State, s: Sock, g: string)
    requires Structure(st) && Enabled(less, st, JoinOn(s, g))
    ensures Structure(Apply(f, less, st, JoinOn(s, g)))
  {
    if s in st.sockets {
      BroadcastReaches(st, st.sockets[s].interfaces, Join(g));
      StartKeepsStructure(st, s, Apply(f, less, st, JoinOn(s, g)));
    }
  }

  lemma JoinKeepsAgreement(f: Mapping, less: Comparison, st: State, s: Sock, g: string)
    requires AllWillAgree(f, st) && Enabled(less, st, JoinOn(s, g))
    ensures AllWillAgree(f, Apply(f, less, st, JoinOn(s, g)))
  {
    if s in st.sockets && s < |st.pending| {
      var x := st.sockets[s];
      if g in x.joined {
        NothingAchieves(f, x);
        assert x.(joined := x.joined + {g}) == x;
      } else {
        JoinAchieves(f, x, g);
      }
      StartKeepsAgreement(f, st, s, Apply(f, less, st, JoinOn(s, g)));
    }
  }

  lemma LeaveKeepsStructure(f: Mapping, less: Comparison, st: State, s: Sock, g: string)
    requires Structure(st) && Enabled(less, st, LeaveOn(s, g))
    ensures Structure(Apply(f, less, st, LeaveOn(s, g)))
  {
    if s in st.sockets {
      BroadcastReaches(st, st.sockets[s].interfaces, Leave(g));
      StartKeepsStructure(st, s, Apply(f, less, st, LeaveOn(s, g)));
    }
  }

  lemma LeaveKeepsAgreement(f: Mapping, less: Comparison, st: State, s: Sock, g: string)
    requires AllWillAgree(f, st) && Enabled(less, st, LeaveOn(s, g)) && Plain(f, less, st, LeaveOn(s, g))
    ensures AllWillAgree(f, Apply(f, less, st, LeaveOn(s, g)))
  {
    if s in st.sockets && s < |st.pending| {
      var x := st.sockets[s];
      if g in x.joined {
        LeaveExactly(f, x, g);
      } else {
        NothingAchieves(f, x);
        assert x.(joined := x.joined - {g}) == x;
      }
      StartKeepsAgreement(f, st, s, Apply(f, less, st, LeaveOn(s, g)));
    }
  }

  lemma RemoveKeepsStructure(f: Mapping, less: Comparison, st: State, s: Sock)
    requires Structure(st) && Enabled(less, st, RemoveSocket(s))
    ensures Structure(Apply(f, less, st, RemoveSocket(s)))
  {
    if s in st.sockets {
      BroadcastReaches(st, st.sockets[s].interfaces, LeaveAll);
      StartKeepsStructure(st, s, Apply(f, less, st, RemoveSocket(s)));
    }
  }

  lemma RemoveKeepsAgreement(f: Mapping, less: Comparison, st: State, s: Sock)
    requires AllWillAgree(f, st) && Enabled(less, st, RemoveSocket(s))
    ensures AllWillAgree(f, Apply(f, less, st, RemoveSocket(s)))
  {
    if s in st.sockets && s < |st.pending| {
      LeaveAllAchieves(f, st.sockets[s], Socket({}, []));
      StartKeepsAgreement(f, st, s, Apply(f, less, st, RemoveSocket(s)));
    }
  }

  /** The new list is the request, in another order. */
  lemma SetIfsDo(less: Comparison, st: State, s: Sock, ids: seq<Iface>, how: Arrangement)
    requires Accepts(st, s, ids) && Arranged(less, st.sockets[s], ids, how)
    ensures multiset(DoSetIfs(less, st, s, ids, how).sockets[s].interfaces) == multiset(ids)
  {
    RegroupedIsWanted(less, how.wanted, how.current);
  }

  lemma SetKeepsStructure(less: Comparison, st: State, s: Sock, ids: seq<Iface>, how: Arrangement)
    requires Structure(st) && Idle(st, s) && (s in st.sockets ==> Arranged(less, st.sockets[s], ids, how))
    ensures Structure(DoSetIfs(less, st, s, ids, how))
  {
    if Accepts(st, s, ids) {
      var t := DoSetIfs(less, st, s, ids, how);
      SetIfsDo(less, st, s, ids, how);
      SameMembers(t.sockets[s].interfaces, ids);
      SameMembers(how.wanted, ids);
      SameMembers(how.current, st.sockets[s].interfaces);
      assert ids[0] in ids;
      RegroupReaches(st, how.current, how.wanted, CommonOf(less, how), how.order);
      StartKeepsStructure(st, s, t);
    }
  }

  lemma SetKeepsAgreement(f: Mapping, less: Comparison, st: State, s: Sock, ids: seq<Iface>, how: Arrangement)
    requires AllWillAgree(f, st) && Idle(st, s) && (s in st.sockets ==> Arranged(less, st.sockets[s], ids, how))
    requires Accepts(st, s, ids) ==> KeepsRight(less, st.sockets[s], how)
    ensures AllWillAgree(f, DoSetIfs(less, st, s, ids, how))
  {
    if Accepts(st, s, ids) {
      var x := st.sockets[s];
      var arranged := x.(interfaces := how.current);
      RegroupExactly(f, arranged, how.wanted, CommonOf(less, how), how.order);
      AchievesAlike(f, x, arranged, ReplaceMsgs(less, how), Replaced(less, x, how));
      StartKeepsAgreement(f, st, s, DoSetIfs(less, st, s, ids, how));
    }
  }

  lemma DeliverLists(f: Mapping, st: State, s: Sock, order: seq<string>, w: Sock, i: Iface, group: string)
    requires ModulesAgree(st) && CanDeliver(st, s, order) && i in st.modules
    ensures var t := DoDeliver(f, st, s, order); var m := st.pending[s][0];
            Listed(t.modules[i], group, w) ==
            if w == s && m.iface == i then ListedNext(Listed(st.modules[i], group, s), g => f(i, g), m.request, group)
            else Listed(st.modules[i], group, w)
  {
    var m := st.pending[s][0];
    if m.iface == i {
      WorkLists(st.modules[i], g => f(i, g), m.request, s, order, group, w);
    }
  }

  lemma DeliverKeepsStructure(f: Mapping, st: State, s: Sock, order: seq<string>)
    requires Structure(st) && CanDeliver(st, s, order)
    ensures Structure(DoDeliver(f, st, s, order))
  {
    var t := DoDeliver(f, st, s, order);
    var m := st.pending[s][0];
    WorkKeepsAgreement(st.modules[m.iface], g => f(m.iface, g), m.request, s, order);
    forall i, group, w: Sock | i in t.modules && Listed(t.modules[i], group, w) ensures w < |t.pending| {
      DeliverLists(f, st, s, order, w, i, group);
    }
    forall w | 0 <= w < |t.pending| ensures Reach(t, t.pending[w]) {
      assert Reach(st, st.pending[w]);
    }
  }

  lemma DeliverKeepsAgreement(f: Mapping, st: State, s: Sock, order: seq<string>)
    requires ModulesAgree(st) && AllWillAgree(f, st) && CanDeliver(st, s, order)
    ensures AllWillAgree(f, DoDeliver(f, st, s, order))
  {
    var t := DoDeliver(f, st, s, order);
    forall w | 0 <= w < |t.pending| ensures WillAgree(f, t, w) {
      assert WillAgree(f, st, w);
      assert SocketOf(t, w) == SocketOf(st, w);
      forall i, group | i in t.modules ensures
        ListedAfter(f, Listed(t.modules[i], group, w), t.pending[w], i, group) == Wants(f, SocketOf(t, w), i, group) {
        DeliverLists(f, st, s, order, w, i, group);
      }
    }
  }

  lemma StepKeepsStructure(f: Mapping, less: Comparison, st: State, step: Step)
    requires Structure(st) && Enabled(less, st, step)
    ensures Structure(Apply(f, less, st, step))
  {
    match step
    case AddSocket(first) => AddKeepsStructure(f, less, st, first);
    case JoinOn(s, g) => JoinKeepsStructure(f, less, st, s, g);
    case LeaveOn(s, g) => LeaveKeepsStructure(f, less, st, s, g);
    case SetIfs(s, ids, how) => SetKeepsStructure(less, st, s, ids, how);
    case AddIf(s, id, how) =>
      if s in st.sockets {
        SetKeepsStructure(less, st, s, st.sockets[s].interfaces + [id], how);
      }
    case RemoveIf(s, id, how) =>
      if s in st.sockets {
        SetKeepsStructure(less, st, s, Erase(st.sockets[s].interfaces, id), how);
      }
    case RemoveSocket(s) => RemoveKeepsStructure(f, less, st, s);
    case Deliver(s, order) => DeliverKeepsStructure(f, st, s, order);
  }

  lemma StepKeepsAgreement(f: Mapping, less: Comparison, st: State, step: Step)
    requires Structure(st) && AllWillAgree(f, st) && Enabled(less, st, step) && Plain(f, less, st, step)
    ensures AllWillAgree(f, Apply(f, less, st, step))
  {
    match step
    case AddSocket(first) => AddKeepsAgreement(f, less, st, first);
    case JoinOn(s, g) => JoinKeepsAgreement(f, less, st, s, g);
    case LeaveOn(s, g) => LeaveKeepsAgreement(f, less, st, s, g);
    case SetIfs(s, ids, how) => SetKeepsAgreement(f, less, st, s, ids, how);
    case AddIf(s, id, how) =>
      if s in st.sockets && id !in st.sockets[s].interfaces {
        assert id in st.sockets[s].interfaces + [id];
        SetKeepsAgreement(f, less, st, s, st.sockets[s].interfaces + [id], how);
      }
    case RemoveIf(s, id, how) =>
      if s in st.sockets && id in st.sockets[s].interfaces {
        SetKeepsAgreement(f, less, st, s, Erase(st.sockets[s].interfaces, id), how);
      }
    case RemoveSocket(s) => RemoveKeepsAgreement(f, less, st, s);
    case Deliver(s, order) => DeliverKeepsAgreement(f, st, s, order);
  }

  lemma {:induction false} RunKeepsStructure(f: Mapping, less: Comparison, st: State, steps: seq<Step>, t: State)
    requires Structure(st) && Run(f, less, st, steps, t)
    ensures Structure(t)
    decreases |steps|
  {
    if steps != [] {
      StepKeepsStructure(f, less, st, steps[0]);
      RunKeepsStructure(f, less, Apply(f, less, st, steps[0]), steps[1..], t);
    }
  }

  lemma {:induction false} PlainRunKeepsAgreement(f: Mapping, less: Comparison, st: State, steps: seq<Step>, t: State)
    requires Structure(st) && AllWillAgree(f, st) && PlainRun(f, less, st, steps, t)
    ensures Structure(t) && AllWillAgree(f, t)
    decreases |steps|
  {
    if steps != [] {
      StepKeepsStructure(f, less, st, steps[0]);
      StepKeepsAgreement(f, less, st, steps[0]);
      PlainRunKeepsAgreement(f, less, Apply(f, less, st, steps[0]), steps[1..], t);
    }
  }

  // ---- main results

  /** Membership agreement, for any comparison of interfaces: in every run in which every change of
      interfaces keeps memberships right and no group is left while another joined one is mapped
      alike, whenever no operation of socket s is under way, s is listed under a mapped group on
      interface i exactly when s is live, i is one of its interfaces and it has joined a group
      that maps there. */
  lemma MembershipAgreement(f: Mapping, less: Comparison, ids: set<Iface>, steps: seq<Step>, t: State, s: Sock, i: Iface, group: string)
    requires PlainRun(f, less, Initial(ids), steps, t) && Idle(t, s) && i in t.modules
    ensures Listed(t.modules[i], group, s) <==>
            s in t.sockets && i in t.sockets[s].interfaces && exists g :: g in t.sockets[s].joined && f(i, g) == group
    ensures s in t.sockets ==> t.sockets[s].interfaces != []
  {
    PlainRunKeepsAgreement(f, less, Initial(ids), steps, t);
    if s < |t.pending| {
      assert WillAgree(f, t, s);
      assert Listed(t.modules[i], group, s) == ListedAfter(f, Listed(t.modules[i], group, s), [], i, group);
    }
  }

  /** With a total order a change of interfaces keeps memberships right exactly when nothing is
      joined or no requested interface is repeated more often in the old list. */
  lemma TotalOrderKeeps(less: Comparison, x: Socket, ids: seq<Iface>, how: Arrangement)
    requires StrictTotal(less) && Arranged(less, x, ids, how)
    ensures KeepsRight(less, x, how) <==>
            (x.joined == {} || forall i :: i in ids ==> multiset(x.interfaces)[i] <= multiset(ids)[i])
  {
    IntersectionCounts(less, how.wanted, how.current);
    CountsKeep(x.(interfaces := how.current), how.wanted, CommonOf(less, how));
    SameMembers(how.wanted, ids);
  }

  /** So adding an interface always does, and removing one unless it is repeated. */
  lemma TotalOrderAddsAndRemoves(less: Comparison, x: Socket, id: Iface, how: Arrangement)
    requires StrictTotal(less)
    ensures id !in x.interfaces && Arranged(less, x, x.interfaces + [id], how) ==> KeepsRight(less, x, how)
    ensures id in x.interfaces && Arranged(less, x, Erase(x.interfaces, id), how) ==>
              (KeepsRight(less, x, how) <==> (x.joined == {} || multiset(x.interfaces)[id] == 1))
  {
    if id !in x.interfaces && Arranged(less, x, x.interfaces + [id], how) {
      TotalOrderKeeps(less, x, x.interfaces + [id], how);
    }
    if id in x.interfaces && Arranged(less, x, Erase(x.interfaces, id), how) {
      var list: seq<Iface> := Erase(x.interfaces, id);
      TotalOrderKeeps(less, x, list, how);
      EraseCounts(x.interfaces, id);
      forall i ensures i in list ==> (multiset(x.interfaces)[i] <= multiset(list)[i] <==> i != id) {
        assert i in list <==> multiset(list)[i] > 0;
      }
      assert id in list <==> multiset(list)[id] > 0;
      assert id in multiset(x.interfaces);
    }
  }

  /** With the comparison the pointers really have, a request for distinct interfaces keeps
      memberships right if nothing is joined or it asks for old interfaces only. */
  lemma NoOrderKeeps(f: Mapping, x: Socket, ids: seq<Iface>, how: Arrangement)
    requires Arranged(NoOrder, x, ids, how) && Distinct(x.interfaces) && Distinct(ids)
    requires x.joined == {} || forall i :: i in ids ==> i in x.interfaces
    ensures KeepsRight(NoOrder, x, how)
  {
    ArrangementKeeps(f, x, ids, how.order, how.wanted, how.current);
    RegroupExactly(f, x.(interfaces := how.current), how.wanted, CommonOf(NoOrder, how), how.order);
  }

  /** Module agreement over every run at all: the keys of a module's table are the groups whose
      latest call was join, and every stored list is non-empty and duplicate-free. */
  lemma ModuleAgreement(f: Mapping, less: Comparison, ids: set<Iface>, steps: seq<Step>, t: State, i: Iface)
    requires Run(f, less, Initial(ids), steps, t) && i in t.modules
    ensures Told(t.modules[i].calls) == t.modules[i].joins.Keys
    ensures forall g :: g in t.modules[i].joins ==> t.modules[i].joins[g] != [] && Distinct(t.modules[i].joins[g])
  {
    RunKeepsStructure(f, less, Initial(ids), steps, t);
  }

  function InterfacesOf(st: State, s: Sock): multiset<Iface> { multiset(SocketOf(st, s).interfaces) }

  /** What the interface operations do to every reachable live socket, however the lists are
      arranged: setting installs exactly the requested interfaces unless there are none or an
      unknown one, adding adds a known one that is not there yet, and removing removes one
      occurrence unless nothing would remain. */
  lemma InterfaceOperations(f: Mapping, less: Comparison, ids: set<Iface>, steps: seq<Step>, t: State, s: Sock, step: Step)
    requires Run(f, less, Initial(ids), steps, t) && s in t.sockets && Enabled(less, t, step)
    requires (step.SetIfs? || step.AddIf? || step.RemoveIf?) && step.s == s
    ensures var before := InterfacesOf(t, s);
            InterfacesOf(Apply(f, less, t, step), s) ==
            match step
            case SetIfs(_, list, _) => if list == [] || exists i :: i in list && i !in t.modules then before else multiset(list)
            case AddIf(_, id, _) => if id in t.modules && id !in before then before + multiset{id} else before
            case RemoveIf(_, id, _) => if before == multiset{id} then before else before - multiset{id}
            case _ => before
  {
    RunKeepsStructure(f, less, Initial(ids), steps, t);
    match step
    case SetIfs(_, list, how) =>
      if Accepts(t, s, list) {
        SetIfsDo(less, t, s, list, how);
      }
    case AddIf(_, id, how) => AddIfDoes(f, less, t, s, id, how);
    case RemoveIf(_, id, how) => RemoveIfDoes(f, less, t, s, id, how);
    case _ => assert false;
  }

  lemma AddIfDoes(f: Mapping, less: Comparison, t: State, s: Sock, id: Iface, how: Arrangement)
    requires SocketsFine(t) && s in t.sockets && Enabled(less, t, AddIf(s, id, how))
    ensures InterfacesOf(Apply(f, less, t, AddIf(s, id, how)), s) ==
            if id in t.modules && id !in InterfacesOf(t, s) then InterfacesOf(t, s) + multiset{id} else InterfacesOf(t, s)
  {
    var x := t.sockets[s].interfaces;
    assert id in x <==> id in multiset(x);
    if id !in x {
      assert id in x + [id];
      if Accepts(t, s, x + [id]) {
        SetIfsDo(less, t, s, x + [id], how);
      }
    }
  }

  lemma RemoveIfDoes(f: Mapping, less: Comparison, t: State, s: Sock, id: Iface, how: Arrangement)
    requires SocketsFine(t) && s in t.sockets && Enabled(less, t, RemoveIf(s, id, how))
    ensures InterfacesOf(Apply(f, less, t, RemoveIf(s, id, how)), s) ==
            if InterfacesOf(t, s) == multiset{id} then InterfacesOf(t, s) else InterfacesOf(t, s) - multiset{id}
  {
    var x := t.sockets[s].interfaces;
    var remaining := Erase(x, id);
    EraseCounts(x, id);
    assert id in x <==> id in multiset(x);
    if id in x {
      assert remaining == [] <==> |multiset(remaining)| == 0;
      assert multiset(x) == multiset(remaining) + multiset{id};
      if remaining != [] {
        forall i | i in remaining ensures i in t.modules {
          assert i in multiset(remaining) && i in multiset(x);
          assert i in x;
        }
        SetIfsDo(less, t, s, remaining, how);
      }
    }
  }

  ghost predicate Unrepeated(st: State) {
    forall s :: s in st.sockets ==> Distinct(st.sockets[s].interfaces)
  }

  lemma SetKeepsUnrepeated(less: Comparison, st: State, s: Sock, ids: seq<Iface>, how: Arrangement)
    requires Unrepeated(st) && Distinct(ids) && (s in st.sockets ==> Arranged(less, st.sockets[s], ids, how))
    ensures Unrepeated(DoSetIfs(less, st, s, ids, how))
  {
    if Accepts(st, s, ids) {
      SetIfsDo(less, st, s, ids, how);
      PermutationDistinct(Replaced(less, st.sockets[s], how).interfaces, ids);
    }
  }

  lemma StepKeepsUnrepeated(f: Mapping, less: Comparison, st: State, step: Step)
    requires Unrepeated(st) && Enabled(less, st, step) && (step.SetIfs? ==> Distinct(step.ids))
    ensures Unrepeated(Apply(f, less, st, step))
  {
    match step
    case SetIfs(s, ids, how) => SetKeepsUnrepeated(less, st, s, ids, how);
    case AddIf(s, id, how) =>
      if s in st.sockets && id !in st.sockets[s].interfaces {
        SetKeepsUnrepeated(less, st, s, st.sockets[s].interfaces + [id], how);
      }
    case RemoveIf(s, id, how) =>
      if s in st.sockets {
        EraseFromDistinct(st.sockets[s].interfaces, id);
        SetKeepsUnrepeated(less, st, s, Erase(st.sockets[s].interfaces, id), how);
      }
    case _ =>
  }

  /** If no request repeats an interface, no list ever does, whatever the comparison. */
  lemma {:induction false} ListsStayDistinct(f: Mapping, less: Comparison, st: State, steps: seq<Step>, t: State)
    requires Unrepeated(st) && Run(f, less, st, steps, t)
    requires forall k :: 0 <= k < |steps| && steps[k].SetIfs? ==> Distinct(steps[k].ids)
    ensures Unrepeated(t)
    decreases |steps|
  {
    if steps != [] {
      StepKeepsUnrepeated(f, less, st, steps[0]);
      ListsStayDistinct(f, less, Apply(f, less, st, steps[0]), steps[1..], t);
    }
  }

  lemma OrderExists(elements: set<string>) returns (order: seq<string>)
    ensures Enumerates(order, elements)
    decreases |elements|
  {
    if elements == {} {
      order := [];
    } else {
      var x :| x in elements;
      order := OrderExists(elements - {x});
      EnumeratesOneMore(order, elements - {x}, x);
      assert elements - {x} + {x} == elements;
      order := order + [x];
    }
  }

  /** No operation gets stuck: in every reachable state the next message of every unfinished
      operation can be answered, and answering it leaves one message less. */
  lemma OperationsFinish(f: Mapping, less: Comparison, ids: set<Iface>, steps: seq<Step>, t: State, s: Sock) returns (order: seq<string>)
    requires Run(f, less, Initial(ids), steps, t) && !Idle(t, s)
    ensures Enabled(less, t, Deliver(s, order))
    ensures |Apply(f, less, t, Deliver(s, order)).pending[s]| == |t.pending[s]| - 1
  {
    RunKeepsStructure(f, less, Initial(ids), steps, t);
    assert Reach(t, t.pending[s]);
    order := OrderExists(Emptied(t.modules[t.pending[s][0].iface].joins, s));
  }

  // ---- what the operations of a socket do

  /** The step is an operation of socket s, rather than of another socket or of a worker. */
  predicate IsOperationOf(step: Step, s: Sock) {
    !step.AddSocket? && !step.Deliver? && step.s == s
  }

  predicate SameSocket(st: State, t: State, s: Sock) {
    (s in t.sockets <==> s in st.sockets) && SocketOf(t, s) == SocketOf(st, s)
  }

  lemma OthersKept(f: Mapping, less: Comparison, st: State, step: Step, w: Sock)
    requires Enabled(less, st, step) && !IsOperationOf(step, w) && w < |st.pending|
    ensures SameSocket(st, Apply(f, less, st, step), w) && |st.pending| <= |Apply(f, less, st, step).pending|
  {
  }

  /** What the other operations do in every reachable state: a new socket has joined nothing and
      has one interface, joining adds the group, leaving takes it away, removing removes the
      socket, and a change of interfaces changes no joined group. An operation of an unknown
      socket changes nothing, and no step changes another socket than its own. */
  lemma SocketOperations(f: Mapping, less: Comparison, ids: set<Iface>, steps: seq<Step>, t: State, step: Step)
    requires Run(f, less, Initial(ids), steps, t) && Enabled(less, t, step)
    ensures var u := Apply(f, less, t, step);
            match step
            case AddSocket(first) => |t.pending| !in t.sockets && u.sockets == t.sockets[|t.pending| := Socket({}, [first])]
            case Deliver(_, _) => u.sockets == t.sockets
            case RemoveSocket(s) => s !in u.sockets
            case JoinOn(s, g) =>
              s in t.sockets ==> s in u.sockets && u.sockets[s] == Socket(t.sockets[s].joined + {g}, t.sockets[s].interfaces)
            case LeaveOn(s, g) =>
              s in t.sockets ==> s in u.sockets && u.sockets[s] == Socket(t.sockets[s].joined - {g}, t.sockets[s].interfaces)
            case _ => step.s in t.sockets ==> step.s in u.sockets && u.sockets[step.s].joined == t.sockets[step.s].joined
    ensures !step.AddSocket? && !step.Deliver? && step.s !in t.sockets ==> Apply(f, less, t, step) == t
    ensures forall w: Sock :: w < |t.pending| && !IsOperationOf(step, w) ==> SameSocket(t, Apply(f, less, t, step), w)
  {
    RunKeepsStructure(f, less, Initial(ids), steps, t);
    forall w: Sock | w < |t.pending| && !IsOperationOf(step, w) ensures SameSocket(t, Apply(f, less, t, step), w) {
      OthersKept(f, less, t, step, w);
    }
  }

  lemma {:induction false} SocketKept(f: Mapping, less: Comparison, st: State, steps: seq<Step>, t: State, s: Sock)
    requires PlainRun(f, less, st, steps, t) && s < |st.pending|
    requires forall k :: 0 <= k < |steps| ==> !IsOperationOf(steps[k], s)
    ensures SameSocket(st, t, s) && s < |t.pending|
    decreases |steps|
  {
    if steps != [] {
      OthersKept(f, less, st, steps[0], s);
      SocketKept(f, less, Apply(f, less, st, steps[0]), steps[1..], t, s);
    }
  }

  lemma {:induction false} ModulesKept(f: Mapping, less: Comparison, st: State, steps: seq<Step>, t: State)
    requires PlainRun(f, less, st, steps, t)
    ensures t.modules.Keys == st.modules.Keys
    decreases |steps|
  {
    if steps != [] {
      ModulesKept(f, less, Apply(f, less, st, steps[0]), steps[1..], t);
    }
  }

  /** When an operation of s has been answered in a plain run, whatever the other sockets did in the
      meantime, s is listed exactly where the socket after the operation wants to be. */
  lemma OperationTakesEffect(f: Mapping, less: Comparison, ids: set<Iface>, steps: seq<Step>, t: State,
                             step: Step, s: Sock, more: seq<Step>, u: State)
    requires PlainRun(f, less, Initial(ids), steps, t) && s < |t.pending|
    requires IsOperationOf(step, s) && Enabled(less, t, step) && Plain(f, less, t, step)
    requires PlainRun(f, less, Apply(f, less, t, step), more, u) && Idle(u, s)
    requires forall k :: 0 <= k < |more| ==> !IsOperationOf(more[k], s)
    ensures SameSocket(Apply(f, less, t, step), u, s) && u.modules.Keys == t.modules.Keys
    ensures forall i, group :: i in t.modules ==>
              (Listed(u.modules[i], group, s) <==> Wants(f, SocketOf(Apply(f, less, t, step), s), i, group))
  {
    var mid := Apply(f, less, t, step);
    PlainRunKeepsAgreement(f, less, Initial(ids), steps, t);
    StepKeepsStructure(f, less, t, step);
    StepKeepsAgreement(f, less, t, step);
    PlainRunKeepsAgreement(f, less, mid, more, u);
    SocketKept(f, less, mid, more, u, s);
    ModulesKept(f, less, mid, more, u);
    assert WillAgree(f, u, s);
    forall i, group | i in t.modules ensures Listed(u.modules[i], group, s) <==> Wants(f, SocketOf(mid, s), i, group) {
      assert i in u.modules.Keys;
      assert Listed(u.modules[i], group, s) == ListedAfter(f, Listed(u.modules[i], group, s), [], i, group);
    }
  }

  /** Joining joins: once the messages of a join are answered, the socket is listed under the mapped
      group on each of its interfaces. */
  lemma JoinTakesEffect(f: Mapping, less: Comparison, ids: set<Iface>, steps: seq<Step>, t: State,
                        s: Sock, g: string, more: seq<Step>, u: State)
    requires PlainRun(f, less, Initial(ids), steps, t) && s in t.sockets && Idle(t, s)
    requires PlainRun(f, less, Apply(f, less, t, JoinOn(s, g)), more, u) && Idle(u, s)
    requires forall k :: 0 <= k < |more| ==> !IsOperationOf(more[k], s)
    ensures s in u.sockets && u.sockets[s] == Socket(t.sockets[s].joined + {g}, t.sockets[s].interfaces)
    ensures forall i :: i in t.sockets[s].interfaces ==> i in u.modules && Listed(u.modules[i], f(i, g), s)
  {
    PlainRunKeepsAgreement(f, less, Initial(ids), steps, t);
    OperationTakesEffect(f, less, ids, steps, t, JoinOn(s, g), s, more, u);
    var x := SocketOf(Apply(f, less, t, JoinOn(s, g)), s);
    forall i | i in t.sockets[s].interfaces ensures i in u.modules && Listed(u.modules[i], f(i, g), s) {
      assert i in t.modules && i in u.modules.Keys;
      assert g in x.joined && f(i, g) == f(i, g);
      assert Wants(f, x, i, f(i, g));
    }
  }

  /** Leaving leaves: afterwards the socket is listed under the mapped group nowhere, and removing
      the socket unlists it everywhere. */
  lemma LeaveTakesEffect(f: Mapping, less: Comparison, ids: set<Iface>, steps: seq<Step>, t: State,
                         step: Step, s: Sock, more: seq<Step>, u: State)
    requires PlainRun(f, less, Initial(ids), steps, t) && s in t.sockets && Idle(t, s)
    requires step == RemoveSocket(s) || (step.LeaveOn? && step.s == s && Apart(f, t.sockets[s], step.group))
    requires PlainRun(f, less, Apply(f, less, t, step), more, u) && Idle(u, s)
    requires forall k :: 0 <= k < |more| ==> !IsOperationOf(more[k], s)
    ensures forall i, group :: i in u.modules && (step.LeaveOn? ==> group == f(i, step.group)) ==> !Listed(u.modules[i], group, s)
  {
    PlainRunKeepsAgreement(f, less, Initial(ids), steps, t);
    OperationTakesEffect(f, less, ids, steps, t, step, s, more, u);
    forall i, group | i in u.modules && (step.LeaveOn? ==> group == f(i, step.group)) ensures !Listed(u.modules[i], group, s) {
      assert i in u.modules.Keys;
      assert !Wants(f, SocketOf(Apply(f, less, t, step), s), i, group);
    }
  }

  lemma {:induction false} BroadcastSize(list: seq<Iface>, r: Request)
    ensures |Broadcast(list, r)| == |list|
  {
    if list != [] {
      BroadcastSize(list[1..], r);
    }
  }

  /** Answering the messages of s one after another, with nothing else happening, ends its operation. */
  lemma {:induction false} Deliveries(f: Mapping, less: Comparison, st: State, s: Sock) returns (more: seq<Step>, u: State)
    requires Structure(st) && s < |st.pending|
    ensures PlainRun(f, less, st, more, u) && Idle(u, s) && |more| == |st.pending[s]|
    ensures forall k :: 0 <= k < |more| ==> more[k].Deliver?
    decreases |st.pending[s]|
  {
    if st.pending[s] == [] {
      more, u := [], st;
    } else {
      assert Reach(st, st.pending[s]);
      var order := OrderExists(Emptied(st.modules[st.pending[s][0].iface].joins, s));
      var step := Deliver(s, order);
      StepKeepsStructure(f, less, st, step);
      more, u := Deliveries(f, less, Apply(f, less, st, step), s);
      assert ([step] + more)[1..] == more;
      more := [step] + more;
    }
  }

  /** A join that is left alone takes one answer from each interface of the socket, or none if the
      group was joined already, and then the socket is listed on all of them. */
  lemma JoinCompletes(f: Mapping, less: Comparison, ids: set<Iface>, steps: seq<Step>, t: State, s: Sock, g: string)
    returns (more: seq<Step>, u: State)
    requires PlainRun(f, less, Initial(ids), steps, t) && s in t.sockets && Idle(t, s)
    ensures PlainRun(f, less, Apply(f, less, t, JoinOn(s, g)), more, u) && Idle(u, s)
    ensures |more| == if g in t.sockets[s].joined then 0 else |t.sockets[s].interfaces|
    ensures forall i :: i in t.sockets[s].interfaces ==> i in u.modules && Listed(u.modules[i], f(i, g), s)
  {
    PlainRunKeepsAgreement(f, less, Initial(ids), steps, t);
    StepKeepsStructure(f, less, t, JoinOn(s, g));
    more, u := Deliveries(f, less, Apply(f, less, t, JoinOn(s, g)), s);
    BroadcastSize(t.sockets[s].interfaces, Join(g));
    JoinTakesEffect(f, less, ids, steps, t, s, g, more, u);
  }
}
