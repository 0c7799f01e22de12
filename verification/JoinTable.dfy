/** The per-interface join table of a technology module and what the module was told. */
module JoinTable {
  import opened Basics

  type Sock = nat

  /** A call of the technology module's join or leave function, with the mapped group. */
  datatype Call = JoinCall(group: string) | LeaveCall(group: string)

  /** A message to the module's worker; groups are not mapped yet. */
  datatype Request = Join(group: string) | Leave(group: string) | LeaveAll

  datatype Table = Table(joins: map<string, seq<Sock>>, calls: seq<Call>)

  const EMPTY_TABLE := Table(map[], [])

  // ---- lists

  function Erase<T(==)>(list: seq<T>, x: T): seq<T> {
    if list == [] then [] else if list[0] == x then list[1..] else [list[0]] + Erase(list[1..], x)
  }

  predicate Enumerates<T(==)>(list: seq<T>, elements: set<T>) {
    Distinct(list) && (set x | x in list) == elements
  }

  /** Erasing removes one occurrence and nothing else. */
  lemma {:induction false} EraseCounts<T>(list: seq<T>, x: T)
    ensures multiset(Erase(list, x)) == multiset(list) - multiset{x}
  {
    if list != [] {
      assert list == [list[0]] + list[1..];
      if list[0] != x {
        EraseCounts(list[1..], x);
      }
    }
  }

  lemma {:induction false} DistinctCounts<T>(list: seq<T>, x: T)
    requires Distinct(list)
    ensures multiset(list)[x] == if x in list then 1 else 0
  {
    if list != [] {
      assert list == [list[0]] + list[1..];
      DistinctCounts(list[1..], x);
    }
  }

  lemma {:induction false} CountsDistinct<T>(list: seq<T>)
    requires forall x :: x in list ==> multiset(list)[x] == 1
    ensures Distinct(list)
  {
    if list != [] {
      var rest := list[1..];
      assert list == [list[0]] + rest;
      forall x | x in rest ensures multiset(rest)[x] == 1 {
        assert multiset(list)[x] == multiset([list[0]])[x] + multiset(rest)[x];
      }
      CountsDistinct(rest);
      assert multiset(list)[list[0]] == 1 + multiset(rest)[list[0]];
      assert list[0] !in rest;
    }
  }

  lemma EraseFromDistinct<T>(list: seq<T>, x: T)
    requires Distinct(list)
    ensures Distinct(Erase(list, x))
    ensures forall y :: y in Erase(list, x) <==> y in list && y != x
  {
    EraseCounts(list, x);
    var less := Erase(list, x);
    forall y ensures multiset(less)[y] == if y in list && y != x then 1 else 0 {
      DistinctCounts(list, y);
    }
    forall y ensures y in less <==> y in list && y != x {
      assert y in less <==> multiset(less)[y] > 0;
    }
    CountsDistinct(less);
  }

  // ---- the table

  function AddTo(joins: map<string, seq<Sock>>, group: string, who: Sock): map<string, seq<Sock>> {
    var list := if group in joins then joins[group] else [];
    joins[group := if who in list then list else list + [who]]
  }

  function DelFrom(joins: map<string, seq<Sock>>, group: string, who: Sock): map<string, seq<Sock>> {
    if group !in joins || who !in joins[group] then joins
    else if Erase(joins[group], who) == [] then joins - {group}
    else joins[group := Erase(joins[group], who)]
  }

  /** The groups that lose their last member when who leaves everywhere. */
  function Emptied(joins: map<string, seq<Sock>>, who: Sock): set<string> {
    set g | g in joins && who in joins[g] && Erase(joins[g], who) == []
  }

  function ErasedFrom(joins: map<string, seq<Sock>>, who: Sock): map<string, seq<Sock>> {
    map g | g in joins :: Erase(joins[g], who)
  }

  function DelAllFrom(joins: map<string, seq<Sock>>, who: Sock): map<string, seq<Sock>> {
    ErasedFrom(joins, who) - Emptied(joins, who)
  }

  /** The table when the groups in rest are still to be looked at. */
  ghost function PartlyErased(joins: map<string, seq<Sock>>, rest: set<string>, who: Sock): map<string, seq<Sock>> {
    map g | g in joins :: if g in rest then joins[g] else Erase(joins[g], who)
  }

  lemma PartlyErasedNext(joins: map<string, seq<Sock>>, rest: set<string>, who: Sock, g: string)
    requires g in rest && g in joins
    ensures PartlyErased(joins, rest - {g}, who) == PartlyErased(joins, rest, who)[g := Erase(joins[g], who)]
    ensures who !in joins[g] ==> PartlyErased(joins, rest - {g}, who) == PartlyErased(joins, rest, who)
    ensures Emptied(joins, who) - (rest - {g}) ==
            if g in Emptied(joins, who) then Emptied(joins, who) - rest + {g} else Emptied(joins, who) - rest
  {
    if who !in joins[g] {
      EraseAbsent(joins[g], who);
    }
  }

  lemma EnumeratesOneMore<T>(list: seq<T>, elements: set<T>, x: T)
    requires Enumerates(list, elements) && x !in elements
    ensures Enumerates(list + [x], elements + {x})
  {
    assert forall y :: y in list <==> y in elements;
    assert forall y :: y in list + [x] <==> y in elements + {x};
  }

  function LeaveCalls(groups: seq<string>): seq<Call> {
    seq(|groups|, k requires 0 <= k < |groups| => LeaveCall(groups[k]))
  }

  /** The worker's handling of one message; order is the order in which emptied groups are left. */
  function Work(t: Table, mapping: string -> string, r: Request, who: Sock, order: seq<string>): Table {
    match r
    case Join(group) =>
      var g := mapping(group);
      if g in t.joins && who in t.joins[g] then t
      else Table(AddTo(t.joins, g, who), t.calls + [JoinCall(g)])
    case Leave(group) =>
      var g := mapping(group);
      var joins := DelFrom(t.joins, g, who);
      Table(joins, if g in t.joins && g !in joins then t.calls + [LeaveCall(g)] else t.calls)
    case LeaveAll => Table(DelAllFrom(t.joins, who), t.calls + LeaveCalls(order))
  }

  predicate OrderFits(t: Table, r: Request, who: Sock, order: seq<string>) {
    r.LeaveAll? ==> Enumerates(order, Emptied(t.joins, who))
  }

  // ---- module agreement

  /** The groups whose latest call was join rather than leave. */
  function Told(calls: seq<Call>): set<string> {
    if calls == [] then {}
    else
      var before := Told(calls[..|calls| - 1]);
      match calls[|calls| - 1]
      case JoinCall(g) => before + {g}
      case LeaveCall(g) => before - {g}
  }

  ghost predicate Sound(joins: map<string, seq<Sock>>) {
    forall g :: g in joins ==> joins[g] != [] && Distinct(joins[g])
  }

  ghost predicate Agrees(t: Table) {
    Sound(t.joins) && Told(t.calls) == t.joins.Keys
  }

  predicate Listed(t: Table, group: string, who: Sock) {
    group in t.joins && who in t.joins[group]
  }

  lemma ToldOne(calls: seq<Call>, c: Call)
    ensures Told(calls + [c]) == if c.JoinCall? then Told(calls) + {c.group} else Told(calls) - {c.group}
  {
    assert (calls + [c])[..|calls|] == calls;
  }

  lemma {:induction false} ToldLeaves(calls: seq<Call>, groups: seq<string>)
    ensures Told(calls + LeaveCalls(groups)) == Told(calls) - (set g | g in groups)
  {
    if groups == [] {
      assert calls + LeaveCalls(groups) == calls;
    } else {
      var front, last := groups[..|groups| - 1], groups[|groups| - 1];
      assert groups == front + [last];
      assert calls + LeaveCalls(groups) == calls + LeaveCalls(front) + [LeaveCall(last)];
      ToldLeaves(calls, front);
      ToldOne(calls + LeaveCalls(front), LeaveCall(last));
    }
  }

  /** Module agreement: every worker message keeps the table's keys equal to the groups the
      module last joined, and every stored list non-empty and duplicate-free. */
  lemma WorkKeepsAgreement(t: Table, mapping: string -> string, r: Request, who: Sock, order: seq<string>)
    requires Agrees(t) && OrderFits(t, r, who, order)
    ensures Agrees(Work(t, mapping, r, who, order))
  {
    match r
    case Join(group) => ToldOne(t.calls, JoinCall(mapping(group)));
    case Leave(group) =>
      var g := mapping(group);
      ToldOne(t.calls, LeaveCall(g));
      if g in t.joins {
        EraseFromDistinct(t.joins[g], who);
      }
    case LeaveAll =>
      ToldLeaves(t.calls, order);
      forall g | g in t.joins ensures Distinct(Erase(t.joins[g], who)) && (Erase(t.joins[g], who) == [] ==> who in t.joins[g]) {
        EraseFromDistinct(t.joins[g], who);
        assert t.joins[g][0] in t.joins[g];
      }
  }

  /** Whether a socket is listed after a message: its own message changes exactly the entries
      it names, and no message changes another socket's entries. */
  ghost function ListedNext(now: bool, mapping: string -> string, r: Request, group: string): bool {
    match r
    case Join(g) => now || mapping(g) == group
    case Leave(g) => now && mapping(g) != group
    case LeaveAll => false
  }

  lemma WorkLists(t: Table, mapping: string -> string, r: Request, who: Sock, order: seq<string>, group: string, other: Sock)
    requires Sound(t.joins)
    ensures Listed(Work(t, mapping, r, who, order), group, other) ==
            if other == who then ListedNext(Listed(t, group, who), mapping, r, group) else Listed(t, group, other)
  {
    if group in t.joins {
      EraseFromDistinct(t.joins[group], who);
    }
  }

  ghost predicate OnlyMember(t: Table, group: string, who: Sock) {
    Listed(t, group, who) && forall w: Sock :: Listed(t, group, w) ==> w == who
  }

  lemma LastOneErased(t: Table, group: string, who: Sock)
    requires Sound(t.joins)
    ensures OnlyMember(t, group, who) <==> group in t.joins && who in t.joins[group] && Erase(t.joins[group], who) == []
  {
    if group in t.joins {
      var list, less := t.joins[group], Erase(t.joins[group], who);
      EraseFromDistinct(list, who);
      assert less != [] ==> less[0] in less;
      forall w: Sock ensures Listed(t, group, w) <==> w in list {}
    }
  }

  /** What the module is told: to join a group for every socket that is newly listed under it, and
      to leave it exactly when its only member leaves, once for each such group. */
  lemma WorkCalls(t: Table, mapping: string -> string, r: Request, who: Sock, order: seq<string>)
    requires Sound(t.joins) && OrderFits(t, r, who, order)
    ensures |t.calls| <= |Work(t, mapping, r, who, order).calls|
    ensures var calls := Work(t, mapping, r, who, order).calls;
            var added := calls[|t.calls|..];
            calls[..|t.calls|] == t.calls &&
            match r
            case Join(g) => added == if Listed(t, mapping(g), who) then [] else [JoinCall(mapping(g))]
            case Leave(g) => added == if OnlyMember(t, mapping(g), who) then [LeaveCall(mapping(g))] else []
            case LeaveAll => Distinct(added) && forall c :: c in added <==> c.LeaveCall? && OnlyMember(t, c.group, who)
  {
    match r
    case Join(g) =>
    case Leave(g) => LastOneErased(t, mapping(g), who);
    case LeaveAll =>
      var added := LeaveCalls(order);
      assert (t.calls + added)[|t.calls|..] == added;
      forall c ensures c in added <==> c.LeaveCall? && OnlyMember(t, c.group, who) {
        if c.LeaveCall? {
          LastOneErased(t, c.group, who);
          assert c.group in order <==> c.group in Emptied(t.joins, who);
          CallOf(order, c.group);
        }
      }
  }

  lemma CallOf(order: seq<string>, group: string)
    ensures LeaveCall(group) in LeaveCalls(order) <==> group in order
  {
    if group in order {
      var k :| 0 <= k < |order| && order[k] == group;
      assert LeaveCalls(order)[k] == LeaveCall(group);
    }
  }

  /** The order in which a set is iterated over: every element once. */
  method IterationOrder(elements: set<string>) returns (order: seq<string>)
    ensures Enumerates(order, elements)
  {
    var rest := elements;
    order := [];
    while rest != {}
      invariant rest <= elements && Enumerates(order, elements - rest)
      decreases |rest|
    {
      var x :| x in rest;
      EnumeratesOneMore(order, elements - rest, x);
      assert elements - rest + {x} == elements - (rest - {x});
      rest := rest - {x};
      order := order + [x];
    }
  }

  // ---- the class

  class TechModule {
    var joins: map<string, seq<Sock>>
    var calls: seq<Call>
    const mapping: string -> string

    ghost function View(): Table
      reads this
    {
      Table(joins, calls)
    }

    ghost predicate Valid()
      reads this
    {
      Agrees(View())
    }

    constructor (mapTo: string -> string)
      ensures Valid() && View() == EMPTY_TABLE && mapping == mapTo
    {
      joins, calls, mapping := map[], [], mapTo;
    }

    method Add(whom: Sock, mapped: string) returns (added: bool)
      modifies this`joins
      ensures added == !old(Listed(View(), mapped, whom))
      ensures joins == AddTo(old(joins), mapped, whom)
    {
      if mapped !in joins {
        joins := joins[mapped := []];
      }
      var list := joins[mapped];
      added := whom !in list;
      if added {
        joins := joins[mapped := list + [whom]];
      }
    }

    /** The second result is the number of remaining joins for the group. */
    method Del(whom: Sock, mapped: string) returns (erased: bool, remaining: nat)
      modifies this`joins
      ensures erased == old(Listed(View(), mapped, whom))
      ensures joins == DelFrom(old(joins), mapped, whom)
      ensures remaining == if mapped in joins then |joins[mapped]| else 0
    {
      if mapped !in joins {
        return false, 0;
      }
      var list := joins[mapped];
      if whom !in list {
        return false, |list|;
      }
      list := Erase(list, whom);
      joins := if list == [] then joins - {mapped} else joins[mapped := list];
      return true, |list|;
    }

    method DelAll(whom: Sock) returns (order: seq<string>)
      requires Valid()
      modifies this
      ensures Enumerates(order, Emptied(old(joins), whom))
      ensures joins == DelAllFrom(old(joins), whom) && calls == old(calls) + LeaveCalls(order)
      ensures Valid()
    {
      ghost var before := View();
      var emptyGroups := EraseEverywhere(whom);
      order := LeaveGroups(emptyGroups);
      WorkKeepsAgreement(before, mapping, LeaveAll, whom, order);
    }

    method EraseEverywhere(whom: Sock) returns (emptyGroups: set<string>)
      modifies this`joins
      ensures emptyGroups == Emptied(old(joins), whom) && joins == ErasedFrom(old(joins), whom)
    {
      ghost var was := joins;
      var rest := joins.Keys;
      emptyGroups := {};
      assert joins == PartlyErased(was, rest, whom);
      while rest != {}
        invariant rest <= was.Keys && joins == PartlyErased(was, rest, whom)
        invariant emptyGroups == Emptied(was, whom) - rest
        decreases |rest|
      {
        var g :| g in rest;
        PartlyErasedNext(was, rest, whom, g);
        rest := rest - {g};
        var list := joins[g];
        if whom in list {
          joins := joins[g := Erase(list, whom)];
          if Erase(list, whom) == [] {
            emptyGroups := emptyGroups + {g};
          }
        }
      }
    }

    method LeaveGroups(groups: set<string>) returns (order: seq<string>)
      modifies this
      ensures Enumerates(order, groups)
      ensures joins == old(joins) - groups && calls == old(calls) + LeaveCalls(order)
    {
      order := IterationOrder(groups);
      for k := 0 to |order|
        invariant joins == old(joins) - (set g | g in order[..k])
        invariant calls == old(calls) + LeaveCalls(order[..k])
      {
        joins := joins - {order[k]};
        calls := calls + [LeaveCall(order[k])];
        assert order[..k + 1] == order[..k] + [order[k]];
      }
      assert order[..|order|] == order;
    }

    /** One turn of the worker loop, for a membership message. */
    method Handle(r: Request, who: Sock) returns (answer: bool, order: seq<string>)
      requires Valid()
      modifies this
      ensures OrderFits(old(View()), r, who, order)
      ensures View() == Work(old(View()), mapping, r, who, order) && Valid()
      ensures answer == match r
                        case Join(g) => !old(Listed(View(), mapping(g), who))
                        case Leave(g) => old(Listed(View(), mapping(g), who))
                        case LeaveAll => true
    {
      ghost var before := View();
      order := [];
      match r {
        case Join(group) =>
          answer := Add(who, mapping(group));
          if answer {
            calls := calls + [JoinCall(mapping(group))];
          }
          WorkKeepsAgreement(before, mapping, r, who, []);
        case Leave(group) =>
          var remaining;
          answer, remaining := Del(who, mapping(group));
          if answer && remaining == 0 {
            calls := calls + [LeaveCall(mapping(group))];
          }
          WorkKeepsAgreement(before, mapping, r, who, []);
        case LeaveAll =>
          order := DelAll(who);
          answer := true;
      }
    }
  }

  lemma EraseAbsent<T>(list: seq<T>, x: T)
    requires x !in list
    ensures Erase(list, x) == list
  {
  }
}
