/** A socket's joined groups and interface list, and the worker messages its operations send
    to the interfaces' modules. */
module SocketMembership {
  import opened Basics
  import opened JoinTable

  type Iface = nat

  datatype Socket = Socket(joined: set<string>, interfaces: seq<Iface>)

  datatype Msg = Msg(iface: Iface, request: Request)

  type Mapping = (Iface, string) -> string

  // ---- what a socket wants, and what a list of its messages achieves

  /** The mapped groups a socket wants to be listed under on an interface. */
  ghost predicate Wants(f: Mapping, s: Socket, i: Iface, group: string) {
    i in s.interfaces && exists g :: g in s.joined && f(i, g) == group
  }

  ghost function ListedAfter(f: Mapping, now: bool, msgs: seq<Msg>, i: Iface, group: string): bool
    decreases |msgs|
  {
    if msgs == [] then now
    else
      var m := msgs[0];
      ListedAfter(f, if m.iface == i then ListedNext(now, g => f(i, g), m.request, group) else now, msgs[1..], i, group)
  }

  /** The messages take a socket whose listing is exactly what it wanted before the operation
      to one whose listing is exactly what it wants afterwards. */
  ghost predicate Achieves(f: Mapping, before: Socket, msgs: seq<Msg>, after: Socket) {
    forall i, group :: ListedAfter(f, Wants(f, before, i, group), msgs, i, group) == Wants(f, after, i, group)
  }

  lemma {:induction false} ListedConcat(f: Mapping, now: bool, a: seq<Msg>, b: seq<Msg>, i: Iface, group: string)
    ensures ListedAfter(f, now, a + b, i, group) == ListedAfter(f, ListedAfter(f, now, a, i, group), b, i, group)
    decreases |a|
  {
    if a == [] {
      assert a + b == b;
    } else {
      assert (a + b)[1..] == a[1..] + b;
      var next := if a[0].iface == i then ListedNext(now, g => f(i, g), a[0].request, group) else now;
      ListedConcat(f, next, a[1..], b, i, group);
    }
  }

  /** The same request to every interface of a list, in order. */
  function Broadcast(interfaces: seq<Iface>, r: Request): seq<Msg> {
    if interfaces == [] then [] else [Msg(interfaces[0], r)] + Broadcast(interfaces[1..], r)
  }

  function BroadcastJoins(interfaces: seq<Iface>, groups: seq<string>): seq<Msg> {
    if groups == [] then [] else Broadcast(interfaces, Join(groups[0])) + BroadcastJoins(interfaces, groups[1..])
  }

  lemma {:induction false} BroadcastLists(f: Mapping, now: bool, interfaces: seq<Iface>, r: Request, i: Iface, group: string)
    ensures ListedAfter(f, now, Broadcast(interfaces, r), i, group) ==
            if i in interfaces then ListedNext(now, g => f(i, g), r, group) else now
    decreases |interfaces|
  {
    if interfaces != [] {
      var next := if interfaces[0] == i then ListedNext(now, g => f(i, g), r, group) else now;
      BroadcastLists(f, next, interfaces[1..], r, i, group);
    }
  }

  lemma {:induction false} JoinsList(f: Mapping, now: bool, interfaces: seq<Iface>, groups: seq<string>, i: Iface, group: string)
    ensures ListedAfter(f, now, BroadcastJoins(interfaces, groups), i, group) ==
            (now || (i in interfaces && exists g :: g in groups && f(i, g) == group))
    decreases |groups|
  {
    if groups != [] {
      var first := Broadcast(interfaces, Join(groups[0]));
      var next := now || (i in interfaces && f(i, groups[0]) == group);
      BroadcastLists(f, now, interfaces, Join(groups[0]), i, group);
      ListedConcat(f, now, first, BroadcastJoins(interfaces, groups[1..]), i, group);
      JoinsList(f, next, interfaces, groups[1..], i, group);
      assert groups == [groups[0]] + groups[1..];
    }
  }

  lemma JoinAchieves(f: Mapping, s: Socket, g: string)
    ensures Achieves(f, s, Broadcast(s.interfaces, Join(g)), s.(joined := s.joined + {g}))
  {
    var after := s.(joined := s.joined + {g});
    forall i, group ensures ListedAfter(f, Wants(f, s, i, group), Broadcast(s.interfaces, Join(g)), i, group) == Wants(f, after, i, group) {
      BroadcastLists(f, Wants(f, s, i, group), s.interfaces, Join(g), i, group);
      assert g in after.joined;
      assert forall h :: h in after.joined <==> h in s.joined || h == g;
    }
  }

  /** No other joined group is mapped like g on any interface of the socket. */
  ghost predicate Apart(f: Mapping, s: Socket, g: string) {
    forall i, h :: i in s.interfaces && h in s.joined && h != g ==> f(i, h) != f(i, g)
  }

  lemma LeaveLists(f: Mapping, s: Socket, g: string, i: Iface, group: string)
    ensures ListedAfter(f, Wants(f, s, i, group), Broadcast(s.interfaces, Leave(g)), i, group) ==
            (Wants(f, s, i, group) && f(i, g) != group)
  {
    BroadcastLists(f, Wants(f, s, i, group), s.interfaces, Leave(g), i, group);
  }

  /** The messages of a leave keep the listing right if and only if no other joined group is mapped
      alike on any interface: otherwise the other group is unlisted with it. */
  lemma LeaveExactly(f: Mapping, s: Socket, g: string)
    requires g in s.joined
    ensures Achieves(f, s, Broadcast(s.interfaces, Leave(g)), s.(joined := s.joined - {g})) <==> Apart(f, s, g)
  {
    var after := s.(joined := s.joined - {g});
    var msgs := Broadcast(s.interfaces, Leave(g));
    assert forall h :: h in after.joined <==> h in s.joined && h != g;
    forall i, group ensures ListedAfter(f, Wants(f, s, i, group), msgs, i, group) == (Wants(f, s, i, group) && f(i, g) != group) {
      LeaveLists(f, s, g, i, group);
    }
    if Achieves(f, s, msgs, after) {
      forall i, h | i in s.interfaces && h in s.joined && h != g ensures f(i, h) != f(i, g) {
        assert Wants(f, after, i, f(i, h));
        assert ListedAfter(f, Wants(f, s, i, f(i, h)), msgs, i, f(i, h)) == Wants(f, after, i, f(i, h));
      }
    }
  }

  lemma LeaveAllAchieves(f: Mapping, s: Socket, after: Socket)
    requires after.joined == {}
    ensures Achieves(f, s, Broadcast(s.interfaces, LeaveAll), after)
  {
    forall i, group ensures ListedAfter(f, Wants(f, s, i, group), Broadcast(s.interfaces, LeaveAll), i, group) == Wants(f, after, i, group) {
      BroadcastLists(f, Wants(f, s, i, group), s.interfaces, LeaveAll, i, group);
    }
  }

  // ---- replacing the interface list

  /** The library's set intersection of two sorted ranges, for any comparison. */
  function SetIntersection(less: (Iface, Iface) -> bool, a: seq<Iface>, b: seq<Iface>): seq<Iface>
    decreases |a| + |b|
  {
    if a == [] || b == [] then []
    else if less(a[0], b[0]) then SetIntersection(less, a[1..], b)
    else if less(b[0], a[0]) then SetIntersection(less, a, b[1..])
    else [a[0]] + SetIntersection(less, a[1..], b[1..])
  }

  function EraseAll(list: seq<Iface>, gone: seq<Iface>): seq<Iface>
    decreases |gone|
  {
    if gone == [] then list else EraseAll(Erase(list, gone[0]), gone[1..])
  }

  lemma {:induction false} EraseAllCounts(list: seq<Iface>, gone: seq<Iface>, i: Iface)
    ensures multiset(EraseAll(list, gone))[i] ==
            if multiset(list)[i] > multiset(gone)[i] then multiset(list)[i] - multiset(gone)[i] else 0
    decreases |gone|
  {
    if gone != [] {
      var less := Erase(list, gone[0]);
      EraseCounts(list, gone[0]);
      EraseAllCounts(less, gone[1..], i);
      CountsConcat([gone[0]], gone[1..], i);
      assert gone == [gone[0]] + gone[1..];
    }
  }

  lemma CountsConcat(a: seq<Iface>, b: seq<Iface>, i: Iface)
    ensures multiset(a + b)[i] == multiset(a)[i] + multiset(b)[i]
  {
  }

  /** The messages of set_interfaces once the intersection is known. */
  function RegroupMsgs(current: seq<Iface>, wanted: seq<Iface>, common: seq<Iface>, order: seq<string>): seq<Msg> {
    Broadcast(EraseAll(current, common), LeaveAll) + BroadcastJoins(EraseAll(wanted, common), order)
  }

  function Regrouped(wanted: seq<Iface>, common: seq<Iface>): seq<Iface> {
    common + EraseAll(wanted, common)
  }

  /** Where a socket stays or becomes a member of its groups. */
  ghost predicate Member(current: seq<Iface>, wanted: seq<Iface>, common: seq<Iface>, i: Iface) {
    || (0 < multiset(current)[i] <= multiset(common)[i])
    || multiset(wanted)[i] > multiset(common)[i]
  }

  lemma EraseAllMember(list: seq<Iface>, gone: seq<Iface>, i: Iface)
    ensures i in EraseAll(list, gone) <==> multiset(list)[i] > multiset(gone)[i]
  {
    EraseAllCounts(list, gone, i);
    assert i in EraseAll(list, gone) <==> multiset(EraseAll(list, gone))[i] > 0;
  }

  lemma RegroupLists(f: Mapping, s: Socket, wanted: seq<Iface>, common: seq<Iface>, order: seq<string>, i: Iface, group: string)
    requires Enumerates(order, s.joined)
    ensures ListedAfter(f, Wants(f, s, i, group), RegroupMsgs(s.interfaces, wanted, common, order), i, group) ==
            (Member(s.interfaces, wanted, common, i) && exists g :: g in s.joined && f(i, g) == group)
  {
    var now := Wants(f, s, i, group);
    var gone, joining := EraseAll(s.interfaces, common), EraseAll(wanted, common);
    ListedConcat(f, now, Broadcast(gone, LeaveAll), BroadcastJoins(joining, order), i, group);
    BroadcastLists(f, now, gone, LeaveAll, i, group);
    JoinsList(f, now && i !in gone, joining, order, i, group);
    EraseAllMember(s.interfaces, common, i);
    EraseAllMember(wanted, common, i);
    assert i in s.interfaces <==> multiset(s.interfaces)[i] > 0;
    assert forall g :: g in order <==> g in s.joined;
  }

  /** For any intersection, set_interfaces keeps the agreement exactly when no group is joined
      or the members are the new interfaces. */
  lemma RegroupExactly(f: Mapping, s: Socket, wanted: seq<Iface>, common: seq<Iface>, order: seq<string>)
    requires Enumerates(order, s.joined)
    ensures Achieves(f, s, RegroupMsgs(s.interfaces, wanted, common, order), s.(interfaces := Regrouped(wanted, common))) <==>
            Keeps(s, wanted, common)
  {
    var msgs := RegroupMsgs(s.interfaces, wanted, common, order);
    var list := Regrouped(wanted, common);
    forall i, group ensures ListedAfter(f, Wants(f, s, i, group), msgs, i, group) ==
                            (Member(s.interfaces, wanted, common, i) && exists g :: g in s.joined && f(i, g) == group) {
      RegroupLists(f, s, wanted, common, order, i, group);
    }
    var after := s.(interfaces := list);
    if Achieves(f, s, msgs, after) && s.joined != {} {
      var g :| g in s.joined;
      forall i ensures i in list <==> Member(s.interfaces, wanted, common, i) {
        assert ListedAfter(f, Wants(f, s, i, f(i, g)), msgs, i, f(i, g)) == Wants(f, after, i, f(i, g));
      }
    }
  }

  /** Whether the interfaces kept or joined are the new list, or nothing is joined at all. */
  ghost predicate Keeps(s: Socket, wanted: seq<Iface>, common: seq<Iface>) {
    s.joined == {} || forall i :: i in Regrouped(wanted, common) <==> Member(s.interfaces, wanted, common, i)
  }

  /** Whatever the comparison, the intersection is taken from the first range. */
  lemma {:induction false} IntersectionTaken(less: (Iface, Iface) -> bool, a: seq<Iface>, b: seq<Iface>, i: Iface)
    ensures multiset(SetIntersection(less, a, b))[i] <= multiset(a)[i]
    decreases |a| + |b|
  {
    if a != [] && b != [] {
      CountsConcat([a[0]], a[1..], i);
      assert a == [a[0]] + a[1..];
      if less(a[0], b[0]) {
        IntersectionTaken(less, a[1..], b, i);
      } else if less(b[0], a[0]) {
        IntersectionTaken(less, a, b[1..], i);
      } else {
        IntersectionTaken(less, a[1..], b[1..], i);
        CountsConcat([a[0]], SetIntersection(less, a[1..], b[1..]), i);
      }
    }
  }

  /** So the new list is always the request in another order. */
  lemma RegroupedIsWanted(less: (Iface, Iface) -> bool, wanted: seq<Iface>, current: seq<Iface>)
    ensures multiset(Regrouped(wanted, SetIntersection(less, wanted, current))) == multiset(wanted)
  {
    var common := SetIntersection(less, wanted, current);
    forall i ensures multiset(Regrouped(wanted, common))[i] == multiset(wanted)[i] {
      IntersectionTaken(less, wanted, current, i);
      EraseAllCounts(wanted, common, i);
      CountsConcat(common, EraseAll(wanted, common), i);
    }
  }

  // ---- with a total order on the interfaces

  ghost predicate StrictTotal(less: (Iface, Iface) -> bool) {
    && (forall a, b :: less(a, b) ==> !less(b, a))
    && (forall a, b, c :: less(a, b) && less(b, c) ==> less(a, c))
    && (forall a, b :: less(a, b) || less(b, a) || a == b)
  }

  ghost predicate Sorted(less: (Iface, Iface) -> bool, list: seq<Iface>) {
    forall i, j :: 0 <= i < j < |list| ==> !less(list[j], list[i])
  }

  lemma SmallerIsAbsent(less: (Iface, Iface) -> bool, x: Iface, list: seq<Iface>)
    requires StrictTotal(less) && Sorted(less, list) && list != [] && less(x, list[0])
    ensures x !in list
  {
    forall k | 0 <= k < |list| ensures list[k] != x {
      assert k == 0 || !less(list[k], list[0]);
    }
  }

  lemma DropsHead(x: Iface, a: seq<Iface>, b: seq<Iface>)
    requires x !in b
    ensures multiset([x] + a) * multiset(b) == multiset(a) * multiset(b)
  {
    assert multiset(b)[x] == 0;
  }

  /** On sorted ranges the intersection takes every interface as often as both ranges do. */
  lemma {:induction false} IntersectionCounts(less: (Iface, Iface) -> bool, a: seq<Iface>, b: seq<Iface>)
    requires StrictTotal(less) && Sorted(less, a) && Sorted(less, b)
    ensures multiset(SetIntersection(less, a, b)) == multiset(a) * multiset(b)
    decreases |a| + |b|
  {
    if a != [] && b != [] {
      var x, y := a[0], b[0];
      assert a == [x] + a[1..] && b == [y] + b[1..];
      if less(x, y) {
        SmallerIsAbsent(less, x, b);
        DropsHead(x, a[1..], b);
        IntersectionCounts(less, a[1..], b);
      } else if less(y, x) {
        SmallerIsAbsent(less, y, a);
        DropsHead(y, b[1..], a);
        IntersectionCounts(less, a, b[1..]);
        assert multiset(a) * multiset(b) == multiset(b) * multiset(a);
        assert multiset(a) * multiset(b[1..]) == multiset(b[1..]) * multiset(a);
      } else {
        IntersectionCounts(less, a[1..], b[1..]);
      }
    }
  }

  /** With a total order, and for lists that may repeat interfaces, set_interfaces keeps the
      agreement if and only if no group is joined or no requested interface is repeated more
      often in the old list than in the request. */
  lemma SetInterfacesExactly(f: Mapping, less: (Iface, Iface) -> bool, s: Socket, wanted: seq<Iface>, order: seq<string>)
    requires StrictTotal(less) && Sorted(less, s.interfaces) && Sorted(less, wanted) && Enumerates(order, s.joined)
    ensures var common := SetIntersection(less, wanted, s.interfaces);
            && multiset(Regrouped(wanted, common)) == multiset(wanted)
            && (Achieves(f, s, RegroupMsgs(s.interfaces, wanted, common, order), s.(interfaces := Regrouped(wanted, common))) <==>
                (s.joined == {} || forall i :: i in wanted ==> multiset(s.interfaces)[i] <= multiset(wanted)[i]))
  {
    var common := SetIntersection(less, wanted, s.interfaces);
    IntersectionCounts(less, wanted, s.interfaces);
    CountsKeep(s, wanted, common);
    RegroupedIsWanted(less, wanted, s.interfaces);
    RegroupExactly(f, s, wanted, common, order);
  }

  lemma CountsKeep(s: Socket, wanted: seq<Iface>, common: seq<Iface>)
    requires multiset(common) == multiset(wanted) * multiset(s.interfaces)
    ensures Keeps(s, wanted, common) <==> (s.joined == {} || forall i :: i in wanted ==> multiset(s.interfaces)[i] <= multiset(wanted)[i])
  {
    var list := Regrouped(wanted, common);
    forall i ensures (i in list <==> Member(s.interfaces, wanted, common, i)) <==>
                     (i in wanted ==> multiset(s.interfaces)[i] <= multiset(wanted)[i]) {
      SmallerCountMember(s.interfaces, wanted, common, i);
    }
  }

  lemma SmallerCountMember(current: seq<Iface>, wanted: seq<Iface>, common: seq<Iface>, i: Iface)
    requires multiset(common) == multiset(wanted) * multiset(current)
    ensures multiset(Regrouped(wanted, common))[i] == multiset(wanted)[i]
    ensures (i in Regrouped(wanted, common) <==> Member(current, wanted, common, i)) <==>
            (i in wanted ==> multiset(current)[i] <= multiset(wanted)[i])
  {
    var list: seq<Iface> := Regrouped(wanted, common);
    EraseAllCounts(wanted, common, i);
    CountsConcat(common, EraseAll(wanted, common), i);
    assert i in list <==> multiset(list)[i] > 0;
    assert i in wanted <==> multiset(wanted)[i] > 0;
  }

  // ---- with the comparison the pointers really have

  function NoOrder(x: Iface, y: Iface): bool { false }

  /** The pointers convert to bool and have no order of their own, so no pointer is less than
      another and the intersection is a prefix of the request. */
  lemma {:induction false} NoOrderTakesPrefix(a: seq<Iface>, b: seq<Iface>)
    ensures SetIntersection(NoOrder, a, b) == a[..if |a| < |b| then |a| else |b|]
    decreases |a| + |b|
  {
    if a != [] && b != [] {
      NoOrderTakesPrefix(a[1..], b[1..]);
    }
  }

  lemma {:induction false} ErasePrefix(list: seq<Iface>, k: nat)
    requires k <= |list|
    ensures EraseAll(list, list[..k]) == list[k..]
    decreases k
  {
    if k > 0 {
      assert list[..k][1..] == list[1..][..k - 1];
      ErasePrefix(list[1..], k - 1);
    }
  }

  /** With that comparison, and for lists without repetition, set_interfaces keeps the agreement
      if and only if no group is joined or the front of the request, as long as the old list,
      holds only old interfaces. */
  lemma NoOrderExactly(f: Mapping, s: Socket, wanted: seq<Iface>, order: seq<string>)
    requires Distinct(s.interfaces) && Distinct(wanted) && Enumerates(order, s.joined)
    ensures var common := SetIntersection(NoOrder, wanted, s.interfaces);
            && Regrouped(wanted, common) == wanted
            && (Achieves(f, s, RegroupMsgs(s.interfaces, wanted, common, order), s.(interfaces := wanted)) <==>
                (s.joined == {} || forall k :: 0 <= k < |wanted| && k < |s.interfaces| ==> wanted[k] in s.interfaces))
  {
    var k := if |wanted| < |s.interfaces| then |wanted| else |s.interfaces|;
    NoOrderTakesPrefix(wanted, s.interfaces);
    PrefixExactly(f, s, wanted, k, order);
    assert (forall j :: 0 <= j < k ==> wanted[j] in s.interfaces) <==>
           (forall j :: 0 <= j < |wanted| && j < |s.interfaces| ==> wanted[j] in s.interfaces);
  }

  lemma PrefixExactly(f: Mapping, s: Socket, wanted: seq<Iface>, k: nat, order: seq<string>)
    requires Distinct(s.interfaces) && Distinct(wanted) && Enumerates(order, s.joined) && k <= |wanted|
    ensures Regrouped(wanted, wanted[..k]) == wanted
    ensures Achieves(f, s, RegroupMsgs(s.interfaces, wanted, wanted[..k], order), s.(interfaces := wanted)) <==>
            (s.joined == {} || forall j :: 0 <= j < k ==> wanted[j] in s.interfaces)
  {
    var common := wanted[..k];
    ErasePrefix(wanted, k);
    assert common + wanted[k..] == wanted;
    RegroupExactly(f, s, wanted, common, order);
    forall i ensures (i in wanted <==> Member(s.interfaces, wanted, common, i)) <==> (i in common ==> i in s.interfaces) {
      PrefixMember(s.interfaces, wanted, k, i);
    }
    if forall i :: i in common ==> i in s.interfaces {
      forall j | 0 <= j < k ensures wanted[j] in s.interfaces {
        assert common[j] == wanted[j] && common[j] in common;
      }
    }
  }

  lemma PrefixMember(current: seq<Iface>, wanted: seq<Iface>, k: nat, i: Iface)
    requires Distinct(current) && Distinct(wanted) && k <= |wanted|
    ensures (i in wanted <==> Member(current, wanted, wanted[..k], i)) <==> (i in wanted[..k] ==> i in current)
  {
    DistinctCounts(wanted, i);
    DistinctCounts(current, i);
    DistinctCounts(wanted[..k], i);
  }

  /** Whether set_interfaces keeps the agreement when sorting has arranged the request as w. */
  ghost predicate KeepsUnordered(f: Mapping, s: Socket, w: seq<Iface>, order: seq<string>) {
    var common := SetIntersection(NoOrder, w, s.interfaces);
    Achieves(f, s, RegroupMsgs(s.interfaces, w, common, order), s.(interfaces := Regrouped(w, common)))
  }

  lemma PermutationDistinct(list: seq<Iface>, ids: seq<Iface>)
    requires multiset(list) == multiset(ids) && Distinct(ids)
    ensures Distinct(list)
  {
    SameMembers(list, ids);
    forall i | i in list ensures multiset(list)[i] == 1 {
      DistinctCounts(ids, i);
    }
    CountsDistinct(list);
  }

  lemma ArrangementKeeps(f: Mapping, s: Socket, wanted: seq<Iface>, order: seq<string>, w: seq<Iface>, c: seq<Iface>)
    requires Distinct(s.interfaces) && Distinct(wanted) && Enumerates(order, s.joined)
    requires multiset(w) == multiset(wanted) && multiset(c) == multiset(s.interfaces)
    requires s.joined == {} || s.interfaces == [] || forall i :: i in wanted ==> i in s.interfaces
    ensures KeepsUnordered(f, s.(interfaces := c), w, order)
  {
    PermutationDistinct(w, wanted);
    PermutationDistinct(c, s.interfaces);
    SameMembers(w, wanted);
    SameMembers(c, s.interfaces);
    assert s.interfaces == [] ==> |multiset(c)| == 0;
    NoOrderExactly(f, s.(interfaces := c), w, order);
  }

  /** An arrangement of the request that starts with i. */
  lemma BroughtToFront(wanted: seq<Iface>, i: Iface) returns (w: seq<Iface>)
    requires i in wanted
    ensures multiset(w) == multiset(wanted) && w != [] && w[0] == i
  {
    w := [i] + Erase(wanted, i);
    EraseCounts(wanted, i);
    assert i in multiset(wanted);
    assert multiset([i]) == multiset{i};
  }

  /** As nothing fixes how sorting without an order arranges the lists: a request keeps the
      agreement however they are arranged if and only if nothing is joined, there were no
      interfaces, or every requested interface is an old one. */
  lemma NoOrderAlways(f: Mapping, s: Socket, wanted: seq<Iface>, order: seq<string>)
    requires Distinct(s.interfaces) && Distinct(wanted) && Enumerates(order, s.joined)
    ensures (forall w: seq<Iface>, c: seq<Iface> :: multiset(w) == multiset(wanted) && multiset(c) == multiset(s.interfaces) ==>
               KeepsUnordered(f, s.(interfaces := c), w, order)) <==>
            (s.joined == {} || s.interfaces == [] || forall i :: i in wanted ==> i in s.interfaces)
  {
    if s.joined == {} || s.interfaces == [] || forall i :: i in wanted ==> i in s.interfaces {
      forall w: seq<Iface>, c: seq<Iface> | multiset(w) == multiset(wanted) && multiset(c) == multiset(s.interfaces)
        ensures KeepsUnordered(f, s.(interfaces := c), w, order) {
        ArrangementKeeps(f, s, wanted, order, w, c);
      }
    } else {
      var i :| i in wanted && i !in s.interfaces;
      var w := BroughtToFront(wanted, i);
      PermutationDistinct(w, wanted);
      NoOrderExactly(f, s, w, order);
      assert !KeepsUnordered(f, s.(interfaces := s.interfaces), w, order);
    }
  }

  /** Two consequences: replacing interface 1 by interface 2 leaves the socket unlisted on 2 with
      the pointers' comparison; a repeated interface that the request names once is left with
      any total order. */
  lemma SetInterfacesFails(f: Mapping, less: (Iface, Iface) -> bool, g: string)
    requires StrictTotal(less)
    ensures var s := Socket({g}, [1]);
            !Achieves(f, s, RegroupMsgs([1], [2], SetIntersection(NoOrder, [2], [1]), [g]), s.(interfaces := [2]))
    ensures var s := Socket({g}, [1, 1]);
            var common := SetIntersection(less, [1], [1, 1]);
            !Achieves(f, s, RegroupMsgs([1, 1], [1], common, [g]), s.(interfaces := Regrouped([1], common)))
  {
    NoOrderExactly(f, Socket({g}, [1]), [2], [g]);
    assert [2][0] !in [1];
    SetInterfacesExactly(f, less, Socket({g}, [1, 1]), [1], [g]);
    assert multiset([1, 1])[1] == 2 && multiset([1])[1] == 1 && 1 in [1];
  }

  // ---- the operations of a socket

  predicate IdLess(x: Iface, y: Iface) { x < y }

  function Insert(x: Iface, list: seq<Iface>): seq<Iface> {
    if list == [] || x <= list[0] then [x] + list else [list[0]] + Insert(x, list[1..])
  }

  function Sort(list: seq<Iface>): seq<Iface> {
    if list == [] then [] else Insert(list[0], Sort(list[1..]))
  }

  lemma {:induction false} InsertCounts(x: Iface, list: seq<Iface>)
    ensures multiset(Insert(x, list)) == multiset(list) + multiset{x}
  {
    if list != [] && x > list[0] {
      InsertCounts(x, list[1..]);
      assert list == [list[0]] + list[1..];
    }
  }

  lemma {:induction false} InsertSorts(x: Iface, list: seq<Iface>)
    requires Sorted(IdLess, list)
    ensures Sorted(IdLess, Insert(x, list))
  {
    if list != [] && x > list[0] {
      var rest := list[1..];
      InsertSorts(x, rest);
      InsertCounts(x, rest);
      forall k | 0 <= k < |Insert(x, rest)| ensures list[0] <= Insert(x, rest)[k] {
        assert Insert(x, rest)[k] in multiset(Insert(x, rest));
        assert Insert(x, rest)[k] == x || Insert(x, rest)[k] in rest;
      }
    }
  }

  lemma {:induction false} SortSorts(list: seq<Iface>)
    ensures Sorted(IdLess, Sort(list)) && multiset(Sort(list)) == multiset(list)
  {
    if list != [] {
      SortSorts(list[1..]);
      InsertSorts(list[0], Sort(list[1..]));
      InsertCounts(list[0], Sort(list[1..]));
      assert list == [list[0]] + list[1..];
    }
  }

  function Common(s: Socket, wanted: seq<Iface>): seq<Iface> {
    SetIntersection(IdLess, Sort(wanted), Sort(s.interfaces))
  }

  function SetInterfaces(s: Socket, wanted: seq<Iface>): Socket {
    s.(interfaces := Regrouped(Sort(wanted), Common(s, wanted)))
  }

  function SetInterfacesMsgs(s: Socket, wanted: seq<Iface>, order: seq<string>): seq<Msg> {
    RegroupMsgs(Sort(s.interfaces), Sort(wanted), Common(s, wanted), order)
  }

  function JoinMsgs(s: Socket, g: string): seq<Msg> {
    if g in s.joined then [] else Broadcast(s.interfaces, Join(g))
  }

  function LeaveMsgs(s: Socket, g: string): seq<Msg> {
    if g in s.joined then Broadcast(s.interfaces, Leave(g)) else []
  }

  lemma SameInterfaces(f: Mapping, a: Socket, b: Socket, i: Iface, group: string)
    requires a.joined == b.joined && multiset(a.interfaces) == multiset(b.interfaces)
    ensures Wants(f, a, i, group) == Wants(f, b, i, group)
  {
    assert i in a.interfaces <==> i in multiset(a.interfaces);
    assert i in b.interfaces <==> i in multiset(b.interfaces);
  }

  lemma AchievesAlike(f: Mapping, a: Socket, b: Socket, msgs: seq<Msg>, after: Socket)
    requires a.joined == b.joined && multiset(a.interfaces) == multiset(b.interfaces)
    ensures Achieves(f, a, msgs, after) <==> Achieves(f, b, msgs, after)
  {
    forall i, group ensures Wants(f, a, i, group) == Wants(f, b, i, group) {
      SameInterfaces(f, a, b, i, group);
    }
  }

  lemma SameMembers(a: seq<Iface>, b: seq<Iface>)
    requires multiset(a) == multiset(b)
    ensures forall i :: i in a <==> i in b
  {
    forall i ensures i in a <==> i in b {
      assert i in a <==> i in multiset(a);
      assert i in b <==> i in multiset(b);
    }
  }

  /** set_interfaces installs exactly the requested interfaces, and keeps the agreement if and
      only if no group is joined or no requested interface was listed more often before. */
  lemma SetInterfacesKeeps(f: Mapping, s: Socket, wanted: seq<Iface>, order: seq<string>)
    requires Enumerates(order, s.joined)
    ensures multiset(SetInterfaces(s, wanted).interfaces) == multiset(wanted)
    ensures Achieves(f, s, SetInterfacesMsgs(s, wanted, order), SetInterfaces(s, wanted)) <==>
            (s.joined == {} || forall i :: i in wanted ==> multiset(s.interfaces)[i] <= multiset(wanted)[i])
  {
    var sorted := s.(interfaces := Sort(s.interfaces));
    SortSorts(s.interfaces);
    SortSorts(wanted);
    SetInterfacesExactly(f, IdLess, sorted, Sort(wanted), order);
    AchievesAlike(f, s, sorted, SetInterfacesMsgs(s, wanted, order), SetInterfaces(s, wanted));
    SameMembers(Sort(wanted), wanted);
  }

  lemma {:induction false} BroadcastLast(interfaces: seq<Iface>, i: Iface, r: Request)
    ensures Broadcast(interfaces + [i], r) == Broadcast(interfaces, r) + [Msg(i, r)]
  {
    if interfaces != [] {
      BroadcastLast(interfaces[1..], i, r);
      assert (interfaces + [i])[1..] == interfaces[1..] + [i];
    }
  }

  lemma {:induction false} BroadcastJoinsLast(interfaces: seq<Iface>, groups: seq<string>, g: string)
    ensures BroadcastJoins(interfaces, groups + [g]) == BroadcastJoins(interfaces, groups) + Broadcast(interfaces, Join(g))
  {
    if groups != [] {
      BroadcastJoinsLast(interfaces, groups[1..], g);
      assert (groups + [g])[1..] == groups[1..] + [g];
    }
  }

  /** sent is the sequence of worker messages pushed so far; every push waits for its answer. */
  class MemberSocket {
    var joined: set<string>
    var interfaces: seq<Iface>
    var sent: seq<Msg>

    ghost function View(): Socket
      reads this
    {
      Socket(joined, interfaces)
    }

    constructor (first: Iface)
      ensures View() == Socket({}, [first]) && sent == []
    {
      joined, interfaces, sent := {}, [first], [];
    }

    method Push(list: seq<Iface>, r: Request)
      modifies this`sent
      ensures sent == old(sent) + Broadcast(list, r)
    {
      for k := 0 to |list|
        invariant sent == old(sent) + Broadcast(list[..k], r)
      {
        sent := sent + [Msg(list[k], r)];
        BroadcastLast(list[..k], list[k], r);
        assert list[..k + 1] == list[..k] + [list[k]];
      }
      assert list[..|list|] == list;
    }

    method JoinGroup(what: string) returns (ok: bool)
      modifies this`joined, this`sent
      ensures ok == (interfaces != [])
      ensures ok ==> joined == old(joined) + {what} && sent == old(sent) + JoinMsgs(old(View()), what)
      ensures !ok ==> joined == old(joined) && sent == old(sent)
    {
      if interfaces == [] {
        return false;
      }
      if what !in joined {
        joined := joined + {what};
        Push(interfaces, Join(what));
      }
      return true;
    }

    method LeaveGroup(what: string) returns (ok: bool)
      modifies this`joined, this`sent
      ensures ok == (interfaces != [])
      ensures ok ==> joined == old(joined) - {what} && sent == old(sent) + LeaveMsgs(old(View()), what)
      ensures !ok ==> joined == old(joined) && sent == old(sent)
    {
      if interfaces == [] {
        return false;
      }
      if what in joined {
        joined := joined - {what};
        Push(interfaces, Leave(what));
      }
      return true;
    }

    method LeaveEverything(clearJoinedGroups: bool)
      modifies this`joined, this`sent
      ensures sent == old(sent) + Broadcast(interfaces, LeaveAll)
      ensures joined == if clearJoinedGroups && interfaces != [] then {} else old(joined)
    {
      if interfaces != [] {
        Push(interfaces, LeaveAll);
        if clearJoinedGroups {
          joined := {};
        }
      }
    }

    method ReplaceInterfaces(wanted: seq<Iface>) returns (order: seq<string>)
      modifies this
      ensures Enumerates(order, joined) && View() == SetInterfaces(old(View()), wanted)
      ensures sent == old(sent) + SetInterfacesMsgs(old(View()), wanted, order)
    {
      var tms := Sort(wanted);
      interfaces := Sort(interfaces);
      var intersection := SetIntersection(IdLess, tms, interfaces);
      tms := EraseCommon(tms, intersection);
      interfaces := EraseCommon(interfaces, intersection);
      LeaveEverything(false);
      order := JoinEverything(tms);
      interfaces := intersection + tms;
    }

    /** Joins every joined group on the given interfaces. */
    method JoinEverything(tms: seq<Iface>) returns (order: seq<string>)
      modifies this`sent
      ensures Enumerates(order, joined) && sent == old(sent) + BroadcastJoins(tms, order)
    {
      order := IterationOrder(joined);
      for k := 0 to |order|
        invariant sent == old(sent) + BroadcastJoins(tms, order[..k])
      {
        BroadcastJoinsLast(tms, order[..k], order[k]);
        assert order[..k + 1] == order[..k] + [order[k]];
        Push(tms, Join(order[k]));
      }
      assert order[..|order|] == order;
    }

    method EraseCommon(list: seq<Iface>, gone: seq<Iface>) returns (r: seq<Iface>)
      ensures r == EraseAll(list, gone)
    {
      r := list;
      for k := 0 to |gone|
        invariant EraseAll(r, gone[k..]) == EraseAll(list, gone)
      {
        r := Erase(r, gone[k]);
      }
    }
  }
}
