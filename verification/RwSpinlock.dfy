/** The reader-writer spinlock: any number of threads change one 32-bit flag by atomic
    compare-and-swap. Every read and every compare-and-swap is one step. */
module RwSpinlock {

  type Tid = nat

  const INT32_MIN: int := -0x8000_0000
  const INT32_MAX: int := 0x7FFF_FFFF

  /** Signed 32-bit results wrap around. */
  function Int32(x: int): int {
    if x > INT32_MAX then x - 0x1_0000_0000
    else if x < INT32_MIN then x + 0x1_0000_0000
    else x
  }

  /** Where a thread is. `Saw` states hold the local copy v of the flag and, as history, how
      many successful compare-and-swaps had happened when v was read. */
  datatype Pc =
    | Idle
    | Locking | LockSaw(v: int, stamp: nat)
    | TryLocking
    | Writing | Unlocking
    | LockingShared | SharedSaw(v: int, stamp: nat)
    | TryingShared | TrySharedSaw(v: int, stamp: nat)
    | Reading | UnlockingShared | UnsharedSaw(v: int, stamp: nat)

  datatype Op = Lock | TryLock | Unlock | LockShared | TryLockShared | UnlockShared

  /** log: the threads whose compare-and-swap succeeded, in order; fails: per thread, how
      many of its compare-and-swaps failed after a read of the flag. */
  datatype State = State(flag: int, pcs: map<Tid, Pc>, log: seq<Tid>, fails: map<Tid, nat>)

  datatype Step = Call(tid: Tid, op: Op) | Move(tid: Tid)

  function Start(threads: set<Tid>): State {
    State(0, map t | t in threads :: Idle, [], map t | t in threads :: 0)
  }

  function Entry(op: Op): Pc {
    match op
    case Lock => Locking
    case TryLock => TryLocking
    case Unlock => Unlocking
    case LockShared => LockingShared
    case TryLockShared => TryingShared
    case UnlockShared => UnlockingShared
  }

  predicate Enabled(s: State, step: Step) {
    && step.tid in s.pcs && step.tid in s.fails
    && var pc := s.pcs[step.tid];
       match step
       case Call(_, Unlock) => pc == Writing
       case Call(_, UnlockShared) => pc == Reading
       case Call(_, _) => pc == Idle
       case Move(_) => pc !in {Idle, Writing, Reading}
  }

  function Goto(s: State, t: Tid, pc: Pc): State { s.(pcs := s.pcs[t := pc]) }

  /** atomic_cas(&m_flag, expected, value), continuing at one of two places. */
  function Cas(s: State, t: Tid, expected: int, value: int, success: Pc, failure: Pc): State {
    if s.flag == expected
    then Goto(s, t, success).(flag := value, log := s.log + [t])
    else Goto(s, t, failure)
  }

  /** The same after a read of the flag, where a failure is recorded. */
  function CasAfterRead(s: State, t: Tid, expected: int, value: int, success: Pc, failure: Pc): State
    requires t in s.fails
  {
    var next := Cas(s, t, expected, value, success, failure);
    if s.flag == expected then next else next.(fails := s.fails[t := s.fails[t] + 1])
  }

  function Apply(s: State, step: Step): State
    requires Enabled(s, step)
  {
    match step
    case Call(t, op) => Goto(s, t, Entry(op))
    case Move(t) => DoMove(s, t, s.pcs[t])
  }

  function DoMove(s: State, t: Tid, pc: Pc): State
    requires t in s.fails
  {
    match pc
    case Locking => Goto(s, t, LockSaw(s.flag, |s.log|))
    case LockSaw(v, _) =>
      if v != 0 then Goto(s, t, LockSaw(s.flag, |s.log|))
      else CasAfterRead(s, t, 0, INT32_MIN, Writing, Locking)
    case TryLocking => Cas(s, t, 0, INT32_MIN, Writing, Idle)
    case Unlocking => Cas(s, t, INT32_MIN, 0, Idle, Unlocking)
    case LockingShared => Goto(s, t, SharedSaw(s.flag, |s.log|))
    case SharedSaw(v, _) =>
      if v < 0 then Goto(s, t, SharedSaw(s.flag, |s.log|))
      else CasAfterRead(s, t, v, Int32(v + 1), Reading, LockingShared)
    case TryingShared => Goto(s, t, TrySharedSaw(s.flag, |s.log|))
    case TrySharedSaw(v, _) =>
      if v >= 0 then CasAfterRead(s, t, v, Int32(v + 1), Reading, Idle) else Goto(s, t, Idle)
    case UnlockingShared => Goto(s, t, UnsharedSaw(s.flag, |s.log|))
    case UnsharedSaw(v, _) => CasAfterRead(s, t, v, Int32(v - 1), Idle, UnlockingShared)
    case Idle => s
    case Writing => s
    case Reading => s
  }

  ghost predicate Run(s: State, steps: seq<Step>, t: State)
    decreases |steps|
  {
    if steps == [] then s == t
    else Enabled(s, steps[0]) && Run(Apply(s, steps[0]), steps[1..], t)
  }

  // ---- who holds the lock

  predicate HoldsShared(pc: Pc) { pc in {Reading, UnlockingShared} || pc.UnsharedSaw? }

  predicate HoldsExclusive(pc: Pc) { pc in {Writing, Unlocking} }

  function Readers(s: State): set<Tid> { set t | t in s.pcs && HoldsShared(s.pcs[t]) }

  function Writers(s: State): set<Tid> { set t | t in s.pcs && HoldsExclusive(s.pcs[t]) }

  /** The flag is INT32_MIN exactly when one writer and no reader holds the lock, and
      otherwise the number of readers. */
  ghost predicate Exclusion(s: State) {
    || (Writers(s) == {} && s.flag == |Readers(s)|)
    || (|Writers(s)| == 1 && Readers(s) == {} && s.flag == INT32_MIN)
  }

  /** A local copy taken at the current stamp is current, and the thread itself has not
      changed the flag since; its failures are matched by changes of other threads. */
  ghost predicate StampOk(s: State, t: Tid, v: int, stamp: nat)
    requires t in s.fails
  {
    && stamp <= |s.log|
    && (stamp == |s.log| ==> v == s.flag)
    && (forall i :: stamp <= i < |s.log| ==> s.log[i] != t)
    && s.fails[t] <= stamp
  }

  ghost predicate ThreadOk(s: State, t: Tid)
    requires t in s.pcs && t in s.fails
  {
    && s.fails[t] <= |s.log|
    && match s.pcs[t]
       case LockSaw(v, n) => StampOk(s, t, v, n)
       case SharedSaw(v, n) => StampOk(s, t, v, n)
       case TrySharedSaw(v, n) => StampOk(s, t, v, n)
       case UnsharedSaw(v, n) => StampOk(s, t, v, n)
       case _ => true
  }

  ghost predicate Inv(s: State) {
    && s.pcs.Keys == s.fails.Keys
    && Exclusion(s)
    && forall t :: t in s.pcs ==> ThreadOk(s, t)
  }

  // ---- how the holders change

  function With(ts: set<Tid>, t: Tid, member: bool): set<Tid> {
    if member then ts + {t} else ts - {t}
  }

  lemma HoldersAfter(s: State, t: Tid, pc: Pc, flag: int, log: seq<Tid>, fails: map<Tid, nat>)
    requires t in s.pcs
    ensures var next := State(flag, s.pcs[t := pc], log, fails);
            && Readers(next) == With(Readers(s), t, HoldsShared(pc))
            && Writers(next) == With(Writers(s), t, HoldsExclusive(pc))
  {
  }

  lemma Cardinality(a: set<Tid>, b: set<Tid>)
    requires a <= b
    ensures |a| <= |b|
  {
    if a != {} {
      var x :| x in a;
      Cardinality(a - {x}, b - {x});
    }
  }

  lemma ReaderCount(s: State, t: Tid)
    requires t in s.pcs && t !in Readers(s)
    ensures |Readers(s)| + 1 <= |s.pcs|
  {
    Cardinality(Readers(s) + {t}, s.pcs.Keys);
  }

  /** A step that moves between places with the same rights leaves the holders alone. */
  lemma SameRights(s: State, t: Tid, pc: Pc, fails: map<Tid, nat>)
    requires t in s.pcs && HoldsShared(pc) == HoldsShared(s.pcs[t]) && HoldsExclusive(pc) == HoldsExclusive(s.pcs[t])
    ensures var next := State(s.flag, s.pcs[t := pc], s.log, fails);
            Readers(next) == Readers(s) && Writers(next) == Writers(s)
  {
    HoldersAfter(s, t, pc, s.flag, s.log, fails);
  }

  lemma AcquireShared(s: State, t: Tid)
    requires Exclusion(s) && t in s.pcs && s.flag >= 0 && !HoldsShared(s.pcs[t]) && !HoldsExclusive(s.pcs[t])
    requires |s.pcs| <= INT32_MAX
    ensures var next := s.(flag := Int32(s.flag + 1), pcs := s.pcs[t := Reading], log := s.log + [t]);
            Exclusion(next) && Readers(next) == Readers(s) + {t} && Writers(s) == Writers(next) == {}
  {
    ReaderCount(s, t);
    HoldersAfter(s, t, Reading, Int32(s.flag + 1), s.log + [t], s.fails);
  }

  lemma ReleaseShared(s: State, t: Tid)
    requires Exclusion(s) && t in s.pcs && HoldsShared(s.pcs[t])
    ensures var next := s.(flag := Int32(s.flag - 1), pcs := s.pcs[t := Idle], log := s.log + [t]);
            Readers(next) == Readers(s) - {t} && Writers(next) == Writers(s) == {} &&
            (|s.pcs| <= INT32_MAX ==> Exclusion(next))
  {
    assert t in Readers(s);
    Cardinality(Readers(s), s.pcs.Keys);
    HoldersAfter(s, t, Idle, Int32(s.flag - 1), s.log + [t], s.fails);
  }

  lemma AcquireExclusive(s: State, t: Tid)
    requires Exclusion(s) && t in s.pcs && s.flag == 0
    ensures var next := s.(flag := INT32_MIN, pcs := s.pcs[t := Writing], log := s.log + [t]);
            Exclusion(next) && Readers(s) == Readers(next) == {} && Writers(s) == {} && Writers(next) == {t}
  {
    assert Readers(s) == {} && Writers(s) == {};
    HoldersAfter(s, t, Writing, INT32_MIN, s.log + [t], s.fails);
  }

  lemma SoleWriter(ws: set<Tid>, t: Tid)
    requires |ws| == 1 && t in ws
    ensures ws == {t}
  {
    assert |ws - {t}| == 0;
  }

  /** A writer's unlock succeeds at its first attempt. */
  lemma ReleaseExclusive(s: State, t: Tid)
    requires Exclusion(s) && t in s.pcs && HoldsExclusive(s.pcs[t])
    ensures s.flag == INT32_MIN
    ensures var next := s.(flag := 0, pcs := s.pcs[t := Idle], log := s.log + [t]);
            Exclusion(next) && Readers(s) == Readers(next) == {} && Writers(s) == {t} && Writers(next) == {}
  {
    assert t in Writers(s);
    SoleWriter(Writers(s), t);
    HoldersAfter(s, t, Idle, 0, s.log + [t], s.fails);
  }

  // ---- refinement of an atomic lock

  datatype Atomic = Atomic(readers: set<Tid>, writers: set<Tid>)

  ghost predicate AtomicStep(a: Atomic, b: Atomic, t: Tid) {
    || (a == Atomic({}, {}) && b == Atomic({}, {t}))
    || (a == Atomic({}, {t}) && b == Atomic({}, {}))
    || (a.writers == b.writers == {} && t !in a.readers && b.readers == a.readers + {t})
    || (a.writers == b.writers == {} && t in a.readers && b.readers == a.readers - {t})
  }

  function Abs(s: State): Atomic { Atomic(Readers(s), Writers(s)) }

  /** What one step of thread t does to the abstract lock: nothing, or, exactly when its
      compare-and-swap succeeded, one atomic acquisition or release by t. */
  ghost predicate Refines(s: State, next: State, t: Tid) {
    if next.log == s.log then Abs(next) == Abs(s) && next.flag == s.flag
    else next.log == s.log + [t] && AtomicStep(Abs(s), Abs(next), t)
  }

  /** A compare-and-swap that takes or gives back rights matching the flag's change. */
  ghost predicate Sound(s: State, t: Tid, expected: int, value: int, success: Pc)
    requires t in s.pcs
  {
    || (expected == 0 && value == INT32_MIN && success == Writing)
    || (expected == INT32_MIN && value == 0 && success == Idle && HoldsExclusive(s.pcs[t]))
    || (0 <= expected && value == Int32(expected + 1) && success == Reading
        && !HoldsShared(s.pcs[t]) && !HoldsExclusive(s.pcs[t]))
    || (value == Int32(expected - 1) && success == Idle && HoldsShared(s.pcs[t]))
  }

  lemma CasRefines(s: State, t: Tid, expected: int, value: int, success: Pc, failure: Pc)
    requires Exclusion(s) && t in s.pcs && |s.pcs| <= INT32_MAX && Sound(s, t, expected, value, success)
    requires HoldsShared(failure) == HoldsShared(s.pcs[t]) && HoldsExclusive(failure) == HoldsExclusive(s.pcs[t])
    ensures var next := Cas(s, t, expected, value, success, failure);
            Exclusion(next) && Refines(s, next, t)
  {
    if s.flag == expected {
      if success == Writing {
        AcquireExclusive(s, t);
      } else if success == Reading {
        AcquireShared(s, t);
      } else if HoldsExclusive(s.pcs[t]) {
        ReleaseExclusive(s, t);
      } else {
        assert t in Readers(s);
        ReleaseShared(s, t);
      }
    } else {
      SameRights(s, t, failure, s.fails);
    }
  }

  lemma CasAfterReadRefines(s: State, t: Tid, expected: int, value: int, success: Pc, failure: Pc)
    requires Exclusion(s) && t in s.pcs && t in s.fails && |s.pcs| <= INT32_MAX && Sound(s, t, expected, value, success)
    requires HoldsShared(failure) == HoldsShared(s.pcs[t]) && HoldsExclusive(failure) == HoldsExclusive(s.pcs[t])
    ensures var next := CasAfterRead(s, t, expected, value, success, failure);
            Exclusion(next) && Refines(s, next, t)
  {
    CasRefines(s, t, expected, value, success, failure);
    SameHolders(Cas(s, t, expected, value, success, failure), CasAfterRead(s, t, expected, value, success, failure).fails);
  }

  lemma SameHolders(s: State, fails: map<Tid, nat>)
    ensures Readers(s.(fails := fails)) == Readers(s) && Writers(s.(fails := fails)) == Writers(s)
  {
  }

  lemma MoveRefines(s: State, t: Tid)
    requires Exclusion(s) && Enabled(s, Move(t)) && |s.pcs| <= INT32_MAX
    ensures var next := Apply(s, Move(t)); Exclusion(next) && Refines(s, next, t)
  {
    match s.pcs[t]
    case Locking => SameRights(s, t, LockSaw(s.flag, |s.log|), s.fails);
    case LockSaw(v, _) =>
      if v != 0 {
        SameRights(s, t, LockSaw(s.flag, |s.log|), s.fails);
      } else {
        CasAfterReadRefines(s, t, 0, INT32_MIN, Writing, Locking);
      }
    case TryLocking => CasRefines(s, t, 0, INT32_MIN, Writing, Idle);
    case Unlocking => CasRefines(s, t, INT32_MIN, 0, Idle, Unlocking);
    case LockingShared => SameRights(s, t, SharedSaw(s.flag, |s.log|), s.fails);
    case SharedSaw(v, _) =>
      if v < 0 {
        SameRights(s, t, SharedSaw(s.flag, |s.log|), s.fails);
      } else {
        CasAfterReadRefines(s, t, v, Int32(v + 1), Reading, LockingShared);
      }
    case TryingShared => SameRights(s, t, TrySharedSaw(s.flag, |s.log|), s.fails);
    case TrySharedSaw(v, _) =>
      if v >= 0 {
        CasAfterReadRefines(s, t, v, Int32(v + 1), Reading, Idle);
      } else {
        SameRights(s, t, Idle, s.fails);
      }
    case UnlockingShared => SameRights(s, t, UnsharedSaw(s.flag, |s.log|), s.fails);
    case UnsharedSaw(v, _) => CasAfterReadRefines(s, t, v, Int32(v - 1), Idle, UnlockingShared);
  }

  /** Every step of every thread is a stutter or one step of the atomic lock. */
  lemma StepRefines(s: State, step: Step)
    requires Exclusion(s) && Enabled(s, step) && |s.pcs| <= INT32_MAX
    ensures Exclusion(Apply(s, step)) && Refines(s, Apply(s, step), step.tid)
  {
    match step
    case Call(t, op) => SameRights(s, t, Entry(op), s.fails);
    case Move(t) => MoveRefines(s, t);
  }

  /** The successful compare-and-swaps, thread by thread, are a run of the atomic lock. */
  ghost predicate AtomicRun(a: Atomic, log: seq<Tid>, b: Atomic)
    decreases |log|
  {
    if log == [] then a == b
    else exists mid :: AtomicStep(a, mid, log[0]) && AtomicRun(mid, log[1..], b)
  }

  lemma Prepend(s: State, next: State, tid: Tid, rest: seq<Tid>, t: State) returns (log: seq<Tid>)
    requires Refines(s, next, tid) && t.log == next.log + rest && AtomicRun(Abs(next), rest, Abs(t))
    ensures t.log == s.log + log && AtomicRun(Abs(s), log, Abs(t))
  {
    if next.log == s.log {
      log := rest;
    } else {
      log := [tid] + rest;
      assert AtomicStep(Abs(s), Abs(next), log[0]) && log[1..] == rest;
    }
  }

  lemma {:induction false} RunRefines(s: State, steps: seq<Step>, t: State) returns (log: seq<Tid>)
    requires Exclusion(s) && Run(s, steps, t) && s.pcs.Keys == s.fails.Keys && |s.pcs.Keys| <= INT32_MAX
    ensures t.log == s.log + log && AtomicRun(Abs(s), log, Abs(t))
    decreases |steps|
  {
    if steps == [] {
      log := [];
    } else {
      var next := Apply(s, steps[0]);
      StepRefines(s, steps[0]);
      StepKeepsThreads(s, steps[0]);
      var rest := RunRefines(next, steps[1..], t);
      log := Prepend(s, next, steps[0].tid, rest, t);
    }
  }

  /** Every run of fewer than 2^31 threads is a run of the atomic reader-writer lock. */
  lemma RefinesAtomicLock(threads: set<Tid>, steps: seq<Step>, s: State)
    requires |threads| <= INT32_MAX && Run(Start(threads), steps, s)
    ensures AtomicRun(Atomic({}, {}), s.log, Abs(s))
  {
    StartInv(threads);
    var log := RunRefines(Start(threads), steps, s);
    assert Abs(Start(threads)) == Atomic({}, {});
    assert s.log == [] + log == log;
  }

  // ---- progress

  lemma OthersKeepStamps(s: State, step: Step, u: Tid)
    requires Enabled(s, step) && u in s.pcs && u in s.fails && u != step.tid && ThreadOk(s, u)
    ensures ThreadOk(Apply(s, step), u)
  {
  }

  lemma OwnStamp(s: State, step: Step)
    requires Enabled(s, step) && ThreadOk(s, step.tid)
    ensures ThreadOk(Apply(s, step), step.tid)
  {
  }

  lemma StepKeepsThreads(s: State, step: Step)
    requires Enabled(s, step) && s.pcs.Keys == s.fails.Keys
    ensures Apply(s, step).pcs.Keys == Apply(s, step).fails.Keys == s.pcs.Keys
  {
  }

  lemma StepKeepsStamps(s: State, step: Step)
    requires Enabled(s, step) && s.pcs.Keys == s.fails.Keys
    requires Apply(s, step).pcs.Keys == Apply(s, step).fails.Keys == s.pcs.Keys
    requires forall t :: t in s.pcs ==> ThreadOk(s, t)
    ensures forall t :: t in s.pcs ==> ThreadOk(Apply(s, step), t)
  {
    forall u | u in s.pcs ensures ThreadOk(Apply(s, step), u) {
      if u == step.tid {
        OwnStamp(s, step);
      } else {
        OthersKeepStamps(s, step, u);
      }
    }
  }

  lemma StepKeepsInv(s: State, step: Step)
    requires Inv(s) && Enabled(s, step) && |s.pcs| <= INT32_MAX
    ensures Inv(Apply(s, step)) && Apply(s, step).pcs.Keys == s.pcs.Keys
  {
    StepRefines(s, step);
    StepKeepsThreads(s, step);
    StepKeepsStamps(s, step);
  }

  lemma {:induction false} RunKeepsInv(s: State, steps: seq<Step>, t: State)
    requires Inv(s) && Run(s, steps, t) && |s.pcs.Keys| <= INT32_MAX
    ensures Inv(t) && t.pcs.Keys == s.pcs.Keys
    decreases |steps|
  {
    if steps != [] {
      StepKeepsInv(s, steps[0]);
      RunKeepsInv(Apply(s, steps[0]), steps[1..], t);
    }
  }

  lemma StartInv(threads: set<Tid>)
    ensures Inv(Start(threads)) && Start(threads).pcs.Keys == threads
  {
    assert Readers(Start(threads)) == {} && Writers(Start(threads)) == {};
  }

  /** The thread is about to compare-and-swap a value it read before. */
  predicate AboutToCas(pc: Pc) {
    pc.UnsharedSaw? || (pc.SharedSaw? && pc.v >= 0) || (pc.TrySharedSaw? && pc.v >= 0) || (pc.LockSaw? && pc.v == 0)
  }

  /** In every reachable state: a writer's unlock succeeds at once; if a thread's
      compare-and-swap would fail, another thread's succeeded since the read; and in total a
      thread failed at most as often as operations of the lock completed. */
  lemma Progress(threads: set<Tid>, steps: seq<Step>, s: State, t: Tid)
    requires |threads| <= INT32_MAX && Run(Start(threads), steps, s) && t in s.pcs
    ensures s.pcs[t] == Unlocking ==> Enabled(s, Move(t)) && Apply(s, Move(t)).pcs[t] == Idle
    ensures AboutToCas(s.pcs[t]) && s.flag != s.pcs[t].v ==>
              exists i :: s.pcs[t].stamp <= i < |s.log| && s.log[i] != t
    ensures t in s.fails && s.fails[t] <= |s.log|
  {
    StartInv(threads);
    RunKeepsInv(Start(threads), steps, s);
    assert ThreadOk(s, t);
    if s.pcs[t] == Unlocking {
      ReleaseExclusive(s, t);
    }
    if AboutToCas(s.pcs[t]) && s.flag != s.pcs[t].v {
      assert s.log[s.pcs[t].stamp] != t;
    }
  }

  // ---- runs one after another

  lemma {:induction false} RunThen(s: State, steps: seq<Step>, t: State, more: seq<Step>, u: State)
    requires Run(s, steps, t) && Run(t, more, u)
    ensures Run(s, steps + more, u)
    decreases |steps|
  {
    if steps == [] {
      assert steps + more == more;
    } else {
      assert (steps + more)[1..] == steps[1..] + more;
      RunThen(Apply(s, steps[0]), steps[1..], t, more, u);
    }
  }

  // ---- what an operation achieves

  /** The thread is inside the operation. */
  predicate Performs(pc: Pc, op: Op) {
    match op
    case Lock => pc == Locking || pc.LockSaw?
    case TryLock => pc == TryLocking
    case Unlock => pc == Unlocking
    case LockShared => pc == LockingShared || pc.SharedSaw?
    case TryLockShared => pc == TryingShared || pc.TrySharedSaw?
    case UnlockShared => pc == UnlockingShared || pc.UnsharedSaw?
  }

  /** A compare-and-swap of a current copy changes the holders by exactly its own thread: a writer
      is added to a lock nobody holds, a reader to a lock without a writer, and a reader leaves.
      One of an outdated copy, and a try_lock of a lock somebody holds, change nobody: the trying
      operations end without the lock and the others go on. */
  lemma CasChangesHolders(threads: set<Tid>, steps: seq<Step>, s: State, t: Tid)
    requires |threads| <= INT32_MAX && Run(Start(threads), steps, s) && Enabled(s, Move(t))
    ensures var next, pc := Apply(s, Move(t)), s.pcs[t];
            if pc == TryLocking || (pc.LockSaw? && pc.v == 0 == s.flag) then
              if Readers(s) == {} && Writers(s) == {}
              then next.pcs[t] == Writing && Readers(next) == {} && Writers(next) == {t}
              else next.pcs[t] == Idle && Abs(next) == Abs(s)
            else if pc == Unlocking then
              next.pcs[t] == Idle && Readers(next) == {} && Writers(s) == {t} && Writers(next) == {}
            else if (pc.SharedSaw? || pc.TrySharedSaw?) && pc.v == s.flag && Writers(s) == {} then
              next.pcs[t] == Reading && Readers(next) == Readers(s) + {t} && Writers(next) == {}
            else if pc.UnsharedSaw? && pc.v == s.flag then
              next.pcs[t] == Idle && Readers(next) == Readers(s) - {t} && Writers(next) == Writers(s) == {}
            else
              Abs(next) == Abs(s) &&
              if pc.TrySharedSaw? then next.pcs[t] == Idle else forall op :: Performs(pc, op) ==> Performs(next.pcs[t], op)
  {
    StartInv(threads);
    RunKeepsInv(Start(threads), steps, s);
    FlagShowsHolders(s);
    MoveRefines(s, t);
    var pc := s.pcs[t];
    if pc == TryLocking || (pc.LockSaw? && pc.v == 0 == s.flag) {
      WriterMoves(s, t);
    } else if pc == Unlocking {
      ReleaseExclusive(s, t);
    } else if (pc.SharedSaw? || pc.TrySharedSaw?) && pc.v == s.flag && Writers(s) == {} {
      AcquireShared(s, t);
    } else if pc.UnsharedSaw? && pc.v == s.flag {
      ReleaseShared(s, t);
    } else {
      GoesOn(s, t);
    }
  }

  /** A move without a successful compare-and-swap. */
  lemma GoesOn(s: State, t: Tid)
    requires Enabled(s, Move(t)) && s.pcs[t] != TryLocking && s.pcs[t] != Unlocking
    requires s.pcs[t].LockSaw? ==> s.pcs[t].v != 0 || s.flag != 0
    requires s.pcs[t].SharedSaw? || s.pcs[t].TrySharedSaw? ==> s.pcs[t].v < 0 || s.pcs[t].v != s.flag
    requires s.pcs[t].UnsharedSaw? ==> s.pcs[t].v != s.flag
    ensures var next, pc := Apply(s, Move(t)), s.pcs[t];
            next.log == s.log &&
            if pc.TrySharedSaw? then next.pcs[t] == Idle else forall op :: Performs(pc, op) ==> Performs(next.pcs[t], op)
  {
  }

  /** The flag tells who holds the lock. */
  lemma FlagShowsHolders(s: State)
    requires Exclusion(s)
    ensures s.flag == 0 <==> Readers(s) == {} && Writers(s) == {}
    ensures s.flag < 0 <==> Writers(s) != {}
  {
  }

  lemma WriterMoves(s: State, t: Tid)
    requires Exclusion(s) && Enabled(s, Move(t)) && (s.pcs[t] == TryLocking || (s.pcs[t].LockSaw? && s.pcs[t].v == 0 == s.flag))
    ensures var next := Apply(s, Move(t));
            if Readers(s) == {} && Writers(s) == {}
            then next.pcs[t] == Writing && Readers(next) == {} && Writers(next) == {t}
            else next.pcs[t] == Idle && Abs(next) == Abs(s)
  {
    FlagShowsHolders(s);
    if s.flag == 0 {
      AcquireExclusive(s, t);
    } else {
      SameRights(s, t, Idle, s.fails);
    }
  }

  /** Where an operation that nobody disturbs ends, by who holds the lock when it starts: lock and
      try_lock take a free lock, the shared ones any lock without a writer, and the two unlocks
      always succeed. The waiting operations wait and the trying ones give up otherwise. */
  function Outcome(s: State, op: Op): Pc {
    match op
    case Lock => if Readers(s) == {} && Writers(s) == {} then Writing else LockSaw(s.flag, |s.log|)
    case TryLock => if Readers(s) == {} && Writers(s) == {} then Writing else Idle
    case Unlock => Idle
    case LockShared => if Writers(s) == {} then Reading else SharedSaw(s.flag, |s.log|)
    case TryLockShared => if Writers(s) == {} then Reading else Idle
    case UnlockShared => Idle
  }

  /** In every reachable state an operation that is left alone is over, or waits, after at most two
      steps of its thread. */
  lemma UndisturbedOperation(threads: set<Tid>, steps: seq<Step>, s: State, t: Tid, op: Op) returns (more: seq<Step>, u: State)
    requires |threads| <= INT32_MAX && Run(Start(threads), steps, s) && Enabled(s, Call(t, op))
    ensures Run(s, more, u) && t in u.pcs && u.pcs[t] == Outcome(s, op)
    ensures more == [Call(t, op), Move(t)] + if op.TryLock? || op.Unlock? then [] else [Move(t)]
    ensures u.pcs == s.pcs[t := u.pcs[t]]
  {
    StartInv(threads);
    RunKeepsInv(Start(threads), steps, s);
    more := [Call(t, op), Move(t)];
    if op.TryLock? || op.Unlock? {
      u := OneMove(s, t, op);
    } else {
      var b;
      b, u := TwoMoves(s, t, op);
      assert Run(b, [Move(t)], u) by { assert [Move(t)][1..] == []; }
      RunThen(s, more, b, [Move(t)], u);
      more := more + [Move(t)];
    }
  }

  lemma OneMove(s: State, t: Tid, op: Op) returns (u: State)
    requires Exclusion(s) && Enabled(s, Call(t, op)) && (op.TryLock? || op.Unlock?)
    ensures Run(s, [Call(t, op), Move(t)], u) && u.pcs == s.pcs[t := Outcome(s, op)]
  {
    FlagShowsHolders(s);
    if op.Unlock? {
      ReleaseExclusive(s, t);
    }
    var a := Apply(s, Call(t, op));
    u := Apply(a, Move(t));
    TwoSteps(s, Call(t, op), a, Move(t), u);
  }

  lemma TwoMoves(s: State, t: Tid, op: Op) returns (b: State, u: State)
    requires Exclusion(s) && Enabled(s, Call(t, op)) && !op.TryLock? && !op.Unlock?
    ensures Run(s, [Call(t, op), Move(t)], b) && Enabled(b, Move(t)) && u == Apply(b, Move(t))
    ensures u.pcs == s.pcs[t := Outcome(s, op)]
  {
    var a := Apply(s, Call(t, op));
    b := Apply(a, Move(t));
    u := Apply(b, Move(t));
    TwoSteps(s, Call(t, op), a, Move(t), b);
    SecondMove(s, t, op, b);
  }

  lemma SecondMove(s: State, t: Tid, op: Op, b: State)
    requires Exclusion(s) && !op.TryLock? && !op.Unlock? && t in s.pcs && t in s.fails
    requires Enabled(b, Move(t)) && b.flag == s.flag && b.log == s.log && b.pcs == s.pcs[t := b.pcs[t]]
    requires b.pcs[t] == if op.Lock? then LockSaw(s.flag, |s.log|)
                         else if op.LockShared? then SharedSaw(s.flag, |s.log|)
                         else if op.TryLockShared? then TrySharedSaw(s.flag, |s.log|)
                         else UnsharedSaw(s.flag, |s.log|)
    ensures Apply(b, Move(t)).pcs == s.pcs[t := Outcome(s, op)]
  {
    FlagShowsHolders(s);
  }

  lemma TwoSteps(s: State, x: Step, a: State, y: Step, b: State)
    requires Enabled(s, x) && a == Apply(s, x) && Enabled(a, y) && b == Apply(a, y)
    ensures Run(s, [x, y], b)
  {
    assert [x, y][1..] == [y] && [y][1..] == [];
    assert Run(a, [y], b);
  }

  // ---- the exact limit on the number of threads

  ghost predicate AllReading(s: State, readers: set<Tid>, threads: set<Tid>) {
    && s.pcs.Keys == s.fails.Keys == threads
    && readers <= threads
    && forall t :: t in threads ==> s.pcs[t] == if t in readers then Reading else Idle
  }

  /** One undisturbed lock_shared. */
  lemma OneMoreReader(s: State, readers: set<Tid>, threads: set<Tid>, t: Tid) returns (more: seq<Step>, u: State)
    requires AllReading(s, readers, threads) && t in threads - readers && 0 <= s.flag <= INT32_MAX
    ensures Run(s, more, u) && AllReading(u, readers + {t}, threads) && u.flag == Int32(s.flag + 1)
  {
    var a := Apply(s, Call(t, LockShared));
    var b := Apply(a, Move(t));
    u := Apply(b, Move(t));
    more := [Call(t, LockShared), Move(t), Move(t)];
    assert more[1..] == [Move(t), Move(t)] && more[1..][1..] == [Move(t)] && more[1..][1..][1..] == [];
    assert Run(u, [], u);
    assert Run(b, [Move(t)], u);
    assert Run(a, [Move(t), Move(t)], u);
  }

  lemma {:induction false} ManyReaders(threads: set<Tid>, readers: set<Tid>) returns (steps: seq<Step>, s: State)
    requires readers <= threads && |readers| <= INT32_MAX
    ensures Run(Start(threads), steps, s) && AllReading(s, readers, threads) && s.flag == |readers|
    decreases |readers|
  {
    if readers == {} {
      steps, s := [], Start(threads);
    } else {
      var t :| t in readers;
      steps, s := ManyReaders(threads, readers - {t});
      var more, u := OneMoreReader(s, readers - {t}, threads, t);
      RunThen(Start(threads), steps, s, more, u);
      assert readers - {t} + {t} == readers;
      steps, s := steps + more, u;
    }
  }

  lemma {:induction false} SubsetOfSize(ts: set<Tid>, n: nat) returns (sub: set<Tid>)
    requires n <= |ts|
    ensures sub <= ts && |sub| == n
    decreases |ts|
  {
    if n == |ts| {
      sub := ts;
    } else {
      var t :| t in ts;
      sub := SubsetOfSize(ts - {t}, n);
    }
  }

  /** With 2^31 threads the flag overflows and a writer's mark appears while readers hold. */
  lemma TooManyThreads(threads: set<Tid>) returns (steps: seq<Step>, s: State)
    requires |threads| > INT32_MAX
    ensures Run(Start(threads), steps, s) && !Exclusion(s)
  {
    var readers := SubsetOfSize(threads, INT32_MAX);
    if threads - readers == {} {
      assert forall t :: t in threads && t !in readers ==> t in threads - readers;
      Cardinality(threads, readers);
    }
    var t :| t in threads - readers;
    steps, s := ManyReaders(threads, readers);
    var more, u := OneMoreReader(s, readers, threads, t);
    RunThen(Start(threads), steps, s, more, u);
    steps, s := steps + more, u;
    assert t in Readers(s);
    assert s.flag == INT32_MIN;
    assert Writers(s) == {};
  }

  ghost predicate Reachable(threads: set<Tid>, s: State) {
    exists steps :: Run(Start(threads), steps, s)
  }

  /** Readers and writers exclude each other in every state reachable by a set of threads if
      and only if there are fewer than 2^31 threads. */
  lemma ExclusionExactly(threads: set<Tid>)
    ensures (forall s :: Reachable(threads, s) ==> Exclusion(s)) <==> |threads| <= INT32_MAX
  {
    if |threads| <= INT32_MAX {
      StartInv(threads);
      forall s | Reachable(threads, s) ensures Exclusion(s) {
        var steps :| Run(Start(threads), steps, s);
        RunKeepsInv(Start(threads), steps, s);
      }
    } else {
      var steps, s := TooManyThreads(threads);
      assert Reachable(threads, s) && !Exclusion(s);
    }
  }
}
