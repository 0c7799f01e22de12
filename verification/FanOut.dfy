/** Completion order: a job is shared by the session thread, which hands it to one interface after
    another, and by the queues of the interfaces, and completes when the last of them lets go of
    it. However the threads interleave, jobs complete in the order they were accepted. */
module FanOut {

  /** Jobs are identified by their order of acceptance. A thread is an interface's worker, by its
      number, or the session thread, numbered after the workers. A thread that took the last
      reference still has to push the completion signal; it does nothing else before. */
  datatype Fan = Fan(
    accepted: nat,
    queues: seq<seq<nat>>,      // per interface, the jobs its worker still has to send
    held: bool,                 // the session thread still holds the newest job
    offered: nat,               // how many interfaces have got the newest job
    refs: map<nat, nat>,        // reference counts of the jobs that still have references
    signalling: map<nat, nat>,  // threads about to signal, with the job
    completed: seq<nat>)        // completion signals, in order

  datatype Step =
    | Accept
    | Offer
    | SessionRelease
    | WorkerRelease(interface: nat)
    | Signal(thread: nat)

  function Start(interfaces: nat): Fan {
    Fan(0, seq(interfaces, i => []), false, interfaces, map[], map[], [])
  }

  function Session(f: Fan): nat { |f.queues| }

  predicate Enabled(f: Fan, step: Step) {
    match step
    case Accept => !f.held && Session(f) !in f.signalling
    case Offer => f.held && f.offered < |f.queues| && f.accepted > 0 && f.accepted - 1 in f.refs
    case SessionRelease => f.held && f.offered == |f.queues| && f.accepted > 0 && f.accepted - 1 in f.refs
    case WorkerRelease(i) => i < |f.queues| && f.queues[i] != [] && f.queues[i][0] in f.refs && i !in f.signalling
    case Signal(thread) => thread in f.signalling
  }

  /** One atomic decrement; who reaches zero goes on to destroy the job. */
  function Release(f: Fan, job: nat, thread: nat): Fan
    requires job in f.refs
  {
    if f.refs[job] <= 1
    then f.(refs := f.refs - {job}, signalling := f.signalling[thread := job])
    else f.(refs := f.refs[job := f.refs[job] - 1])
  }

  function Apply(f: Fan, step: Step): Fan
    requires Enabled(f, step)
  {
    match step
    case Accept => f.(accepted := f.accepted + 1, held := true, offered := 0, refs := f.refs[f.accepted := 1])
    case Offer =>
      var job := f.accepted - 1;
      f.(queues := f.queues[f.offered := f.queues[f.offered] + [job]], refs := f.refs[job := f.refs[job] + 1], offered := f.offered + 1)
    case SessionRelease => Release(f, f.accepted - 1, Session(f)).(held := false)
    case WorkerRelease(i) => Release(f, f.queues[i][0], i).(queues := f.queues[i := f.queues[i][1..]])
    case Signal(thread) => f.(completed := f.completed + [f.signalling[thread]], signalling := f.signalling - {thread})
  }

  ghost predicate Run(f: Fan, steps: seq<Step>, g: Fan)
    decreases |steps|
  {
    if steps == [] then f == g
    else Enabled(f, steps[0]) && Run(Apply(f, steps[0]), steps[1..], g)
  }

  // ---- invariant

  /** How many jobs interface i has been given. */
  function Given(f: Fan, i: nat): int { if f.held && i >= f.offered then f.accepted - 1 else f.accepted }

  /** A queue holds the newest of the jobs given to it. */
  ghost predicate Suffix(queue: seq<nat>, given: int) {
    |queue| <= given && forall j :: 0 <= j < |queue| ==> queue[j] == given - |queue| + j
  }

  /** How many of the queues still hold the job. */
  function Holders(queues: seq<seq<nat>>, job: nat): nat {
    if queues == [] then 0 else (if job in queues[0] then 1 else 0) + Holders(queues[1..], job)
  }

  function SessionHolds(f: Fan, job: nat): nat { if f.held && job + 1 == f.accepted then 1 else 0 }

  /** How many jobs have no reference any more. */
  function Gone(f: Fan): nat { |f.completed| + if f.signalling == map[] then 0 else 1 }

  ghost predicate QueuesOk(f: Fan) {
    && (f.held ==> f.accepted > 0 && f.offered <= |f.queues|)
    && (forall i :: 0 <= i < |f.queues| ==> Suffix(f.queues[i], Given(f, i)))
  }

  /** At most one signal is outstanding, for the oldest job not signalled yet; its thread holds
      every later job it was given. */
  ghost predicate SignalsOk(f: Fan) {
    && (forall a, b :: a in f.signalling && b in f.signalling ==> a == b)
    && (forall a :: a in f.signalling ==> a <= |f.queues| && f.signalling[a] == |f.completed| < f.accepted)
    && (forall i :: i in f.signalling && i < |f.queues| ==> |f.queues[i]| == Given(f, i) - 1 - |f.completed|)
    && (Session(f) in f.signalling ==> !f.held && |f.completed| + 1 == f.accepted)
  }

  ghost predicate RefsOk(f: Fan) {
    && (forall job: nat :: job in f.refs <==> Gone(f) <= job < f.accepted)
    && (forall job :: job in f.refs ==> f.refs[job] == Holders(f.queues, job) + SessionHolds(f, job) >= 1)
    && (forall job: nat :: job < Gone(f) ==> Holders(f.queues, job) + SessionHolds(f, job) == 0)
  }

  ghost predicate Inv(f: Fan) {
    && QueuesOk(f) && Gone(f) <= f.accepted
    && (forall k :: 0 <= k < |f.completed| ==> f.completed[k] == k)
    && SignalsOk(f) && RefsOk(f)
  }

  // ---- counting holders

  lemma SuffixHolds(queue: seq<nat>, given: int, job: nat)
    requires Suffix(queue, given)
    ensures job in queue <==> given - |queue| <= job < given
  {
    if given - |queue| <= job < given {
      assert queue[job - (given - |queue|)] == job;
    }
  }

  lemma {:induction false} SomeHolder(queues: seq<seq<nat>>, job: nat) returns (k: nat)
    requires Holders(queues, job) >= 1
    ensures k < |queues| && job in queues[k]
  {
    if job in queues[0] {
      k := 0;
    } else {
      k := SomeHolder(queues[1..], job);
      k := k + 1;
    }
  }

  lemma {:induction false} HolderCounts(queues: seq<seq<nat>>, i: nat, job: nat)
    requires i < |queues| && job in queues[i]
    ensures Holders(queues, job) >= 1
    decreases |queues|
  {
    if i > 0 {
      HolderCounts(queues[1..], i - 1, job);
    }
  }

  lemma {:induction false} TwoHolders(queues: seq<seq<nat>>, i: nat, k: nat, job: nat)
    requires i < k < |queues| && job in queues[i] && job in queues[k]
    ensures Holders(queues, job) >= 2
    decreases |queues|
  {
    if i == 0 {
      HolderCounts(queues[1..], k - 1, job);
    } else {
      TwoHolders(queues[1..], i - 1, k - 1, job);
    }
  }

  lemma {:induction false} HoldersUpdate(queues: seq<seq<nat>>, i: nat, queue: seq<nat>, job: nat)
    requires i < |queues|
    ensures Holders(queues[i := queue], job) + (if job in queues[i] then 1 else 0) ==
            Holders(queues, job) + if job in queue then 1 else 0
    decreases |queues|
  {
    var updated := queues[i := queue];
    if i == 0 {
      assert updated[1..] == queues[1..];
    } else {
      assert updated[1..] == queues[1..][i - 1 := queue];
      HoldersUpdate(queues[1..], i - 1, queue, job);
    }
  }

  /** Another holder besides worker i. */
  lemma NotAlone(f: Fan, i: nat, k: nat, job: nat)
    requires Inv(f) && i < |f.queues| && k < |f.queues| && i != k && job in f.refs && job in f.queues[i]
    requires |f.queues[k]| > 0 ==> f.queues[k][0] <= job
    requires Given(f, k) - |f.queues[k]| <= job
    ensures f.refs[job] >= 2
  {
    SuffixHolds(f.queues[k], Given(f, k), job);
    if job < Given(f, k) {
      if i < k {
        TwoHolders(f.queues, i, k, job);
      } else {
        TwoHolders(f.queues, k, i, job);
      }
    } else {
      HolderCounts(f.queues, i, job);
    }
  }

  /** The job that loses its last reference is the oldest that has one. */
  lemma LastHolderIsOldest(f: Fan, i: nat)
    requires Inv(f) && Enabled(f, WorkerRelease(i)) && f.refs[f.queues[i][0]] == 1
    ensures f.queues[i][0] == Gone(f)
  {
    var head := f.queues[i][0];
    var oldest := Gone(f);
    if oldest < head {
      var k := SomeHolder(f.queues, oldest);
      SuffixHolds(f.queues[k], Given(f, k), oldest);
      SuffixHolds(f.queues[i], Given(f, i), oldest);
      NotAlone(f, i, k, head);
      assert false;
    }
  }

  /** While a signal is outstanding, no later job can lose its last reference. */
  lemma NoSecondSignal(f: Fan, i: nat)
    requires Inv(f) && Enabled(f, WorkerRelease(i)) && f.refs[f.queues[i][0]] == 1
    ensures f.signalling == map[]
  {
    LastHolderIsOldest(f, i);
    if f.signalling != map[] {
      var a :| a in f.signalling;
      NotAlone(f, i, a, Gone(f));
      assert false;
    }
  }

  lemma SessionReleasesNewest(f: Fan)
    requires Inv(f) && Enabled(f, SessionRelease) && f.refs[f.accepted - 1] == 1
    ensures f.accepted - 1 == Gone(f) && f.signalling == map[]
  {
    var newest, oldest := f.accepted - 1, Gone(f);
    if oldest < newest {
      var k := SomeHolder(f.queues, oldest);
      SuffixHolds(f.queues[k], f.accepted, oldest);
      SuffixHolds(f.queues[k], f.accepted, newest);
      HolderCounts(f.queues, k, newest);
      assert false;
    }
    if f.signalling != map[] {
      var a :| a in f.signalling;
      SuffixHolds(f.queues[a], f.accepted, newest);
      HolderCounts(f.queues, a, newest);
      assert false;
    }
  }

  // ---- the steps

  lemma AcceptKeepsInv(f: Fan)
    requires Inv(f) && Enabled(f, Accept)
    ensures Inv(Apply(f, Accept))
  {
    var g := Apply(f, Accept);
    if Holders(f.queues, f.accepted) >= 1 {
      var k := SomeHolder(f.queues, f.accepted);
      SuffixHolds(f.queues[k], f.accepted, f.accepted);
    }
    forall i | 0 <= i < |g.queues| ensures Suffix(g.queues[i], Given(g, i)) {
      assert Suffix(f.queues[i], Given(f, i));
    }
  }

  lemma OfferKeepsRefs(f: Fan)
    requires Inv(f) && Enabled(f, Offer)
    ensures RefsOk(Apply(f, Offer))
  {
    var g := Apply(f, Offer);
    var i, newest := f.offered, f.accepted - 1;
    SuffixHolds(f.queues[i], Given(f, i), newest);
    forall job: nat ensures Holders(g.queues, job) == Holders(f.queues, job) + if job == newest then 1 else 0 {
      HoldersUpdate(f.queues, i, g.queues[i], job);
    }
  }

  lemma OfferKeepsInv(f: Fan)
    requires Inv(f) && Enabled(f, Offer)
    ensures Inv(Apply(f, Offer))
  {
    var g := Apply(f, Offer);
    OfferKeepsRefs(f);
    forall i | 0 <= i < |g.queues| ensures Suffix(g.queues[i], Given(g, i)) {
      assert Suffix(f.queues[i], Given(f, i));
    }
  }

  lemma SessionReleaseKeepsInv(f: Fan)
    requires Inv(f) && Enabled(f, SessionRelease)
    ensures Inv(Apply(f, SessionRelease))
  {
    var g := Apply(f, SessionRelease);
    if f.refs[f.accepted - 1] == 1 {
      SessionReleasesNewest(f);
      assert Session(f) in g.signalling;
    }
    forall i | 0 <= i < |g.queues| ensures Suffix(g.queues[i], Given(g, i)) {
      assert Suffix(f.queues[i], Given(f, i));
    }
  }

  lemma WorkerReleaseKeepsRefs(f: Fan, i: nat)
    requires Inv(f) && Enabled(f, WorkerRelease(i))
    requires f.refs[f.queues[i][0]] == 1 ==> f.queues[i][0] == Gone(f) && f.signalling == map[]
    ensures RefsOk(Apply(f, WorkerRelease(i)))
  {
    var g := Apply(f, WorkerRelease(i));
    var head := f.queues[i][0];
    assert f.refs[head] == 1 ==> i in g.signalling && g.signalling != map[];
    assert Suffix(g.queues[i], Given(f, i));
    forall job: nat ensures Holders(g.queues, job) + (if job == head then 1 else 0) == Holders(f.queues, job) {
      HoldersUpdate(f.queues, i, f.queues[i][1..], job);
      SuffixHolds(f.queues[i], Given(f, i), job);
      SuffixHolds(g.queues[i], Given(f, i), job);
    }
  }

  lemma WorkerReleaseKeepsInv(f: Fan, i: nat)
    requires Inv(f) && Enabled(f, WorkerRelease(i))
    ensures Inv(Apply(f, WorkerRelease(i)))
  {
    var g := Apply(f, WorkerRelease(i));
    if f.refs[f.queues[i][0]] == 1 {
      LastHolderIsOldest(f, i);
      NoSecondSignal(f, i);
      assert i in g.signalling;
    }
    WorkerReleaseKeepsRefs(f, i);
    WorkerReleaseKeepsSignals(f, i);
  }

  lemma WorkerReleaseKeepsSignals(f: Fan, i: nat)
    requires Inv(f) && Enabled(f, WorkerRelease(i))
    requires f.refs[f.queues[i][0]] == 1 ==> f.queues[i][0] == Gone(f) && f.signalling == map[]
    ensures QueuesOk(Apply(f, WorkerRelease(i))) && SignalsOk(Apply(f, WorkerRelease(i)))
  {
    var g := Apply(f, WorkerRelease(i));
    forall k | 0 <= k < |g.queues| ensures Suffix(g.queues[k], Given(g, k)) {
      assert Suffix(f.queues[k], Given(f, k));
    }
  }

  lemma SignalKeepsInv(f: Fan, thread: nat)
    requires Inv(f) && Enabled(f, Signal(thread))
    ensures Inv(Apply(f, Signal(thread)))
  {
    var g := Apply(f, Signal(thread));
    forall a ensures a !in g.signalling {
      assert a in g.signalling ==> a in f.signalling && a != thread;
    }
    assert g.signalling == map[];
    assert Gone(g) == Gone(f);
    assert QueuesOk(g);
  }

  lemma StepKeepsInv(f: Fan, step: Step)
    requires Inv(f) && Enabled(f, step)
    ensures Inv(Apply(f, step))
  {
    match step
    case Accept => AcceptKeepsInv(f);
    case Offer => OfferKeepsInv(f);
    case SessionRelease => SessionReleaseKeepsInv(f);
    case WorkerRelease(i) => WorkerReleaseKeepsInv(f, i);
    case Signal(thread) => SignalKeepsInv(f, thread);
  }

  lemma {:induction false} RunKeepsInv(f: Fan, steps: seq<Step>, g: Fan)
    requires Inv(f) && Run(f, steps, g)
    ensures Inv(g)
    decreases |steps|
  {
    if steps != [] {
      StepKeepsInv(f, steps[0]);
      RunKeepsInv(Apply(f, steps[0]), steps[1..], g);
    }
  }

  /** Nobody waits for a reference count: the session thread can always go on with the job it
      holds, and a worker that has a job and nothing to signal can let go of it. */
  lemma NeverBlocked(interfaces: nat, steps: seq<Step>, f: Fan, i: nat)
    requires Run(Start(interfaces), steps, f)
    ensures f.held ==> Enabled(f, Offer) || Enabled(f, SessionRelease)
    ensures i < |f.queues| && f.queues[i] != [] && i !in f.signalling ==> Enabled(f, WorkerRelease(i))
  {
    RunKeepsInv(Start(interfaces), steps, f);
    if f.held {
      assert SessionHolds(f, f.accepted - 1) == 1;
    }
    if i < |f.queues| && f.queues[i] != [] {
      HolderCounts(f.queues, i, f.queues[i][0]);
      assert Suffix(f.queues[i], Given(f, i));
    }
  }

  /** For any number of interfaces and any interleaving of their workers with the session
      thread, also while a job is handed out and between the last decrement and the signal, the
      completion signals are the accepted jobs 0, 1, 2, ... in order, at most one signal is
      outstanding, and a job whose references are all gone is signalled or about to be. */
  lemma CompletionInOrder(interfaces: nat, steps: seq<Step>, g: Fan)
    requires Run(Start(interfaces), steps, g)
    ensures |g.completed| <= g.accepted && forall k :: 0 <= k < |g.completed| ==> g.completed[k] == k
    ensures forall a, b :: a in g.signalling && b in g.signalling ==> a == b && g.signalling[a] == |g.completed|
    ensures !g.held && (forall i :: 0 <= i < |g.queues| ==> g.queues[i] == []) ==>
              g.accepted == |g.completed| + if g.signalling == map[] then 0 else 1
  {
    RunKeepsInv(Start(interfaces), steps, g);
    if !g.held && forall i :: 0 <= i < |g.queues| ==> g.queues[i] == [] {
      if Gone(g) < g.accepted {
        var k := SomeHolder(g.queues, Gone(g));
        assert false;
      }
    }
  }

  // ---- every interface gets every job

  function Occurrences(steps: seq<Step>, step: Step): nat {
    if steps == [] then 0 else (if steps[0] == step then 1 else 0) + Occurrences(steps[1..], step)
  }

  lemma StepCounts(f: Fan, step: Step, i: nat)
    requires Enabled(f, step) && i < |f.queues| && (f.held ==> f.accepted > 0)
    ensures var g := Apply(f, step);
            && |g.queues| == |f.queues|
            && g.accepted == f.accepted + (if step == Accept then 1 else 0)
            && Given(g, i) - |g.queues[i]| == Given(f, i) - |f.queues[i]| + if step == WorkerRelease(i) then 1 else 0
  {
  }

  lemma {:induction false} RunCounts(f: Fan, steps: seq<Step>, g: Fan, i: nat)
    requires Inv(f) && Run(f, steps, g) && i < |f.queues|
    ensures |g.queues| == |f.queues| && g.accepted == f.accepted + Occurrences(steps, Accept)
    ensures Given(g, i) - |g.queues[i]| == Given(f, i) - |f.queues[i]| + Occurrences(steps, WorkerRelease(i))
    decreases |steps|
  {
    if steps != [] {
      StepCounts(f, steps[0], i);
      StepKeepsInv(f, steps[0]);
      RunCounts(Apply(f, steps[0]), steps[1..], g, i);
    }
  }

  /** Every interface gets every accepted job exactly once and in order: after k turns of its worker
      the jobs still in its queue are k, k + 1, ... up to the newest accepted job, which it may lack
      only while the session thread is handing that job out. */
  lemma EveryInterfaceServed(interfaces: nat, steps: seq<Step>, f: Fan, i: nat)
    requires Run(Start(interfaces), steps, f) && i < interfaces
    ensures i < |f.queues| && f.accepted == Occurrences(steps, Accept)
    ensures forall j :: 0 <= j < |f.queues[i]| ==> f.queues[i][j] == Occurrences(steps, WorkerRelease(i)) + j
    ensures Occurrences(steps, WorkerRelease(i)) + |f.queues[i]| == f.accepted - if f.held && i >= f.offered then 1 else 0
  {
    RunCounts(Start(interfaces), steps, f, i);
    RunKeepsInv(Start(interfaces), steps, f);
    assert Suffix(f.queues[i], Given(f, i));
  }
}
