/** The per-socket dispatcher as interleaved atomic steps. A goroutine that has
    deleted its queue key but not yet called Done is "exiting" and may coexist
    with a new worker for the same socket; any other worker is "draining". */
module DispatchModel {
  import opened Sequences

  datatype Phase<W> = AtLock | Running(work: W) | Exiting

  datatype Worker<S, W> = Worker(socket: S, phase: Phase<W>)

  datatype State<S(==), W> = State(
    queueSize: int,
    queues: map<S, seq<W>>,
    wg: int,
    workers: map<nat, Worker<S, W>>,
    // Histories, per socket: work dispatch took, work a worker has run to its end, overflow callbacks.
    accepted: map<S, seq<W>>,
    executed: map<S, seq<W>>,
    overflows: seq<S>)

  datatype Action<S, W> =
    | Dispatch(socket: S, work: W, spawn: nat)  // dispatch; `spawn` names the goroutine started if there is none
    | Take(g: nat)                                    // run, one locked section
    | Finish(g: nat)                                  // run, work() returns
    | Done(g: nat)                                    // run, the deferred wg.Done

  function At<S(==), W>(m: map<S, seq<W>>, s: S): seq<W> {
    if s in m then m[s] else []
  }

  function Init<S(==), W>(queueSize: int): State<S, W> {
    State(queueSize, map[], 0, map[], map[], map[], [])
  }

  predicate Enabled<S(==, !new), W>(st: State<S, W>, a: Action<S, W>) {
    match a
    case Dispatch(_, _, g) => g !in st.workers
    case Take(g) => g in st.workers && st.workers[g].phase.AtLock?
    case Finish(g) => g in st.workers && st.workers[g].phase.Running?
    case Done(g) => g in st.workers && st.workers[g].phase.Exiting?
  }

  /** The locked section of dispatch, with the goroutine it may start. */
  function DispatchStep<S(==, !new), W>(st: State<S, W>, s: S, w: W, g: nat): State<S, W> {
    if |At(st.queues, s)| >= st.queueSize then
      st.(overflows := st.overflows + [s])
    else if s in st.queues then
      Enqueued(st, s, w)
    else
      Enqueued(st, s, w).(wg := st.wg + 1, workers := st.workers[g := Worker(s, AtLock)])
  }

  function Enqueued<S(==, !new), W>(st: State<S, W>, s: S, w: W): (st': State<S, W>)
    ensures forall t :: At(st'.queues, t) == if t == s then At(st.queues, s) + [w] else At(st.queues, t)
    ensures forall t :: At(st'.accepted, t) == if t == s then At(st.accepted, s) + [w] else At(st.accepted, t)
  {
    st.(queues := st.queues[s := At(st.queues, s) + [w]], accepted := st.accepted[s := At(st.accepted, s) + [w]])
  }

  /** One locked section of run: pop the first piece of work, or delete the key and leave. */
  function TakeStep<S(==, !new), W>(st: State<S, W>, g: nat): State<S, W>
    requires g in st.workers
  {
    var s := st.workers[g].socket;
    var queue := At(st.queues, s);
    if queue == [] then
      st.(queues := st.queues - {s}, workers := st.workers[g := Worker(s, Exiting)])
    else
      st.(queues := st.queues[s := queue[1..]], workers := st.workers[g := Worker(s, Running(queue[0]))])
  }

  function FinishStep<S(==, !new), W>(st: State<S, W>, g: nat): State<S, W>
    requires g in st.workers && st.workers[g].phase.Running?
  {
    var s := st.workers[g].socket;
    st.(workers := st.workers[g := Worker(s, AtLock)],
        executed := st.executed[s := At(st.executed, s) + [st.workers[g].phase.work]])
  }

  function DoneStep<S(==, !new), W>(st: State<S, W>, g: nat): State<S, W> {
    st.(wg := st.wg - 1, workers := st.workers - {g})
  }

  function Apply<S(==, !new), W>(st: State<S, W>, a: Action<S, W>): State<S, W>
    requires Enabled(st, a)
  {
    match a
    case Dispatch(s, w, g) => DispatchStep(st, s, w, g)
    case Take(g) => TakeStep(st, g)
    case Finish(g) => FinishStep(st, g)
    case Done(g) => DoneStep(st, g)
  }

  /** st' is reached from st by the actions in order: one interleaving of dispatches and worker steps. */
  ghost predicate Steps<S(!new), W>(st: State<S, W>, acts: seq<Action<S, W>>, st': State<S, W>)
    decreases |acts|
  {
    if acts == [] then st' == st
    else Enabled(st, acts[0]) && Steps(Apply(st, acts[0]), acts[1..], st')
  }

  // --- The invariant ---

  ghost predicate Draining<S(!new), W>(st: State<S, W>, g: nat, s: S) {
    g in st.workers && st.workers[g].socket == s && !st.workers[g].phase.Exiting?
  }

  ghost predicate Runs<S(!new), W>(st: State<S, W>, g: nat, s: S) {
    g in st.workers && st.workers[g].socket == s && st.workers[g].phase.Running?
  }

  /** The work a socket's worker is running now, if any. */
  ghost function RunningOn<S(!new), W>(st: State<S, W>, s: S): seq<W> {
    if exists g :: Runs(st, g, s) then
      var g :| Runs(st, g, s);
      [st.workers[g].phase.work]
    else
      []
  }

  /** A key is in `queues` exactly when one draining worker exists for it. */
  ghost predicate OneWorker<S(!new), W>(st: State<S, W>) {
    && (forall s | s in st.queues :: exists g :: Draining(st, g, s))
    && (forall g, s | Draining(st, g, s) :: s in st.queues)
    && (forall g, h, s | Draining(st, g, s) && Draining(st, h, s) :: g == h)
  }

  /** Executed, then running, then pending work is the accepted work, in order. */
  ghost predicate Conserved<S(!new), W>(st: State<S, W>, s: S) {
    At(st.accepted, s) == At(st.executed, s) + RunningOn(st, s) + At(st.queues, s)
  }

  ghost predicate Inv<S(!new), W>(st: State<S, W>) {
    && OneWorker(st)
    && st.wg == |st.workers|
    && (forall s :: Conserved(st, s))
    && (forall s | s in st.queues :: |st.queues[s]| <= st.queueSize)
  }

  lemma InitInv<S(!new), W>(queueSize: int)
    ensures Inv(Init<S, W>(queueSize))
  {
  }

  lemma RunningIs<S(!new), W>(st: State<S, W>, g: nat, s: S)
    requires OneWorker(st) && Runs(st, g, s)
    ensures RunningOn(st, s) == [st.workers[g].phase.work]
  {
    assert Draining(st, g, s);
    forall h | Runs(st, h, s) ensures h == g {
      assert Draining(st, h, s);
    }
  }

  lemma IdleRunsNothing<S(!new), W>(st: State<S, W>, g: nat, s: S)
    requires OneWorker(st) && Draining(st, g, s) && !Runs(st, g, s)
    ensures RunningOn(st, s) == []
  {
    forall h | Runs(st, h, s) ensures false {
      assert Draining(st, h, s);
    }
  }

  /** A step by or for one socket leaves what another socket runs as it was. */
  lemma SameRunning<S(!new), W>(st: State<S, W>, st': State<S, W>, s: S)
    requires OneWorker(st) && OneWorker(st')
    requires forall g :: Runs(st, g, s) <==> Runs(st', g, s)
    requires forall g | Runs(st, g, s) && Runs(st', g, s) :: st'.workers[g].phase == st.workers[g].phase
    ensures RunningOn(st', s) == RunningOn(st, s)
  {
    if g :| Runs(st, g, s) {
      RunningIs(st, g, s);
      RunningIs(st', g, s);
    }
  }

  lemma DispatchOneWorker<S(!new), W>(st: State<S, W>, s: S, w: W, g: nat)
    requires OneWorker(st) && g !in st.workers
    ensures OneWorker(DispatchStep(st, s, w, g))
  {
    var st' := DispatchStep(st, s, w, g);
    assert forall h, t :: Draining(st, h, t) ==> Draining(st', h, t);
    assert forall h, t :: Draining(st', h, t) ==> Draining(st, h, t) || (h == g && t == s && s !in st.queues);
    forall t | t in st'.queues ensures exists h :: Draining(st', h, t) {
      if t in st.queues {
        var h :| Draining(st, h, t);
        assert Draining(st', h, t);
      } else {
        assert Draining(st', g, t);
      }
    }
  }

  lemma DispatchRunsSame<S(!new), W>(st: State<S, W>, s: S, w: W, g: nat, t: S)
    requires OneWorker(st) && g !in st.workers
    ensures RunningOn(DispatchStep(st, s, w, g), t) == RunningOn(st, t)
  {
    hide OneWorker;
    DispatchOneWorker(st, s, w, g);
    SameRunning(st, DispatchStep(st, s, w, g), t);
  }

  lemma DispatchAppends<S(!new), W>(st: State<S, W>, s: S, w: W, g: nat, t: S)
    ensures var st' := DispatchStep(st, s, w, g);
      var more := if t == s && |At(st.queues, s)| < st.queueSize then [w] else [];
      && At(st'.queues, t) == At(st.queues, t) + more
      && At(st'.accepted, t) == At(st.accepted, t) + more
      && st'.executed == st.executed
  {
  }

  lemma DispatchConserves<S(!new), W>(st: State<S, W>, s: S, w: W, g: nat, t: S)
    requires OneWorker(st) && g !in st.workers && Conserved(st, t)
    ensures Conserved(DispatchStep(st, s, w, g), t)
  {
    hide OneWorker, RunningOn, DispatchStep;
    DispatchRunsSame(st, s, w, g, t);
    DispatchAppends(st, s, w, g, t);
    var more := if t == s && |At(st.queues, s)| < st.queueSize then [w] else [];
    var done, running, pending := At(st.executed, t), RunningOn(st, t), At(st.queues, t);
    assert (done + running + pending) + more == done + running + (pending + more);
  }

  lemma DispatchInv<S(!new), W>(st: State<S, W>, s: S, w: W, g: nat)
    requires Inv(st) && g !in st.workers
    ensures Inv(DispatchStep(st, s, w, g))
  {
    hide OneWorker, Conserved;
    DispatchOneWorker(st, s, w, g);
    forall t ensures Conserved(DispatchStep(st, s, w, g), t) {
      assert Conserved(st, t);
      DispatchConserves(st, s, w, g, t);
    }
  }

  /** A worker that takes its last step at an empty queue stops draining; every other worker stays as it was. */
  lemma TakeOneWorker<S(!new), W>(st: State<S, W>, g: nat)
    requires OneWorker(st) && Enabled(st, Take(g))
    ensures OneWorker(TakeStep(st, g))
  {
    var st' := TakeStep(st, g);
    var s := st.workers[g].socket;
    assert Draining(st, g, s);
    assert forall h, t :: Draining(st', h, t) ==> Draining(st, h, t);
    assert forall h, t :: Draining(st, h, t) && (h != g || At(st.queues, s) != []) ==> Draining(st', h, t);
    forall t | t in st'.queues ensures exists h :: Draining(st', h, t) {
      var h :| Draining(st, h, t);
      assert Draining(st', h, t);
    }
    forall h, t | Draining(st', h, t) ensures t in st'.queues {
      assert Draining(st, h, t);
    }
  }

  lemma TakeConserves<S(!new), W>(st: State<S, W>, g: nat, t: S)
    requires OneWorker(st) && Enabled(st, Take(g)) && Conserved(st, t)
    ensures Conserved(TakeStep(st, g), t)
  {
    var st' := TakeStep(st, g);
    var s := st.workers[g].socket;
    TakeOneWorker(st, g);
    assert Draining(st, g, s);
    if t != s {
      SameRunning(st, st', t);
    } else if At(st.queues, s) == [] {
      IdleRunsNothing(st, g, s);
      forall h ensures !Runs(st', h, s) {
        assert Runs(st', h, s) ==> Draining(st, h, s);
      }
    } else {
      IdleRunsNothing(st, g, s);
      RunningIs(st', g, s);
    }
  }

  lemma TakeInv<S(!new), W>(st: State<S, W>, g: nat)
    requires Inv(st) && Enabled(st, Take(g))
    ensures Inv(TakeStep(st, g))
  {
    hide OneWorker, Conserved;
    TakeOneWorker(st, g);
    forall t ensures Conserved(TakeStep(st, g), t) {
      assert Conserved(st, t);
      TakeConserves(st, g, t);
    }
    assert st.workers.Keys == TakeStep(st, g).workers.Keys;
  }

  lemma FinishInv<S(!new), W>(st: State<S, W>, g: nat)
    requires Inv(st) && Enabled(st, Finish(g))
    ensures Inv(FinishStep(st, g))
  {
    var st' := FinishStep(st, g);
    var s := st.workers[g].socket;
    assert forall h, t :: Draining(st', h, t) <==> Draining(st, h, t);
    RunningIs(st, g, s);
    IdleRunsNothing(st', g, s);
    forall t ensures Conserved(st', t) {
      assert Conserved(st, t);
      if t != s {
        SameRunning(st, st', t);
      }
    }
  }

  lemma DoneOneWorker<S(!new), W>(st: State<S, W>, g: nat)
    requires OneWorker(st) && Enabled(st, Done(g))
    ensures OneWorker(DoneStep(st, g))
  {
    var st' := DoneStep(st, g);
    assert forall h, t :: Draining(st', h, t) <==> Draining(st, h, t);
    forall s | s in st'.queues ensures exists h :: Draining(st', h, s) {
      var h :| Draining(st, h, s);
      assert Draining(st', h, s);
    }
  }

  lemma DoneConserves<S(!new), W>(st: State<S, W>, g: nat, t: S)
    requires OneWorker(st) && Enabled(st, Done(g)) && Conserved(st, t)
    ensures Conserved(DoneStep(st, g), t)
  {
    hide OneWorker;
    DoneOneWorker(st, g);
    SameRunning(st, DoneStep(st, g), t);
  }

  lemma DoneInv<S(!new), W>(st: State<S, W>, g: nat)
    requires Inv(st) && Enabled(st, Done(g))
    ensures Inv(DoneStep(st, g))
  {
    hide OneWorker, Conserved;
    DoneOneWorker(st, g);
    assert st.workers.Keys == DoneStep(st, g).workers.Keys + {g};
    forall t ensures Conserved(DoneStep(st, g), t) {
      assert Conserved(st, t);
      DoneConserves(st, g, t);
    }
  }

  lemma ApplyInv<S(!new), W>(st: State<S, W>, a: Action<S, W>)
    requires Inv(st) && Enabled(st, a)
    ensures Inv(Apply(st, a))
  {
    hide Inv, DispatchStep, TakeStep, FinishStep, DoneStep;
    match a
    case Dispatch(s, w, g) => DispatchInv(st, s, w, g);
    case Take(g) => TakeInv(st, g);
    case Finish(g) => FinishInv(st, g);
    case Done(g) => DoneInv(st, g);
  }

  lemma {:induction false} StepsInv<S(!new), W>(st: State<S, W>, acts: seq<Action<S, W>>, st': State<S, W>)
    requires Inv(st) && Steps(st, acts, st')
    ensures Inv(st')
    decreases |acts|
  {
    hide Inv, Apply;
    if acts != [] {
      ApplyInv(st, acts[0]);
      StepsInv(Apply(st, acts[0]), acts[1..], st');
    }
  }

  // --- What every interleaving guarantees ---

  /** In every interleaving of dispatches and worker steps nothing accepted is lost, duplicated or reordered,
      one draining worker exists per key, and no socket holds more than queueSize + 1 unfinished pieces of work. */
  lemma FifoInEveryInterleaving<S(!new), W>(queueSize: int, acts: seq<Action<S, W>>, st: State<S, W>, s: S)
    requires Steps(Init<S, W>(queueSize), acts, st)
    ensures At(st.accepted, s) == At(st.executed, s) + RunningOn(st, s) + At(st.queues, s)
    ensures s in st.queues <==> exists g :: Draining(st, g, s)
    ensures forall g, h | Draining(st, g, s) && Draining(st, h, s) :: g == h
    ensures s in st.queues ==> |At(st.accepted, s)| - |At(st.executed, s)| <= queueSize + 1
    ensures s !in st.queues ==> At(st.accepted, s) == At(st.executed, s)
  {
    InitInv<S, W>(queueSize);
    StepsInv(Init(queueSize), acts, st);
    SameSize(Init(queueSize), acts, st);
    assert Conserved(st, s);
    if s !in st.queues {
      forall g ensures !Runs(st, g, s) {
        assert !Draining(st, g, s);
      }
    }
  }

  lemma {:induction false} SameSize<S(!new), W>(st: State<S, W>, acts: seq<Action<S, W>>, st': State<S, W>)
    requires Steps(st, acts, st')
    ensures st'.queueSize == st.queueSize
    decreases |acts|
  {
    if acts != [] {
      SameSize(Apply(st, acts[0]), acts[1..], st');
    }
  }

  /** The WaitGroup counts the draining workers plus those that still owe their Done. */
  lemma WaitGroupCounts<S(!new), W>(st: State<S, W>)
    requires Inv(st)
    ensures st.wg == |set g | g in st.workers && !st.workers[g].phase.Exiting?| + |set g | g in st.workers
          && st.workers[g].phase.Exiting?|
    ensures st.wg >= 0
  {
    var draining := set g | g in st.workers && !st.workers[g].phase.Exiting?;
    var exiting := set g | g in st.workers && st.workers[g].phase.Exiting?;
    assert st.workers.Keys == draining + exiting && draining !! exiting;
  }

  /** When wait returns, no queue is left and every socket's accepted work has executed. */
  lemma WaitMeansDone<S(!new), W>(queueSize: int, acts: seq<Action<S, W>>, st: State<S, W>)
    requires Steps(Init<S, W>(queueSize), acts, st) && st.wg == 0
    ensures st.queues == map[] && forall s :: At(st.executed, s) == At(st.accepted, s)
  {
    InitInv<S, W>(queueSize);
    StepsInv(Init(queueSize), acts, st);
    assert st.workers == map[];
    forall s ensures s !in st.queues && At(st.executed, s) == At(st.accepted, s) {
      FifoInEveryInterleaving(queueSize, acts, st, s);
    }
  }

  // --- Draining ends ---

  ghost function Left<S(!new), W>(st: State<S, W>, g: nat): nat
    requires g in st.workers
  {
    match st.workers[g].phase
    case Exiting => 1
    case Running(_) => 3 + 2 * |At(st.queues, st.workers[g].socket)|
    case AtLock => 2 + 2 * |At(st.queues, st.workers[g].socket)|
  }

  ghost function LeftIn<S(!new), W>(st: State<S, W>, gs: set<nat>): nat
    requires gs <= st.workers.Keys
    decreases |gs|
  {
    if gs == {} then 0 else
      var g :| g in gs;
      Left(st, g) + LeftIn(st, gs - {g})
  }

  /** Steps still owed by all workers: pending, running and exiting work. */
  ghost function Measure<S(!new), W>(st: State<S, W>): nat {
    LeftIn(st, st.workers.Keys)
  }

  lemma {:induction false} LeftSplit<S(!new), W>(st: State<S, W>, gs: set<nat>, g: nat)
    requires gs <= st.workers.Keys && g in gs
    ensures LeftIn(st, gs) == Left(st, g) + LeftIn(st, gs - {g})
    decreases |gs|
  {
    var h :| h in gs && LeftIn(st, gs) == Left(st, h) + LeftIn(st, gs - {h});
    if h != g {
      LeftSplit(st, gs - {h}, g);
      LeftSplit(st, gs - {g}, h);
      assert gs - {h} - {g} == gs - {g} - {h};
    }
  }

  lemma {:induction false} LeftFrame<S(!new), W>(st: State<S, W>, st': State<S, W>, gs: set<nat>)
    requires gs <= st.workers.Keys && gs <= st'.workers.Keys
    requires forall g | g in gs :: Left(st, g) == Left(st', g)
    ensures LeftIn(st, gs) == LeftIn(st', gs)
    decreases |gs|
  {
    if gs != {} {
      var g :| g in gs;
      LeftSplit(st, gs, g);
      LeftSplit(st', gs, g);
      LeftFrame(st, st', gs - {g});
    }
  }

  ghost predicate WorkerStep<S(!new), W>(a: Action<S, W>) {
    !a.Dispatch?
  }

  /** Every worker step brings the end one step closer. */
  lemma WorkerStepDecreases<S(!new), W>(st: State<S, W>, a: Action<S, W>)
    requires Inv(st) && Enabled(st, a) && WorkerStep(a)
    ensures Measure(Apply(st, a)) < Measure(st)
  {
    var g, st' := a.g, Apply(st, a);
    var others := st.workers.Keys - {g};
    LeftSplit(st, st.workers.Keys, g);
    forall h | h in others ensures Left(st, h) == Left(st', h) {
      if !st.workers[h].phase.Exiting? && !a.Done? {
        assert Draining(st, h, st.workers[h].socket) && Draining(st, g, st.workers[g].socket);
        assert st.workers[h].socket != st.workers[g].socket;
      }
    }
    LeftFrame(st, st', others);
    if a.Done? {
      assert st'.workers.Keys == others;
    } else {
      assert st'.workers.Keys == st.workers.Keys;
      LeftSplit(st', st'.workers.Keys, g);
    }
  }

  /** Once dispatching stops, workers can always step until wait returns, and do so within Measure steps. */
  lemma {:induction false} DrainsWithin<S(!new), W>(st: State<S, W>, acts: seq<Action<S, W>>, st': State<S, W>)
    requires Inv(st) && Steps(st, acts, st') && forall i | 0 <= i < |acts| :: WorkerStep(acts[i])
    ensures |acts| + Measure(st') <= Measure(st)
    ensures st'.wg > 0 <==> exists a :: WorkerStep(a) && Enabled(st', a)
    decreases |acts|
  {
    StepsInv(st, acts, st');
    if acts != [] {
      WorkerStepDecreases(st, acts[0]);
      ApplyInv(st, acts[0]);
      DrainsWithin(Apply(st, acts[0]), acts[1..], st');
    }
    if st'.wg > 0 {
      assert st'.workers.Keys != {};
      var g :| g in st'.workers;
      var a: Action<S, W> :=
        match st'.workers[g].phase case AtLock => Take(g) case Running(_) => Finish(g) case Exiting => Done(g);
      assert WorkerStep(a) && Enabled(st', a);
    } else {
      assert st'.workers.Keys == {};
    }
  }

  // --- Sockets progress independently ---

  ghost function SocketOf<S(!new), W>(st: State<S, W>, a: Action<S, W>): S
    requires Enabled(st, a)
  {
    match a
    case Dispatch(s, _, _) => s
    case Take(g) => st.workers[g].socket
    case Finish(g) => st.workers[g].socket
    case Done(g) => st.workers[g].socket
  }

  /** What a step does to the parts of the state that belong to other sockets: nothing. */
  lemma OnlyOwnSocket<S(!new), W>(st: State<S, W>, a: Action<S, W>, s: S)
    requires Enabled(st, a) && s != SocketOf(st, a)
    ensures SameSocket(st, Apply(st, a), s)
  {
  }

  ghost predicate SameSocket<S(!new), W>(st: State<S, W>, other: State<S, W>, s: S) {
    && (s in other.queues <==> s in st.queues) && At(other.queues, s) == At(st.queues, s)
    && At(other.accepted, s) == At(st.accepted, s) && At(other.executed, s) == At(st.executed, s)
  }

  ghost function Key<S(!new), W>(a: Action<S, W>): nat {
    if a.Dispatch? then a.spawn else a.g
  }

  lemma OnlyOwnWorker<S(!new), W>(st: State<S, W>, a: Action<S, W>, g: nat)
    requires Enabled(st, a) && g != Key(a)
    ensures g in Apply(st, a).workers <==> g in st.workers
    ensures g in st.workers ==> Apply(st, a).workers[g] == st.workers[g]
  {
  }

  /** Two states that look alike to a step's socket, after that step, still do, and it did the same to both. */
  ghost predicate Alike<S(!new), W>(st: State<S, W>, other: State<S, W>, st': State<S, W>, other': State<S, W>, s: S,
                                    g: nat) {
    && SameSocket(st', other', s)
    && (g in st'.workers <==> g in other'.workers) && (g in st'.workers ==> st'.workers[g] == other'.workers[g])
    && other'.wg - other.wg == st'.wg - st.wg
    && |other'.overflows| - |other.overflows| == |st'.overflows| - |st.overflows|
    && other'.queueSize == st'.queueSize
  }

  lemma SameDispatch<S(!new), W>(st: State<S, W>, other: State<S, W>, s: S, w: W, g: nat)
    requires g !in st.workers && g !in other.workers && other.queueSize == st.queueSize && SameSocket(st, other, s)
    ensures Alike(st, other, DispatchStep(st, s, w, g), DispatchStep(other, s, w, g), s, g)
  {
    if |At(st.queues, s)| >= st.queueSize {
    } else if s in st.queues {
    } else {
    }
  }

  lemma SameTake<S(!new), W>(st: State<S, W>, other: State<S, W>, g: nat)
    requires g in st.workers && g in other.workers && other.workers[g] == st.workers[g]
    requires other.queueSize == st.queueSize && SameSocket(st, other, st.workers[g].socket)
    ensures Alike(st, other, TakeStep(st, g), TakeStep(other, g), st.workers[g].socket, g)
  {
  }

  /** What a step does is decided by the parts of the state that belong to its socket and goroutine. */
  lemma SameEffect<S(!new), W>(st: State<S, W>, other: State<S, W>, a: Action<S, W>)
    requires Enabled(st, a) && Enabled(other, a) && other.queueSize == st.queueSize
    requires !a.Dispatch? ==> other.workers[a.g] == st.workers[a.g]
    requires SameSocket(st, other, SocketOf(st, a))
    ensures Alike(st, other, Apply(st, a), Apply(other, a), SocketOf(st, a), Key(a))
  {
    hide DispatchStep, TakeStep;
    match a
    case Dispatch(s, w, g) => SameDispatch(st, other, s, w, g);
    case Take(g) => SameTake(st, other, g);
    case _ =>
  }

  lemma StillEnabled<S(!new), W>(st: State<S, W>, a: Action<S, W>, b: Action<S, W>)
    requires Enabled(st, a) && Enabled(st, b) && SocketOf(st, a) != SocketOf(st, b)
    requires a.Dispatch? && b.Dispatch? ==> a.spawn != b.spawn
    ensures Key(a) != Key(b) && Enabled(Apply(st, a), b) && SocketOf(Apply(st, a), b) == SocketOf(st, b)
    ensures !b.Dispatch? ==> Apply(st, a).workers[b.g] == st.workers[b.g]
    ensures Apply(st, a).queueSize == st.queueSize
  {
    OnlyOwnWorker(st, a, Key(b));
  }

  /** Steps for different sockets commute, whatever state either socket is in: neither can block,
      delay or reorder the other. */
  lemma SocketsIndependent<S(!new), W>(st: State<S, W>, a: Action<S, W>, b: Action<S, W>, s: S, g: nat)
    requires Enabled(st, a) && Enabled(st, b) && SocketOf(st, a) != SocketOf(st, b)
    requires a.Dispatch? && b.Dispatch? ==> a.spawn != b.spawn
    ensures Enabled(Apply(st, a), b) && Enabled(Apply(st, b), a)
    ensures var ab, ba := Apply(Apply(st, a), b), Apply(Apply(st, b), a);
      && SameSocket(ab, ba, s)
      && (g in ab.workers <==> g in ba.workers) && (g in ab.workers ==> ab.workers[g] == ba.workers[g])
      && ab.wg == ba.wg && |ab.overflows| == |ba.overflows|
  {
    hide Apply;
    var sa, sb := Apply(st, a), Apply(st, b);
    StillEnabled(st, a, b);
    StillEnabled(st, b, a);
    OnlyOwnSocket(st, a, SocketOf(st, b));
    OnlyOwnSocket(st, b, SocketOf(st, a));
    SameEffect(st, sb, a);
    SameEffect(st, sa, b);
    if s != SocketOf(st, a) {
      OnlyOwnSocket(st, a, s);
      OnlyOwnSocket(sb, a, s);
    }
    if s != SocketOf(st, b) {
      OnlyOwnSocket(st, b, s);
      OnlyOwnSocket(sa, b, s);
    }
    if g != Key(a) {
      OnlyOwnWorker(st, a, g);
      OnlyOwnWorker(sb, a, g);
    }
    if g != Key(b) {
      OnlyOwnWorker(st, b, g);
      OnlyOwnWorker(sa, b, g);
    }
  }
}
