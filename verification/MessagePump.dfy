/** The pump loop of serveMessages running beside the dispatcher's workers, and
    what a sender may conclude from the ack it gets. */
module MessagePump {
  import opened Sequences
  import opened DispatchModel

  /** A decoded request; the ID stands for the message's reply inbox, which is its own. */
  datatype Request = Request(id: nat, streamed: bool)

  datatype Ack = Accepted | ChunkSubject | Malformed | SlowConsumer

  /** Where the pump is: waiting for a message, or about to respond. */
  datatype Pump = Idle | Answer(id: nat, ack: Ack)

  datatype AckEntry = AckEntry(id: nat, ack: Ack)

  datatype PumpState<S(==)> = PumpState(
    disp: DispatchModel.State<S, Request>,
    received: set<nat>,
    pump: Pump,
    // Each ack decided on, once. One without a reply subject, or that fails to be published, reaches nobody.
    acks: seq<AckEntry>,
    // Workers that have already published the chunk subject of the request they are running.
    subjectSent: set<nat>)

  datatype Event<S> =
    | Garbage(id: nat)                               // decode fails
    | Receive(socket: S, req: Request, spawn: nat)   // decode and dispatch
    | Respond                                         // respondAck from the pump
    | Worker(a: Action<S, Request>)                   // any step of a worker
    | SendSubject(g: nat)                             // the ack of receiveChunks

  function Start<S(==)>(queueSize: int): PumpState<S> {
    PumpState(DispatchModel.Init(queueSize), {}, Idle, [], {})
  }

  predicate Enabled<S(==, !new)>(st: PumpState<S>, e: Event<S>) {
    match e
    case Garbage(id) => st.pump.Idle? && id !in st.received
    case Receive(_, req, g) => st.pump.Idle? && req.id !in st.received && g !in st.disp.workers
    case Respond => st.pump.Answer?
    case Worker(a) => !a.Dispatch? && DispatchModel.Enabled(st.disp, a)
    case SendSubject(g) =>
      && g in st.disp.workers && st.disp.workers[g].phase.Running?
      && st.disp.workers[g].phase.work.streamed && g !in st.subjectSent
  }

  function Apply<S(==, !new)>(st: PumpState<S>, e: Event<S>): PumpState<S>
    requires Enabled(st, e)
  {
    match e
    case Garbage(id) =>
      st.(received := st.received + {id}, pump := Answer(id, Malformed))
    case Receive(s, req, g) =>
      var ok := |At(st.disp.queues, s)| < st.disp.queueSize;
      st.(received := st.received + {req.id},
          disp := DispatchStep(st.disp, s, req, g),
          pump := if !ok then Answer(req.id, SlowConsumer)
                  else if !req.streamed then Answer(req.id, Accepted)
                  else Idle)
    case Respond =>
      st.(acks := st.acks + [AckEntry(st.pump.id, st.pump.ack)], pump := Idle)
    case Worker(a) =>
      st.(disp := DispatchModel.Apply(st.disp, a),
          subjectSent := if a.Finish? then st.subjectSent - {a.g} else st.subjectSent)
    case SendSubject(g) =>
      st.(acks := st.acks + [AckEntry(st.disp.workers[g].phase.work.id, ChunkSubject)],
          subjectSent := st.subjectSent + {g})
  }

  ghost predicate Steps<S(!new)>(st: PumpState<S>, es: seq<Event<S>>, st': PumpState<S>)
    decreases |es|
  {
    if es == [] then st' == st
    else Enabled(st, es[0]) && Steps(Apply(st, es[0]), es[1..], st')
  }

  // --- The invariant ---

  /** The i-th request dispatch accepted for s is req. */
  ghost predicate Logged<S>(disp: DispatchModel.State<S, Request>, s: S, i: nat, req: Request) {
    s in disp.accepted && i < |disp.accepted[s]| && disp.accepted[s][i] == req
  }

  ghost predicate WasAccepted<S(!new)>(disp: DispatchModel.State<S, Request>, req: Request) {
    exists s, i :: Logged(disp, s, i, req)
  }

  ghost predicate Acked<S>(st: PumpState<S>, id: nat, ack: Ack) {
    AckEntry(id, ack) in st.acks
  }

  ghost predicate Unanswered<S>(st: PumpState<S>, id: nat) {
    (forall ack :: !Acked(st, id, ack)) && !(st.pump.Answer? && st.pump.id == id)
  }

  /** Each request is logged at most once, and only after it was received. */
  ghost predicate LoggedOnce<S(!new)>(st: PumpState<S>) {
    && (forall s, i, req | Logged(st.disp, s, i, req) :: req.id in st.received)
    && (forall s, i, req, t, j, other | Logged(st.disp, s, i, req) && Logged(st.disp, t, j, other)
          && req.id == other.id :: s == t && i == j)
  }

  ghost predicate AckedOnce<S>(st: PumpState<S>) {
    && (forall i | 0 <= i < |st.acks| :: st.acks[i].id in st.received)
    && (forall i, j | 0 <= i < j < |st.acks| :: st.acks[i].id != st.acks[j].id)
    && (st.pump.Answer? ==> st.pump.id in st.received && forall ack :: !Acked(st, st.pump.id, ack))
  }

  /** The ack `ack` tells the truth about request `id`. */
  ghost predicate Truthful<S(!new)>(st: PumpState<S>, id: nat, ack: Ack) {
    match ack
    case Accepted => WasAccepted(st.disp, Request(id, false))
    case ChunkSubject => WasAccepted(st.disp, Request(id, true))
    case _ => !WasAccepted(st.disp, Request(id, false)) && !WasAccepted(st.disp, Request(id, true))
  }

  ghost predicate AcksTruthful<S(!new)>(st: PumpState<S>) {
    && (forall id, ack | Acked(st, id, ack) :: Truthful(st, id, ack))
    && (st.pump.Answer? ==> st.pump.ack != ChunkSubject && Truthful(st, st.pump.id, st.pump.ack))
  }

  ghost predicate InlineAnswered<S(!new)>(st: PumpState<S>) {
    forall id | WasAccepted(st.disp, Request(id, false)) :: Acked(st, id, Accepted) || st.pump == Answer(id, Accepted)
  }

  /** A chunk subject was sent only by the worker now running the request, or by one that finished it. */
  ghost predicate SubjectFromRunner<S(!new)>(st: PumpState<S>) {
    forall id | Acked(st, id, ChunkSubject) ::
      || (exists g, s ::
           g in st.subjectSent && Runs(st.disp, g, s) && st.disp.workers[g].phase.work == Request(id, true))
      || (exists s :: Request(id, true) in At(st.disp.executed, s))
  }

  ghost function SlowAcks(acks: seq<AckEntry>): nat {
    if acks == [] then 0 else SlowAcks(acks[..|acks| - 1]) + if acks[|acks| - 1].ack == SlowConsumer then 1 else 0
  }

  /** One overflow callback per rejected request. */
  ghost predicate OverflowPerRejection<S>(st: PumpState<S>) {
    |st.disp.overflows| == SlowAcks(st.acks) + if st.pump.Answer? && st.pump.ack == SlowConsumer then 1 else 0
  }

  ghost predicate Inv<S(!new)>(st: PumpState<S>) {
    && DispatchModel.Inv(st.disp)
    && LoggedOnce(st) && AckedOnce(st) && AcksTruthful(st) && InlineAnswered(st) && SubjectFromRunner(st)
    && OverflowPerRejection(st)
  }

  lemma StartInv<S(!new)>(queueSize: int)
    ensures Inv(Start<S>(queueSize))
  {
    InitInv<S, Request>(queueSize);
  }

  // --- Preservation ---

  lemma AckAppended<S(!new)>(st: PumpState<S>, e: AckEntry)
    ensures forall id, ack :: Acked(st.(acks := st.acks + [e]), id, ack) <==>
      Acked(st, id, ack) || e == AckEntry(id, ack)
    ensures SlowAcks(st.acks + [e]) == SlowAcks(st.acks) + if e.ack == SlowConsumer then 1 else 0
  {
    assert (st.acks + [e])[..|st.acks|] == st.acks;
  }

  lemma GarbageInv<S(!new)>(st: PumpState<S>, id: nat)
    requires Inv(st) && Enabled(st, Garbage(id))
    ensures Inv(Apply(st, Garbage(id)))
  {
    hide DispatchModel.Inv;
    var st' := Apply(st, Garbage(id));
    assert forall i, ack :: Acked(st', i, ack) <==> Acked(st, i, ack);
    assert !WasAccepted(st.disp, Request(id, false)) && !WasAccepted(st.disp, Request(id, true));
    forall i, ack | Acked(st', i, ack) ensures Truthful(st', i, ack) {
      assert Truthful(st, i, ack);
    }
  }

  lemma RespondInv<S(!new)>(st: PumpState<S>)
    requires Inv(st) && Enabled(st, Respond)
    ensures Inv(Apply(st, Respond))
  {
    hide DispatchModel.Inv, SlowAcks;
    var st' := Apply(st, Respond);
    var e := AckEntry(st.pump.id, st.pump.ack);
    AckAppended(st, e);
    assert forall id, ack :: Acked(st', id, ack) <==> Acked(st, id, ack) || e == AckEntry(id, ack);
    forall i, ack | Acked(st', i, ack) ensures Truthful(st', i, ack) {
      assert Truthful(st, i, ack);
    }
    forall i | 0 <= i < |st.acks| ensures st.acks[i].id != e.id {
      assert Acked(st, st.acks[i].id, st.acks[i].ack);
    }
  }

  /** What dispatch does to the log of accepted requests. */
  lemma DispatchLogs<S(!new)>(disp: DispatchModel.State<S, Request>, s: S, req: Request, g: nat)
    ensures var disp' := DispatchStep(disp, s, req, g);
      var ok := |At(disp.queues, s)| < disp.queueSize;
      && (forall t, i, r :: Logged(disp', t, i, r) <==>
           Logged(disp, t, i, r) || (ok && t == s && i == |At(disp.accepted, s)| && r == req))
      && (forall r :: WasAccepted(disp', r) <==> WasAccepted(disp, r) || (ok && r == req))
      && |disp'.overflows| == |disp.overflows| + (if ok then 0 else 1)
      && disp'.executed == disp.executed
      && (forall h, t | Runs(disp, h, t) && h != g :: Runs(disp', h, t) && disp'.workers[h] == disp.workers[h])
  {
    var disp' := DispatchStep(disp, s, req, g);
    var ok := |At(disp.queues, s)| < disp.queueSize;
    assert forall t, i, r :: Logged(disp', t, i, r) <==>
      Logged(disp, t, i, r) || (ok && t == s && i == |At(disp.accepted, s)| && r == req);
    if ok {
      assert Logged(disp', s, |At(disp.accepted, s)|, req);
    }
    forall r ensures WasAccepted(disp', r) <==> WasAccepted(disp, r) || (ok && r == req) {
      if WasAccepted(disp, r) {
        var t, i :| Logged(disp, t, i, r);
        assert Logged(disp', t, i, r);
      }
    }
  }

  lemma ReceiveInv<S(!new)>(st: PumpState<S>, s: S, req: Request, g: nat)
    requires Inv(st) && Enabled(st, Receive(s, req, g))
    ensures Inv(Apply(st, Receive(s, req, g)))
  {
    hide DispatchModel.Inv, DispatchStep, SlowAcks;
    var st' := Apply(st, Receive(s, req, g));
    DispatchInv(st.disp, s, req, g);
    DispatchLogs(st.disp, s, req, g);
    assert forall i, ack :: Acked(st', i, ack) <==> Acked(st, i, ack);
    forall i, ack | Acked(st', i, ack) ensures Truthful(st', i, ack) && i != req.id {
      assert Truthful(st, i, ack);
      var k :| 0 <= k < |st.acks| && st.acks[k] == AckEntry(i, ack);
    }
    assert !WasAccepted(st.disp, Request(req.id, false)) && !WasAccepted(st.disp, Request(req.id, true));
    assert SubjectFromRunner(st') by {
      forall id | Acked(st', id, ChunkSubject)
        ensures || (exists h, t ::
          h in st'.subjectSent && Runs(st'.disp, h, t) && st'.disp.workers[h].phase.work == Request(id, true))
          || (exists t :: Request(id, true) in At(st'.disp.executed, t))
      {
        if h, t :| h in st.subjectSent && Runs(st.disp, h, t) && st.disp.workers[h].phase.work == Request(id, true) {
          assert Runs(st'.disp, h, t);
        }
      }
    }
  }

  lemma WorkerFrames<S(!new)>(disp: DispatchModel.State<S, Request>, a: Action<S, Request>)
    requires DispatchModel.Enabled(disp, a) && !a.Dispatch?
    ensures var disp' := DispatchModel.Apply(disp, a);
      && disp'.accepted == disp.accepted && disp'.overflows == disp.overflows
      && (forall h, t | Runs(disp, h, t) && !(a.Finish? && h == a.g) ::
           Runs(disp', h, t) && disp'.workers[h] == disp.workers[h])
      && (forall t, r | r in At(disp.executed, t) :: r in At(disp'.executed, t))
      && (a.Finish? ==> disp.workers[a.g].phase.work in At(disp'.executed, disp.workers[a.g].socket))
  {
    if a.Finish? {
      var s, w := disp.workers[a.g].socket, disp.workers[a.g].phase.work;
      assert (At(disp.executed, s) + [w])[|At(disp.executed, s)|] == w;
    }
  }

  lemma WorkerInv<S(!new)>(st: PumpState<S>, a: Action<S, Request>)
    requires Inv(st) && Enabled(st, Event.Worker(a))
    ensures Inv(Apply(st, Event.Worker(a)))
  {
    hide DispatchModel.Inv, DispatchModel.Apply, SlowAcks;
    var st' := Apply(st, Event.Worker(a));
    ApplyInv(st.disp, a);
    WorkerFrames(st.disp, a);
    assert forall s, i, r :: Logged(st'.disp, s, i, r) <==> Logged(st.disp, s, i, r);
    assert forall r :: WasAccepted(st'.disp, r) <==> WasAccepted(st.disp, r);
    assert forall i, ack :: Acked(st', i, ack) <==> Acked(st, i, ack);
    forall i, ack | Acked(st', i, ack) ensures Truthful(st', i, ack) {
      assert Truthful(st, i, ack);
    }
    assert SubjectFromRunner(st') by {
      forall id | Acked(st', id, ChunkSubject)
        ensures || (exists g, s ::
          g in st'.subjectSent && Runs(st'.disp, g, s) && st'.disp.workers[g].phase.work == Request(id, true))
          || (exists s :: Request(id, true) in At(st'.disp.executed, s))
      {
        if g, s :| g in st.subjectSent && Runs(st.disp, g, s) && st.disp.workers[g].phase.work == Request(id, true) {
          if !(a.Finish? && g == a.g) {
            assert Runs(st'.disp, g, s) && g in st'.subjectSent;
          }
        } else {
          var s :| Request(id, true) in At(st.disp.executed, s);
          assert Request(id, true) in At(st'.disp.executed, s);
        }
      }
    }
  }

  /** A request that is running has not been executed, and no other worker runs it. */
  lemma RunsOnce<S(!new)>(st: PumpState<S>, g: nat, s: S)
    requires Inv(st) && Runs(st.disp, g, s)
    ensures var req := st.disp.workers[g].phase.work;
      && WasAccepted(st.disp, req)
      && (forall t :: req !in At(st.disp.executed, t))
      && (forall h, t | Runs(st.disp, h, t) && st.disp.workers[h].phase.work == req :: h == g)
  {
    var disp := st.disp;
    var req := disp.workers[g].phase.work;
    RunningIs(disp, g, s);
    assert Conserved(disp, s);
    var k := |At(disp.executed, s)|;
    assert Logged(disp, s, k, req) by { assert At(disp.accepted, s)[k] == req; }
    forall t ensures req !in At(disp.executed, t) {
      assert Conserved(disp, t);
      if i :| 0 <= i < |At(disp.executed, t)| && At(disp.executed, t)[i] == req {
        assert At(disp.accepted, t)[i] == req;
        assert Logged(disp, t, i, req);
      }
    }
    forall h, t | Runs(disp, h, t) && disp.workers[h].phase.work == req ensures h == g {
      RunningIs(disp, h, t);
      assert Conserved(disp, t);
      assert At(disp.accepted, t)[|At(disp.executed, t)|] == req;
      assert Logged(disp, t, |At(disp.executed, t)|, req);
      assert Draining(disp, h, t) && Draining(disp, g, s);
    }
  }

  /** The pump is never about to answer a request that went to a worker as a stream. */
  lemma NotAnswering<S(!new)>(st: PumpState<S>, id: nat)
    requires AcksTruthful(st) && WasAccepted(st.disp, Request(id, true)) && !WasAccepted(st.disp, Request(id, false))
    ensures !(st.pump.Answer? && st.pump.id == id)
  {
  }

  lemma NotYetAcked<S(!new)>(st: PumpState<S>, g: nat)
    requires Inv(st) && Enabled(st, SendSubject(g))
    ensures Unanswered(st, st.disp.workers[g].phase.work.id)
    ensures WasAccepted(st.disp, st.disp.workers[g].phase.work)
  {
    hide DispatchModel.Inv, OneWorker, Conserved;
    var w := st.disp.workers[g];
    var req := w.phase.work;
    assert Runs(st.disp, g, w.socket);
    RunsOnce(st, g, w.socket);
    AcceptedOneWay(st, req.id);
    forall ack ensures !Acked(st, req.id, ack) {
      assert Acked(st, req.id, ack) ==> Truthful(st, req.id, ack);
      assert req == Request(req.id, true);
    }
    NotAnswering(st, req.id);
  }

  /** A request is accepted inline or streamed, not both. */
  lemma AcceptedOneWay<S(!new)>(st: PumpState<S>, id: nat)
    requires LoggedOnce(st)
    ensures !(WasAccepted(st.disp, Request(id, false)) && WasAccepted(st.disp, Request(id, true)))
  {
    forall s, i, t, j ensures !(Logged(st.disp, s, i, Request(id, false)) && Logged(st.disp, t, j, Request(id, true))) {
      assert s == t && i == j ==>
        !(Logged(st.disp, s, i, Request(id, false)) && Logged(st.disp, t, j, Request(id, true)));
    }
  }

  lemma SendSubjectInv<S(!new)>(st: PumpState<S>, g: nat)
    requires Inv(st) && Enabled(st, SendSubject(g))
    ensures Inv(Apply(st, SendSubject(g)))
  {
    hide DispatchModel.Inv, SlowAcks;
    var st' := Apply(st, SendSubject(g));
    var w := st.disp.workers[g];
    var e := AckEntry(w.phase.work.id, ChunkSubject);
    NotYetAcked(st, g);
    AckAppended(st, e);
    assert forall id, ack :: Acked(st', id, ack) <==> Acked(st, id, ack) || e == AckEntry(id, ack);
    forall i, ack | Acked(st', i, ack) ensures Truthful(st', i, ack) {
      assert w.phase.work == Request(w.phase.work.id, true);
      if Acked(st, i, ack) {
        assert Truthful(st, i, ack);
      }
    }
    forall i | 0 <= i < |st.acks| ensures st.acks[i].id != e.id && st.acks[i].id in st.received {
      assert Acked(st, st.acks[i].id, st.acks[i].ack);
    }
    assert e.id in st.received by {
      var s, i :| Logged(st.disp, s, i, w.phase.work);
    }
    assert SubjectFromRunner(st') by {
      forall id | Acked(st', id, ChunkSubject)
        ensures || (exists h, s ::
          h in st'.subjectSent && Runs(st'.disp, h, s) && st'.disp.workers[h].phase.work == Request(id, true))
          || (exists s :: Request(id, true) in At(st'.disp.executed, s))
      {
        if id == e.id {
          assert g in st'.subjectSent && Runs(st'.disp, g, w.socket) && w.phase.work == Request(id, true);
        } else if h, s :|
          h in st.subjectSent && Runs(st.disp, h, s) && st.disp.workers[h].phase.work == Request(id, true)
        {
          assert h in st'.subjectSent && Runs(st'.disp, h, s);
        }
      }
    }
  }

  lemma {:induction false} StepsInv<S(!new)>(st: PumpState<S>, es: seq<Event<S>>, st': PumpState<S>)
    requires Inv(st) && Steps(st, es, st')
    ensures Inv(st')
    decreases |es|
  {
    hide Inv, Apply;
    if es != [] {
      match es[0] {
        case Garbage(id) => GarbageInv(st, id);
        case Receive(s, req, g) => ReceiveInv(st, s, req, g);
        case Respond => RespondInv(st);
        case Worker(a) => WorkerInv(st, a);
        case SendSubject(g) => SendSubjectInv(st, g);
      }
      StepsInv(Apply(st, es[0]), es[1..], st');
    }
  }

  // --- What every interleaving guarantees ---

  /** In every interleaving of the pump with its workers each request gets at most one ack; an inline request is acked
      as accepted exactly if its work is in the dispatcher's log; a slow-consumer ack means the work was dropped. */
  lemma AckDiscipline<S(!new)>(queueSize: int, es: seq<Event<S>>, st: PumpState<S>, id: nat)
    requires Steps(Start<S>(queueSize), es, st) && st.pump.Idle?
    ensures forall i, j | 0 <= i < j < |st.acks| :: st.acks[i].id != st.acks[j].id
    ensures Acked(st, id, Accepted) <==> WasAccepted(st.disp, Request(id, false))
    ensures Acked(st, id, ChunkSubject) ==> WasAccepted(st.disp, Request(id, true))
    ensures Acked(st, id, SlowConsumer) || Acked(st, id, Malformed)
      ==> !WasAccepted(st.disp, Request(id, false)) && !WasAccepted(st.disp, Request(id, true))
    ensures |st.disp.overflows| == SlowAcks(st.acks)
  {
    StartInv<S>(queueSize);
    StepsInv(Start(queueSize), es, st);
    hide DispatchModel.Inv;
    forall ack | Acked(st, id, ack) ensures Truthful(st, id, ack) {
    }
  }
}
