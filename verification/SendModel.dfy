/** Messages on their way from senders to an instance, over a network that may lose or delay requests, acks and
    chunks but does not duplicate them: what a sender's error says about the message, and what it does not. */
module SendModel {
  import opened Sequences
  import D = DispatchModel
  import H = HandleModel
  import P = MessagePump
  import C = ChunkModel
  import Srv = MessageServer

  datatype Message<S, B> = Message(socket: S, payload: seq<B>, streamed: bool)

  /** Where a call of sendEnvelope is. */
  datatype Sender =
    | Waiting                           // the request is out
    | Streaming                         // its ack named a chunk subject
    | Sent                              // returned without an error
    | NoAck                             // the request timed out or failed, or its ack does not decode
    | Rejected(error: Srv.SendError)    // the ack says no
    | StreamFailed                      // a chunk was not acked

  datatype Exchange<S(==), B> = Exchange(
    pump: P.PumpState<S>,
    sent: map<nat, Message<S, B>>,
    senders: map<nat, Sender>,
    transfers: map<nat, C.Transfer<B>>)   // opened by a worker when it sends the chunk subject

  datatype Event<S, B> =
    | Request(id: nat, m: Message<S, B>)
    | Pump(p: P.Event<S>)                            // at the instance
    | Ack(id: nat, ack: P.Ack, subject: string)      // an ack reaches a sender that still waits for it
    | GiveUp(id: nat)
    | Chunk(id: nat, c: C.Event)

  function Start<S(==), B>(queueSize: int): Exchange<S, B> {
    Exchange(P.Start(queueSize), map[], map[], map[])
  }

  /** A worker leaves a streamed request once its transfer has ended, or could not be opened. */
  predicate MayFinish<S(==, !new), B>(x: Exchange<S, B>, g: nat)
    requires D.Enabled(x.pump.disp, D.Finish(g))
  {
    var id := x.pump.disp.workers[g].phase.work.id;
    id in x.transfers ==> x.transfers[id].receiver.phase.Success? || x.transfers[id].receiver.phase.ReceiverFailed?
  }

  predicate Enabled<S(==, !new), B>(x: Exchange<S, B>, e: Event<S, B>) {
    match e
    case Request(id, _) => id !in x.sent
    case Pump(p) =>
      && P.Enabled(x.pump, p)
      && (p.Garbage? ==> p.id in x.sent)
      && (p.Receive? ==> p.req.id in x.sent && x.sent[p.req.id].socket == p.socket
                         && x.sent[p.req.id].streamed == p.req.streamed)
      && (p.Worker? && p.a.Finish? ==> MayFinish(x, p.a.g))
    case Ack(id, ack, subject) =>
      id in x.sent && id in x.senders && x.senders[id].Waiting? && P.AckEntry(id, ack) in x.pump.acks && subject != ""
    case GiveUp(id) => id in x.senders && x.senders[id].Waiting?
    case Chunk(id, c) =>
      && id in x.transfers && id in x.senders && C.Enabled(x.transfers[id], c)
      && (c.Send? || c.SenderTimeout? ==> x.senders[id].Streaming?)
  }

  function PayloadOf<S, B>(sent: map<nat, Message<S, B>>, id: nat): seq<B> {
    if id in sent then sent[id].payload else []
  }

  /** What sendEnvelope does with an ack. */
  function AfterAck(streamed: bool, ack: P.Ack, subject: string): Sender {
    match Srv.ParseMessageAck(Some(Srv.OnTheWire(ack, subject)))
    case Err(error) => Rejected(error)
    case Ok(a) =>
      if !streamed then Sent else if a.chunkSubject == "" then Rejected(Srv.MissingChunkSubject) else Streaming
  }

  function Apply<S(==, !new), B>(x: Exchange<S, B>, e: Event<S, B>): Exchange<S, B>
    requires Enabled(x, e)
  {
    match e
    case Request(id, m) => x.(sent := x.sent[id := m], senders := x.senders[id := Waiting])
    case Pump(p) =>
      var x' := x.(pump := P.Apply(x.pump, p));
      if p.SendSubject? then
        var id := x.pump.disp.workers[p.g].phase.work.id;
        x'.(transfers := x.transfers[id := C.Start(PayloadOf(x.sent, id))])
      else
        x'
    case Ack(id, ack, subject) => x.(senders := x.senders[id := AfterAck(x.sent[id].streamed, ack, subject)])
    case GiveUp(id) => x.(senders := x.senders[id := NoAck])
    case Chunk(id, c) =>
      var t := C.Do(x.transfers[id], c);
      x.(transfers := x.transfers[id := t],
         senders := if !x.senders[id].Streaming? then x.senders
                    else if t.sender.GaveUp? then x.senders[id := StreamFailed]
                    else if t.sender.SentAll? then x.senders[id := Sent]
                    else x.senders)
  }

  ghost predicate Trace<S(!new), B>(states: seq<Exchange<S, B>>, es: seq<Event<S, B>>) {
    && |states| == |es| + 1
    && forall i | 0 <= i < |es| :: Enabled(states[i], es[i]) && states[i + 1] == Apply(states[i], es[i])
  }

  // --- The invariant ---

  /** The dispatcher has accepted the request. */
  ghost predicate Accepted<S(!new), B>(x: Exchange<S, B>, id: nat) {
    id in x.sent && P.WasAccepted(x.pump.disp, P.Request(id, x.sent[id].streamed))
  }

  /** What the instance logs was sent, as it was sent. */
  ghost predicate AsSent<S(!new), B>(x: Exchange<S, B>) {
    && x.pump.received <= x.sent.Keys
    && forall s, i, req | P.Logged(x.pump.disp, s, i, req) ::
      req.id in x.sent && x.sent[req.id].socket == s && x.sent[req.id].streamed == req.streamed
  }

  ghost predicate TransferInv<S(!new), B>(x: Exchange<S, B>, id: nat) {
    && id in x.transfers && id in x.sent && x.sent[id].streamed
    && C.Inv(x.transfers[id]) && x.transfers[id].payload == x.sent[id].payload
  }

  ghost predicate TransfersOpened<S(!new), B>(x: Exchange<S, B>) {
    forall id :: id in x.transfers <==> P.Acked(x.pump, id, P.ChunkSubject)
  }

  ghost predicate Unstarted<S, B>(x: Exchange<S, B>, id: nat) {
    id in x.transfers ==> x.transfers[id].sender == C.Ready(0)
  }

  ghost predicate SenderInv<S(!new), B>(x: Exchange<S, B>, id: nat)
    requires id in x.senders && id in x.sent
  {
    match x.senders[id]
    case Waiting => Unstarted(x, id)
    case NoAck => Unstarted(x, id)
    case Rejected(_) => Unstarted(x, id) && (P.Acked(x.pump, id, P.Malformed) || P.Acked(x.pump, id, P.SlowConsumer))
    case Streaming => id in x.transfers && (x.transfers[id].sender.Ready? || x.transfers[id].sender.Waiting?)
    case Sent =>
      if x.sent[id].streamed then id in x.transfers && x.transfers[id].sender.SentAll?
      else P.Acked(x.pump, id, P.Accepted)
    case StreamFailed => id in x.transfers && x.transfers[id].sender.GaveUp?
  }

  ghost predicate Inv<S(!new), B>(x: Exchange<S, B>) {
    && P.Inv(x.pump) && x.senders.Keys == x.sent.Keys && AsSent(x) && TransfersOpened(x)
    && (forall id | id in x.transfers :: TransferInv(x, id))
    && (forall id | id in x.senders :: SenderInv(x, id))
  }

  lemma StartInv<S(!new), B>(queueSize: int)
    ensures Inv(Start<S, B>(queueSize))
  {
    P.StartInv<S>(queueSize);
  }

  lemma RequestInv<S(!new), B>(x: Exchange<S, B>, id: nat, m: Message<S, B>)
    requires Inv(x) && Enabled(x, Request(id, m))
    ensures Inv(Apply(x, Request(id, m)))
  {
    hide P.Inv, C.Inv, P.Logged;
    var x' := Apply(x, Request(id, m));
    forall i | i in x'.transfers ensures TransferInv(x', i) {
      assert TransferInv(x, i);
    }
    forall i | i in x'.senders ensures SenderInv(x', i) {
      assert i != id ==> SenderInv(x, i);
    }
  }

  lemma PumpInv<S(!new)>(st: P.PumpState<S>, e: P.Event<S>)
    requires P.Inv(st) && P.Enabled(st, e)
    ensures P.Inv(P.Apply(st, e))
  {
    hide P.Inv, P.Apply;
    assert [e][1..] == [];
    P.StepsInv(st, [e], P.Apply(st, e));
  }

  /** What a step of the instance adds to its log and to its acks. */
  lemma PumpAdds<S(!new)>(st: P.PumpState<S>, e: P.Event<S>)
    requires P.Enabled(st, e)
    ensures var st' := P.Apply(st, e);
      && Srv.Grows(st, st')
      && (forall s, i, req | P.Logged(st'.disp, s, i, req) && !P.Logged(st.disp, s, i, req) ::
            e.Receive? && s == e.socket && req == e.req)
      && (forall id | P.Acked(st', id, P.ChunkSubject) && !P.Acked(st, id, P.ChunkSubject) ::
            || (e.Respond? && st.pump.ack == P.ChunkSubject)
            || (e.SendSubject? && id == st.disp.workers[e.g].phase.work.id))
      && (e.SendSubject? ==> P.Acked(st', st.disp.workers[e.g].phase.work.id, P.ChunkSubject))
      && st'.received == st.received + (if e.Garbage? then {e.id} else if e.Receive? then {e.req.id} else {})
  {
    hide D.Apply, D.DispatchStep, P.WasAccepted;
    Srv.GrowStep(st, e);
    match e
    case Receive(s, req, g) => P.DispatchLogs(st.disp, s, req, g);
    case Worker(a) => P.WorkerFrames(st.disp, a);
    case Respond => P.AckAppended(st, P.AckEntry(st.pump.id, st.pump.ack));
    case SendSubject(g) => P.AckAppended(st, P.AckEntry(st.disp.workers[g].phase.work.id, P.ChunkSubject));
    case Garbage(_) =>
  }

  lemma NoSubjectFromPump<S(!new)>(st: P.PumpState<S>)
    requires P.Inv(st) && st.pump.Answer?
    ensures st.pump.ack != P.ChunkSubject
  {
  }

  /** The chunk subject goes out once, for a streamed request. */
  lemma SubjectOnce<S(!new), B>(x: Exchange<S, B>, g: nat)
    requires Inv(x) && P.Enabled(x.pump, P.SendSubject(g))
    ensures var id := x.pump.disp.workers[g].phase.work.id;
      id !in x.transfers && id in x.sent && x.sent[id].streamed
  {
    hide D.Inv, P.Logged;
    var req := x.pump.disp.workers[g].phase.work;
    P.NotYetAcked(x.pump, g);
    assert !P.Acked(x.pump, req.id, P.ChunkSubject);
    var s, i :| P.Logged(x.pump.disp, s, i, req);
  }

  lemma PumpStepInv<S(!new), B>(x: Exchange<S, B>, p: P.Event<S>)
    requires Inv(x) && Enabled(x, Pump(p))
    ensures Inv(Apply(x, Pump(p)))
  {
    hide P.Inv, C.Inv, P.Logged, P.Apply, P.WasAccepted, P.Acked;
    var x' := Apply(x, Pump(p));
    PumpInv(x.pump, p);
    PumpAdds(x.pump, p);
    if p.SendSubject? {
      SubjectOnce(x, p.g);
      FreshTransfer(x.sent[x.pump.disp.workers[p.g].phase.work.id].payload);
    }
    if p.Respond? {
      NoSubjectFromPump(x.pump);
    }
    forall i | i in x'.transfers ensures TransferInv(x', i) {
      assert i in x.transfers ==> TransferInv(x, i);
    }
    forall i | i in x'.senders ensures SenderInv(x', i) {
      assert SenderInv(x, i);
    }
  }

  lemma FreshTransfer<B>(payload: seq<B>)
    ensures C.Inv(C.Start(payload)) && C.Start(payload).sender == C.Ready(0) && C.Start(payload).payload == payload
  {
    C.OnlyLastIsEOF(payload);
  }

  /** An ack says what became of the request, for the kind of message it was. */
  lemma AckMeans<S(!new), B>(x: Exchange<S, B>, id: nat, ack: P.Ack)
    requires Inv(x) && id in x.sent && P.Acked(x.pump, id, ack)
    ensures ack == P.Accepted ==> !x.sent[id].streamed && Accepted(x, id)
    ensures ack == P.ChunkSubject ==> x.sent[id].streamed && Accepted(x, id)
    ensures ack == P.Malformed || ack == P.SlowConsumer ==> !Accepted(x, id)
  {
    hide D.Inv, P.Logged;
    assert P.Truthful(x.pump, id, ack);
    if ack == P.Accepted {
      var s, i :| P.Logged(x.pump.disp, s, i, P.Request(id, false));
    } else if ack == P.ChunkSubject {
      var s, i :| P.Logged(x.pump.disp, s, i, P.Request(id, true));
    }
  }

  lemma Parsed(streamed: bool, ack: P.Ack, subject: string)
    requires subject != ""
    ensures ack == P.Accepted && !streamed ==> AfterAck(streamed, ack, subject) == Sent
    ensures ack == P.ChunkSubject && streamed ==> AfterAck(streamed, ack, subject) == Streaming
    ensures ack == P.Malformed || ack == P.SlowConsumer ==> AfterAck(streamed, ack, subject).Rejected?
  {
    assert "malformed envelope"[0] != Srv.SLOW_CONSUMER_REPLY[0];
  }

  lemma AckInv<S(!new), B>(x: Exchange<S, B>, id: nat, ack: P.Ack, subject: string)
    requires Inv(x) && Enabled(x, Ack(id, ack, subject))
    ensures Inv(Apply(x, Ack(id, ack, subject)))
  {
    hide P.Inv, C.Inv, AfterAck, AsSent;
    var x' := Apply(x, Ack(id, ack, subject));
    assert P.Acked(x.pump, id, ack);
    AckMeans(x, id, ack);
    Parsed(x.sent[id].streamed, ack, subject);
    assert AsSent(x') by { KeptAsSent(x, x'); }
    forall i | i in x'.transfers ensures TransferInv(x', i) {
      assert TransferInv(x, i);
    }
    forall i | i in x'.senders ensures SenderInv(x', i) {
      assert SenderInv(x, i);
    }
  }

  lemma KeptAsSent<S(!new), B>(x: Exchange<S, B>, x': Exchange<S, B>)
    requires AsSent(x) && x'.pump == x.pump && x'.sent == x.sent && x'.senders.Keys == x.senders.Keys
    ensures AsSent(x')
  {
  }

  lemma GiveUpInv<S(!new), B>(x: Exchange<S, B>, id: nat)
    requires Inv(x) && Enabled(x, GiveUp(id))
    ensures Inv(Apply(x, GiveUp(id)))
  {
    hide P.Inv, C.Inv, AsSent;
    var x' := Apply(x, GiveUp(id));
    assert AsSent(x') by { KeptAsSent(x, x'); }
    forall i | i in x'.transfers ensures TransferInv(x', i) {
      assert TransferInv(x, i);
    }
    forall i | i in x'.senders ensures SenderInv(x', i) {
      assert SenderInv(x, i);
    }
  }

  /** How a step of a transfer moves its sender. */
  lemma SenderMoves<B>(t: C.Transfer<B>, e: C.Event)
    requires C.Enabled(t, e)
    ensures var t' := C.Do(t, e);
      && t'.payload == t.payload
      && (e.SenderTimeout? <==> t'.sender.GaveUp? && !t.sender.GaveUp?)
      && (t.sender.GaveUp? ==> t'.sender.GaveUp?)
      && (!e.Send? && !e.SenderTimeout? && !t.sender.Waiting? ==> t'.sender == t.sender)
  {
    hide C.Chunks;
  }

  lemma ChunkInv<S(!new), B>(x: Exchange<S, B>, id: nat, c: C.Event)
    requires Inv(x) && Enabled(x, Chunk(id, c))
    ensures Inv(Apply(x, Chunk(id, c)))
  {
    hide P.Inv, C.Inv, C.Do, C.Enabled, AsSent;
    var x' := Apply(x, Chunk(id, c));
    assert AsSent(x') by { KeptAsSent(x, x'); }
    assert TransferInv(x, id);
    C.DoInv(x.transfers[id], c);
    SenderMoves(x.transfers[id], c);
    forall i | i in x'.transfers ensures TransferInv(x', i) {
      assert TransferInv(x, i);
    }
    forall i | i in x'.senders ensures SenderInv(x', i) {
      assert SenderInv(x, i);
    }
  }

  lemma ApplyInv<S(!new), B>(x: Exchange<S, B>, e: Event<S, B>)
    requires Inv(x) && Enabled(x, e)
    ensures Inv(Apply(x, e))
  {
    hide Inv, Apply;
    match e
    case Request(id, m) => RequestInv(x, id, m);
    case Pump(p) => PumpStepInv(x, p);
    case Ack(id, ack, subject) => AckInv(x, id, ack, subject);
    case GiveUp(id) => GiveUpInv(x, id);
    case Chunk(id, c) => ChunkInv(x, id, c);
  }

  lemma {:induction false} RunInv<S(!new), B>(states: seq<Exchange<S, B>>, es: seq<Event<S, B>>, queueSize: int, k: nat)
    requires Trace(states, es) && states[0] == Start(queueSize) && k <= |es|
    ensures Inv(states[k])
  {
    hide Inv, Apply, Enabled;
    if k == 0 {
      StartInv<S, B>(queueSize);
    } else {
      RunInv(states, es, queueSize, k - 1);
      ApplyInv(states[k - 1], es[k - 1]);
    }
  }

  // --- What an error says ---

  ghost predicate Ended(s: Sender) {
    !s.Waiting? && !s.Streaming?
  }

  /** The instance has the whole message: an inline one once it is accepted, a streamed one once its end was acked. */
  ghost predicate Held<S(!new), B>(x: Exchange<S, B>, id: nat) {
    && Accepted(x, id)
    && (x.sent[id].streamed ==> id in x.transfers && TookEnd(x.transfers[id]))
  }

  /** The receiver has acked the end of the transfer. */
  ghost predicate TookEnd<B>(t: C.Transfer<B>) {
    t.receiver.phase.Success? || t.receiver.phase == C.Appending(|C.Chunks(t.payload)| - 1)
  }

  lemma TransferMeans<B>(t: C.Transfer<B>)
    requires C.Inv(t)
    ensures t.sender == C.Ready(0) ==> !TookEnd(t)
    ensures t.sender.SentAll? ==> TookEnd(t)
    ensures TookEnd(t) ==> t.receiver.buffer == t.payload
    ensures TookEnd(t) && t.sender.GaveUp? ==> t.sender == C.GaveUp(|C.Chunks(t.payload)| - 1)
  {
    C.OnlyLastIsEOF(t.payload);
    C.JoinedPrefix(t.payload, t.receiver.done);
  }

  /** What the outcome at the sender tells about the instance. */
  lemma OutcomeMeans<S(!new), B>(x: Exchange<S, B>, id: nat)
    requires Inv(x) && id in x.senders
    ensures id in x.sent
    ensures x.senders[id].Sent? ==> Accepted(x, id) && Held(x, id)
    ensures x.senders[id].Rejected? ==> !Accepted(x, id)
    ensures x.senders[id].StreamFailed? ==> Accepted(x, id) && x.sent[id].streamed
    ensures x.senders[id].NoAck? && x.sent[id].streamed ==> !Held(x, id)
    ensures id in x.transfers ==> Accepted(x, id) && x.sent[id].streamed
    ensures id in x.transfers && TookEnd(x.transfers[id]) ==> x.transfers[id].receiver.buffer == x.sent[id].payload
    ensures id in x.transfers && TookEnd(x.transfers[id]) && x.senders[id].StreamFailed? ==>
      x.transfers[id].sender == C.GaveUp(|C.Chunks(x.sent[id].payload)| - 1)
  {
    hide P.Inv, C.Inv, AsSent, Accepted, TookEnd;
    assert SenderInv(x, id);
    if id in x.transfers {
      assert TransferInv(x, id);
      TransferMeans(x.transfers[id]);
      AckMeans(x, id, P.ChunkSubject);
    }
    forall ack | P.Acked(x.pump, id, ack) && ack != P.ChunkSubject
      ensures ack == P.Accepted ==> !x.sent[id].streamed && Accepted(x, id)
      ensures ack != P.Accepted ==> !Accepted(x, id)
    {
      AckMeans(x, id, ack);
    }
  }

  /** An ack reached the sender while it waited for it. */
  ghost predicate AckReached<S, B>(es: seq<Event<S, B>>, k: nat, id: nat)
    requires k <= |es|
  {
    exists i :: 0 <= i < k && es[i].Ack? && es[i].id == id
  }

  ghost predicate ChunkTimedOut<S, B>(es: seq<Event<S, B>>, k: nat, id: nat)
    requires k <= |es|
  {
    exists i :: 0 <= i < k && es[i] == Chunk(id, C.SenderTimeout)
  }

  /** The event is the instance accepting the request into its queue. */
  ghost predicate Admits<S(!new), B>(x: Exchange<S, B>, e: Event<S, B>, id: nat) {
    && e.Pump? && e.p.Receive? && e.p.req.id == id
    && |D.At(x.pump.disp.queues, e.p.socket)| < x.pump.disp.queueSize
  }

  /** The event is the receiver's ack of the end of the transfer going out. */
  ghost predicate AcksEnd<S(!new), B>(x: Exchange<S, B>, e: Event<S, B>, id: nat) {
    && e == Chunk(id, C.PublishAck) && id in x.transfers
    && x.transfers[id].receiver.phase == C.Got(|C.Chunks(x.transfers[id].payload)| - 1)
  }

  ghost predicate WasAdmitted<S(!new), B>(states: seq<Exchange<S, B>>, es: seq<Event<S, B>>, k: nat, id: nat)
    requires k <= |es| && k <= |states|
  {
    exists i :: 0 <= i < k && Admits(states[i], es[i], id)
  }

  ghost predicate EndWasAcked<S(!new), B>(states: seq<Exchange<S, B>>, es: seq<Event<S, B>>, k: nat, id: nat)
    requires k <= |es| && k <= |states|
  {
    exists i :: 0 <= i < k && AcksEnd(states[i], es[i], id)
  }

  lemma AckStep<S(!new), B>(x: Exchange<S, B>, e: Event<S, B>, id: nat)
    requires Inv(x) && Enabled(x, e) && id in Apply(x, e).senders
    ensures var before, after := id in x.senders && !x.senders[id].Waiting? && !x.senders[id].NoAck?,
                                 !Apply(x, e).senders[id].Waiting? && !Apply(x, e).senders[id].NoAck?;
      after <==> before || (e.Ack? && e.id == id)
    ensures Apply(x, e).senders[id].StreamFailed? <==>
      (id in x.senders && x.senders[id].StreamFailed?) || e == Chunk(id, C.SenderTimeout)
  {
    hide P.Inv, P.Apply, AsSent, C.Inv, C.Do, C.Enabled, AfterAck;
    match e
    case Ack(i, ack, subject) =>
      AckMeans(x, i, ack);
      Parsed(x.sent[i].streamed, ack, subject);
    case Chunk(i, c) =>
      assert SenderInv(x, i);
      SenderMoves(x.transfers[i], c);
    case _ =>
  }

  lemma AcceptStep<S(!new), B>(x: Exchange<S, B>, e: Event<S, B>, id: nat)
    requires Inv(x) && Enabled(x, e)
    ensures Accepted(Apply(x, e), id) <==> Accepted(x, id) || Admits(x, e, id)
  {
    hide P.Inv, P.Logged, C.Do, C.Enabled;
    match e
    case Pump(p) => PumpLogs(x.pump, p);
    case Request(i, m) =>
      assert i == id ==> forall s, k :: !P.Logged(x.pump.disp, s, k, P.Request(id, m.streamed));
    case _ =>
  }

  lemma PumpLogs<S(!new)>(st: P.PumpState<S>, p: P.Event<S>)
    requires P.Enabled(st, p)
    ensures forall req :: P.WasAccepted(P.Apply(st, p).disp, req) <==>
      || P.WasAccepted(st.disp, req)
      || (p.Receive? && req == p.req && |D.At(st.disp.queues, p.socket)| < st.disp.queueSize)
  {
    hide P.WasAccepted, D.DispatchStep, D.Apply;
    match p
    case Receive(s, req, g) => P.DispatchLogs(st.disp, s, req, g);
    case Worker(a) =>
      P.WorkerFrames(st.disp, a);
      Srv.SameLog(st.disp, D.Apply(st.disp, a));
    case _ =>
  }

  lemma EndStep<S(!new), B>(x: Exchange<S, B>, e: Event<S, B>, id: nat)
    requires Inv(x) && Enabled(x, e)
    ensures var x' := Apply(x, e);
      id in x'.transfers && TookEnd(x'.transfers[id]) <==>
        (id in x.transfers && TookEnd(x.transfers[id])) || AcksEnd(x, e, id)
  {
    hide P.Inv, P.Apply, AsSent, C.Inv, C.Do, C.Enabled, TookEnd;
    match e
    case Chunk(i, c) =>
      TransferTakesEnd(x.transfers[i], c);
    case Pump(p) =>
      if p.SendSubject? {
        SubjectOnce(x, p.g);
        FreshTransfer(PayloadOf(x.sent, x.pump.disp.workers[p.g].phase.work.id));
        TransferMeans(C.Start(PayloadOf(x.sent, x.pump.disp.workers[p.g].phase.work.id)));
      }
    case _ =>
  }

  lemma TransferTakesEnd<B>(t: C.Transfer<B>, c: C.Event)
    requires C.Enabled(t, c)
    ensures TookEnd(C.Do(t, c)) <==>
      TookEnd(t) || (c.PublishAck? && t.receiver.phase == C.Got(|C.Chunks(t.payload)| - 1))
  {
    hide C.Joined, C.Chunks;
    if c.Append? {
      AppendTakesEnd(t);
    } else {
      ReceiverMoves(t, c);
    }
  }

  lemma ReceiverMoves<B>(t: C.Transfer<B>, c: C.Event)
    requires C.Enabled(t, c) && !c.Append?
    ensures C.Do(t, c).payload == t.payload
    ensures var phase, phase' := t.receiver.phase, C.Do(t, c).receiver.phase;
      if c.PublishAck? then phase.Got? && phase' == C.Appending(phase.k)
      else phase' == phase || (!phase.Appending? && !phase.Success? && !phase'.Appending? && !phase'.Success?)
  {
    hide C.Joined, C.Chunks;
  }

  lemma AppendTakesEnd<B>(t: C.Transfer<B>)
    requires C.Enabled(t, C.Append)
    ensures TookEnd(C.Do(t, C.Append)) <==> TookEnd(t)
  {
    hide C.Joined, C.ChunksFrom;
    C.OnlyLastIsEOF(t.payload);
  }

  /** The outcomes and what the instance has, told from the events of the run. */
  lemma {:induction false} HistoryMeans<S(!new), B>(states: seq<Exchange<S, B>>, es: seq<Event<S, B>>, queueSize: int,
                                                    k: nat, id: nat)
    requires Trace(states, es) && states[0] == Start(queueSize) && k <= |es|
    ensures var x := states[k];
      && (id in x.senders ==>
            && (AckReached(es, k, id) <==> !x.senders[id].Waiting? && !x.senders[id].NoAck?)
            && (ChunkTimedOut(es, k, id) <==> x.senders[id].StreamFailed?))
      && (id !in x.senders ==> !AckReached(es, k, id) && !ChunkTimedOut(es, k, id))
      && (Accepted(x, id) <==> WasAdmitted(states, es, k, id))
      && (id in x.transfers && TookEnd(x.transfers[id]) <==> EndWasAcked(states, es, k, id))
  {
    hide Inv, Apply, Enabled, Accepted, TookEnd, Admits, AcksEnd;
    if k == 0 {
      NothingYet<S, B>(queueSize, id);
    } else {
      HistoryMeans(states, es, queueSize, k - 1, id);
      RunInv(states, es, queueSize, k - 1);
      var x, e := states[k - 1], es[k - 1];
      AcceptStep(x, e, id);
      EndStep(x, e, id);
      KnownSender(x, e, id);
      if id in states[k].senders {
        AckStep(x, e, id);
      }
    }
  }

  lemma NothingYet<S(!new), B>(queueSize: int, id: nat)
    ensures var x := Start<S, B>(queueSize);
      id !in x.senders && !Accepted(x, id) && id !in x.transfers
  {
  }

  lemma KnownSender<S(!new), B>(x: Exchange<S, B>, e: Event<S, B>, id: nat)
    requires Inv(x) && Enabled(x, e)
    ensures id in x.senders ==> id in Apply(x, e).senders
    ensures id !in Apply(x, e).senders ==> !(e.Ack? && e.id == id) && e != Chunk(id, C.SenderTimeout)
  {
    hide P.Inv, P.Apply, AsSent, C.Inv, C.Do, C.Enabled, AfterAck;
  }

  /** In every run, of a call that has ended: without an error the instance accepted the message and has all of it.
      With an error the instance accepted it all the same exactly if it admitted the request and either no ack of it
      reached the sender in time or a chunk was not acked in time. */
  lemma ErrorYetAccepted<S(!new), B>(states: seq<Exchange<S, B>>, es: seq<Event<S, B>>, queueSize: int, k: nat, id: nat)
    requires Trace(states, es) && states[0] == Start(queueSize) && k <= |es|
    requires id in states[k].senders && Ended(states[k].senders[id])
    ensures states[k].senders[id].Sent? ==> Accepted(states[k], id) && Held(states[k], id)
    ensures !states[k].senders[id].Sent? && Accepted(states[k], id) <==>
      WasAdmitted(states, es, k, id) && (!AckReached(es, k, id) || ChunkTimedOut(es, k, id))
  {
    hide Inv, Apply, Enabled, Accepted, Held, Admits;
    RunInv(states, es, queueSize, k);
    HistoryMeans(states, es, queueSize, k, id);
    OutcomeMeans(states[k], id);
  }

  /** What MessageService returns to Handle, once the call has ended. */
  ghost function ReplyOf(s: Sender): H.Reply {
    match s
    case Sent => H.Accepted
    case Rejected(error) => if error == Srv.ErrSlowConsumer then H.SlowConsumer else H.Failed
    case _ => H.Failed
  }

  /** What an answer tells Handle: no error, that the instance has the whole message; slow consumer, that it has not. A
      failure hides that it has it exactly if the message was inline, was admitted and its ack did not reach the sender
      in time, or was streamed and the receiver acked the end, whose ack did not reach the sender in time. */
  lemma ErrorYetHeld<S(!new), B>(states: seq<Exchange<S, B>>, es: seq<Event<S, B>>, queueSize: int, k: nat, id: nat)
    requires Trace(states, es) && states[0] == Start(queueSize) && k <= |es|
    requires id in states[k].senders && Ended(states[k].senders[id])
    ensures var x := states[k];
      && id in x.sent
      && (ReplyOf(x.senders[id]) == H.Accepted ==> Held(x, id))
      && (ReplyOf(x.senders[id]) == H.SlowConsumer ==> !Accepted(x, id))
      && (ReplyOf(x.senders[id]) == H.Failed && Held(x, id) <==>
            if x.sent[id].streamed then ChunkTimedOut(es, k, id) && EndWasAcked(states, es, k, id)
            else WasAdmitted(states, es, k, id) && !AckReached(es, k, id))
      && (x.sent[id].streamed && ReplyOf(x.senders[id]) == H.Failed && Held(x, id) ==>
            && id in x.transfers && x.transfers[id].receiver.buffer == x.sent[id].payload
            && x.transfers[id].sender == C.GaveUp(|C.Chunks(x.sent[id].payload)| - 1))
  {
    hide Inv, Apply, Enabled, Accepted, TookEnd, Admits, AcksEnd;
    RunInv(states, es, queueSize, k);
    HistoryMeans(states, es, queueSize, k, id);
    OutcomeMeans(states[k], id);
  }

  // --- A run in which an error hides that the message was run ---

  /** One inline message of s, number 0, with its worker, the queue behind it, and how far pump and sender are. */
  ghost function Single<S, B>(q: int, s: S, payload: seq<B>, worker: Option<D.Phase<P.Request>>, queue: seq<P.Request>,
                              executed: bool, pump: P.Pump, acks: seq<P.AckEntry>, sender: Sender): Exchange<S, B> {
    var req := P.Request(0, false);
    var disp := D.State(q,
      if worker.Some? then map[s := queue] else map[],
      if worker.Some? then 1 else 0,
      if worker.Some? then map[0 := D.Worker(s, worker.value)] else map[],
      if worker.Some? then map[s := [req]] else map[],
      if executed then map[s := [req]] else map[],
      []);
    Exchange(P.PumpState(disp, if worker.Some? then {0} else {}, pump, acks, {}),
      map[0 := Message(s, payload, false)], map[0 := sender], map[])
  }

  lemma SingleAdmitted<S(!new), B>(q: int, s: S, payload: seq<B>)
    requires q >= 1
    ensures Enabled(Start<S, B>(q), Request(0, Message(s, payload, false)))
    ensures Apply(Start<S, B>(q), Request(0, Message(s, payload, false)))
      == Single(q, s, payload, None, [], false, P.Idle, [], Waiting)
    ensures var x: Exchange<S, B> := Single(q, s, payload, None, [], false, P.Idle, [], Waiting);
      var e := Pump(P.Receive(s, P.Request(0, false), 0));
      && Enabled(x, e)
      && Apply(x, e) ==
         Single(q, s, payload, Some(D.AtLock), [P.Request(0, false)], false, P.Answer(0, P.Accepted), [], Waiting)
  {
    assert [] + [P.Request(0, false)] == [P.Request(0, false)] && {} + {0} == {0};
  }

  lemma SingleRuns<S(!new), B>(q: int, s: S, payload: seq<B>)
    ensures var req, answer := P.Request(0, false), P.Answer(0, P.Accepted);
      var x: Exchange<S, B> := Single(q, s, payload, Some(D.AtLock), [req], false, answer, [], Waiting);
      var y: Exchange<S, B> := Single(q, s, payload, Some(D.Running(req)), [], false, answer, [], Waiting);
      && Enabled(x, Pump(P.Worker(D.Take(0)))) && Apply(x, Pump(P.Worker(D.Take(0)))) == y
      && Enabled(y, Pump(P.Worker(D.Finish(0))))
      && Apply(y, Pump(P.Worker(D.Finish(0)))) == Single(q, s, payload, Some(D.AtLock), [], true, answer, [], Waiting)
  {
    var req := P.Request(0, false);
    assert [req][1..] == [] && [] + [req] == [req];
    assert {} - {0} == {};
  }

  lemma SingleGivesUp<S(!new), B>(q: int, s: S, payload: seq<B>)
    ensures var acks := [P.AckEntry(0, P.Accepted)];
      var x: Exchange<S, B> := Single(q, s, payload, Some(D.AtLock), [], true, P.Answer(0, P.Accepted), [], Waiting);
      var y: Exchange<S, B> := Single(q, s, payload, Some(D.AtLock), [], true, P.Idle, acks, Waiting);
      && Enabled(x, Pump(P.Respond)) && Apply(x, Pump(P.Respond)) == y
      && Enabled(y, GiveUp(0))
      && Apply(y, GiveUp(0)) == Single(q, s, payload, Some(D.AtLock), [], true, P.Idle, acks, NoAck)
  {
    assert [] + [P.AckEntry(0, P.Accepted)] == [P.AckEntry(0, P.Accepted)];
  }

  /** The instance runs an inline message and acks it, the ack does not reach the sender in time, and the sender takes
      the message as undelivered. */
  lemma LostAckHidesDelivery<S(!new), B>(q: int, s: S, payload: seq<B>)
    returns (states: seq<Exchange<S, B>>, es: seq<Event<S, B>>)
    requires q >= 1
    ensures Trace(states, es) && states[0] == Start(q)
    ensures var x := states[|es|];
      && x.senders == map[0 := NoAck] && Held(x, 0)
      && D.At(x.pump.disp.executed, s) == [P.Request(0, false)] && P.Acked(x.pump, 0, P.Accepted)
  {
    hide Apply, Enabled;
    SingleAdmitted(q, s, payload);
    SingleRuns(q, s, payload);
    SingleGivesUp(q, s, payload);
    var req, answer := P.Request(0, false), P.Answer(0, P.Accepted);
    es := [Request(0, Message(s, payload, false)), Pump(P.Receive(s, req, 0)), Pump(P.Worker(D.Take(0))),
      Pump(P.Worker(D.Finish(0))), Pump(P.Respond), GiveUp(0)];
    states := [Start(q), Single(q, s, payload, None, [], false, P.Idle, [], Waiting),
      Single(q, s, payload, Some(D.AtLock), [req], false, answer, [], Waiting),
      Single(q, s, payload, Some(D.Running(req)), [], false, answer, [], Waiting),
      Single(q, s, payload, Some(D.AtLock), [], true, answer, [], Waiting),
      Single(q, s, payload, Some(D.AtLock), [], true, P.Idle, [P.AckEntry(0, P.Accepted)], Waiting),
      Single(q, s, payload, Some(D.AtLock), [], true, P.Idle, [P.AckEntry(0, P.Accepted)], NoAck)];
    assert P.Logged(states[6].pump.disp, s, 0, req);
  }
}
