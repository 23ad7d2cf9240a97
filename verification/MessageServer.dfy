/** The receiving pump and the sending side of the NATS message transport as they are written. */
module MessageServer {
  import opened Sequences
  import opened DispatchModel
  import opened SocketDispatcher
  import opened MessagePump
  import ChunkModel

  // --- serveMessages ---

  /** A message of the subscription, as decode sees it. */
  datatype Incoming<S> = BadEnvelope(id: nat) | Envelope(socket: S, req: Request)

  function IdOf<S>(m: Incoming<S>): nat {
    if m.BadEnvelope? then m.id else m.req.id
  }

  /** The sender has, or will get, the answer it is owed: an error ack, or for an accepted inline request its ack;
      an accepted streamed request is answered by its worker. */
  ghost predicate Answered<S(!new)>(st: PumpState<S>, m: Incoming<S>) {
    match m
    case BadEnvelope(id) => Acked(st, id, Malformed)
    case Envelope(_, req) =>
      || Acked(st, req.id, SlowConsumer)
      || (if req.streamed then WasAccepted(st.disp, req) else Acked(st, req.id, Accepted))
  }

  ghost predicate ByWorkers<S>(es: seq<Event<S>>) {
    forall i | 0 <= i < |es| :: es[i].Worker? || es[i].SendSubject?
  }

  lemma {:induction false} PumpStepsJoin<S(!new)>(a: PumpState<S>, xs: seq<Event<S>>, b: PumpState<S>,
                                                  ys: seq<Event<S>>, c: PumpState<S>)
    requires MessagePump.Steps(a, xs, b) && MessagePump.Steps(b, ys, c)
    ensures MessagePump.Steps(a, xs + ys, c)
    decreases |xs|
  {
    if xs == [] {
      assert xs + ys == ys;
    } else {
      PumpStepsJoin(MessagePump.Apply(a, xs[0]), xs[1..], b, ys, c);
      assert (xs + ys)[0] == xs[0] && (xs + ys)[1..] == xs[1..] + ys;
    }
  }

  lemma OneStep<S(!new)>(a: PumpState<S>, xs: seq<Event<S>>, b: PumpState<S>, e: Event<S>)
    requires MessagePump.Steps(a, xs, b) && MessagePump.Enabled(b, e)
    ensures MessagePump.Steps(a, xs + [e], MessagePump.Apply(b, e))
  {
    var c := MessagePump.Apply(b, e);
    assert MessagePump.Steps(c, [], c) && [e][1..] == [];
    PumpStepsJoin(a, xs, b, [e], c);
  }

  /** Acks and accepted requests are never taken back, by any step. */
  ghost predicate Grows<S(!new)>(a: PumpState<S>, b: PumpState<S>) {
    && (forall id, ack | Acked(a, id, ack) :: Acked(b, id, ack))
    && (forall req | WasAccepted(a.disp, req) :: WasAccepted(b.disp, req))
  }

  lemma GrowStep<S(!new)>(st: PumpState<S>, e: Event<S>)
    requires MessagePump.Enabled(st, e)
    ensures Grows(st, MessagePump.Apply(st, e))
  {
    hide DispatchStep, DispatchModel.Apply, WasAccepted;
    match e
    case Receive(s, req, g) => DispatchLogs(st.disp, s, req, g);
    case Worker(a) =>
      WorkerFrames(st.disp, a);
      SameLog(st.disp, DispatchModel.Apply(st.disp, a));
    case _ =>
  }

  lemma SameLog<S(!new)>(a: DispatchModel.State<S, Request>, b: DispatchModel.State<S, Request>)
    requires a.accepted == b.accepted
    ensures forall req :: WasAccepted(a, req) <==> WasAccepted(b, req)
  {
    assert forall s, i, req :: Logged(a, s, i, req) <==> Logged(b, s, i, req);
  }

  lemma {:induction false} WorkersGrow<S(!new)>(a: PumpState<S>, es: seq<Event<S>>, b: PumpState<S>)
    requires MessagePump.Steps(a, es, b) && ByWorkers(es)
    ensures Grows(a, b) && b.pump == a.pump && b.received == a.received
    decreases |es|
  {
    hide MessagePump.Enabled, WasAccepted, Acked;
    if es != [] {
      GrowStep(a, es[0]);
      WorkersGrow(MessagePump.Apply(a, es[0]), es[1..], b);
    }
  }

  lemma StillAnswered<S(!new)>(a: PumpState<S>, b: PumpState<S>, m: Incoming<S>)
    requires Grows(a, b) && Answered(a, m)
    ensures Answered(b, m)
  {
  }

  lemma {:induction false} Unused(used: set<nat>) returns (g: nat)
    ensures g !in used && forall u | u in used :: u < g
  {
    if used == {} {
      g := 0;
    } else {
      var u :| u in used;
      g := Unused(used - {u});
      assert used == (used - {u}) + {u};
      if u >= g {
        g := u + 1;
      }
    }
  }

  class Server<S(==, !new)> {
    const dispatcher: Dispatcher<S, Request>
    var acks: seq<AckEntry>

    ghost var received: set<nat>
    ghost var pump: Pump
    ghost var subjectSent: set<nat>

    ghost function Now(): PumpState<S>
      reads this, dispatcher
    {
      PumpState(dispatcher.Now(), received, pump, acks, subjectSent)
    }

    constructor (queueSize: int)
      ensures fresh(dispatcher) && Now() == Start(queueSize)
    {
      dispatcher := new Dispatcher(queueSize);
      acks, received, pump, subjectSent := [], {}, Idle, {};
    }

    /** Any steps of the workers: their effect on the pump is what this contract says. */
    method WorkersRun() returns (ghost es: seq<Event<S>>)
      modifies this`acks, this`subjectSent, dispatcher
      ensures MessagePump.Steps(old(Now()), es, Now()) && ByWorkers(es)
    {
      es := [];
    }

    /** respondAck by the pump. */
    method RespondAck(id: nat, ack: Ack)
      requires pump == Answer(id, ack)
      modifies this`acks, this`pump
      ensures Now() == MessagePump.Apply(old(Now()), Respond)
    {
      acks := acks + [AckEntry(id, ack)];
      pump := Idle;
    }

    /** One turn of the pump loop, with workers running in between. */
    method ServeOne(msg: Incoming<S>) returns (ghost es: seq<Event<S>>)
      requires pump == Idle && IdOf(msg) !in received
      modifies this, dispatcher
      ensures MessagePump.Steps(old(Now()), es, Now()) && Grows(old(Now()), Now())
      ensures pump == Idle && received == old(received) + {IdOf(msg)} && Answered(Now(), msg)
    {
      hide WasAccepted, Acked, MessagePump.Apply;
      ghost var start := Now();
      match msg
      case BadEnvelope(id) =>
        es := NotDecoded(id);
      case Envelope(socketID, req) =>
        es := Decoded(socketID, req);
    }

    method NotDecoded(id: nat) returns (ghost es: seq<Event<S>>)
      requires pump == Idle && id !in received
      modifies this, dispatcher
      ensures MessagePump.Steps(old(Now()), es, Now()) && Grows(old(Now()), Now())
      ensures pump == Idle && received == old(received) + {id} && Acked(Now(), id, Malformed)
    {
      hide WasAccepted;
      ghost var start := Now();
      received := received + {id};
      pump := Answer(id, Malformed);
      GrowStep(start, Garbage(id));
      es := [Garbage(id)];
      assert Now() == MessagePump.Apply(start, Garbage(id));
      assert MessagePump.Steps(start, es, Now()) by {
        assert es[1..] == [];
      }
      es := AnswerNow(start, es, id, Malformed);
    }

    /** The workers run on, then the pump responds. */
    method AnswerNow(ghost start: PumpState<S>, ghost es: seq<Event<S>>, id: nat, ack: Ack)
      returns (ghost more: seq<Event<S>>)
      requires MessagePump.Steps(start, es, Now()) && Grows(start, Now()) && pump == Answer(id, ack)
      modifies this, dispatcher
      ensures MessagePump.Steps(start, more, Now()) && Grows(start, Now()) && Grows(old(Now()), Now())
      ensures pump == Idle && received == old(received) && Acked(Now(), id, ack)
    {
      hide WasAccepted;
      ghost var mid := Now();
      ghost var others := WorkersRun();
      WorkersGrow(mid, others, Now());
      PumpStepsJoin(start, es, mid, others, Now());
      ghost var late := Now();
      RespondAck(id, ack);
      OneStep(start, es + others, late, Respond);
      GrowStep(late, Respond);
      assert acks[|acks| - 1] == AckEntry(id, ack);
      more := es + others + [Respond];
    }

    method Decoded(socketID: S, req: Request) returns (ghost es: seq<Event<S>>)
      requires pump == Idle && req.id !in received
      modifies this, dispatcher
      ensures MessagePump.Steps(old(Now()), es, Now()) && Grows(old(Now()), Now())
      ensures pump == Idle && received == old(received) + {req.id} && Answered(Now(), Envelope(socketID, req))
    {
      hide Logged, DispatchStep;
      ghost var start := Now();
      ghost var g := Unused(dispatcher.workers.Keys);
      ghost var e := Receive(socketID, req, g);
      var accepted := dispatcher.Dispatch(socketID, req, g);
      received := received + {req.id};
      pump := if !accepted then Answer(req.id, SlowConsumer)
              else if !req.streamed then Answer(req.id, Accepted)
              else Idle;
      DispatchVerdict(start.disp, socketID, req, g);
      DispatchLogs(start.disp, socketID, req, g);
      assert Now() == MessagePump.Apply(start, e);
      GrowStep(start, e);
      es := [e];
      assert MessagePump.Steps(start, es, Now()) by {
        assert es[1..] == [];
      }
      if !accepted {
        es := AnswerNow(start, es, req.id, SlowConsumer);
      } else if !req.streamed {
        es := AnswerNow(start, es, req.id, Accepted);
      }
    }

    /** serveMessages, for the messages the subscription yields before it ends. */
    method ServeMessages(msgs: seq<Incoming<S>>) returns (ghost es: seq<Event<S>>)
      requires pump == Idle && forall i | 0 <= i < |msgs| :: IdOf(msgs[i]) !in received
      requires forall i, j | 0 <= i < j < |msgs| :: IdOf(msgs[i]) != IdOf(msgs[j])
      modifies this, dispatcher
      ensures MessagePump.Steps(old(Now()), es, Now()) && pump == Idle
      ensures forall i | 0 <= i < |msgs| :: Answered(Now(), msgs[i])
    {
      hide Answered, Grows;
      ghost var start := Now();
      es := [];
      for k := 0 to |msgs|
        invariant pump == Idle && MessagePump.Steps(start, es, Now())
        invariant received == start.received + set i | 0 <= i < k :: IdOf(msgs[i])
        invariant forall i | 0 <= i < k :: Answered(Now(), msgs[i])
      {
        ghost var mid := Now();
        ghost var others := WorkersRun();
        WorkersGrow(mid, others, Now());
        PumpStepsJoin(start, es, mid, others, Now());
        ghost var next := Now();
        ghost var turn := ServeOne(msgs[k]);
        PumpStepsJoin(start, es + others, next, turn, Now());
        es := es + others + turn;
        forall i | 0 <= i < k ensures Answered(Now(), msgs[i]) {
          StillAnswered(mid, next, msgs[i]);
          StillAnswered(next, Now(), msgs[i]);
        }
      }
    }
  }

  lemma DispatchVerdict<S(!new)>(disp: DispatchModel.State<S, Request>, s: S, req: Request, g: nat)
    ensures var disp' := DispatchStep(disp, s, req, g);
      At(disp'.accepted, s) == At(disp.accepted, s) + [req] <==> |At(disp.queues, s)| < disp.queueSize
  {
    assert |At(disp.accepted, s) + [req]| == |At(disp.accepted, s)| + 1;
  }

  // --- The sending side ---

  /** The reply to a message request, as it travels. */
  datatype MessageAck = MessageAck(chunkSubject: string, error: string)

  const SLOW_CONSUMER_REPLY := "slow consumer"

  function OnTheWire(ack: Ack, subject: string): MessageAck {
    match ack
    case Accepted => MessageAck("", "")
    case ChunkSubject => MessageAck(subject, "")
    case Malformed => MessageAck("", "malformed envelope")
    case SlowConsumer => MessageAck("", SLOW_CONSUMER_REPLY)
  }

  datatype SendError = ErrSlowConsumer | Rejected(reason: string) | NoUsableReply | MissingChunkSubject

  datatype Result<T> = Ok(value: T) | Err(error: SendError)

  /** parseMessageAck; None stands for bytes that do not decode. */
  function ParseMessageAck(data: Option<MessageAck>): Result<MessageAck> {
    match data
    case None => Err(NoUsableReply)
    case Some(ack) =>
      if ack.error == SLOW_CONSUMER_REPLY then Err(ErrSlowConsumer)
      else if ack.error != "" then Err(Rejected(ack.error))
      else Ok(ack)
  }

  /** What the sender concludes from an ack that reaches it is true at the receiver, in every interleaving: it parses
      without an error exactly if the work was accepted, and as the slow-consumer error if it was rejected for a full
      queue. What an ack that does not reach the sender leaves open is the subject of SendModel. */
  lemma SenderConcludes<S(!new)>(queueSize: int, es: seq<Event<S>>, st: PumpState<S>, id: nat, ack: Ack,
                                 subject: string)
    requires MessagePump.Steps(Start<S>(queueSize), es, st) && st.pump.Idle? && Acked(st, id, ack)
    ensures var parsed := ParseMessageAck(Some(OnTheWire(ack, subject)));
      && (parsed.Ok? <==> WasAccepted(st.disp, Request(id, false)) || WasAccepted(st.disp, Request(id, true)))
      && (parsed == Err(ErrSlowConsumer) <==> ack == SlowConsumer)
      && (parsed == Err(ErrSlowConsumer) ==> st.disp.overflows != [])
  {
    AckDiscipline(queueSize, es, st, id);
    assert "malformed envelope"[0] != SLOW_CONSUMER_REPLY[0];
    var i :| 0 <= i < |st.acks| && st.acks[i] == AckEntry(id, ack);
    SlowAcksCount(st.acks, i);
  }

  lemma {:induction false} SlowAcksCount(acks: seq<AckEntry>, i: nat)
    requires i < |acks|
    ensures acks[i].ack == SlowConsumer ==> SlowAcks(acks) > 0
  {
    if i < |acks| - 1 {
      SlowAcksCount(acks[..|acks| - 1], i);
    }
  }

  /** The chunks go out in order, each after the ack of the one before, up to the first that is not acked; without an
      error all of them do, and are acked. */
  ghost predicate StreamedAs<B>(payload: seq<B>, acked: ChunkModel.Replies, r: Result<()>,
                                sent: seq<ChunkModel.Chunk<B>>) {
    && sent != [] && sent <= ChunkModel.Chunks(payload)
    && (forall k | 0 <= k < |sent| - 1 :: acked(k))
    && if acked(|sent| - 1) then r == Ok(()) && sent == ChunkModel.Chunks(payload) else r == Err(NoUsableReply)
  }

  /** sendEnvelope. `reply` is what the request comes back with, sent inline or streamed; `acked` says which chunk
      requests are answered. */
  method SendEnvelope<B>(payload: seq<B>, inlineSize: nat, maxPayload: int, reply: bool -> Option<MessageAck>,
                         acked: ChunkModel.Replies)
    returns (r: Result<()>, sent: seq<ChunkModel.Chunk<B>>)
    ensures match reply(inlineSize > maxPayload)
      case None => r == Err(NoUsableReply) && sent == []
      case Some(ack) =>
        if ack.error == "slow consumer" then r == Err(ErrSlowConsumer) && sent == []
        else if ack.error != "" then r == Err(Rejected(ack.error)) && sent == []
        else if inlineSize <= maxPayload then r == Ok(()) && sent == []
        else if ack.chunkSubject == "" then r == Err(MissingChunkSubject) && sent == []
        else StreamedAs(payload, acked, r, sent)
  {
    if inlineSize <= maxPayload {
      match ParseMessageAck(reply(false))
      case Err(e) => return Err(e), [];
      case Ok(_) => return Ok(()), [];
    }
    match ParseMessageAck(reply(true))
    case Err(e) => return Err(e), [];
    case Ok(ack) =>
      if ack.chunkSubject == "" {
        return Err(MissingChunkSubject), [];
      }
      var ok;
      ok, sent := ChunkModel.StreamChunks(payload, acked);
      r := if ok then Ok(()) else Err(NoUsableReply);
  }
}
