/** Gateways and one service together: registration, delivery and heartbeats, over a network that may
    lose or delay messages. */
module SystemModel {
  import opened Sequences
  import opened Heartbeat
  import ServiceModel

  /** A batch of a heartbeat round, and what the service will close because of it. */
  datatype Beat<G, S> = Beat(gateway: G, batch: seq<S>, outcome: Outcome<S>)

  datatype Outcome<S> = Asked | Answered(dead: seq<S>) | NoReply

  datatype System<S(==), G(==), C> = System(
    registered: set<(G, S)>,    // the gateways' socket tables
    handling: set<(G, S)>,      // Handle calls past their registration
    wire: set<(G, S)>,          // messages under way to the service
    svc: ServiceModel.State<S, G, C>,
    beats: map<nat, Beat<G, S>>)

  datatype Event<S, G, C> =
    | Register(g: G, s: S)
    | Send(g: G, s: S)              // MessageService called by a Handle call
    | Return(g: G, s: S)            // a Handle call ends
    | Remove(g: G, s: S)            // any closer, at any time
    | Lose(g: G, s: S)
    | Deliver(g: G, s: S, made: C)  // handleServiceMessage
    | Local(a: ServiceModel.Action<S, G, C>)   // anything else at the service: closures, expiry, callbacks, time
    | Ask(b: nat, g: G, batch: seq<S>)
    | Answer(b: nat)
    | GiveUp(b: nat)
    | CloseReported(b: nat, s: S)

  function Start<S(==), G(==), C>(now: int, ttl: int): System<S, G, C> {
    System({}, {}, {}, ServiceModel.Init(now, ttl), map[])
  }

  function TableOf<S(==), G(==)>(registered: set<(G, S)>, g: G): set<S> {
    set p | p in registered && p.0 == g :: p.1
  }

  lemma InTable<S, G>(registered: set<(G, S)>, g: G, s: S)
    ensures s in TableOf(registered, g) <==> (g, s) in registered
  {
    if (g, s) in registered {
      assert (g, s).0 == g && (g, s).1 == s;
    }
  }

  /** The service has, or had, a connection for s made through gateway g: a round may ask about sockets whose
      connections have closed since its snapshot. */
  ghost predicate Connected<S, G, C(!new)>(st: System<S, G, C>, g: G, s: S) {
    exists c :: c in st.svc.conns && st.svc.conns[c].gateway == g && st.svc.conns[c].socket == s
  }

  ghost function Reported<S, G>(beat: Beat<G, S>): seq<S> {
    match beat.outcome
    case Asked => []
    case Answered(dead) => dead
    case NoReply => beat.batch
  }

  ghost predicate Next<S, G, C(!new)>(st: System<S, G, C>, e: Event<S, G, C>, st': System<S, G, C>) {
    match e
    case Register(g, s) =>
      st' == st.(registered := st.registered + {(g, s)}, handling := st.handling + {(g, s)})
    case Send(g, s) =>
      (g, s) in st.handling && st' == st.(wire := st.wire + {(g, s)})
    case Return(g, s) =>
      st' == st.(handling := st.handling - {(g, s)})
    case Remove(g, s) =>
      st' == st.(registered := st.registered - {(g, s)})
    case Lose(g, s) =>
      st' == st.(wire := st.wire - {(g, s)})
    case Deliver(g, s, made) =>
      && (g, s) in st.wire
      && var a := ServiceModel.Ensure(s, g, made);
         ServiceModel.Enabled(st.svc, a) && st' == st.(wire := st.wire - {(g, s)}, svc := ServiceModel.Apply(st.svc, a))
    case Local(a) =>
      !a.Ensure? && ServiceModel.Enabled(st.svc, a) && st' == st.(svc := ServiceModel.Apply(st.svc, a))
    case Ask(b, g, batch) =>
      && b !in st.beats && |batch| <= MAX_BATCH_SIZE && (forall s | s in batch :: Connected(st, g, s))
      && st' == st.(beats := st.beats[b := Beat(g, batch, Asked)])
    case Answer(b) =>
      && b in st.beats && st.beats[b].outcome == Asked
      && var beat := st.beats[b];
         var answer := Answered(Absent(TableOf(st.registered, beat.gateway), beat.batch));
         st' == st.(beats := st.beats[b := beat.(outcome := answer)])
    case GiveUp(b) =>
      && b in st.beats && st.beats[b].outcome == Asked
      && st' == st.(beats := st.beats[b := st.beats[b].(outcome := NoReply)])
    case CloseReported(b, s) =>
      && b in st.beats && s in Reported(st.beats[b])
      && st' == st.(svc := ServiceModel.Apply(st.svc, ServiceModel.Shut(s)))
  }

  ghost predicate Trace<S, G, C(!new)>(states: seq<System<S, G, C>>, es: seq<Event<S, G, C>>) {
    && |states| == |es| + 1
    && forall i | 0 <= i < |es| :: Next(states[i], es[i], states[i + 1])
  }

  /** (g, s) was registered at some point up to k. */
  ghost predicate Ever<S, G, C>(states: seq<System<S, G, C>>, k: nat, g: G, s: S) {
    exists i :: 0 <= i <= k && i < |states| && (g, s) in states[i].registered
  }

  /** Everything that speaks of a socket of g came after its registration there. */
  ghost predicate RegisteredFirst<S(!new), G(!new), C>(states: seq<System<S, G, C>>, k: nat)
    requires k < |states|
  {
    var st := states[k];
    && (forall g, s | (g, s) in st.handling || (g, s) in st.wire :: Ever(states, k, g, s))
    && (forall c | c in st.svc.conns :: Ever(states, k, st.svc.conns[c].gateway, st.svc.conns[c].socket))
    && (forall b, s | b in st.beats && s in st.beats[b].batch :: Ever(states, k, st.beats[b].gateway, s))
  }

  lemma EverStays<S(!new), G(!new), C(!new)>(states: seq<System<S, G, C>>, k: nat)
    requires k + 1 < |states|
    ensures forall g, s | Ever(states, k, g, s) || (g, s) in states[k + 1].registered :: Ever(states, k + 1, g, s)
  {
  }

  lemma ConnsStep<S, G, C>(svc: ServiceModel.State<S, G, C>, a: ServiceModel.Action<S, G, C>)
    requires ServiceModel.Enabled(svc, a)
    ensures var svc' := ServiceModel.Apply(svc, a);
      forall c | c in svc'.conns ::
        if c in svc.conns then
          svc'.conns[c].gateway == svc.conns[c].gateway && svc'.conns[c].socket == svc.conns[c].socket
        else a.Ensure? && svc'.conns[c].gateway == a.g && svc'.conns[c].socket == a.s
  {
  }

  lemma RegisteredFirstStep<S(!new), G(!new), C(!new)>(states: seq<System<S, G, C>>, es: seq<Event<S, G, C>>, k: nat)
    requires Trace(states, es) && k < |es| && RegisteredFirst(states, k) && ServiceModel.Inv(states[k].svc)
    ensures RegisteredFirst(states, k + 1)
  {
    hide ServiceModel.Apply, Ever, Absent, Connected;
    var st, st' := states[k], states[k + 1];
    assert Next(st, es[k], st');
    EverStays(states, k);
    match es[k]
    case Deliver(g, s, made) => ConnsStep(st.svc, ServiceModel.Ensure(s, g, made));
    case Local(a) => ConnsStep(st.svc, a);
    case CloseReported(b, s) => ConnsStep(st.svc, ServiceModel.Shut(s));
    case Ask(b, g, batch) => AskedRegistered(states, k, g, batch);
    case _ =>
  }

  lemma AskedRegistered<S(!new), G(!new), C(!new)>(states: seq<System<S, G, C>>, k: nat, g: G, batch: seq<S>)
    requires k < |states| && RegisteredFirst(states, k) && ServiceModel.Inv(states[k].svc)
    requires forall s | s in batch :: Connected(states[k], g, s)
    ensures forall s | s in batch :: Ever(states, k, g, s)
  {
  }

  lemma SvcStep<S, G, C(!new)>(st: System<S, G, C>, e: Event<S, G, C>, st': System<S, G, C>)
    requires Next(st, e, st') && ServiceModel.Inv(st.svc)
    ensures ServiceModel.Inv(st'.svc)
  {
    hide ServiceModel.Inv, ServiceModel.Apply, Absent;
    match e
    case Deliver(g, s, made) => ServiceModel.ApplyInv(st.svc, ServiceModel.Ensure(s, g, made));
    case Local(a) => ServiceModel.ApplyInv(st.svc, a);
    case CloseReported(b, s) => ServiceModel.ApplyInv(st.svc, ServiceModel.Shut(s));
    case _ =>
  }

  /** In every run, every service connection made by a gateway's message belongs to a socket that was registered
      at that gateway before: it is registered there still, or was removed since. */
  lemma {:induction false} ConnectionsRegistered<S(!new), G(!new), C(!new)>(states: seq<System<S, G, C>>,
                                                                            es: seq<Event<S, G, C>>, now: int, ttl: int,
                                                                            k: nat)
    requires Trace(states, es) && states[0] == Start(now, ttl) && k <= |es|
    ensures RegisteredFirst(states, k) && ServiceModel.Inv(states[k].svc)
    ensures forall s | s in states[k].svc.table :: var g := states[k].svc.conns[states[k].svc.table[s]].gateway;
      Ever(states, k, g, s)
  {
    hide Next, Ever;
    if k > 0 {
      ConnectionsRegistered(states, es, now, ttl, k - 1);
      SvcStep(states[k - 1], es[k - 1], states[k]);
      RegisteredFirstStep(states, es, k - 1);
    }
  }

  // --- What a dead report means ---

  lemma BeatStep<S, G, C(!new)>(st: System<S, G, C>, e: Event<S, G, C>, st': System<S, G, C>, b: nat)
    requires Next(st, e, st') && b in st'.beats
    ensures b in st.beats ==> st'.beats[b].gateway == st.beats[b].gateway && st'.beats[b].batch == st.beats[b].batch
    ensures st'.beats[b].outcome.Answered? ==>
      || (b in st.beats && st'.beats[b] == st.beats[b])
      || (&& e == Answer(b)
          && st'.beats[b].outcome.dead == Absent(TableOf(st.registered, st'.beats[b].gateway), st'.beats[b].batch))
  {
    hide Absent, ServiceModel.Apply;
  }

  lemma {:induction false} AnsweredOnce<S(!new), G(!new), C(!new)>(states: seq<System<S, G, C>>,
                                                                   es: seq<Event<S, G, C>>, now: int, ttl: int, k: nat,
                                                                   b: nat)
    returns (j: nat)
    requires Trace(states, es) && states[0] == Start(now, ttl) && k <= |es|
    requires b in states[k].beats && states[k].beats[b].outcome.Answered?
    ensures j < k && es[j] == Answer(b)
    ensures var beat := states[k].beats[b];
      beat.outcome.dead == Absent(TableOf(states[j].registered, beat.gateway), beat.batch)
    ensures forall s | s in states[k].beats[b].batch :: Ever(states, j, states[k].beats[b].gateway, s)
  {
    hide Next, Absent, Ever;
    BeatStep(states[k - 1], es[k - 1], states[k], b);
    if b in states[k - 1].beats && states[k].beats[b] == states[k - 1].beats[b] {
      j := AnsweredOnce(states, es, now, ttl, k - 1, b);
    } else {
      j := k - 1;
      ConnectionsRegistered(states, es, now, ttl, j);
      AskedBefore(states[j], es[j], states[k], b);
    }
  }

  lemma AskedBefore<S, G, C(!new)>(st: System<S, G, C>, e: Event<S, G, C>, st': System<S, G, C>, b: nat)
    requires Next(st, e, st') && e == Answer(b)
    ensures b in st.beats && b in st'.beats && st'.beats[b].gateway == st.beats[b].gateway
          && st'.beats[b].batch == st.beats[b].batch
  {
  }

  lemma {:induction false} GaveUpOnce<S(!new), G(!new), C(!new)>(states: seq<System<S, G, C>>, es: seq<Event<S, G, C>>,
                                                                 now: int, ttl: int, k: nat, b: nat) returns (j: nat)
    requires Trace(states, es) && states[0] == Start(now, ttl) && k <= |es|
    requires b in states[k].beats && states[k].beats[b].outcome == NoReply
    ensures j < k && es[j] == GiveUp(b)
  {
    hide Absent, Connected, ServiceModel.Apply;
    assert Next(states[k - 1], es[k - 1], states[k]);
    if b in states[k - 1].beats && states[k - 1].beats[b].outcome == NoReply {
      j := GaveUpOnce(states, es, now, ttl, k - 1, b);
    } else {
      j := k - 1;
    }
  }

  /** In every run, a socket closed by a heartbeat round had been registered at that gateway; and either it was absent
      from the gateway's table when its batch was answered, or the batch got no reply. So a socket that stays
      registered throughout a round is only closed if its gateway fails to answer. */
  lemma DeadWasRemoved<S(!new), G(!new), C(!new)>(states: seq<System<S, G, C>>, es: seq<Event<S, G, C>>, now: int,
                                                  ttl: int, k: nat, b: nat, s: S)
    returns (i: nat, j: nat)
    requires Trace(states, es) && states[0] == Start(now, ttl) && k < |es| && es[k] == CloseReported(b, s)
    ensures b in states[k].beats && j < k && i <= k && (states[k].beats[b].gateway, s) in states[i].registered
    ensures if states[k].beats[b].outcome == NoReply then es[j] == GiveUp(b)
      else i < j && es[j] == Answer(b) && (states[k].beats[b].gateway, s) !in states[j].registered
  {
    hide Absent, ServiceModel.Apply, Connected;
    i, j := 0, 0;
    assert Next(states[k], es[k], states[k + 1]);
    var beat := states[k].beats[b];
    if beat.outcome.Answered? {
      j := AnsweredOnce(states, es, now, ttl, k, b);
      assert s in beat.batch && s !in TableOf(states[j].registered, beat.gateway);
      assert Ever(states, j, beat.gateway, s);
      var r :| 0 <= r <= j && r < |states| && (beat.gateway, s) in states[r].registered;
      InTable(states[j].registered, beat.gateway, s);
      i := r;
    } else {
      j := GaveUpOnce(states, es, now, ttl, k, b);
      ConnectionsRegistered(states, es, now, ttl, k);
      assert s in beat.batch && Ever(states, k, beat.gateway, s);
      var r :| 0 <= r <= k && r < |states| && (beat.gateway, s) in states[r].registered;
      i := r;
    }
  }

  // --- A quiet round ---

  /** A connection that has left the table does not come back. */
  ghost predicate OutOfTable<S, G, C>(st: System<S, G, C>, s: S, c: C) {
    c in st.svc.conns && !(s in st.svc.table && st.svc.table[s] == c)
  }

  lemma OutStep<S, G, C(!new)>(st: System<S, G, C>, e: Event<S, G, C>, st': System<S, G, C>, s: S, c: C)
    requires Next(st, e, st') && c in st.svc.conns
    ensures c in st'.svc.conns && (OutOfTable(st, s, c) ==> OutOfTable(st', s, c))
    ensures forall b :: e == CloseReported(b, s) ==> OutOfTable(st', s, c)
  {
    hide Absent, Connected;
  }

  lemma {:induction false} OutStays<S(!new), G(!new), C(!new)>(states: seq<System<S, G, C>>, es: seq<Event<S, G, C>>,
                                                               m: nat, k: nat, s: S, c: C)
    requires Trace(states, es) && m <= k <= |es| && c in states[m].svc.conns
    ensures c in states[k].svc.conns && (OutOfTable(states[m], s, c) ==> OutOfTable(states[k], s, c))
  {
    hide Next, OutOfTable;
    if m < k {
      OutStays(states, es, m, k - 1, s, c);
      OutStep(states[k - 1], es[k - 1], states[k], s, c);
    }
  }

  lemma {:induction false} BeatsStay<S(!new), G(!new), C(!new)>(states: seq<System<S, G, C>>, es: seq<Event<S, G, C>>,
                                                                m: nat, k: nat, b: nat)
    requires Trace(states, es) && m <= k <= |es| && b in states[m].beats
    ensures b in states[k].beats
  {
    hide Absent, Connected, ServiceModel.Apply;
    if m < k {
      BeatsStay(states, es, m, k - 1, b);
    }
  }

  lemma {:induction false} StaysRegistered<S(!new), G(!new), C(!new)>(states: seq<System<S, G, C>>,
                                                                      es: seq<Event<S, G, C>>, m: nat, k: nat, g: G,
                                                                      s: S)
    requires Trace(states, es) && m <= k <= |es| && (g, s) in states[m].registered
    requires forall i | m <= i < k :: es[i] != Remove(g, s)
    ensures (g, s) in states[k].registered
  {
    hide Absent, Connected, ServiceModel.Apply;
    if m < k {
      StaysRegistered(states, es, m, k - 1, g, s);
      assert Next(states[k - 1], es[k - 1], states[k]);
    }
  }

  /** The round that asked about s of gateway g in batch b at step a is over at k: the batch was answered and, if
      s was reported, closed; meanwhile s was not removed from the gateway's table. */
  ghost predicate QuietFor<S(!new), G(!new), C(!new)>(states: seq<System<S, G, C>>, es: seq<Event<S, G, C>>, a: nat,
                                                      k: nat, b: nat, g: G, s: S) {
    && a < k <= |es| && |states| == |es| + 1
    && es[a].Ask? && es[a].b == b && es[a].g == g && s in es[a].batch
    && b in states[k].beats && states[k].beats[b].outcome.Answered?
    && (s in states[k].beats[b].outcome.dead ==> exists m :: a < m < k && es[m] == CloseReported(b, s))
    && (forall i | a <= i < k :: es[i] != Remove(g, s))
  }

  lemma {:induction false} BatchStays<S(!new), G(!new), C(!new)>(states: seq<System<S, G, C>>, es: seq<Event<S, G, C>>,
                                                                 a: nat, k: nat, b: nat)
    requires Trace(states, es) && a < k <= |es| && es[a].Ask? && es[a].b == b
    ensures b !in states[a].beats && b in states[k].beats
    ensures states[k].beats[b].gateway == es[a].g && states[k].beats[b].batch == es[a].batch
  {
    hide Absent, Connected, ServiceModel.Apply;
    assert Next(states[a], es[a], states[a + 1]);
    if a + 1 < k {
      BatchStays(states, es, a, k - 1, b);
      BeatsStay(states, es, k - 1, k, b);
      BeatStep(states[k - 1], es[k - 1], states[k], b);
    }
  }

  /** In every run: after a round that was quiet for a socket of the snapshot, its connection, if it is still in the
      table, belongs to a registered socket. So after a quiet heartbeat round the surviving connections are
      registered. */
  lemma QuietRound<S(!new), G(!new), C(!new)>(states: seq<System<S, G, C>>, es: seq<Event<S, G, C>>, now: int, ttl: int,
                                              a: nat, k: nat, b: nat, g: G, s: S, c: C)
    requires Trace(states, es) && states[0] == Start(now, ttl) && QuietFor(states, es, a, k, b, g, s)
    requires c in states[a].svc.conns && s in states[k].svc.table && states[k].svc.table[s] == c
    ensures (g, s) in states[k].registered
  {
    hide Next, Absent, Connected, Ever;
    BatchStays(states, es, a, k, b);
    var j := AnsweredOnce(states, es, now, ttl, k, b);
    AskedFirst(states, es, j, b);
    if j < a {
      BeatsStay(states, es, j, a, b);
    }
    assert a <= j;
    if s in states[k].beats[b].outcome.dead {
      var m :| a < m < k && es[m] == CloseReported(b, s);
      OutStays(states, es, a, m, s, c);
      OutStep(states[m], es[m], states[m + 1], s, c);
      OutStays(states, es, m + 1, k, s, c);
      assert false;
    } else {
      InTable(states[j].registered, g, s);
      StaysRegistered(states, es, j, k, g, s);
    }
  }

  lemma AskedFirst<S(!new), G(!new), C(!new)>(states: seq<System<S, G, C>>, es: seq<Event<S, G, C>>, j: nat, b: nat)
    requires Trace(states, es) && j < |es| && es[j] == Answer(b)
    ensures b in states[j].beats
  {
    hide Absent, Connected, ServiceModel.Apply;
    assert Next(states[j], es[j], states[j + 1]);
  }
}
