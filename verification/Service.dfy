/** A service's connection table as it is written, proved against the lock sections of ServiceModel. */
module Service {
  import opened Sequences
  import opened ServiceModel
  import opened MailboxModel
  import opened Connection
  import opened Heartbeat

  /** What a caller of HandleClose does to a connection: the first call also runs the onClosed callback. */
  function Finish<S(==), G, C(==)>(st: State<S, G, C>, c: C): State<S, G, C>
    requires c in st.conns
  {
    var claimed := Apply(st, HandleClose(c));
    if st.conns[c].phase == Open then Apply(claimed, OnClosed(c)) else claimed
  }

  /** closeConnection, start to end. */
  function CloseOne<S(==), G, C(==)>(st: State<S, G, C>, s: S): State<S, G, C>
    requires s in st.table ==> st.table[s] in st.conns
  {
    if s in st.table then Finish(Apply(st, Shut(s)), st.table[s]) else Apply(st, Shut(s))
  }

  lemma Extend<S, G, C>(states: seq<State<S, G, C>>, acts: seq<Action<S, G, C>>, a: Action<S, G, C>)
    requires Trace(states, acts) && Enabled(states[|acts|], a)
    ensures Trace(states + [Apply(states[|acts|], a)], acts + [a])
  {
  }

  lemma FinishFrame<S, G, C>(st: State<S, G, C>, c: C)
    requires c in st.conns
    ensures Finish(st, c).tombs == st.tombs && Finish(st, c).now == st.now && Finish(st, c).owed == st.owed - {c}
    ensures Finish(st, c).table == if st.conns[c].phase == Open then st.table - {st.conns[c].socket} else st.table
  {
  }

  lemma ClaimedIsClosing<S, G, C>(st: State<S, G, C>, c: C)
    requires c in st.conns && st.conns[c].phase == Open
    ensures Enabled(Apply(st, HandleClose(c)), OnClosed(c))
  {
  }

  /** A finished HandleClose is one or two steps of the interleaved machine. */
  lemma FinishIsRun<S, G, C>(states: seq<State<S, G, C>>, acts: seq<Action<S, G, C>>, c: C)
    returns (states': seq<State<S, G, C>>, acts': seq<Action<S, G, C>>)
    requires Trace(states, acts) && c in states[|acts|].conns
    ensures Trace(states', acts') && states'[0] == states[0] && states'[|acts'|] == Finish(states[|acts|], c)
  {
    var st := states[|acts|];
    var claimed := Apply(st, HandleClose(c));
    Extend(states, acts, HandleClose(c));
    states', acts' := states + [claimed], acts + [HandleClose(c)];
    if st.conns[c].phase == Open {
      Extend(states', acts', OnClosed(c));
      states', acts' := states' + [Apply(claimed, OnClosed(c))], acts' + [OnClosed(c)];
    }
  }

  /** closeAllConnections when only `pending` of the connections it took out are still to be closed. */
  function CloseAllBut<S(==), G, C(==)>(st: State<S, G, C>, pending: set<C>): State<S, G, C> {
    st.(table := map[],
        conns := map c | c in st.conns :: if c in st.table.Values && c !in pending && st.conns[c].phase == Open
                                          then st.conns[c].(phase := Closed) else st.conns[c],
        owed := st.owed + pending)
  }

  /** closeAllConnections, start to end. */
  function CloseEvery<S(==), G, C(==)>(st: State<S, G, C>): State<S, G, C> {
    CloseAllBut(st, {})
  }

  lemma CloseAllStarts<S, G, C>(st: State<S, G, C>)
    ensures CloseAllBut(st, st.table.Values) == Apply(st, ShutAll)
  {
    assert CloseAllBut(st, st.table.Values).conns == st.conns;
  }

  lemma CloseAllNext<S, G, C>(st: State<S, G, C>, pending: set<C>, c: C)
    requires Inv(st) && c in pending && pending <= st.table.Values
    ensures c in st.conns && Finish(CloseAllBut(st, pending), c) == CloseAllBut(st, pending - {c})
  {
    var s :| s in st.table && st.table[s] == c;
    var before, after := CloseAllBut(st, pending), CloseAllBut(st, pending - {c});
    assert Finish(before, c).conns == after.conns;
    assert (st.owed + pending) - {c} == st.owed + (pending - {c});
    assert Finish(before, c).table == map[];
  }

  /** closeAllConnections is a run of the interleaved machine. */
  lemma CloseEveryIsRun<S, G, C>(st: State<S, G, C>)
    returns (states: seq<State<S, G, C>>, acts: seq<Action<S, G, C>>)
    requires Inv(st)
    ensures Trace(states, acts) && states[0] == st && states[|acts|] == CloseEvery(st)
    ensures Inv(CloseEvery(st)) && EveryClosed(st, CloseEvery(st))
  {
    AllClosed(st);
    hide Finish, CloseAllBut, Inv, Apply;
    CloseAllStarts(st);
    states, acts := [st, Apply(st, ShutAll)], [ShutAll];
    var pending := st.table.Values;
    while pending != {}
      invariant pending <= st.table.Values
      invariant Trace(states, acts) && states[0] == st && states[|acts|] == CloseAllBut(st, pending)
      decreases |pending|
    {
      var c :| c in pending;
      CloseAllNext(st, pending, c);
      CloseAllKnows(st, pending, c);
      states, acts := FinishIsRun(states, acts, c);
      pending := pending - {c};
    }
    RunInv(states, acts, |acts|);
  }

  /** Every connection of the table is closed, and none is left to close; tombstones are as they were. */
  ghost predicate EveryClosed<S, G, C>(st: State<S, G, C>, st': State<S, G, C>) {
    && st'.table == map[] && st'.tombs == st.tombs && st'.owed == st.owed && st'.conns.Keys == st.conns.Keys
    && forall c | c in st.conns ::
      if c in st.table.Values then st'.conns[c].phase != Open else st'.conns[c] == st.conns[c]
  }

  lemma AllClosed<S, G, C>(st: State<S, G, C>)
    ensures EveryClosed(st, CloseEvery(st))
  {
    assert st.owed + {} == st.owed;
  }

  lemma CloseAllKnows<S, G, C>(st: State<S, G, C>, pending: set<C>, c: C)
    requires c in st.conns
    ensures c in CloseAllBut(st, pending).conns
  {
  }

  /** The socket is out of the table with a tombstone from now, its connection is closed and nobody owes it a close;
      every other connection and tombstone is as it was. */
  ghost predicate OneClosed<S, G, C>(st: State<S, G, C>, s: S, st': State<S, G, C>)
    requires s in st.table ==> st.table[s] in st.conns
  {
    && st'.table == st.table - {s} && st'.tombs == st.tombs[s := st.now] && st'.conns.Keys == st.conns.Keys
    && (s in st.table ==> st'.conns[st.table[s]].phase != Open && st.table[s] !in st'.owed)
    && (forall c | c in st.conns && !(s in st.table && st.table[s] == c) ::
          st'.conns[c] == st.conns[c] && (c in st'.owed <==> c in st.owed))
  }

  /** closeConnection is a run of the interleaved machine, so everything proved of runs holds of it. */
  lemma CloseOneIsRun<S, G, C>(st: State<S, G, C>, s: S)
    returns (states: seq<State<S, G, C>>, acts: seq<Action<S, G, C>>)
    requires Inv(st)
    ensures Trace(states, acts) && states[0] == st && states[|acts|] == CloseOne(st, s)
    ensures Inv(CloseOne(st, s)) && OneClosed(st, s, CloseOne(st, s))
  {
    states, acts := [st, Apply(st, Shut(s))], [Shut(s)];
    if s in st.table {
      states, acts := FinishIsRun(states, acts, st.table[s]);
    }
    RunInv(states, acts, |acts|);
  }

  /** groups lists every connected socket once, under its connection's gateway, and nothing else. */
  ghost predicate IsGrouping<S(!new), G(!new), M>(table: map<S, Conn<S, G, M>>, groups: map<G, seq<S>>) {
    && (forall g | g in groups :: NoDup(groups[g]))
    && (forall g, s :: g in groups && s in groups[g] <==> s in table && table[s].gatewayID == g)
  }

  ghost function Among<T>(xs: seq<T>): set<T> {
    set x | x in xs
  }

  /** The sockets a heartbeat round over the gateways in `done` closes. */
  ghost function ClosedBy<S, G, M>(table: map<S, Conn<S, G, M>>, groups: map<G, seq<S>>, answers: G -> Answers<S>,
                                   done: set<G>): set<S> {
    set s | s in table && table[s].gatewayID in done && table[s].gatewayID in groups
      && s in DeadOf(groups[table[s].gatewayID], answers(table[s].gatewayID))
  }

  lemma NoneClosed<S, G, M>(table: map<S, Conn<S, G, M>>, groups: map<G, seq<S>>, answers: G -> Answers<S>)
    ensures ClosedBy(table, groups, answers, {}) == {}
  {
  }

  lemma OneGroup<S(!new), G(!new), M>(table: map<S, Conn<S, G, M>>, groups: map<G, seq<S>>, g: G)
    requires IsGrouping(table, groups) && g in groups
    ensures NoDup(groups[g])
  {
  }

  lemma ClosedNext<S(!new), G(!new), M>(table: map<S, Conn<S, G, M>>, groups: map<G, seq<S>>,
                                        answers: G -> Answers<S>, done: set<G>, g: G)
    requires IsGrouping(table, groups) && g in groups && g !in done
    ensures ClosedBy(table, groups, answers, done + {g}) ==
      ClosedBy(table, groups, answers, done) + Among(DeadOf(groups[g], answers(g)))
    ensures forall s | s in DeadOf(groups[g], answers(g)) :: s !in ClosedBy(table, groups, answers, done)
  {
    hide DeadOf;
    DeadQueried(groups[g], answers(g));
  }

  /** Every gateway either answers the whole round from one table, or fails some request. */
  ghost predicate Quiet<S(!new), G(!new)>(groups: map<G, seq<S>>, answers: G -> Answers<S>, tables: map<G, set<S>>) {
    forall g | g in groups ::
      if g in tables then forall i | 0 <= i < |Batches(groups[g])| :: answers(g)(i) == Some(tables[g])
      else !AllAnswered(answers(g), |Batches(groups[g])|)
  }

  /** After a quiet heartbeat round the surviving connections are exactly those whose gateway was reachable and
      has the socket registered. */
  lemma QuietRound<S(!new), G(!new), M>(table: map<S, Conn<S, G, M>>, groups: map<G, seq<S>>,
                                        answers: G -> Answers<S>, tables: map<G, set<S>>, s: S)
    requires IsGrouping(table, groups) && Quiet(groups, answers, tables) && s in table
    ensures var g := table[s].gatewayID;
      s !in ClosedBy(table, groups, answers, groups.Keys) <==> g in tables && s in tables[g]
  {
    var g := table[s].gatewayID;
    assert g in groups && s in groups[g];
    if g in tables {
      BatchedIsOneShot(groups[g], answers(g), tables[g]);
    }
  }

  /** Whatever happens to the tables during the round, a connection whose gateway answers every batch and has the
      socket registered at each answer is not closed; one whose socket is registered at none is. */
  lemma NoFalseAlarm<S(!new), G(!new), M>(table: map<S, Conn<S, G, M>>, groups: map<G, seq<S>>,
                                          answers: G -> Answers<S>, s: S)
    requires IsGrouping(table, groups) && s in table
    ensures var g := table[s].gatewayID;
      var n := if g in groups then |Batches(groups[g])| else 0;
      && (AllAnswered(answers(g), n) && (forall i | 0 <= i < n :: s in answers(g)(i).value) ==>
            s !in ClosedBy(table, groups, answers, groups.Keys))
      && ((forall i | 0 <= i < n && answers(g)(i).Some? :: s !in answers(g)(i).value) ==>
            s in ClosedBy(table, groups, answers, groups.Keys))
  {
    var g := table[s].gatewayID;
    assert g in groups && s in groups[g];
    if AllAnswered(answers(g), |Batches(groups[g])|) {
      ReportExact(groups[g], answers(g), s);
    }
  }

  /** Exactly the sockets in `closed` were closed since the state before: their connections are gone, they have
      a tombstone from that time, the other tombstones are as they were, and each closure was announced once. */
  ghost predicate HasClosed<S(!new), C>(before: map<S, C>, tombs: map<S, int>, start: int, closed: set<S>,
                                  now: map<S, C>, tombsNow: map<S, int>, clock: int, announced: seq<S>) {
    && now == before - closed && start <= clock
    && tombsNow.Keys == tombs.Keys + closed
    && (forall s | s in closed :: start <= tombsNow[s] <= clock)
    && (forall s | s in tombs && s !in closed :: tombsNow[s] == tombs[s])
    && NoDup(announced) && (forall s :: s in announced <==> s in closed)
  }

  /** A heartbeat round that has closed these sockets so far: tables, announcements, and the connections they had. */
  ghost predicate RoundClosed<S(!new), C, M>(before: map<S, C>, tombs: map<S, int>, start: int, boxes: map<C, Box<M>>,
                                             closed: set<S>, now: map<S, C>, tombsNow: map<S, int>, clock: int,
                                             announced: seq<S>, boxesNow: map<C, Box<M>>) {
    && HasClosed(before, tombs, start, closed, now, tombsNow, clock, announced)
    && HaveEnded(boxes, Of(before, closed), NoResponse(), boxesNow)
  }

  lemma RoundStarts<S(!new), C, M>(before: map<S, C>, tombs: map<S, int>, start: int, boxes: map<C, Box<M>>)
    ensures RoundClosed(before, tombs, start, boxes, {}, before, tombs, start, [], boxes)
  {
    ClosesNothing(before, tombs, start);
    OfNone(before);
    NoneEnded(boxes, NoResponse());
  }

  lemma RoundGoesOn<S(!new), C, M>(before: map<S, C>, tombs: map<S, int>, start: int, boxes: map<C, Box<M>>,
                                   closed: set<S>, mid: map<S, C>, midTombs: map<S, int>, midClock: int,
                                   announced: seq<S>, midBoxes: map<C, Box<M>>,
                                   dead: seq<S>, now: map<S, C>, tombsNow: map<S, int>, clock: int,
                                   boxesNow: map<C, Box<M>>)
    requires RoundClosed(before, tombs, start, boxes, closed, mid, midTombs, midClock, announced, midBoxes)
    requires now == mid - Among(dead) && tombsNow.Keys == midTombs.Keys + Among(dead)
    requires midClock <= clock && forall s | s in dead :: midClock <= tombsNow[s] <= clock
    requires forall s | s in midTombs && s !in dead :: tombsNow[s] == midTombs[s]
    requires NoDup(dead) && forall s | s in dead :: s !in closed
    requires HaveEnded(midBoxes, Of(mid, Among(dead)), NoResponse(), boxesNow)
    requires forall s, t | s in before && t in before && before[s] == before[t] :: s == t
    ensures RoundClosed(before, tombs, start, boxes, closed + Among(dead),
      now, tombsNow, clock, announced + dead, boxesNow)
  {
    assert mid == before - closed;
    hide HaveEnded, HasClosed, Of, Among;
    ClosesMore(before, tombs, start, closed, mid, midTombs, midClock, announced, dead, now, tombsNow, clock);
    OfMore(before, closed, Among(dead), mid);
    MoreEnded(boxes, Of(before, closed), NoResponse(), midBoxes, Of(mid, Among(dead)), boxesNow);
  }

  lemma RoundEnds<S(!new), C, M>(before: map<S, C>, tombs: map<S, int>, start: int, boxes: map<C, Box<M>>,
                                 closed: set<S>, now: map<S, C>, tombsNow: map<S, int>, clock: int,
                                 announced: seq<S>, boxesNow: map<C, Box<M>>, owed: set<C>)
    requires RoundClosed(before, tombs, start, boxes, closed, now, tombsNow, clock, announced, boxesNow)
    requires forall s | s in before :: before[s] !in owed
    ensures HasClosed(before, tombs, start, closed, now, tombsNow, clock, announced)
    ensures HaveEnded(boxes, Of(before, closed), NoResponse(), boxesNow) && Of(before, closed) !! owed
  {
  }

  lemma ClosesNothing<S(!new), C>(before: map<S, C>, tombs: map<S, int>, start: int)
    ensures HasClosed(before, tombs, start, {}, before, tombs, start, [])
  {
  }

  lemma ClosesMore<S(!new), C>(before: map<S, C>, tombs: map<S, int>, start: int, closed: set<S>,
                               mid: map<S, C>, midTombs: map<S, int>, midClock: int, announced: seq<S>,
                               dead: seq<S>, now: map<S, C>, tombsNow: map<S, int>, clock: int)
    requires HasClosed(before, tombs, start, closed, mid, midTombs, midClock, announced)
    requires now == mid - Among(dead) && tombsNow.Keys == midTombs.Keys + Among(dead)
    requires midClock <= clock && forall s | s in dead :: midClock <= tombsNow[s] <= clock
    requires forall s | s in midTombs && s !in dead :: tombsNow[s] == midTombs[s]
    requires NoDup(dead) && forall s | s in dead :: s !in closed
    ensures HasClosed(before, tombs, start, closed + Among(dead), now, tombsNow, clock, announced + dead)
  {
    ConcatOfNew(announced, dead);
  }

  /** Exactly the connections in `ended` were closed since `before`, with this information unless they were already. */
  ghost predicate HaveEnded<C, M>(before: map<C, Box<M>>, ended: set<C>, info: CloseInfo, now: map<C, Box<M>>) {
    && now.Keys == before.Keys && ended <= before.Keys
    && forall c | c in before :: if c in ended then ClosedFrom(before[c], info, now[c]) else now[c] == before[c]
  }

  lemma NoneEnded<C, M>(before: map<C, Box<M>>, info: CloseInfo)
    ensures HaveEnded(before, {}, info, before)
  {
  }

  lemma MoreEnded<C, M>(before: map<C, Box<M>>, ended: set<C>, info: CloseInfo, mid: map<C, Box<M>>,
                              more: set<C>, now: map<C, Box<M>>)
    requires HaveEnded(before, ended, info, mid) && HaveEnded(mid, more, info, now) && ended !! more
    ensures HaveEnded(before, ended + more, info, now)
  {
  }

  lemma EndedNext<C, M>(before: map<C, Box<M>>, all: set<C>, pending: set<C>, c: C, info: CloseInfo,
                        mid: map<C, Box<M>>, now: map<C, Box<M>>)
    requires c in pending && pending <= all
    requires HaveEnded(before, all - pending, info, mid) && HaveEnded(mid, {c}, info, now)
    ensures HaveEnded(before, all - (pending - {c}), info, now)
  {
    hide HaveEnded;
    MoreEnded(before, all - pending, info, mid, {c}, now);
    assert all - (pending - {c}) == (all - pending) + {c};
  }

  /** The connections these sockets have. */
  ghost function Of<S, C>(table: map<S, C>, sockets: set<S>): set<C> {
    set s | s in table && s in sockets :: table[s]
  }

  lemma OfNone<S, C>(table: map<S, C>)
    ensures Of(table, {}) == {}
  {
  }

  lemma OfOne<S, C>(table: map<S, C>, s: S)
    ensures Of(table, {s}) == if s in table then {table[s]} else {}
  {
  }

  lemma OfMore<S, C>(table: map<S, C>, closed: set<S>, more: set<S>, now: map<S, C>)
    requires now == table - closed && forall s, t | s in table && t in table && table[s] == table[t] :: s == t
    ensures Of(table, closed + more) == Of(table, closed) + Of(now, more) && Of(table, closed) !! Of(now, more)
  {
  }

  function Stopping(): CloseInfo {
    CloseInfo(GoingAway, "Service is stopping")
  }

  function NoResponse(): CloseInfo {
    CloseInfo(GoingAway, "No heartbeat response")
  }

  class ServiceConnections<S(==, !new), G(==, !new), M> {
    const ttl: int
    const mailboxSize: int
    var connections: map<S, Conn<S, G, M>>
    var closedSockets: map<S, int>

    var clock: int
    ghost var made: set<Conn<S, G, M>>
    ghost var closing: set<Conn<S, G, M>>
    ghost var owed: set<Conn<S, G, M>>

    ghost function PhaseOf(c: Conn<S, G, M>): Phase
      reads this`closing, c
    {
      if c.close.None? then Open else if c in closing then Closing else Closed
    }

    ghost function Now(): State<S, G, Conn<S, G, M>>
      reads this, made
    {
      State(clock, ttl, connections, closedSockets,
        map c | c in made :: ConnInfo(c.socketID, c.gatewayID, PhaseOf(c)), owed)
    }

    lemma NowHas()
      ensures Now().table == connections && Now().owed == owed && Now().tombs == closedSockets && Now().now == clock
      ensures Now().conns.Keys == made
    {
    }

    /** Every connection made here, as it is. */
    ghost function Boxes(): map<Conn<S, G, M>, Box<M>>
      reads this`made, made
    {
      map c | c in made :: c.Value()
    }

    ghost predicate Valid()
      reads this, made
    {
      Inv(Now()) && forall c | c in made :: BoxInv(c.Value(), c.mailboxSize)
    }

    constructor (ttl: int, mailboxSize: int, now: int)
      ensures Valid() && Now() == Init(now, ttl) && this.mailboxSize == mailboxSize
    {
      this.ttl, this.mailboxSize := ttl, mailboxSize;
      connections, closedSockets := map[], map[];
      clock, made, closing, owed := now, {}, {}, {};
    }

    /** time.Now, on a clock that does not go back. */
    method ReadClock() returns (now: int)
      requires Valid()
      modifies this`clock
      ensures Valid() && old(clock) <= clock == now
      ensures Now() == old(Now()).(now := now) && Boxes() == old(Boxes())
    {
      now :| clock <= now;
      ApplyInv(Now(), Advance(now));
      clock := now;
      assert Now() == Apply(old(Now()), Advance(now));
    }

    method EnsureConnection(gatewayID: G, socketID: S) returns (connection: Option<Conn<S, G, M>>)
      requires Valid()
      modifies this`connections, this`made
      ensures Valid()
      ensures connection == if connection.Some? then Found(old(Now()), socketID, connection.value) else None
      ensures connection.None? <==> socketID in old(closedSockets)
      ensures connection.Some? ==> var c := connection.value;
        && c in made && c.socketID == socketID && socketID in connections && connections[socketID] == c
        && if socketID in old(connections) then c == old(connections)[socketID] && connections == old(connections)
           else
             && fresh(c) && c.gatewayID == gatewayID && c.Value() == NewBox()
             && connections == old(connections)[socketID := c]
      ensures connection.None? ==> connections == old(connections)
      ensures if connection.None? || connection.value in old(made) then Now() == old(Now())
        else fresh(connection.value) && Now() == Apply(old(Now()), Ensure(socketID, gatewayID, connection.value))
    {
      hide Inv, BoxInv, Apply;
      if socketID in closedSockets {
        return None;
      }
      if socketID in connections {
        Tracked(socketID);
        return Some(connections[socketID]);
      }
      var c := MakeConnection(gatewayID, socketID);
      return Some(c);
    }

    /** The part of ensureConnection that makes a connection. */
    method MakeConnection(gatewayID: G, socketID: S) returns (c: Conn<S, G, M>)
      requires Valid() && socketID !in closedSockets && socketID !in connections
      modifies this`connections, this`made
      ensures fresh(c) && c.socketID == socketID && c.gatewayID == gatewayID && c.Value() == NewBox()
      ensures Valid() && Now() == Apply(old(Now()), Ensure(socketID, gatewayID, c))
      ensures made == old(made) + {c} && connections == old(connections)[socketID := c]
    {
      hide Inv, BoxInv;
      ghost var st := Now();
      c := new Conn<S, G, M>(gatewayID, socketID, mailboxSize);
      made := made + {c};
      connections := connections[socketID := c];
      ApplyInv(st, Ensure(socketID, gatewayID, c));
      assert Now() == Apply(st, Ensure(socketID, gatewayID, c));
    }

    /** What the table holds was made here for that socket. */
    lemma Tracked(socketID: S)
      requires Valid() && socketID in connections
      ensures connections[socketID] in made && connections[socketID].socketID == socketID
    {
    }

    /** closeConnection. */
    method CloseConnection(socketID: S, status: Status, reason: string)
      requires Valid()
      modifies this`connections, this`closedSockets, this`clock, this`closing, this`owed, made
      ensures Valid() && old(clock) <= clock
      ensures Now() == CloseOne(old(Now()).(now := clock), socketID)
      ensures connections == old(connections) - {socketID} && closedSockets == old(closedSockets)[socketID := clock]
      ensures HaveEnded(old(Boxes()), Of(old(connections), {socketID}), CloseInfo(status, reason), Boxes())
      ensures owed == old(owed) && Of(old(connections), {socketID}) !! owed
    {
      hide Inv, BoxInv, CloseOne, HaveEnded, ServiceConnections.Boxes, ServiceConnections.Now, Of;
      var now := ReadClock();
      CloseAt(socketID, now, status, reason);
    }

    /** closeConnection once the time is read. */
    method CloseAt(socketID: S, now: int, status: Status, reason: string)
      requires Valid() && now == clock
      modifies this`connections, this`closedSockets, this`closing, this`owed, made
      ensures Valid() && Now() == CloseOne(old(Now()), socketID)
      ensures connections == old(connections) - {socketID} && closedSockets == old(closedSockets)[socketID := now]
      ensures HaveEnded(old(Boxes()), Of(old(connections), {socketID}), CloseInfo(status, reason), Boxes())
      ensures owed == old(owed) && Of(old(connections), {socketID}) !! owed
    {
      hide Inv, BoxInv, Apply, HaveEnded, ServiceConnections.Boxes, ServiceConnections.Now, Finish, Of;
      AllTracked();
      OfOne(connections, socketID);
      NoneEnded(Boxes(), CloseInfo(status, reason));
      NowHas();
      var connection := TakeOut(socketID, now);
      if connection.Some? {
        NowHas();
        HandleClose(connection.value, status, reason);
      }
    }

    /** The lock section of closeConnection. */
    method TakeOut(socketID: S, now: int) returns (connection: Option<Conn<S, G, M>>)
      requires Valid() && now == clock
      modifies this`connections, this`closedSockets, this`owed
      ensures Valid() && Now() == Apply(old(Now()), Shut(socketID)) && Boxes() == old(Boxes())
      ensures owed == old(owed) + if connection.Some? then {connection.value} else {}
      ensures connection == if socketID in old(connections) then Some(old(connections)[socketID]) else None
      ensures connection.Some? ==> connection.value in made && connection.value.socketID == socketID
      ensures connections == old(connections) - {socketID} && closedSockets == old(closedSockets)[socketID := now]
    {
      hide Inv, BoxInv;
      ghost var st := Now();
      connection := None;
      if socketID in connections {
        Tracked(socketID);
        connection := Some(connections[socketID]);
        owed := owed + {connections[socketID]};
      }
      connections := connections - {socketID};
      closedSockets := closedSockets[socketID := now];
      ApplyInv(st, Shut(socketID));
      assert Now() == Apply(st, Shut(socketID));
    }

    /** Connection.HandleClose with the callback this service gave to the connection. */
    method HandleClose(connection: Conn<S, G, M>, status: Status, reason: string)
      requires Valid() && connection in made
      modifies this`connections, this`closing, this`owed, connection
      ensures Valid() && Now() == Finish(old(Now()), connection)
      ensures HaveEnded(old(Boxes()), {connection}, CloseInfo(status, reason), Boxes())
      ensures owed == old(owed) - {connection}
      ensures connections ==
        if old(connection.close).None? then old(connections) - {connection.socketID} else old(connections)
    {
      hide Inv, BoxInv, Apply, HaveEnded, ServiceConnections.Boxes;
      ghost var st := Now();
      var first := Claim(connection, status, reason);
      if first {
        ClaimedIsClosing(st, connection);
        OnClosed(connection);
      }
    }

    lemma OthersStay(connection: Conn<S, G, M>, info: CloseInfo, before: map<Conn<S, G, M>, Box<M>>)
      requires connection in made && before.Keys == made && ClosedFrom(before[connection], info, connection.Value())
      requires forall c | c in made && c != connection :: c.Value() == before[c]
      ensures HaveEnded(before, {connection}, info, Boxes())
    {
    }

    /** The once of HandleClose. */
    method Claim(connection: Conn<S, G, M>, status: Status, reason: string) returns (first: bool)
      requires Valid() && connection in made
      modifies this`closing, this`owed, connection
      ensures Valid() && first == (old(Now()).conns[connection].phase == Open)
      ensures first <==> old(connection.close).None?
      ensures Now() == Apply(old(Now()), ServiceModel.HandleClose(connection))
      ensures closing == old(closing) + (if first then {connection} else {}) && owed == old(owed) - {connection}
      ensures HaveEnded(old(Boxes()), {connection}, CloseInfo(status, reason), Boxes())
    {
      hide Inv, BoxInv, HaveEnded, ServiceConnections.Boxes;
      ghost var st := Now();
      first := CloseOnce(connection, status, reason);
      ApplyInv(st, ServiceModel.HandleClose(connection));
      assert Now().conns == Apply(st, ServiceModel.HandleClose(connection)).conns;
    }

    method CloseOnce(connection: Conn<S, G, M>, status: Status, reason: string) returns (first: bool)
      requires connection in made && forall c | c in made :: BoxInv(c.Value(), c.mailboxSize)
      modifies this`closing, this`owed, connection
      ensures first <==> old(connection.close).None?
      ensures closing == old(closing) + (if first then {connection} else {}) && owed == old(owed) - {connection}
      ensures connection.close.Some? && HaveEnded(old(Boxes()), {connection}, CloseInfo(status, reason), Boxes())
      ensures forall c | c in made :: BoxInv(c.Value(), c.mailboxSize)
    {
      hide BoxInv, HaveEnded;
      ghost var boxes := Boxes();
      first := connection.close.None?;
      connection.HandleClose(status, reason);
      owed := owed - {connection};
      if first {
        closing := closing + {connection};
      }
      OthersStay(connection, CloseInfo(status, reason), boxes);
    }

    method OnClosed(connection: Conn<S, G, M>)
      requires Valid() && connection in made && Enabled(Now(), ServiceModel.OnClosed(connection))
      modifies this`connections, this`closing
      ensures Valid() && Now() == Apply(old(Now()), ServiceModel.OnClosed(connection))
      ensures connections == old(connections) - {connection.socketID} && closing == old(closing) - {connection}
      ensures Boxes() == old(Boxes())
    {
      hide Inv, BoxInv;
      ghost var st := Now();
      connections := connections - {connection.socketID};
      closing := closing - {connection};
      ApplyInv(st, ServiceModel.OnClosed(connection));
      assert Now().conns == Apply(st, ServiceModel.OnClosed(connection)).conns;
    }

    method CloseAllConnections()
      requires Valid()
      modifies this`connections, this`closing, this`owed, made
      ensures Valid() && Now() == CloseEvery(old(Now()))
      ensures connections == map[] && owed == old(owed)
      ensures old(connections).Values !! owed
      ensures HaveEnded(old(Boxes()), old(connections).Values, CloseInfo(GoingAway, "Service is stopping"), Boxes())
    {
      hide Inv, BoxInv, CloseAllBut, CloseEvery, HaveEnded, ServiceConnections.Boxes, ServiceConnections.Now;
      NowHas();
      NoneEnded(Boxes(), Stopping());
      ghost var before := Boxes();
      ghost var st := Now();
      var pending := TakeAllOut();
      assert st.table.Values - pending == {};
      while pending != {}
        invariant pending <= st.table.Values && Valid() && Now() == CloseAllBut(st, pending)
        invariant HaveEnded(before, st.table.Values - pending, Stopping(), Boxes())
        decreases |pending|
      {
        var c :| c in pending;
        ghost var mid := Boxes();
        CloseNext(st, pending, c);
        EndedNext(before, st.table.Values, pending, c, Stopping(), mid, Boxes());
        pending := pending - {c};
      }
      assert st.table.Values - pending == st.table.Values;
      EveryIsAll(st);
      NowHas();
    }

    lemma EveryIsAll(st: State<S, G, Conn<S, G, M>>)
      requires Inv(st)
      ensures CloseAllBut(st, {}) == CloseEvery(st) && CloseEvery(st).table == map[] && CloseEvery(st).owed == st.owed
      ensures forall c | c in st.table.Values :: c in st.conns && c !in st.owed
    {
      assert st.owed + {} == st.owed;
    }

    /** One turn of the loop of closeAllConnections. */
    method CloseNext(ghost st: State<S, G, Conn<S, G, M>>, ghost pending: set<Conn<S, G, M>>, c: Conn<S, G, M>)
      requires Valid() && Inv(st) && c in pending && pending <= st.table.Values && Now() == CloseAllBut(st, pending)
      modifies this`connections, this`closing, this`owed, made
      ensures Valid() && Now() == CloseAllBut(st, pending - {c})
      ensures HaveEnded(old(Boxes()), {c}, Stopping(), Boxes())
    {
      hide Inv, Finish, BoxInv;
      CloseAllNext(st, pending, c);
      assert c in Now().conns;
      hide CloseAllBut, HaveEnded;
      HandleClose(c, GoingAway, "Service is stopping");
    }

    /** The lock section of closeAllConnections. */
    method TakeAllOut() returns (taken: set<Conn<S, G, M>>)
      requires Valid()
      modifies this`connections, this`owed
      ensures Valid() && taken == old(connections).Values && taken <= made && Boxes() == old(Boxes())
      ensures Now() == CloseAllBut(old(Now()), taken)
    {
      hide Inv, BoxInv;
      ghost var st := Now();
      AllTracked();
      CloseAllStarts(st);
      taken := connections.Values;
      owed := owed + taken;
      connections := map[];
      ApplyInv(st, ShutAll);
      assert Now() == Apply(st, ShutAll);
    }

    lemma AllTracked()
      requires Valid()
      ensures connections.Values <= made
      ensures forall s | s in connections ::
        connections[s] in made && connections[s].socketID == s && connections[s] !in owed
    {
    }


    method PruneStaleResources()
      requires Valid()
      modifies this`closedSockets, this`clock
      ensures Valid() && old(clock) <= clock
      ensures Now() == Apply(old(Now()).(now := clock), Prune)
      ensures forall s :: s in closedSockets <==> s in old(closedSockets) && clock - old(closedSockets)[s] <= ttl
      ensures forall s | s in closedSockets :: closedSockets[s] == old(closedSockets)[s]
    {
      hide Inv, BoxInv;
      var now := ReadClock();
      ghost var st := Now();
      DropExpired(now);
      ApplyInv(st, Prune);
      assert Now() == Apply(st, Prune) by {
        assert Now().conns == st.conns;
      }
    }

    method DropExpired(now: int)
      modifies this`closedSockets
      ensures closedSockets == map s | s in old(closedSockets) && now - old(closedSockets)[s] <= ttl ::
        old(closedSockets)[s]
    {
      var pending := closedSockets.Keys;
      while pending != {}
        invariant pending <= old(closedSockets).Keys
        invariant forall s :: s in closedSockets <==>
          s in old(closedSockets) && (s in pending || now - old(closedSockets)[s] <= ttl)
        invariant forall s | s in closedSockets :: closedSockets[s] == old(closedSockets)[s]
        decreases |pending|
      {
        var s :| s in pending;
        pending := pending - {s};
        if now - closedSockets[s] > ttl {
          closedSockets := closedSockets - {s};
        }
      }
    }

    /** The first loop of heartbeatConnections. */
    method GroupByGateway() returns (groups: map<G, seq<S>>)
      ensures IsGrouping(connections, groups)
    {
      groups := map[];
      var pending := connections.Keys;
      while pending != {}
        invariant pending <= connections.Keys
        invariant forall g | g in groups :: NoDup(groups[g])
        invariant forall g, s :: g in groups && s in groups[g] <==>
          s in connections && s !in pending && connections[s].gatewayID == g
        decreases |pending|
      {
        var s :| s in pending;
        pending := pending - {s};
        var gatewayID := connections[s].gatewayID;
        var listed := if gatewayID in groups then groups[gatewayID] else [];
        NoDupSnoc(listed, s);
        groups := groups[gatewayID := listed + [s]];
      }
    }

    /** heartbeatConnections. For each gateway, `answers` gives its table as each of its batches is answered. */
    method HeartbeatConnections(answers: G -> Answers<S>) returns (announced: seq<S>, ghost groups: map<G, seq<S>>)
      requires Valid()
      modifies this`connections, this`closedSockets, this`clock, this`closing, this`owed, made
      ensures Valid() && IsGrouping(old(connections), groups) && old(clock) <= clock
      ensures HasClosed(old(connections), old(closedSockets), old(clock),
        ClosedBy(old(connections), groups, answers, groups.Keys),
        connections, closedSockets, clock, announced)
      ensures var ended := Of(old(connections), ClosedBy(old(connections), groups, answers, groups.Keys));
        && HaveEnded(old(Boxes()), ended, CloseInfo(GoingAway, "No heartbeat response"), Boxes())
        && owed == old(owed) && ended !! owed
    {
      hide Inv, BoxInv, DeadOf, ClosedBy, CloseOne, IsGrouping, RoundClosed, HaveEnded, Of, Among;
      hide ServiceConnections.Now, ServiceConnections.Boxes;
      AllTracked();
      ghost var boxes := Boxes();
      announced := [];
      var listed := GroupByGateway();
      groups := listed;
      var pending := listed.Keys;
      ghost var done, closed: set<S> := {}, {};
      ghost var before := connections;
      ghost var tombs, start := closedSockets, clock;
      NoneClosed(before, groups, answers);
      RoundStarts(before, tombs, start, boxes);
      while pending != {}
        invariant done == groups.Keys - pending && pending <= groups.Keys
        invariant Valid() && old(clock) <= clock
        invariant closed == ClosedBy(before, groups, answers, done)
        invariant owed == old(owed)
        invariant RoundClosed(before, tombs, start, boxes, closed,
          connections, closedSockets, clock, announced, Boxes())
        decreases |pending|
      {
        var g :| g in pending;
        ClosedNext(before, groups, answers, done, g);
        OneGroup(before, groups, g);
        var dead := Query(listed[g], answers(g));
        ghost var mid, midTombs, midClock, midBoxes := connections, closedSockets, clock, Boxes();
        CloseDead(dead);
        RoundGoesOn(before, tombs, start, boxes, closed, mid, midTombs, midClock, announced, midBoxes,
          dead, connections, closedSockets, clock, Boxes());
        announced := announced + dead;
        pending, done, closed := pending - {g}, done + {g}, closed + Among(dead);
      }
      assert done == groups.Keys;
      RoundEnds(before, tombs, start, boxes, closed, connections, closedSockets, clock, announced, Boxes(), owed);
    }

    /** The sockets of one gateway to close: an unreachable gateway loses all of them. */
    method Query(ids: seq<S>, answers: Answers<S>) returns (dead: seq<S>)
      requires NoDup(ids)
      ensures dead == DeadOf(ids, answers) && NoDup(dead) && forall s | s in dead :: s in ids
    {
      DeadQueried(ids, answers);
      var reply, sent := HeartbeatSockets(ids, answers);
      if reply.None? {
        return ids;
      }
      return reply.value;
    }

    method CloseDead(dead: seq<S>)
      requires Valid()
      modifies this`connections, this`closedSockets, this`clock, this`closing, this`owed, made
      ensures Valid() && old(clock) <= clock
      ensures connections == old(connections) - Among(dead)
      ensures closedSockets.Keys == old(closedSockets).Keys + Among(dead)
      ensures forall s | s in dead :: old(clock) <= closedSockets[s] <= clock
      ensures forall s | s in old(closedSockets) && s !in dead :: closedSockets[s] == old(closedSockets)[s]
      ensures owed == old(owed) && Of(old(connections), Among(dead)) !! owed
      ensures HaveEnded(old(Boxes()), Of(old(connections), Among(dead)), NoResponse(), Boxes())
    {
      hide Inv, BoxInv, CloseOne, HaveEnded, Of, ServiceConnections.Now, ServiceConnections.Boxes;
      AllTracked();
      ghost var before, boxes := connections, Boxes();
      NoneEnded(boxes, NoResponse());
      OfNone(connections);
      assert dead[..0] == [] && Among(dead[..0]) == {};
      for i := 0 to |dead|
        invariant Valid() && old(clock) <= clock
        invariant connections == old(connections) - Among(dead[..i])
        invariant closedSockets.Keys == old(closedSockets).Keys + Among(dead[..i])
        invariant forall s | s in dead[..i] :: old(clock) <= closedSockets[s] <= clock
        invariant forall s | s in old(closedSockets) && s !in dead[..i] :: closedSockets[s] == old(closedSockets)[s]
        invariant owed == old(owed) && Of(before, Among(dead[..i])) !! owed
        invariant HaveEnded(boxes, Of(before, Among(dead[..i])), NoResponse(), Boxes())
      {
        ghost var mid, midBoxes, sofar := connections, Boxes(), Among(dead[..i]);
        CloseConnection(dead[i], GoingAway, "No heartbeat response");
        assert dead[..i + 1] == dead[..i] + [dead[i]];
        OfMore(before, sofar, {dead[i]}, mid);
        MoreEnded(boxes, Of(before, sofar), NoResponse(), midBoxes, Of(mid, {dead[i]}), Boxes());
        assert Among(dead[..i + 1]) == sofar + {dead[i]};
      }
      assert dead[..|dead|] == dead;
    }
  }

  lemma ConcatOfNew<T>(a: seq<T>, b: seq<T>)
    requires NoDup(a) && NoDup(b) && forall t | t in b :: t !in a
    ensures NoDup(a + b)
  {
    forall i, j | 0 <= i < |a| && 0 <= j < |b| ensures a[i] != b[j] {
      assert b[j] in b && a[i] in a;
    }
  }
}
