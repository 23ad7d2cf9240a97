/** From the dispatcher's accepted work to what connections read. A worker either fails to obtain its message's payload,
    or finds or makes the socket's connection and runs HandleMessage, which blocks while the mailbox is full. */
module DeliveryModel {
  import opened Sequences
  import opened DispatchModel
  import opened MailboxModel
  import Svc = ServiceModel

  /** What became of a message its worker has finished with. */
  datatype Fate<C> =
    | Lost          // the streamed payload did not arrive, or does not decode
    | Refused       // the socket was closed recently
    | Into(c: C)    // it entered the connection's mailbox
    | Dropped(c: C) // the connection closed while it waited

  datatype Delivery<S(==), G, C(==), M> = Delivery(
    disp: State<S, M>,
    mailboxSize: nat,
    svc: Svc.State<S, G, C>,
    boxes: map<C, Box<M>>,
    born: map<C, nat>,            // in which order the connections were made
    holding: map<nat, C>,         // the connection a worker is in HandleMessage of
    fates: map<S, seq<Fate<C>>>,  // per socket, parallel to the executed work
    closing: set<S>)              // sockets that a close of any kind has touched

  datatype Event<S, G, C, M> =
    | Dispatcher(a: Action<S, M>)                              // any dispatch, Take or Done
    | Fail(g: nat)                                               // deliverServiceMessage returns early
    | Admit(g: nat, gateway: G, made: C)                         // ensureConnection
    | Enter(g: nat)                                              // HandleMessage: the mailbox takes the message
    | Hand(g: nat)                                               // HandleMessage meets a waiting Read
    | Drop(g: nat)                                               // HandleMessage: the connection is closed
    | Read(c: C)
    | Local(act: Svc.Action<S, G, C>, info: CloseInfo)             // closes, callbacks, expiry and time

  function Start<S(==), G, C(==), M>(queueSize: int, mailboxSize: nat, now: int, ttl: int): Delivery<S, G, C, M> {
    Delivery(Init(queueSize), mailboxSize, Svc.Init(now, ttl), map[], map[], map[], map[], {})
  }

  predicate Ready<S(==, !new), G, C(==), M>(d: Delivery<S, G, C, M>, e: Event<S, G, C, M>) {
    match e
    case Dispatcher(a) => !a.Finish? && Enabled(d.disp, a)
    case Fail(g) => Enabled(d.disp, Finish(g)) && g !in d.holding
    case Admit(g, _, c) => Enabled(d.disp, Finish(g)) && g !in d.holding && c !in d.svc.conns
    case Enter(g) => InHandle(d, g) && |d.boxes[d.holding[g]].mailbox| < d.mailboxSize
    case Hand(g) => InHandle(d, g) && d.boxes[d.holding[g]].mailbox == []
    case Drop(g) => InHandle(d, g) && d.svc.conns[d.holding[g]].phase == Svc.Closed
    case Read(c) => c in d.boxes && d.boxes[c].mailbox != []
    case Local(a, _) => !a.Ensure? && Svc.Enabled(d.svc, a)
  }

  predicate InHandle<S(==, !new), G, C(==), M>(d: Delivery<S, G, C, M>, g: nat) {
    Enabled(d.disp, Finish(g)) && g in d.holding && d.holding[g] in d.boxes && d.holding[g] in d.svc.conns
  }

  function Do<S(==, !new), G, C(==), M>(d: Delivery<S, G, C, M>, e: Event<S, G, C, M>): Delivery<S, G, C, M>
    requires Ready(d, e)
  {
    match e
    case Dispatcher(a) => d.(disp := Apply(d.disp, a))
    case Fail(g) => Finished(d, g, Lost)
    case Admit(g, gateway, made) =>
      var s := d.disp.workers[g].socket;
      (match Svc.Found(d.svc, s, made)
       case None => Finished(d, g, Refused)
       case Some(c) =>
         var d' := d.(svc := Svc.Apply(d.svc, Svc.Ensure(s, gateway, made)), holding := d.holding[g := c]);
         if s in d.svc.table then d' else d'.(boxes := d.boxes[made := NewBox()], born := d.born[made := |d.born|]))
    case Enter(g) =>
      var c, m := d.holding[g], d.disp.workers[g].phase.work;
      Finished(d, g, Into(c)).(boxes := d.boxes[c := EnterBox(d.boxes[c], m)])
    case Hand(g) =>
      var c, m := d.holding[g], d.disp.workers[g].phase.work;
      Finished(d, g, Into(c)).(boxes := d.boxes[c := HandOver(d.boxes[c], m)])
    case Drop(g) => Finished(d, g, Dropped(d.holding[g]))
    case Read(c) => d.(boxes := d.boxes[c := ReadBox(d.boxes[c])])
    case Local(a, info) =>
      d.(svc := Svc.Apply(d.svc, a),
         boxes := if a.HandleClose? && a.c in d.boxes then d.boxes[a.c := CloseBox(d.boxes[a.c], info)] else d.boxes,
         closing := d.closing + Closes(d.svc, a))
  }

  function Finished<S(==, !new), G, C(==), M>(d: Delivery<S, G, C, M>, g: nat, fate: Fate<C>): Delivery<S, G, C, M>
    requires Enabled(d.disp, Finish(g))
  {
    var s := d.disp.workers[g].socket;
    d.(disp := FinishStep(d.disp, g), holding := d.holding - {g}, fates := d.fates[s := At(d.fates, s) + [fate]])
  }

  /** The sockets that an action at the service closes, or begins to close. */
  function Closes<S(==), G, C(==)>(svc: Svc.State<S, G, C>, a: Svc.Action<S, G, C>): set<S> {
    match a
    case Shut(s) => {s}
    case ShutAll => svc.table.Keys
    case HandleClose(c) => if c in svc.conns then {svc.conns[c].socket} else {}
    case _ => {}
  }

  ghost predicate Trace<S(!new), G, C(!new), M>(states: seq<Delivery<S, G, C, M>>, es: seq<Event<S, G, C, M>>) {
    && |states| == |es| + 1
    && forall i | 0 <= i < |es| :: Ready(states[i], es[i]) && states[i + 1] == Do(states[i], es[i])
  }

  // --- The invariant ---

  /** The messages of x whose fate was to enter c, in order. */
  ghost function Picked<C, M>(x: seq<M>, fates: seq<Fate<C>>, c: C): seq<M>
    requires |x| == |fates|
  {
    if x == [] then []
    else
      var n := |x| - 1;
      Picked(x[..n], fates[..n], c) + if fates[n] == Into(c) then [x[n]] else []
  }

  ghost predicate FateConn<C>(f: Fate<C>, c: C) {
    f == Into(c) || f == Dropped(c)
  }

  function Born<C(==)>(born: map<C, nat>, c: C): int {
    if c in born then born[c] else -1
  }

  /** `born` numbers the connections in the order they were made. */
  ghost predicate Numbered<C(!new)>(born: map<C, nat>) {
    && (forall c | c in born :: born[c] < |born|)
    && (forall b, c | b in born && c in born && born[b] == born[c] :: b == c)
  }

  /** A worker in HandleMessage runs a message of its connection's socket. */
  ghost predicate Holds<S(!new), G, C, M>(holding: map<nat, C>, svc: Svc.State<S, G, C>,
                                          workers: map<nat, Worker<S, M>>) {
    forall g | g in holding ::
      && holding[g] in svc.conns && g in workers && workers[g].phase.Running?
      && svc.conns[holding[g]].socket == workers[g].socket
  }

  /** c is the last connection made for its socket. */
  ghost predicate Last<S, G, C>(svc: Svc.State<S, G, C>, born: map<C, nat>, c: C) {
    c in svc.conns && forall b | b in svc.conns && svc.conns[b].socket == svc.conns[c].socket ::
      Born(born, b) <= Born(born, c)
  }

  /** The connection in the table, and the one a worker holds, is the last made for the socket. */
  ghost predicate LastInUse<S, G, C>(svc: Svc.State<S, G, C>, born: map<C, nat>, holding: map<nat, C>) {
    && (forall s | s in svc.table :: Last(svc, born, svc.table[s]))
    && (forall g | g in holding :: Last(svc, born, holding[g]))
  }

  /** The connections a socket's messages went to are the socket's. */
  ghost predicate OwnConns<S, G, C(!new)>(fates: seq<Fate<C>>, svc: Svc.State<S, G, C>, s: S) {
    forall i, c | 0 <= i < |fates| && FateConn(fates[i], c) :: c in svc.conns && svc.conns[c].socket == s
  }

  /** Later messages never go to an earlier connection. */
  ghost predicate InOrder<C(!new)>(fates: seq<Fate<C>>, born: map<C, nat>) {
    forall i, j, b, c | 0 <= i < j < |fates| && FateConn(fates[i], b) && FateConn(fates[j], c) ::
      Born(born, b) <= Born(born, c)
  }

  ghost predicate Ordered<S, G, C(!new)>(fates: seq<Fate<C>>, svc: Svc.State<S, G, C>, born: map<C, nat>, s: S) {
    OwnConns(fates, svc, s) && InOrder(fates, born)
  }

  /** What entered a connection's mailbox is exactly the executed messages with that fate. */
  ghost predicate Linked<M, C>(box: Box<M>, size: nat, executed: seq<M>, fates: seq<Fate<C>>, c: C, phase: Svc.Phase) {
    && BoxInv(box, size) && |executed| == |fates|
    && box.entered == Picked(executed, fates, c)
    && (box.close.Some? <==> phase != Svc.Open)
  }

  /** Until the first close of a socket it has at most one connection, open and in the table, and every message
      either entered it or was lost before. */
  ghost predicate Untouched<S, G, C>(svc: Svc.State<S, G, C>, fates: seq<Fate<C>>, s: S) {
    && s !in svc.tombs
    && (forall c | c in svc.conns && svc.conns[c].socket == s ::
          s in svc.table && svc.table[s] == c && svc.conns[c].phase == Svc.Open)
    && (forall i | 0 <= i < |fates| :: fates[i].Lost? || fates[i].Into?)
  }

  ghost predicate SameConns<S(!new), G, C(!new), M>(d: Delivery<S, G, C, M>) {
    d.boxes.Keys == d.svc.conns.Keys == d.born.Keys && Numbered(d.born)
  }

  ghost predicate SocketInv<S(!new), G, C(!new), M>(d: Delivery<S, G, C, M>, s: S) {
    && |At(d.fates, s)| == |At(d.disp.executed, s)|
    && Ordered(At(d.fates, s), d.svc, d.born, s)
    && (s !in d.closing ==> Untouched(d.svc, At(d.fates, s), s))
  }

  ghost predicate ConnInv<S(!new), G, C(!new), M>(d: Delivery<S, G, C, M>, c: C) {
    c in d.svc.conns && c in d.boxes
    && var i := d.svc.conns[c];
       Linked(d.boxes[c], d.mailboxSize, At(d.disp.executed, i.socket), At(d.fates, i.socket), c, i.phase)
  }

  ghost predicate DeliveryInv<S(!new), G, C(!new), M>(d: Delivery<S, G, C, M>) {
    && Inv(d.disp) && Svc.Inv(d.svc) && SameConns(d)
    && Holds(d.holding, d.svc, d.disp.workers) && LastInUse(d.svc, d.born, d.holding)
    && (forall s :: SocketInv(d, s))
    && (forall c | c in d.svc.conns :: ConnInv(d, c))
  }

  lemma StartInv<S(!new), G, C(!new), M>(queueSize: int, mailboxSize: nat, now: int, ttl: int)
    ensures DeliveryInv(Start<S, G, C, M>(queueSize, mailboxSize, now, ttl))
  {
    InitInv<S, M>(queueSize);
  }

  // --- A worker finishes ---

  lemma PickedSnoc<C, M>(x: seq<M>, fates: seq<Fate<C>>, m: M, f: Fate<C>, c: C)
    requires |x| == |fates|
    ensures Picked(x + [m], fates + [f], c) == Picked(x, fates, c) + if f == Into(c) then [m] else []
  {
    assert (x + [m])[..|x|] == x && (fates + [f])[..|x|] == fates;
  }

  lemma OrderedSnoc<S, G, C(!new)>(fates: seq<Fate<C>>, svc: Svc.State<S, G, C>, born: map<C, nat>, s: S, f: Fate<C>)
    requires Ordered(fates, svc, born, s)
    requires forall c | FateConn(f, c) :: Last(svc, born, c) && svc.conns[c].socket == s
    ensures Ordered(fates + [f], svc, born, s)
  {
    var all := fates + [f];
    forall i, c | 0 <= i < |all| && FateConn(all[i], c) ensures c in svc.conns && svc.conns[c].socket == s {
      assert i < |fates| ==> all[i] == fates[i];
    }
    hide Last;
    forall i, j, b, c | 0 <= i < j < |all| && FateConn(all[i], b) && FateConn(all[j], c)
      ensures Born(born, b) <= Born(born, c)
    {
      assert all[i] == fates[i] && b in svc.conns && svc.conns[b].socket == s;
      if j == |fates| {
        LastIsLatest(svc, born, b, c);
      } else {
        assert all[j] == fates[j];
      }
    }
  }

  lemma LastIsLatest<S, G, C>(svc: Svc.State<S, G, C>, born: map<C, nat>, b: C, c: C)
    requires Last(svc, born, c) && b in svc.conns && svc.conns[b].socket == svc.conns[c].socket
    ensures Born(born, b) <= Born(born, c)
  {
  }

  /** boxes is d.boxes with m added to c's box if that is its fate. */
  ghost predicate BoxesAfter<C(!new), M>(before: map<C, Box<M>>, boxes: map<C, Box<M>>, size: nat, fate: Fate<C>,
                                         m: M) {
    && boxes.Keys == before.Keys
    && forall c | c in before ::
         if fate == Into(c) then
           BoxInv(boxes[c], size) && boxes[c].close == before[c].close && boxes[c].entered == before[c].entered + [m]
         else boxes[c] == before[c]
  }

  lemma LinkedSnoc<M, C>(box: Box<M>, box': Box<M>, size: nat, x: seq<M>, fates: seq<Fate<C>>, m: M, f: Fate<C>,
                         c: C, phase: Svc.Phase)
    requires Linked(box, size, x, fates, c, phase)
    requires if f == Into(c) then BoxInv(box', size) && box'.close == box.close
          && box'.entered == box.entered + [m] else box' == box
    ensures Linked(box', size, x + [m], fates + [f], c, phase)
  {
    PickedSnoc(x, fates, m, f, c);
  }

  /** What finishing changes: the log and the fates of one socket. */
  lemma FinishedLogs<S(!new), G, C(!new), M>(d: Delivery<S, G, C, M>, g: nat, fate: Fate<C>)
    requires Enabled(d.disp, Finish(g))
    ensures var d', w := Finished(d, g, fate), d.disp.workers[g];
      forall t :: At(d'.disp.executed, t) ==
        (if t == w.socket then At(d.disp.executed, t) + [w.phase.work] else At(d.disp.executed, t))
        && At(d'.fates, t) == if t == w.socket then At(d.fates, t) + [fate] else At(d.fates, t)
    ensures forall h, t | Runs(d.disp, h, t) && h != g :: Runs(Finished(d, g, fate).disp, h, t)
  {
  }

  /** The fate a worker may give its message. */
  ghost predicate FateFits<S(!new), G, C(!new), M>(d: Delivery<S, G, C, M>, g: nat, fate: Fate<C>) {
    && Enabled(d.disp, Finish(g))
    && (forall c | FateConn(fate, c) :: g in d.holding && d.holding[g] == c)
    && (d.disp.workers[g].socket !in d.closing ==> fate.Lost? || fate.Into?)
  }

  lemma FinishSocket<S(!new), G, C(!new), M>(d: Delivery<S, G, C, M>, g: nat, fate: Fate<C>, boxes: map<C, Box<M>>,
                                             t: S)
    requires DeliveryInv(d) && FateFits(d, g, fate)
    ensures SocketInv(Finished(d, g, fate).(boxes := boxes), t)
  {
    hide Inv, Svc.Inv, SameConns, Ordered, Untouched, Last, Finished, ConnInv;
    FinishedLogs(d, g, fate);
    var s := d.disp.workers[g].socket;
    var d' := Finished(d, g, fate).(boxes := boxes);
    FinishedRest(d, g, fate);
    assert SocketInv(d, t);
    if t == s {
      OrderedSnoc(At(d.fates, s), d.svc, d.born, s, fate);
      if s !in d.closing {
        UntouchedSnoc(d.svc, At(d.fates, s), s, fate);
      }
    }
  }

  lemma UntouchedSnoc<S, G, C>(svc: Svc.State<S, G, C>, fates: seq<Fate<C>>, s: S, f: Fate<C>)
    requires Untouched(svc, fates, s) && (f.Lost? || f.Into?)
    ensures Untouched(svc, fates + [f], s)
  {
  }

  lemma FinishedRest<S(!new), G, C(!new), M>(d: Delivery<S, G, C, M>, g: nat, fate: Fate<C>)
    requires Enabled(d.disp, Finish(g))
    ensures var d' := Finished(d, g, fate);
      && d'.svc == d.svc && d'.born == d.born && d'.closing == d.closing && d'.mailboxSize == d.mailboxSize
      && d'.boxes == d.boxes
      && d'.holding == d.holding - {g} && d'.disp == Apply(d.disp, Finish(g))
  {
  }

  lemma NotItsFate<S(!new), G, C(!new), M>(d: Delivery<S, G, C, M>, g: nat, fate: Fate<C>, c: C)
    requires Holds(d.holding, d.svc, d.disp.workers) && FateFits(d, g, fate)
    requires c in d.svc.conns && d.svc.conns[c].socket != d.disp.workers[g].socket
    ensures !FateConn(fate, c)
  {
  }

  lemma FinishConn<S(!new), G, C(!new), M>(d: Delivery<S, G, C, M>, g: nat, fate: Fate<C>, boxes: map<C, Box<M>>, c: C)
    requires DeliveryInv(d) && FateFits(d, g, fate) && c in d.svc.conns
    requires BoxesAfter(d.boxes, boxes, d.mailboxSize, fate, d.disp.workers[g].phase.work)
    ensures ConnInv(Finished(d, g, fate).(boxes := boxes), c)
  {
    hide Inv, Svc.Inv, SocketInv, Linked, BoxInv, Finished, LastInUse;
    FinishedLogs(d, g, fate);
    FinishedRest(d, g, fate);
    var w, i := d.disp.workers[g], d.svc.conns[c];
    assert ConnInv(d, c);
    if i.socket == w.socket {
      LinkedSnoc(d.boxes[c], boxes[c], d.mailboxSize, At(d.disp.executed, i.socket),
        At(d.fates, i.socket), w.phase.work, fate, c, i.phase);
    } else {
      NotItsFate(d, g, fate, c);
    }
  }

  lemma FinishedInv<S(!new), G, C(!new), M>(d: Delivery<S, G, C, M>, g: nat, fate: Fate<C>, boxes: map<C, Box<M>>)
    requires DeliveryInv(d) && FateFits(d, g, fate)
    requires BoxesAfter(d.boxes, boxes, d.mailboxSize, fate, d.disp.workers[g].phase.work)
    ensures DeliveryInv(Finished(d, g, fate).(boxes := boxes))
  {
    hide Inv, Svc.Inv, SocketInv, ConnInv, Numbered, Last, Finished;
    var d' := Finished(d, g, fate).(boxes := boxes);
    FinishedRest(d, g, fate);
    FinishedLogs(d, g, fate);
    ApplyInv(d.disp, Finish(g));
    forall h | h in d'.holding ensures Runs(d'.disp, h, d.disp.workers[h].socket) {
      assert Runs(d.disp, h, d.disp.workers[h].socket);
    }
    forall s ensures SocketInv(d', s) {
      FinishSocket(d, g, fate, boxes, s);
    }
    forall c | c in d'.svc.conns ensures ConnInv(d', c) {
      FinishConn(d, g, fate, boxes, c);
    }
  }

  // --- The other events ---

  lemma DispatcherInv<S(!new), G, C(!new), M>(d: Delivery<S, G, C, M>, a: Action<S, M>)
    requires DeliveryInv(d) && Enabled(d.disp, a) && !a.Finish?
    ensures DeliveryInv(d.(disp := Apply(d.disp, a)))
  {
    hide Inv, Svc.Inv, Ordered, Untouched, Linked, Numbered, Last, Apply;
    ApplyInv(d.disp, a);
    RunnersStay(d.disp, a);
    var d' := d.(disp := Apply(d.disp, a));
    forall h | h in d'.holding ensures Runs(d'.disp, h, d.disp.workers[h].socket) {
      assert Runs(d.disp, h, d.disp.workers[h].socket);
    }
    forall s ensures SocketInv(d', s) {
      assert SocketInv(d, s);
    }
    forall c | c in d'.svc.conns ensures ConnInv(d', c) {
      assert ConnInv(d, c);
    }
  }

  lemma RunnersStay<S(!new), M>(disp: State<S, M>, a: Action<S, M>)
    requires Enabled(disp, a) && !a.Finish?
    ensures Apply(disp, a).executed == disp.executed
    ensures forall h, t | Runs(disp, h, t) :: Runs(Apply(disp, a), h, t)
  {
  }

  lemma ReadInv<S(!new), G, C(!new), M>(d: Delivery<S, G, C, M>, c: C)
    requires DeliveryInv(d) && c in d.boxes && d.boxes[c].mailbox != []
    ensures DeliveryInv(d.(boxes := d.boxes[c := ReadBox(d.boxes[c])]))
  {
    hide Inv, Svc.Inv, Ordered, Untouched, Numbered, LastInUse, Holds, Picked;
    var d' := d.(boxes := d.boxes[c := ReadBox(d.boxes[c])]);
    forall s ensures SocketInv(d', s) {
      assert SocketInv(d, s);
    }
    forall b | b in d'.svc.conns ensures ConnInv(d', b) {
      assert ConnInv(d, b);
      if b == c {
        ReadKeepsBox(d.boxes[c], d.mailboxSize);
      }
    }
  }

  lemma ReadKeepsBox<M>(b: Box<M>, size: nat)
    requires BoxInv(b, size) && b.mailbox != []
    ensures BoxInv(ReadBox(b), size) && ReadBox(b).entered == b.entered && ReadBox(b).close == b.close
  {
    assert b.mailbox == [b.mailbox[0]] + b.mailbox[1..];
  }

  /** What an action at the service that makes no connection leaves as it is. */
  lemma LocalKeeps<S, G, C>(svc: Svc.State<S, G, C>, a: Svc.Action<S, G, C>)
    requires Svc.Enabled(svc, a) && !a.Ensure?
    ensures var svc' := Svc.Apply(svc, a);
      && svc'.conns.Keys == svc.conns.Keys
      && (forall c | c in svc.conns :: svc'.conns[c].socket == svc.conns[c].socket)
      && (forall c | c in svc.conns
            && a != Svc.HandleClose(c) :: svc'.conns[c].phase == Svc.Open <==> svc.conns[c].phase == Svc.Open)
      && (a.HandleClose? ==> svc'.conns[a.c].phase != Svc.Open)
      && (forall s | s in svc'.table :: s in svc.table && svc'.table[s] == svc.table[s])
  {
  }

  lemma LocalUntouched<S, G, C>(svc: Svc.State<S, G, C>, a: Svc.Action<S, G, C>, fates: seq<Fate<C>>, s: S)
    requires Svc.Inv(svc) && Svc.Enabled(svc, a) && !a.Ensure? && Untouched(svc, fates, s) && s !in Closes(svc, a)
    ensures Untouched(Svc.Apply(svc, a), fates, s)
  {
  }

  lemma LocalConn<S(!new), G, C(!new), M>(d: Delivery<S, G, C, M>, a: Svc.Action<S, G, C>, info: CloseInfo, c: C)
    requires Ready(d, Local(a, info)) && ConnInv(d, c)
    ensures ConnInv(Do(d, Local(a, info)), c)
  {
    hide Picked, Svc.Apply, Closes;
    LocalKeeps(d.svc, a);
  }

  lemma LocalSocket<S(!new), G, C(!new), M>(d: Delivery<S, G, C, M>, a: Svc.Action<S, G, C>, info: CloseInfo, s: S)
    requires Ready(d, Local(a, info)) && Svc.Inv(d.svc) && SocketInv(d, s)
    ensures SocketInv(Do(d, Local(a, info)), s)
  {
    hide Untouched, Svc.Inv, Svc.Apply, Closes;
    LocalKeeps(d.svc, a);
    if s !in d.closing && s !in Closes(d.svc, a) {
      LocalUntouched(d.svc, a, At(d.fates, s), s);
    }
  }

  lemma LocalInv<S(!new), G, C(!new), M>(d: Delivery<S, G, C, M>, a: Svc.Action<S, G, C>, info: CloseInfo)
    requires DeliveryInv(d) && Ready(d, Local(a, info))
    ensures DeliveryInv(Do(d, Local(a, info)))
  {
    hide Inv, Svc.Inv, SocketInv, ConnInv, Numbered, LastInUse, Svc.Apply, Closes;
    var d' := Do(d, Local(a, info));
    Svc.ApplyInv(d.svc, a);
    LocalKeeps(d.svc, a);
    LastKept(d.svc, d'.svc, d.born, d.holding);
    forall s ensures SocketInv(d', s) {
      LocalSocket(d, a, info, s);
    }
    forall c | c in d'.svc.conns ensures ConnInv(d', c) {
      LocalConn(d, a, info, c);
    }
  }

  lemma LastKept<S, G, C>(svc: Svc.State<S, G, C>, svc': Svc.State<S, G, C>, born: map<C, nat>, holding: map<nat, C>)
    requires LastInUse(svc, born, holding) && svc'.conns.Keys == svc.conns.Keys
    requires forall c | c in svc.conns :: svc'.conns[c].socket == svc.conns[c].socket
    requires forall s | s in svc'.table :: s in svc.table && svc'.table[s] == svc.table[s]
    ensures LastInUse(svc', born, holding)
  {
    assert forall c | c in svc.conns && Last(svc, born, c) :: Last(svc', born, c);
  }

  // --- ensureConnection ---

  lemma FoundInv<S(!new), G, C(!new), M>(d: Delivery<S, G, C, M>, g: nat, c: C)
    requires DeliveryInv(d) && Enabled(d.disp, Finish(g))
    requires d.disp.workers[g].socket in d.svc.table && c == d.svc.table[d.disp.workers[g].socket]
    ensures DeliveryInv(d.(holding := d.holding[g := c]))
  {
    hide Inv, Ordered, Untouched, Linked, Numbered, Last;
    var d' := d.(holding := d.holding[g := c]);
    forall s ensures SocketInv(d', s) {
      assert SocketInv(d, s);
    }
    forall b | b in d'.svc.conns ensures ConnInv(d', b) {
      assert ConnInv(d, b);
    }
  }

  /** The state after g's worker made connection c. */
  ghost function Made<S(!new), G, C(!new), M>(d: Delivery<S, G, C, M>, g: nat, gateway: G, c: C): Delivery<S, G, C, M>
    requires Enabled(d.disp, Finish(g)) && c !in d.svc.conns
  {
    d.(svc := Svc.Apply(d.svc, Svc.Ensure(d.disp.workers[g].socket, gateway, c)), holding := d.holding[g := c],
       boxes := d.boxes[c := NewBox()], born := d.born[c := |d.born|])
  }

  lemma MadeNumbered<C(!new)>(born: map<C, nat>, c: C)
    requires Numbered(born) && c !in born
    ensures Numbered(born[c := |born|])
          && forall b | b in born :: Born(born[c := |born|], b) == Born(born, b) < Born(born[c := |born|], c)
  {
    assert |born[c := |born|]| == |born| + 1;
  }

  /** While a worker runs a socket's message, no other worker holds a connection of that socket. */
  lemma HeldElsewhere<S(!new), G, C(!new), M>(d: Delivery<S, G, C, M>, g: nat, h: nat)
    requires Inv(d.disp) && Holds(d.holding, d.svc, d.disp.workers) && Enabled(d.disp, Finish(g))
          && g !in d.holding && h in d.holding
    ensures d.svc.conns[d.holding[h]].socket != d.disp.workers[g].socket
  {
    assert Draining(d.disp, g, d.disp.workers[g].socket) && Draining(d.disp, h, d.disp.workers[h].socket);
  }

  /** svc' is svc with connection c made for s. */
  ghost predicate Adds<S, G, C>(svc: Svc.State<S, G, C>, svc': Svc.State<S, G, C>, s: S, c: C) {
    && c !in svc.conns && s !in svc.table && s !in svc.tombs
    && svc'.table == svc.table[s := c] && svc'.tombs == svc.tombs
    && c in svc'.conns && svc'.conns == svc.conns[c := Svc.ConnInfo(s, svc'.conns[c].gateway, Svc.Open)]
  }

  lemma EnsureAdds<S, G, C>(svc: Svc.State<S, G, C>, s: S, g: G, c: C)
    requires c !in svc.conns && s !in svc.table && s !in svc.tombs
    ensures Adds(svc, Svc.Apply(svc, Svc.Ensure(s, g, c)), s, c)
  {
    assert Svc.Apply(svc, Svc.Ensure(s, g, c)).conns == svc.conns[c := Svc.ConnInfo(s, g, Svc.Open)];
  }

  lemma LastStays<S, G, C(!new)>(svc: Svc.State<S, G, C>, svc': Svc.State<S, G, C>, born: map<C, nat>, s: S, c: C, b: C)
    requires Adds(svc, svc', s, c) && Numbered(born) && c !in born && svc.conns.Keys == born.Keys
    requires Last(svc, born, b) && svc.conns[b].socket != s
    ensures Last(svc', born[c := |born|], b)
  {
    MadeNumbered(born, c);
  }

  lemma LastMade<S, G, C(!new)>(svc: Svc.State<S, G, C>, svc': Svc.State<S, G, C>, born: map<C, nat>, s: S, c: C)
    requires Adds(svc, svc', s, c) && Numbered(born) && c !in born && svc.conns.Keys == born.Keys
    ensures Last(svc', born[c := |born|], c)
  {
    MadeNumbered(born, c);
  }

  lemma OwnConnsStay<S, G, C(!new)>(svc: Svc.State<S, G, C>, svc': Svc.State<S, G, C>, s: S, c: C, fates: seq<Fate<C>>,
                                    t: S)
    requires Adds(svc, svc', s, c) && OwnConns(fates, svc, t)
    ensures OwnConns(fates, svc', t)
    ensures forall i | 0 <= i < |fates| :: !FateConn(fates[i], c)
    ensures forall i, b | 0 <= i < |fates| && FateConn(fates[i], b) :: b in svc.conns
  {
  }

  lemma InOrderStays<C(!new)>(fates: seq<Fate<C>>, born: map<C, nat>, born': map<C, nat>)
    requires InOrder(fates, born) && forall b | b in born :: Born(born', b) == Born(born, b)
    requires forall i, b | 0 <= i < |fates| && FateConn(fates[i], b) :: b in born
    ensures InOrder(fates, born')
  {
    hide FateConn, Born;
    forall i, j, b, c | 0 <= i < j < |fates| && FateConn(fates[i], b) && FateConn(fates[j], c)
      ensures Born(born', b) <= Born(born', c)
    {
      assert b in born && c in born;
    }
  }

  lemma OrderedStays<S, G, C(!new)>(svc: Svc.State<S, G, C>, svc': Svc.State<S, G, C>, born: map<C, nat>, s: S, c: C,
                                    fates: seq<Fate<C>>, t: S)
    requires Adds(svc, svc', s, c) && Numbered(born) && c !in born && svc.conns.Keys == born.Keys
    requires Ordered(fates, svc, born, t)
    ensures Ordered(fates, svc', born[c := |born|], t)
    ensures forall i | 0 <= i < |fates| :: !FateConn(fates[i], c)
  {
    hide Adds, Numbered, FateConn, OwnConns, InOrder;
    OwnConnsStay(svc, svc', s, c, fates, t);
    MadeNumbered(born, c);
    InOrderStays(fates, born, born[c := |born|]);
  }

  lemma AddsConns<S, G, C>(svc: Svc.State<S, G, C>, svc': Svc.State<S, G, C>, s: S, c: C)
    requires Adds(svc, svc', s, c)
    ensures svc'.conns.Keys == svc.conns.Keys + {c} && svc'.conns[c].socket == s && svc'.conns[c].phase == Svc.Open
    ensures forall b | b in svc.conns :: svc'.conns[b] == svc.conns[b]
  {
  }

  lemma UntouchedStays<S, G, C>(svc: Svc.State<S, G, C>, svc': Svc.State<S, G, C>, s: S, c: C, fates: seq<Fate<C>>,
                                t: S)
    requires Adds(svc, svc', s, c) && Untouched(svc, fates, t)
    ensures Untouched(svc', fates, t)
  {
  }

  lemma MadeLast<S(!new), G, C(!new), M>(d: Delivery<S, G, C, M>, g: nat, gateway: G, c: C)
    requires DeliveryInv(d) && Enabled(d.disp, Finish(g)) && g !in d.holding && c !in d.svc.conns
    requires d.disp.workers[g].socket !in d.svc.table && d.disp.workers[g].socket !in d.svc.tombs
    ensures var d' := Made(d, g, gateway, c);
      LastInUse(d'.svc, d'.born, d'.holding)
  {
    hide Inv, Numbered, Last, Svc.Apply, SocketInv, ConnInv, Adds;
    var s := d.disp.workers[g].socket;
    var d' := Made(d, g, gateway, c);
    EnsureAdds(d.svc, s, gateway, c);
    AddsTable(d.svc, d'.svc, s, c);
    LastMade(d.svc, d'.svc, d.born, s, c);
    forall h | h in d.holding ensures Last(d'.svc, d'.born, d'.holding[h]) {
      HeldElsewhere(d, g, h);
      LastStays(d.svc, d'.svc, d.born, s, c, d.holding[h]);
    }
    forall t | t in d.svc.table ensures Last(d'.svc, d'.born, d'.svc.table[t]) {
      LastStays(d.svc, d'.svc, d.born, s, c, d.svc.table[t]);
    }
  }

  lemma AddsTable<S, G, C>(svc: Svc.State<S, G, C>, svc': Svc.State<S, G, C>, s: S, c: C)
    requires Adds(svc, svc', s, c)
    ensures svc'.table == svc.table[s := c] && s !in svc.table
  {
  }

  lemma MadeHolds<S(!new), G, C(!new), M>(d: Delivery<S, G, C, M>, g: nat, gateway: G, c: C)
    requires Holds(d.holding, d.svc, d.disp.workers) && Enabled(d.disp, Finish(g)) && c !in d.svc.conns
    requires d.disp.workers[g].socket !in d.svc.table && d.disp.workers[g].socket !in d.svc.tombs
    ensures var d' := Made(d, g, gateway, c);
      Holds(d'.holding, d'.svc, d'.disp.workers) && d'.svc.conns.Keys == d.svc.conns.Keys + {c}
  {
    hide Svc.Apply, Adds;
    EnsureAdds(d.svc, d.disp.workers[g].socket, gateway, c);
    AddsConns(d.svc, Made(d, g, gateway, c).svc, d.disp.workers[g].socket, c);
  }

  lemma MadeSocket<S(!new), G, C(!new), M>(d: Delivery<S, G, C, M>, g: nat, gateway: G, c: C, t: S)
    requires SameConns(d) && SocketInv(d, t) && Enabled(d.disp, Finish(g)) && c !in d.svc.conns
    requires d.disp.workers[g].socket !in d.svc.table && d.disp.workers[g].socket !in d.svc.tombs
    ensures SocketInv(Made(d, g, gateway, c), t)
  {
    hide Ordered, Untouched, Svc.Apply, Adds, Numbered;
    var d' := Made(d, g, gateway, c);
    EnsureAdds(d.svc, d.disp.workers[g].socket, gateway, c);
    OrderedStays(d.svc, d'.svc, d.born, d.disp.workers[g].socket, c, At(d.fates, t), t);
    if t !in d.closing {
      UntouchedStays(d.svc, d'.svc, d.disp.workers[g].socket, c, At(d.fates, t), t);
    }
  }

  lemma {:induction false} NothingPicked<M, C>(x: seq<M>, fates: seq<Fate<C>>, c: C)
    requires |x| == |fates| && forall i | 0 <= i < |fates| :: fates[i] != Into(c)
    ensures Picked(x, fates, c) == []
  {
    if x != [] {
      NothingPicked(x[..|x| - 1], fates[..|x| - 1], c);
    }
  }

  lemma EmptyLinked<M, C>(size: nat, x: seq<M>, fates: seq<Fate<C>>, c: C)
    requires |x| == |fates| && forall i | 0 <= i < |fates| :: !FateConn(fates[i], c)
    ensures Linked(NewBox<M>(), size, x, fates, c, Svc.Open)
  {
    NothingPicked(x, fates, c);
  }

  lemma MadeConn<S(!new), G, C(!new), M>(d: Delivery<S, G, C, M>, g: nat, gateway: G, c: C, b: C)
    requires SameConns(d) && Enabled(d.disp, Finish(g)) && c !in d.svc.conns && SocketInv(d, d.disp.workers[g].socket)
    requires d.disp.workers[g].socket !in d.svc.table && d.disp.workers[g].socket !in d.svc.tombs
    requires b in d.svc.conns ==> ConnInv(d, b)
    requires b in d.svc.conns || b == c
    ensures ConnInv(Made(d, g, gateway, c), b)
  {
    hide Svc.Apply, Adds, Numbered, Ordered, Untouched, Linked;
    var s := d.disp.workers[g].socket;
    var d' := Made(d, g, gateway, c);
    EnsureAdds(d.svc, s, gateway, c);
    AddsConns(d.svc, d'.svc, s, c);
    OrderedStays(d.svc, d'.svc, d.born, s, c, At(d.fates, s), s);
    EmptyLinked(d.mailboxSize, At(d.disp.executed, s), At(d.fates, s), c);
  }

  lemma MadeInv<S(!new), G, C(!new), M>(d: Delivery<S, G, C, M>, g: nat, gateway: G, c: C)
    requires DeliveryInv(d) && Enabled(d.disp, Finish(g)) && g !in d.holding && c !in d.svc.conns
    requires d.disp.workers[g].socket !in d.svc.table && d.disp.workers[g].socket !in d.svc.tombs
    ensures DeliveryInv(Made(d, g, gateway, c))
  {
    hide Inv, Svc.Inv, SocketInv, ConnInv, Numbered, LastInUse, Holds;
    var d' := Made(d, g, gateway, c);
    Svc.ApplyInv(d.svc, Svc.Ensure(d.disp.workers[g].socket, gateway, c));
    MadeNumbered(d.born, c);
    MadeLast(d, g, gateway, c);
    MadeHolds(d, g, gateway, c);
    forall s ensures SocketInv(d', s) {
      MadeSocket(d, g, gateway, c, s);
    }
    forall b | b in d'.svc.conns ensures ConnInv(d', b) {
      MadeConn(d, g, gateway, c, b);
    }
  }

  // --- Every run ---

  lemma RefusedWasClosed<S(!new), G, C(!new), M>(d: Delivery<S, G, C, M>, s: S)
    requires SocketInv(d, s) && s in d.svc.tombs
    ensures s in d.closing
  {
  }

  lemma DroppedWasClosed<S(!new), G, C(!new), M>(d: Delivery<S, G, C, M>, s: S, c: C)
    requires SocketInv(d, s) && c in d.svc.conns && d.svc.conns[c].socket == s && d.svc.conns[c].phase != Svc.Open
    ensures s in d.closing
  {
  }

  lemma AdmitInv<S(!new), G, C(!new), M>(d: Delivery<S, G, C, M>, g: nat, gateway: G, made: C)
    requires DeliveryInv(d) && Ready(d, Admit(g, gateway, made))
    ensures DeliveryInv(Do(d, Admit(g, gateway, made)))
  {
    hide Inv, Svc.Inv, ConnInv, SameConns, LastInUse, Holds, Finished, SocketInv, BoxInv;
    var s := d.disp.workers[g].socket;
    if s in d.svc.tombs {
      assert SocketInv(d, s);
      RefusedWasClosed(d, s);
      FinishedInv(d, g, Refused, d.boxes);
      FinishedRest(d, g, Refused);
      assert Finished(d, g, Refused).(boxes := d.boxes) == Finished(d, g, Refused);
    } else if s in d.svc.table {
      FoundInv(d, g, d.svc.table[s]);
    } else {
      MadeInv(d, g, gateway, made);
    }
  }

  lemma BoxTakes<M>(b: Box<M>, size: nat, m: M)
    requires BoxInv(b, size)
    ensures |b.mailbox| < size ==> BoxInv(EnterBox(b, m), size)
    ensures b.mailbox == [] ==> BoxInv(HandOver(b, m), size)
  {
    assert b.read + b.mailbox + [m] == b.read + (b.mailbox + [m]);
  }

  lemma FailInv<S(!new), G, C(!new), M>(d: Delivery<S, G, C, M>, g: nat)
    requires DeliveryInv(d) && Ready(d, Fail(g))
    ensures DeliveryInv(Do(d, Fail(g)))
  {
    hide DeliveryInv, Finished;
    SameKeys(d);
    FinishedRest(d, g, Lost);
    FinishedInv(d, g, Lost, d.boxes);
    assert Finished(d, g, Lost).(boxes := d.boxes) == Finished(d, g, Lost);
  }

  lemma SameKeys<S(!new), G, C(!new), M>(d: Delivery<S, G, C, M>)
    requires DeliveryInv(d)
    ensures d.boxes.Keys == d.svc.conns.Keys
  {
  }

  lemma DropInv<S(!new), G, C(!new), M>(d: Delivery<S, G, C, M>, g: nat)
    requires DeliveryInv(d) && Ready(d, Drop(g))
    ensures DeliveryInv(Do(d, Drop(g)))
  {
    hide Inv, Svc.Inv, LastInUse, ConnInv, SocketInv, Finished, BoxInv;
    var fate := Dropped(d.holding[g]);
    assert SocketInv(d, d.disp.workers[g].socket);
    DroppedWasClosed(d, d.disp.workers[g].socket, d.holding[g]);
    FinishedRest(d, g, fate);
    FinishedInv(d, g, fate, d.boxes);
    assert Finished(d, g, fate).(boxes := d.boxes) == Finished(d, g, fate);
  }

  lemma IntoInv<S(!new), G, C(!new), M>(d: Delivery<S, G, C, M>, g: nat, box: Box<M>)
    requires DeliveryInv(d) && InHandle(d, g)
    requires var was := d.boxes[d.holding[g]];
      || (box == EnterBox(was, d.disp.workers[g].phase.work) && |was.mailbox| < d.mailboxSize)
      || (box == HandOver(was, d.disp.workers[g].phase.work) && was.mailbox == [])
    ensures DeliveryInv(Finished(d, g, Into(d.holding[g])).(boxes := d.boxes[d.holding[g] := box]))
  {
    hide Inv, Svc.Inv, LastInUse, SocketInv, Finished, Picked;
    var c := d.holding[g];
    assert ConnInv(d, c);
    BoxTakes(d.boxes[c], d.mailboxSize, d.disp.workers[g].phase.work);
    FinishedInv(d, g, Into(c), d.boxes[c := box]);
  }

  lemma DoInv<S(!new), G, C(!new), M>(d: Delivery<S, G, C, M>, e: Event<S, G, C, M>)
    requires DeliveryInv(d) && Ready(d, e)
    ensures DeliveryInv(Do(d, e))
  {
    hide DeliveryInv, Apply, Finished, Svc.Apply;
    match e
    case Dispatcher(a) => DispatcherInv(d, a);
    case Admit(g, gateway, made) => AdmitInv(d, g, gateway, made);
    case Read(c) => ReadInv(d, c);
    case Local(a, info) => LocalInv(d, a, info);
    case Fail(g) => FailInv(d, g);
    case Drop(g) => DropInv(d, g);
    case Enter(g) => IntoInv(d, g, EnterBox(d.boxes[d.holding[g]], d.disp.workers[g].phase.work));
    case Hand(g) => IntoInv(d, g, HandOver(d.boxes[d.holding[g]], d.disp.workers[g].phase.work));
  }

  lemma DoKeepsSizes<S(!new), G, C(!new), M>(d: Delivery<S, G, C, M>, e: Event<S, G, C, M>)
    requires Ready(d, e)
    ensures Do(d, e).mailboxSize == d.mailboxSize && Do(d, e).disp.queueSize == d.disp.queueSize
  {
  }

  lemma {:induction false} RunInv<S(!new), G, C(!new), M>(states: seq<Delivery<S, G, C, M>>, es: seq<Event<S, G, C, M>>,
                                                          k: nat)
    requires Trace(states, es) && DeliveryInv(states[0]) && k <= |es|
    ensures DeliveryInv(states[k])
    ensures states[k].mailboxSize == states[0].mailboxSize && states[k].disp.queueSize == states[0].disp.queueSize
  {
    hide DeliveryInv, Do, Ready;
    if k > 0 {
      RunInv(states, es, k - 1);
      DoInv(states[k - 1], es[k - 1]);
      DoKeepsSizes(states[k - 1], es[k - 1]);
    }
  }

  lemma {:induction false} SubsequenceOfMore<M>(y: seq<M>, x: seq<M>, more: seq<M>)
    requires IsSubsequence(y, x)
    ensures IsSubsequence(y, x + more)
    decreases |more|
  {
    hide IsSubsequence;
    if more == [] {
      assert x + more == x;
    } else {
      var n := |more| - 1;
      SubsequenceOfMore(y, x, more[..n]);
      SubsequenceSnoc(y, x + more[..n], more[n]);
      assert x + more == x + more[..n] + [more[n]];
    }
  }

  lemma {:induction false} PickedInOrder<C, M>(x: seq<M>, fates: seq<Fate<C>>, c: C)
    requires |x| == |fates|
    ensures IsSubsequence(Picked(x, fates, c), x)
  {
    hide IsSubsequence;
    if x == [] {
      NothingIsSubsequence(x);
    } else {
      var n := |x| - 1;
      PickedInOrder(x[..n], fates[..n], c);
      var p := Picked(x[..n], fates[..n], c);
      SubsequenceSnoc(p, x[..n], x[n]);
      assert p + [] == p;
      assert x == x[..n] + [x[n]];
    }
  }

  lemma NothingIsSubsequence<M>(x: seq<M>)
    ensures IsSubsequence([], x)
  {
  }

  /** What a connection has read and received, against its socket's log. */
  ghost predicate Received<S(!new), G, C(!new), M>(d: Delivery<S, G, C, M>, c: C) {
    && c in d.svc.conns && c in d.boxes
    && var b, s := d.boxes[c], d.svc.conns[c].socket;
       && |At(d.fates, s)| == |At(d.disp.executed, s)|
       && b.entered == Picked(At(d.disp.executed, s), At(d.fates, s), c)
       && b.read <= b.entered
       && IsSubsequence(b.entered, At(d.disp.accepted, s))
  }

  lemma ConnReceives<S(!new), G, C(!new), M>(d: Delivery<S, G, C, M>, c: C)
    requires ConnInv(d, c) && Conserved(d.disp, d.svc.conns[c].socket)
    ensures Received(d, c)
  {
    hide IsSubsequence, Picked, RunningOn;
    var s := d.svc.conns[c].socket;
    var executed, rest := At(d.disp.executed, s), RunningOn(d.disp, s) + At(d.disp.queues, s);
    assert At(d.disp.accepted, s) == executed + rest;
    PickedInOrder(executed, At(d.fates, s), c);
    SubsequenceOfMore(d.boxes[c].entered, executed, rest);
  }

  /** In every interleaving, for every connection: what it reads is a prefix of what entered its mailbox, which is
      exactly the messages its socket's worker brought to it, an in-order subsequence of what the dispatcher
      accepted. */
  lemma EndToEnd<S(!new), G, C(!new), M>(states: seq<Delivery<S, G, C, M>>, es: seq<Event<S, G, C, M>>,
                                         queueSize: int, mailboxSize: nat, now: int, ttl: int, k: nat, c: C)
    requires Trace(states, es) && states[0] == Start(queueSize, mailboxSize, now, ttl)
    requires k <= |es| && c in states[k].svc.conns
    ensures Received(states[k], c)
  {
    hide Received, ConnInv, SocketInv, Conserved, Svc.Inv, SameConns, LastInUse, Holds, OneWorker, Do, Ready;
    StartInv<S, G, C, M>(queueSize, mailboxSize, now, ttl);
    RunInv(states, es, k);
    ConnReceives(states[k], c);
  }

  /** The connections of one socket divide its log among them in the order they were made: each message has one
      fate, and once one went to a later connection none goes to an earlier one. */
  lemma PiecesInOrder<S(!new), G, C(!new), M>(states: seq<Delivery<S, G, C, M>>, es: seq<Event<S, G, C, M>>,
                                              queueSize: int, mailboxSize: nat, now: int, ttl: int,
                                              k: nat, s: S, i: nat, j: nat, b: C, c: C)
    requires Trace(states, es) && states[0] == Start(queueSize, mailboxSize, now, ttl) && k <= |es|
    requires i < j < |At(states[k].fates, s)| && FateConn(At(states[k].fates, s)[i], b)
    requires FateConn(At(states[k].fates, s)[j], c)
    ensures var d := states[k];
      && b in d.svc.conns && c in d.svc.conns && d.svc.conns[b].socket == d.svc.conns[c].socket == s
      && b in d.born && c in d.born && (b == c || d.born[b] < d.born[c])
  {
    hide Inv, Svc.Inv, ConnInv, Do, Ready, OwnConns, Untouched;
    StartInv<S, G, C, M>(queueSize, mailboxSize, now, ttl);
    RunInv(states, es, k);
    var d := states[k];
    assert SocketInv(d, s);
    OwnConnsOf(At(d.fates, s), d.svc, s, i, b);
    OwnConnsOf(At(d.fates, s), d.svc, s, j, c);
    assert Born(d.born, b) <= Born(d.born, c);
  }

  lemma OwnConnsOf<S, G, C(!new)>(fates: seq<Fate<C>>, svc: Svc.State<S, G, C>, s: S, i: nat, c: C)
    requires OwnConns(fates, svc, s) && i < |fates| && FateConn(fates[i], c)
    ensures c in svc.conns && svc.conns[c].socket == s
  {
  }

  // --- Until the first close ---

  function LostIn<C>(fates: seq<Fate<C>>): nat {
    if fates == [] then 0 else LostIn(fates[..|fates| - 1]) + if fates[|fates| - 1].Lost? then 1 else 0
  }

  lemma LostSnoc<C>(fates: seq<Fate<C>>, f: Fate<C>)
    ensures LostIn(fates + [f]) == LostIn(fates) + if f.Lost? then 1 else 0
  {
    assert (fates + [f])[..|fates|] == fates;
  }

  /** The box of the connection in the table, if any. */
  ghost function Current<S, G, C, M>(d: Delivery<S, G, C, M>, s: S): Box<M> {
    if s in d.svc.table && d.svc.table[s] in d.boxes then d.boxes[d.svc.table[s]] else NewBox()
  }

  lemma {:induction false} PickedOrLost<C, M>(x: seq<M>, fates: seq<Fate<C>>, c: C)
    requires |x| == |fates| && forall i | 0 <= i < |fates| :: fates[i].Lost? || fates[i] == Into(c)
    ensures |Picked(x, fates, c)| + LostIn(fates) == |x|
    ensures LostIn(fates) == 0 ==> Picked(x, fates, c) == x
  {
    if x != [] {
      var n := |x| - 1;
      PickedOrLost(x[..n], fates[..n], c);
      hide Picked, LostIn;
      PickedSnoc(x[..n], fates[..n], x[n], fates[n], c);
      LostSnoc(fates[..n], fates[n]);
      assert x == x[..n] + [x[n]] && fates == fates[..n] + [fates[n]];
    }
  }

  lemma {:induction false} AllLost<C>(fates: seq<Fate<C>>)
    requires forall i | 0 <= i < |fates| :: fates[i].Lost?
    ensures LostIn(fates) == |fates|
  {
    if fates != [] {
      AllLost(fates[..|fates| - 1]);
    }
  }

  lemma EnteredOrLost<S(!new), G, C(!new), M>(d: Delivery<S, G, C, M>, s: S)
    requires DeliveryInv(d) && s !in d.closing
    ensures var b, executed, lost := Current(d, s), At(d.disp.executed, s), LostIn(At(d.fates, s));
      && BoxInv(b, d.mailboxSize) && b.close.None?
      && |b.entered| + lost == |executed|
      && (lost == 0 ==> b.entered == executed)
  {
    hide Inv, Svc.Inv, LastInUse, Holds, InOrder, Numbered, Picked, LostIn;
    assert SocketInv(d, s);
    var fates := At(d.fates, s);
    assert Untouched(d.svc, fates, s);
    OnlyCurrent(d.svc, fates, s);
    if s in d.svc.table {
      var c := d.svc.table[s];
      TableConn(d.svc, s);
      assert ConnInv(d, c);
      PickedOrLost(At(d.disp.executed, s), fates, c);
    } else {
      AllLost(fates);
    }
  }

  lemma OnlyCurrent<S, G, C(!new)>(svc: Svc.State<S, G, C>, fates: seq<Fate<C>>, s: S)
    requires OwnConns(fates, svc, s) && Untouched(svc, fates, s)
    ensures forall i | 0 <= i < |fates| :: fates[i].Lost? || (s in svc.table && fates[i] == Into(svc.table[s]))
  {
    forall i | 0 <= i < |fates| && !fates[i].Lost? ensures s in svc.table && fates[i] == Into(svc.table[s]) {
      assert fates[i] == Into(fates[i].c);
      OwnConnsOf(fates, svc, s, i, fates[i].c);
    }
  }

  lemma TableConn<S, G, C>(svc: Svc.State<S, G, C>, s: S)
    requires Svc.Inv(svc) && s in svc.table
    ensures svc.table[s] in svc.conns && svc.conns[svc.table[s]].socket == s
  {
  }

  /** Until a close first touches a socket, its accepted messages are those read, those waiting in its mailbox, at
      its worker or in its queue, and those lost on the way; so at most queueSize + 1 + mailboxSize are unread and not
      lost, and if none is lost the messages read are a prefix of those accepted. */
  lemma UntilClosed<S(!new), G, C(!new), M>(states: seq<Delivery<S, G, C, M>>, es: seq<Event<S, G, C, M>>,
                                            queueSize: int, mailboxSize: nat, now: int, ttl: int, k: nat, s: S)
    requires Trace(states, es) && states[0] == Start(queueSize, mailboxSize, now, ttl)
    requires k <= |es| && s !in states[k].closing
    ensures var d := states[k];
      var b, accepted, lost := Current(d, s), At(d.disp.accepted, s), LostIn(At(d.fates, s));
      && |accepted| == |b.read| + |b.mailbox| + |RunningOn(d.disp, s)| + |At(d.disp.queues, s)| + lost
      && (queueSize >= 0 ==> |accepted| - |b.read| <= queueSize + 1 + mailboxSize + lost)
      && (b.entered == At(d.disp.executed, s) <==> lost == 0)
      && (lost == 0 ==> b.read <= accepted)
  {
    hide OneWorker, Svc.Inv, LastInUse, Holds, SocketInv, ConnInv, LostIn, Numbered, Do, Ready, RunningOn;
    StartInv<S, G, C, M>(queueSize, mailboxSize, now, ttl);
    RunInv(states, es, k);
    var d := states[k];
    EnteredOrLost(d, s);
    assert Conserved(d.disp, s);
    QueueBound(d.disp, s);
  }

  lemma QueueBound<S(!new), M>(disp: State<S, M>, s: S)
    requires Inv(disp)
    ensures disp.queueSize >= 0 ==> |At(disp.queues, s)| <= disp.queueSize
    ensures |RunningOn(disp, s)| <= 1
  {
  }

  /** The event is a worker failing to obtain the payload of a message of s. */
  ghost predicate Fails<S(!new), G, C, M>(d: Delivery<S, G, C, M>, e: Event<S, G, C, M>, s: S) {
    e.Fail? && e.g in d.disp.workers && d.disp.workers[e.g].socket == s
  }

  /** The event is a close of s, or of a connection of s. */
  ghost predicate ClosesSocket<S(!new), G, C, M>(d: Delivery<S, G, C, M>, e: Event<S, G, C, M>, s: S) {
    e.Local? && s in Closes(d.svc, e.act)
  }

  ghost function FailsOf<S(!new), G, C, M>(states: seq<Delivery<S, G, C, M>>, es: seq<Event<S, G, C, M>>, k: nat,
                                           s: S): nat
    requires k <= |es| && k <= |states|
  {
    if k == 0 then 0 else FailsOf(states, es, k - 1, s) + if Fails(states[k - 1], es[k - 1], s) then 1 else 0
  }

  /** The fate an event gives to its worker's message, if it ends it. */
  ghost function FateOf<S(!new), G, C, M>(d: Delivery<S, G, C, M>, e: Event<S, G, C, M>): Option<Fate<C>>
    requires Ready(d, e)
  {
    match e
    case Fail(_) => Some(Lost)
    case Admit(g, _, _) => if d.disp.workers[g].socket in d.svc.tombs then Some(Refused) else None
    case Enter(g) => Some(Into(d.holding[g]))
    case Hand(g) => Some(Into(d.holding[g]))
    case Drop(g) => Some(Dropped(d.holding[g]))
    case _ => None
  }

  ghost function WorkerOf<S, G, C, M>(e: Event<S, G, C, M>): nat {
    match e
    case Fail(g) => g
    case Admit(g, _, _) => g
    case Enter(g) => g
    case Hand(g) => g
    case Drop(g) => g
    case _ => 0
  }

  lemma FinishedFates<S(!new), G, C(!new), M>(d: Delivery<S, G, C, M>, g: nat, fate: Fate<C>)
    requires Enabled(d.disp, Finish(g))
    ensures var s := d.disp.workers[g].socket;
      Finished(d, g, fate).fates == d.fates[s := At(d.fates, s) + [fate]] && Finished(d, g, fate).closing == d.closing
  {
  }

  lemma QuietFates<S(!new), G, C(!new), M>(d: Delivery<S, G, C, M>, e: Event<S, G, C, M>)
    requires Ready(d, e) && FateOf(d, e).None?
    ensures Do(d, e).fates == d.fates
  {
    hide Closes, Apply, Svc.Apply, Finished, At;
  }

  lemma LocalCloses<S(!new), G, C(!new), M>(d: Delivery<S, G, C, M>, e: Event<S, G, C, M>)
    requires Ready(d, e)
    ensures e.Local? ==> Do(d, e).closing == d.closing + Closes(d.svc, e.act)
    ensures !e.Local? ==> Do(d, e).closing == d.closing
  {
    hide Closes, Apply, Svc.Apply, Finished, At;
    if FateOf(d, e).Some? {
      FinishedFates(d, WorkerOf(e), FateOf(d, e).value);
    }
  }

  lemma EndFates<S(!new), G, C(!new), M>(d: Delivery<S, G, C, M>, e: Event<S, G, C, M>)
    requires Ready(d, e) && FateOf(d, e).Some?
    ensures WorkerOf(e) in d.disp.workers
    ensures var s := d.disp.workers[WorkerOf(e)].socket;
      Do(d, e).fates == d.fates[s := At(d.fates, s) + [FateOf(d, e).value]]
  {
    hide Closes, Apply, Svc.Apply, Finished, At;
    FinishedFates(d, WorkerOf(e), FateOf(d, e).value);
  }

  lemma FatesAppend<S(!new), G, C(!new), M>(d: Delivery<S, G, C, M>, e: Event<S, G, C, M>, s: S)
    requires Ready(d, e)
    ensures FateOf(d, e).Some? ==> WorkerOf(e) in d.disp.workers
    ensures At(Do(d, e).fates, s) == At(d.fates, s) +
      (if FateOf(d, e).Some? && d.disp.workers[WorkerOf(e)].socket == s then [FateOf(d, e).value] else [])
    ensures Do(d, e).closing == d.closing + if e.Local? then Closes(d.svc, e.act) else {}
  {
    hide Closes, Do, Ready, FateOf;
    LocalCloses(d, e);
    if FateOf(d, e).Some? {
      EndFates(d, e);
    } else {
      QuietFates(d, e);
    }
  }

  lemma FatesStep<S(!new), G, C(!new), M>(d: Delivery<S, G, C, M>, e: Event<S, G, C, M>, s: S)
    requires Ready(d, e)
    ensures LostIn(At(Do(d, e).fates, s)) == LostIn(At(d.fates, s)) + if Fails(d, e, s) then 1 else 0
    ensures s in Do(d, e).closing <==> s in d.closing || ClosesSocket(d, e, s)
  {
    hide LostIn, Do, Closes;
    FatesAppend(d, e, s);
    var fates := At(d.fates, s);
    assert fates + [] == fates;
    if FateOf(d, e).Some? {
      LostSnoc(fates, FateOf(d, e).value);
    }
  }

  /** The messages lost are the workers' failures, and a socket is touched by a close exactly from its first close
      on. */
  lemma {:induction false} HistoryMeans<S(!new), G, C(!new), M>(states: seq<Delivery<S, G, C, M>>,
                                                                es: seq<Event<S, G, C, M>>, queueSize: int,
                                                                mailboxSize: nat, now: int, ttl: int, k: nat, s: S)
    requires Trace(states, es) && states[0] == Start(queueSize, mailboxSize, now, ttl) && k <= |es|
    ensures LostIn(At(states[k].fates, s)) == FailsOf(states, es, k, s)
    ensures s in states[k].closing <==> exists i :: 0 <= i < k && ClosesSocket(states[i], es[i], s)
  {
    hide Do, Ready, Fails, ClosesSocket;
    if k > 0 {
      HistoryMeans(states, es, queueSize, mailboxSize, now, ttl, k - 1, s);
      FatesStep(states[k - 1], es[k - 1], s);
    }
  }

  lemma {:induction false} SomeFailed<S(!new), G, C, M>(states: seq<Delivery<S, G, C, M>>, es: seq<Event<S, G, C, M>>,
                                                        k: nat, s: S)
    requires k <= |es| && k <= |states|
    ensures FailsOf(states, es, k, s) > 0 <==> exists i :: 0 <= i < k && Fails(states[i], es[i], s)
  {
    hide Fails;
    if k > 0 {
      SomeFailed(states, es, k - 1, s);
    }
  }

  /** Over every run up to its first close of a socket: at every point all executed messages of the socket have
      entered its mailbox exactly if none of its transfers failed. */
  lemma NothingMissingExact<S(!new), G, C(!new), M>(states: seq<Delivery<S, G, C, M>>, es: seq<Event<S, G, C, M>>,
                                                    queueSize: int, mailboxSize: nat, now: int, ttl: int, s: S)
    requires Trace(states, es) && states[0] == Start(queueSize, mailboxSize, now, ttl)
    requires forall i | 0 <= i < |es| :: !ClosesSocket(states[i], es[i], s)
    ensures (forall k | 0 <= k <= |es| :: Current(states[k], s).entered == At(states[k].disp.executed, s))
      <==> (forall i | 0 <= i < |es| :: !Fails(states[i], es[i], s))
  {
    hide Do, Ready, Fails, ClosesSocket, Current, RunningOn, LostIn;
    forall k | 0 <= k <= |es|
      ensures Current(states[k], s).entered == At(states[k].disp.executed, s) <==>
        forall i | 0 <= i < k :: !Fails(states[i], es[i], s)
    {
      HistoryMeans(states, es, queueSize, mailboxSize, now, ttl, k, s);
      UntilClosed(states, es, queueSize, mailboxSize, now, ttl, k, s);
      SomeFailed(states, es, k, s);
    }
    assert Current(states[|es|], s).entered == At(states[|es|].disp.executed, s)
      <==> forall i | 0 <= i < |es| :: !Fails(states[i], es[i], s);
  }

  /** One socket's worker 0 in the given phase, with what is queued, accepted and executed, and the connection c if
      made. */
  ghost function Gap<S, G, C, M>(q: int, size: nat, s: S, g: G, c: C, phase: Phase<M>, queue: seq<M>,
                                 accepted: seq<M>, executed: seq<M>,
                                 fates: seq<Fate<C>>, box: Option<Box<M>>, held: bool): Delivery<S, G, C, M> {
    Delivery(
      State(q, map[s := queue], 1, map[0 := Worker(s, phase)], map[s := accepted],
        if executed == [] then map[] else map[s := executed], []),
      size,
      Svc.State(0, 0, if box.Some? then map[s := c] else map[], map[],
        if box.Some? then map[c := Svc.ConnInfo(s, g, Svc.Open)] else map[], {}),
      if box.Some? then map[c := box.value] else map[],
      if box.Some? then map[c := 0] else map[],
      if held then map[0 := c] else map[],
      if fates == [] then map[] else map[s := fates],
      {})
  }

  lemma GapDispatched<S(!new), G, C(!new), M>(s: S, g: G, c: C, m: M, n: M, q: nat, size: nat)
    requires q >= 2
    ensures var d0: Delivery<S, G, C, M> := Start(q, size, 0, 0);
      var d1: Delivery<S, G, C, M> := Gap(q, size, s, g, c, AtLock, [m], [m], [], [], None, false);
      var d2: Delivery<S, G, C, M> := Gap(q, size, s, g, c, AtLock, [m, n], [m, n], [], [], None, false);
      && Ready(d0, Dispatcher(Dispatch(s, m, 0))) && Do(d0, Dispatcher(Dispatch(s, m, 0))) == d1
      && Ready(d1, Dispatcher(Dispatch(s, n, 1))) && Do(d1, Dispatcher(Dispatch(s, n, 1))) == d2
  {
    assert [] + [m] == [m] && [m] + [n] == [m, n];
  }

  lemma GapTaken<S(!new), G, C(!new), M>(s: S, g: G, c: C, m: M, queue: seq<M>, accepted: seq<M>, executed: seq<M>,
                                         fates: seq<Fate<C>>, q: nat, size: nat)
    ensures var d: Delivery<S, G, C, M> :=
      Gap(q, size, s, g, c, AtLock, [m] + queue, accepted, executed, fates, None, false);
      && Ready(d, Dispatcher(Take(0)))
      && Do(d, Dispatcher(Take(0))) == Gap(q, size, s, g, c, Running(m), queue, accepted, executed, fates, None, false)
  {
    assert ([m] + queue)[1..] == queue;
  }

  lemma GapFailed<S(!new), G, C(!new), M>(s: S, g: G, c: C, m: M, queue: seq<M>, accepted: seq<M>, q: nat, size: nat)
    ensures var d: Delivery<S, G, C, M> := Gap(q, size, s, g, c, Running(m), queue, accepted, [], [], None, false);
      Ready(d, Fail(0)) && Do(d, Fail(0)) == Gap(q, size, s, g, c, AtLock, queue, accepted, [m], [Lost], None, false)
  {
    assert [] + [m] == [m] && [] + [Fate<C>.Lost] == [Fate<C>.Lost];
  }

  lemma GapAdmitted<S(!new), G, C(!new), M>(s: S, g: G, c: C, m: M, n: M, q: nat, size: nat)
    ensures var d: Delivery<S, G, C, M> := Gap(q, size, s, g, c, Running(n), [], [m, n], [m], [Lost], None, false);
      && Ready(d, Admit(0, g, c))
      && Do(d, Admit(0, g, c)) == Gap(q, size, s, g, c, Running(n), [], [m, n], [m], [Lost], Some(NewBox()), true)
  {
  }

  lemma GapFinished<S(!new), G, C(!new), M>(s: S, g: G, c: C, m: M, n: M, q: nat, size: nat)
    ensures var d: Delivery<S, G, C, M> :=
      Gap(q, size, s, g, c, Running(n), [], [m, n], [m], [Lost], Some(NewBox()), true);
      && Enabled(d.disp, Finish(0))
      && Finished(d, 0, Into(c)) ==
         Gap(q, size, s, g, c, AtLock, [], [m, n], [m, n], [Lost, Into(c)], Some(NewBox()), false)
  {
    assert [m] + [n] == [m, n] && [Lost] + [Into(c)] == [Lost, Into(c)];
  }

  lemma GapEntered<S(!new), G, C(!new), M>(s: S, g: G, c: C, m: M, n: M, q: nat, size: nat)
    requires size >= 1
    ensures var d: Delivery<S, G, C, M> :=
      Gap(q, size, s, g, c, Running(n), [], [m, n], [m], [Lost], Some(NewBox()), true);
      && Ready(d, Enter(0))
      && Do(d, Enter(0)) ==
         Gap(q, size, s, g, c, AtLock, [], [m, n], [m, n], [Lost, Into(c)], Some(Box([n], [n], [], None, 0)), false)
  {
    hide Finished, FinishStep, At;
    GapFinished(s, g, c, m, n, q, size);
    assert [] + [n] == [n];
  }

  lemma GapRead<S(!new), G, C(!new), M>(s: S, g: G, c: C, m: M, n: M, q: nat, size: nat)
    ensures var d: Delivery<S, G, C, M> :=
        Gap(q, size, s, g, c, AtLock, [], [m, n], [m, n], [Lost, Into(c)], Some(Box([n], [n], [], None, 0)), false);
      && Ready(d, Read(c))
      && Do(d, Read(c)) ==
         Gap(q, size, s, g, c, AtLock, [], [m, n], [m, n], [Lost, Into(c)], Some(Box([], [n], [n], None, 0)), false)
  {
    assert [] + [n] == [n] && [n][1..] == [];
  }

  lemma GapEnds<S(!new), G, C(!new), M>(s: S, g: G, c: C, m: M, n: M, q: nat, size: nat)
    requires m != n
    ensures var last: Delivery<S, G, C, M> :=
        Gap(q, size, s, g, c, AtLock, [], [m, n], [m, n], [Lost, Into(c)], Some(Box([], [n], [n], None, 0)), false);
      && last.closing == {} && At(last.disp.accepted, s) == At(last.disp.executed, s) == [m, n]
      && c in last.boxes && last.boxes[c].read == [n] && !([n] <= [m, n])
  {
    assert [m, n][0] == m && [n][0] == n;
  }

  /** A lost transfer leaves a gap with nothing closed: the second accepted message is read, the first never is. */
  lemma FailedTransferSkips<S(!new), G, C(!new), M>(s: S, g: G, c: C, m: M, n: M, q: nat, size: nat)
    returns (states: seq<Delivery<S, G, C, M>>, es: seq<Event<S, G, C, M>>)
    requires m != n && q >= 2 && size >= 1
    ensures Trace(states, es) && states[0] == Start(q, size, 0, 0)
    ensures var last := states[|es|];
      && last.closing == {} && At(last.disp.accepted, s) == At(last.disp.executed, s) == [m, n]
      && c in last.boxes && last.boxes[c].read == [n] && !([n] <= [m, n])
  {
    hide Do, Ready, Gap, Start, At;
    es := [Dispatcher(Dispatch(s, m, 0)), Dispatcher(Dispatch(s, n, 1)), Dispatcher(Take(0)), Fail(0),
           Dispatcher(Take(0)), Admit(0, g, c), Enter(0), Read(c)];
    states := [
      Start(q, size, 0, 0),
      Gap(q, size, s, g, c, AtLock, [m], [m], [], [], None, false),
      Gap(q, size, s, g, c, AtLock, [m, n], [m, n], [], [], None, false),
      Gap(q, size, s, g, c, Running(m), [n], [m, n], [], [], None, false),
      Gap(q, size, s, g, c, AtLock, [n], [m, n], [m], [Lost], None, false),
      Gap(q, size, s, g, c, Running(n), [], [m, n], [m], [Lost], None, false),
      Gap(q, size, s, g, c, Running(n), [], [m, n], [m], [Lost], Some(NewBox()), true),
      Gap(q, size, s, g, c, AtLock, [], [m, n], [m, n], [Lost, Into(c)], Some(Box([n], [n], [], None, 0)), false),
      Gap(q, size, s, g, c, AtLock, [], [m, n], [m, n], [Lost, Into(c)], Some(Box([], [n], [n], None, 0)), false)];
    assert [m] + [n] == [m, n] && [n] + [] == [n];
    GapDispatched<S, G, C, M>(s, g, c, m, n, q, size);
    GapTaken<S, G, C, M>(s, g, c, m, [n], [m, n], [], [], q, size);
    GapFailed<S, G, C, M>(s, g, c, m, [n], [m, n], q, size);
    GapTaken<S, G, C, M>(s, g, c, n, [], [m, n], [m], [Lost], q, size);
    GapAdmitted(s, g, c, m, n, q, size);
    GapEntered(s, g, c, m, n, q, size);
    GapRead(s, g, c, m, n, q, size);
    GapEnds(s, g, c, m, n, q, size);
  }
}
