/** What one connection receives from its making until its first close, whatever connections its socket had before. */
module OpenConnection {
  import opened Sequences
  import opened DispatchModel
  import opened MailboxModel
  import opened DeliveryModel
  import Svc = ServiceModel

  /** The event closes c, or takes it out of the table. */
  ghost predicate Detaches<S, G, C, M>(d: Delivery<S, G, C, M>, e: Event<S, G, C, M>, c: C) {
    && e.Local? && c in d.svc.conns
    && match e.act
       case Shut(s) => s == d.svc.conns[c].socket
       case ShutAll => true
       case HandleClose(b) => b == c
       case OnClosed(b) => b in d.svc.conns && d.svc.conns[b].socket == d.svc.conns[c].socket
       case _ => false
  }

  /** c is the open connection of s, in the table, and the worker of s can only be holding c. */
  ghost predicate Live<S(!new), G, C, M>(d: Delivery<S, G, C, M>, s: S, c: C) {
    && c in d.svc.conns && d.svc.conns[c].socket == s && d.svc.conns[c].phase == Svc.Open
    && s in d.svc.table && d.svc.table[s] == c
    && OnlyHolds(d, s, c)
  }

  ghost predicate OnlyHolds<S(!new), G, C, M>(d: Delivery<S, G, C, M>, s: S, c: C) {
    forall g | g in d.holding && g in d.disp.workers && d.disp.workers[g].socket == s :: d.holding[g] == c
  }

  /** Step a makes c. */
  ghost predicate Makes<S(!new), G, C, M>(d: Delivery<S, G, C, M>, e: Event<S, G, C, M>, s: S, c: C) {
    && e.Admit? && e.made == c && e.g in d.disp.workers && d.disp.workers[e.g].socket == s
    && s !in d.svc.tombs && s !in d.svc.table
  }

  lemma OneRunner<S(!new), M>(disp: State<S, M>, g: nat, h: nat)
    requires Inv(disp) && g in disp.workers && h in disp.workers && disp.workers[g].socket == disp.workers[h].socket
    requires disp.workers[g].phase.Running? && disp.workers[h].phase.Running?
    ensures g == h
  {
    assert Draining(disp, g, disp.workers[g].socket) && Draining(disp, h, disp.workers[g].socket);
  }

  lemma MadeLive<S(!new), G, C(!new), M>(d: Delivery<S, G, C, M>, e: Event<S, G, C, M>, s: S, c: C)
    requires DeliveryInv(d) && Ready(d, e) && Makes(d, e, s, c)
    ensures Live(Do(d, e), s, c) && At(Do(d, e).fates, s) == At(d.fates, s) && !Fails(d, e, s)
  {
    hide Inv, Svc.Inv, SocketInv, ConnInv, LastInUse, SameConns;
    forall g | g in d.holding && g in d.disp.workers && d.disp.workers[g].socket == s ensures g == e.g {
      assert d.disp.workers[g].phase.Running?;
      OneRunner(d.disp, g, e.g);
    }
  }

  lemma DispatcherKeeps<S(!new), M>(disp: State<S, M>, a: Action<S, M>, g: nat)
    requires Enabled(disp, a) && !a.Finish?
    ensures g in disp.workers && disp.workers[g].phase.Running? ==>
      g in Apply(disp, a).workers && Apply(disp, a).workers[g] == disp.workers[g]
  {
  }

  lemma FinishedLive<S(!new), G, C(!new), M>(d: Delivery<S, G, C, M>, g: nat, fate: Fate<C>, s: S, c: C)
    requires Enabled(d.disp, Finish(g)) && Live(d, s, c)
    ensures Live(Finished(d, g, fate), s, c)
  {
    hide At;
  }

  /** ensureConnection of the worker of socket t: c is found if t is s. */
  lemma FoundLive<S(!new), G, C(!new), M>(d: Delivery<S, G, C, M>, g: nat, t: S, svc: Svc.State<S, G, C>, found: C,
                                          s: S, c: C)
    requires g in d.disp.workers && d.disp.workers[g].socket == t && Live(d, s, c) && (t == s ==> found == c)
    requires s in svc.table && svc.table[s] == d.svc.table[s]
    requires c in svc.conns && svc.conns[c] == d.svc.conns[c]
    ensures Live(d.(svc := svc, holding := d.holding[g := found]), s, c)
  {
  }

  lemma SameButBoxes<S(!new), G, C(!new), M>(d: Delivery<S, G, C, M>, d': Delivery<S, G, C, M>, s: S, c: C)
    requires Live(d, s, c) && d'.svc == d.svc && d'.holding == d.holding && d'.disp == d.disp
    ensures Live(d', s, c)
  {
  }

  lemma AdmitLive<S(!new), G, C(!new), M>(d: Delivery<S, G, C, M>, g: nat, gateway: G, made: C, s: S, c: C)
    requires DeliveryInv(d) && Ready(d, Admit(g, gateway, made)) && Live(d, s, c)
    ensures Live(Do(d, Admit(g, gateway, made)), s, c)
    ensures g in d.disp.workers && (d.disp.workers[g].socket == s ==> s !in d.svc.tombs)
  {
    hide Inv, SocketInv, ConnInv, LastInUse, SameConns, At, Svc.Inv, Holds, Live, OnlyHolds, Finished;
    assert s in d.svc.table && d.svc.table[s] == c && c in d.svc.conns by { LiveTable(d, s, c); }
    NoTomb(d.svc, s);
    var t := d.disp.workers[g].socket;
    var d' := Do(d, Admit(g, gateway, made));
    if t in d.svc.tombs {
      FinishedLive(d, g, Refused, s, c);
    } else if t in d.svc.table {
      FoundLive(d, g, t, d.svc, d.svc.table[t], s, c);
    } else {
      var svc := Svc.Apply(d.svc, Svc.Ensure(t, gateway, made));
      FoundLive(d, g, t, svc, made, s, c);
      SameButBoxes(d.(svc := svc, holding := d.holding[g := made]), d', s, c);
    }
  }

  lemma LiveTable<S(!new), G, C(!new), M>(d: Delivery<S, G, C, M>, s: S, c: C)
    requires Live(d, s, c)
    ensures s in d.svc.table && d.svc.table[s] == c && c in d.svc.conns
  {
  }

  lemma NoTomb<S, G, C>(svc: Svc.State<S, G, C>, s: S)
    requires Svc.Inv(svc) && s in svc.table
    ensures s !in svc.tombs
  {
  }

  lemma LocalLive<S(!new), G, C(!new), M>(d: Delivery<S, G, C, M>, e: Event<S, G, C, M>, s: S, c: C)
    requires Ready(d, e) && Live(d, s, c) && e.Local? && !Detaches(d, e, c)
    ensures Live(Do(d, e), s, c)
  {
    hide Closes;
  }

  lemma WorkLive<S(!new), G, C(!new), M>(d: Delivery<S, G, C, M>, e: Event<S, G, C, M>, s: S, c: C)
    requires DeliveryInv(d) && Ready(d, e) && Live(d, s, c) && !e.Local? && !e.Admit?
    ensures Live(Do(d, e), s, c)
  {
    hide Inv, Svc.Inv, SocketInv, ConnInv, LastInUse, SameConns, At, Apply, BoxInv;
    if e.Dispatcher? {
      forall g | g in d.holding ensures g in d.disp.workers && g in Apply(d.disp, e.a).workers &&
        Apply(d.disp, e.a).workers[g] == d.disp.workers[g] {
        DispatcherKeeps(d.disp, e.a, g);
      }
    }
  }

  /** While c is live, its socket's messages go into it or are lost. */
  lemma LiveStep<S(!new), G, C(!new), M>(d: Delivery<S, G, C, M>, e: Event<S, G, C, M>, s: S, c: C)
    requires DeliveryInv(d) && Ready(d, e) && Live(d, s, c) && !Detaches(d, e, c)
    ensures Live(Do(d, e), s, c)
    ensures FateOf(d, e).Some? && WorkerOf(e) in d.disp.workers && d.disp.workers[WorkerOf(e)].socket == s ==>
      FateOf(d, e).value == if Fails(d, e, s) then Lost else Into(c)
    ensures Fails(d, e, s) ==>
      FateOf(d, e) == Some(Lost) && WorkerOf(e) in d.disp.workers && d.disp.workers[WorkerOf(e)].socket == s
  {
    hide DeliveryInv, Do;
    if e.Admit? {
      AdmitLive(d, e.g, e.gateway, e.made, s, c);
    } else if e.Local? {
      LocalLive(d, e, s, c);
    } else {
      WorkLive(d, e, s, c);
    }
  }

  ghost function FailsBetween<S(!new), G, C, M>(states: seq<Delivery<S, G, C, M>>, es: seq<Event<S, G, C, M>>,
                                                a: nat, k: nat, s: S): nat
    requires a <= k <= |es| && k <= |states|
  {
    if a == k then 0 else FailsBetween(states, es, a, k - 1, s) + if Fails(states[k - 1], es[k - 1], s) then 1 else 0
  }

  lemma {:induction false} NoneFailed<S(!new), G, C, M>(states: seq<Delivery<S, G, C, M>>, es: seq<Event<S, G, C, M>>,
                                                        a: nat, k: nat, s: S)
    requires a <= k <= |es| && k <= |states|
    ensures FailsBetween(states, es, a, k, s) == 0 <==> forall i | a <= i < k :: !Fails(states[i], es[i], s)
  {
    hide Fails;
    if a < k {
      NoneFailed(states, es, a, k - 1, s);
    }
  }

  /** What has become of the messages of s since c was made at step a. */
  lemma {:induction false} SinceMade<S(!new), G, C(!new), M>(states: seq<Delivery<S, G, C, M>>,
                                                             es: seq<Event<S, G, C, M>>, a: nat, k: nat, s: S, c: C)
    returns (more: seq<Fate<C>>)
    requires Trace(states, es) && DeliveryInv(states[0]) && a < k <= |es| && Makes(states[a], es[a], s, c)
    requires forall i | a < i < k :: !Detaches(states[i], es[i], c)
    ensures Live(states[k], s, c)
    ensures At(states[k].fates, s) == At(states[a].fates, s) + more
    ensures forall i | 0 <= i < |more| :: more[i].Lost? || more[i] == Into(c)
    ensures LostIn(more) == FailsBetween(states, es, a, k, s)
  {
    hide DeliveryInv, Do, Ready, Live, Makes, Detaches, Fails, LostIn, FateOf, At;
    if k == a + 1 {
      RunInv(states, es, a);
      MadeLive(states[a], es[a], s, c);
      more := [];
      assert At(states[a].fates, s) + more == At(states[a].fates, s);
      assert LostIn(more) == 0 by { NoneLost<C>(); }
    } else {
      var before := SinceMade(states, es, a, k - 1, s, c);
      var d, e := states[k - 1], es[k - 1];
      RunInv(states, es, k - 1);
      LiveStep(d, e, s, c);
      FatesAppend(d, e, s);
      var add := if FateOf(d, e).Some? && d.disp.workers[WorkerOf(e)].socket == s then [FateOf(d, e).value] else [];
      more := before + add;
      assert At(states[a].fates, s) + before + add == At(states[a].fates, s) + more;
      if add != [] {
        LostSnoc(before, add[0]);
      } else {
        assert more == before;
      }
    }
  }

  lemma NoneLost<C>()
    ensures LostIn<C>([]) == 0
  {
  }

  lemma {:induction false} PickedJoin<C, M>(x: seq<M>, f: seq<Fate<C>>, y: seq<M>, g: seq<Fate<C>>, c: C)
    requires |x| == |f| && |y| == |g|
    ensures Picked(x + y, f + g, c) == Picked(x, f, c) + Picked(y, g, c)
  {
    if y == [] {
      assert x + y == x && f + g == f;
    } else {
      var n := |y| - 1;
      PickedJoin(x, f, y[..n], g[..n], c);
      hide Picked;
      PickedSnoc(x + y[..n], f + g[..n], y[n], g[n], c);
      PickedSnoc(y[..n], g[..n], y[n], g[n], c);
      assert x + y == x + y[..n] + [y[n]] && f + g == f + g[..n] + [g[n]];
      assert y == y[..n] + [y[n]] && g == g[..n] + [g[n]];
    }
  }

  lemma {:induction false} NonePicked<C, M>(x: seq<M>, f: seq<Fate<C>>, c: C)
    requires |x| == |f| && forall i | 0 <= i < |f| :: f[i] != Into(c)
    ensures Picked(x, f, c) == []
  {
    if x != [] {
      NonePicked(x[..|x| - 1], f[..|x| - 1], c);
    }
  }

  /** The messages of s whose worker was done with them when c was made. */
  ghost function Before<S(!new), G, C, M>(d: Delivery<S, G, C, M>, s: S): nat {
    |At(d.disp.executed, s)|
  }

  lemma ExecutedAppends<S(!new), M>(disp: State<S, M>, a: Action<S, M>, s: S)
    requires Enabled(disp, a)
    ensures At(disp.executed, s) <= At(Apply(disp, a).executed, s)
  {
  }

  lemma FinishedDisp<S(!new), G, C(!new), M>(d: Delivery<S, G, C, M>, g: nat, fate: Fate<C>)
    requires Enabled(d.disp, Finish(g))
    ensures Finished(d, g, fate).disp == Apply(d.disp, Finish(g))
  {
  }

  lemma DispStep<S(!new), G, C(!new), M>(d: Delivery<S, G, C, M>, e: Event<S, G, C, M>)
    requires Ready(d, e)
    ensures Do(d, e).disp == d.disp || exists a :: Enabled(d.disp, a) && Do(d, e).disp == Apply(d.disp, a)
  {
    hide Svc.Apply, Closes, Apply, Finished, At;
    if FateOf(d, e).Some? {
      FinishedDisp(d, WorkerOf(e), FateOf(d, e).value);
    }
  }

  lemma ExecutedStep<S(!new), G, C(!new), M>(d: Delivery<S, G, C, M>, e: Event<S, G, C, M>, s: S)
    requires Ready(d, e)
    ensures At(d.disp.executed, s) <= At(Do(d, e).disp.executed, s)
  {
    hide Do, Apply, At;
    DispStep(d, e);
    if Do(d, e).disp != d.disp {
      var a :| Enabled(d.disp, a) && Do(d, e).disp == Apply(d.disp, a);
      ExecutedAppends(d.disp, a, s);
    }
  }

  lemma {:induction false} ExecutedGrows<S(!new), G, C(!new), M>(states: seq<Delivery<S, G, C, M>>,
                                                                 es: seq<Event<S, G, C, M>>, a: nat, k: nat, s: S)
    requires Trace(states, es) && a <= k <= |es|
    ensures At(states[a].disp.executed, s) <= At(states[k].disp.executed, s)
  {
    hide Do, Ready, At;
    if a < k {
      ExecutedGrows(states, es, a, k - 1, s);
      ExecutedStep(states[k - 1], es[k - 1], s);
    }
  }

  lemma LiveBox<S(!new), G, C(!new), M>(d: Delivery<S, G, C, M>, s: S, c: C)
    requires DeliveryInv(d) && Live(d, s, c)
    ensures c in d.boxes && BoxInv(d.boxes[c], d.mailboxSize) && d.boxes[c].close.None?
    ensures |At(d.disp.executed, s)| == |At(d.fates, s)|
    ensures d.boxes[c].entered == Picked(At(d.disp.executed, s), At(d.fates, s), c)
  {
    hide Inv, Svc.Inv, LastInUse, Holds, SocketInv, Picked, OnlyHolds;
    assert ConnInv(d, c);
  }

  lemma NewConn<S(!new), G, C(!new), M>(d: Delivery<S, G, C, M>, e: Event<S, G, C, M>, s: S, c: C)
    requires DeliveryInv(d) && Ready(d, e) && Makes(d, e, s, c)
    ensures |At(d.fates, s)| == |At(d.disp.executed, s)|
    ensures forall i | 0 <= i < |At(d.fates, s)| :: At(d.fates, s)[i] != Into(c)
  {
    hide Inv, Svc.Inv, LastInUse, Holds, ConnInv, InOrder, Untouched;
    assert SocketInv(d, s);
    forall i | 0 <= i < |At(d.fates, s)| ensures At(d.fates, s)[i] != Into(c) {
      if At(d.fates, s)[i] == Into(c) {
        OwnConnsOf(At(d.fates, s), d.svc, s, i, c);
      }
    }
  }

  /** What a live connection has received, with `x` what was executed and `more` the fates since it was made. */
  lemma EnteredSince<C, M>(executed: seq<M>, fates: seq<Fate<C>>, x: seq<M>, more: seq<Fate<C>>, prior: seq<M>,
                           priorFates: seq<Fate<C>>, c: C)
    requires executed == prior + x && fates == priorFates + more && |prior| == |priorFates| && |x| == |more|
    requires forall i | 0 <= i < |priorFates| :: priorFates[i] != Into(c)
    requires forall i | 0 <= i < |more| :: more[i].Lost? || more[i] == Into(c)
    ensures |Picked(executed, fates, c)| + LostIn(more) == |x|
    ensures Picked(executed, fates, c) == x <==> LostIn(more) == 0
  {
    hide Picked, LostIn;
    PickedJoin(prior, priorFates, x, more, c);
    NonePicked(prior, priorFates, c);
    PickedOrLost(x, more, c);
    assert [] + Picked(x, more, c) == Picked(x, more, c);
  }

  /** From the making of a connection, at step a, until the first event that closes it or takes it out of the table,
      over every run and whatever connections its socket had before: everything its socket's worker has executed since
      is in its mailbox or was read from it, but for the failed transfers, so nothing is missing exactly if none failed;
      and what the dispatcher accepted beyond what was executed before is read, buffered, running, queued or lost. */
  lemma ReceivesAll<S(!new), G, C(!new), M>(states: seq<Delivery<S, G, C, M>>, es: seq<Event<S, G, C, M>>,
                                            queueSize: int, mailboxSize: nat, now: int, ttl: int,
                                            a: nat, k: nat, s: S, c: C) returns (lost: nat)
    requires Trace(states, es) && states[0] == Start(queueSize, mailboxSize, now, ttl)
    requires a < k <= |es| && Makes(states[a], es[a], s, c) && forall i | a < i < k :: !Detaches(states[i], es[i], c)
    ensures var d, n := states[k], Before(states[a], s);
      && c in d.boxes && At(states[a].disp.executed, s) <= At(d.disp.executed, s) && n <= |At(d.disp.accepted, s)|
      && var b, executed, accepted := d.boxes[c], At(d.disp.executed, s)[n..], At(d.disp.accepted, s)[n..];
         && lost == FailsBetween(states, es, a, k, s) && |b.entered| + lost == |executed|
         && (b.entered == executed <==> forall i | a <= i < k :: !Fails(states[i], es[i], s))
         && |accepted| == |b.read| + |b.mailbox| + |RunningOn(d.disp, s)| + |At(d.disp.queues, s)| + lost
         && (queueSize >= 0 ==> |accepted| - |b.read| <= queueSize + 1 + mailboxSize + lost)
         && (lost == 0 ==> b.read <= accepted)
  {
    hide Do, Ready, LostIn, Picked, Detaches, Live, Makes, Fails, DeliveryInv, RunningOn, At, Svc.Inv;
    StartInv<S, G, C, M>(queueSize, mailboxSize, now, ttl);
    RunInv(states, es, a);
    RunInv(states, es, k);
    var d, n := states[k], Before(states[a], s);
    var more := SinceMade(states, es, a, k, s, c);
    ExecutedGrows(states, es, a, k, s);
    LiveBox(d, s, c);
    NewConn(states[a], es[a], s, c);
    var prior, executed := At(states[a].disp.executed, s), At(d.disp.executed, s);
    assert executed == prior + executed[n..];
    EnteredSince(executed, At(d.fates, s), executed[n..], more, prior, At(states[a].fates, s), c);
    lost := LostIn(more);
    NoneFailed(states, es, a, k, s);
    InvOf(d, s);
    QueueBound(d.disp, s);
    var rest := RunningOn(d.disp, s) + At(d.disp.queues, s);
    assert At(d.disp.accepted, s)[n..] == executed[n..] + rest;
  }

  lemma InvOf<S(!new), G, C(!new), M>(d: Delivery<S, G, C, M>, s: S)
    requires DeliveryInv(d)
    ensures Inv(d.disp)
    ensures At(d.disp.accepted, s) == At(d.disp.executed, s) + (RunningOn(d.disp, s) + At(d.disp.queues, s))
  {
    hide Svc.Inv, LastInUse, Holds, SocketInv, ConnInv, OneWorker, RunningOn;
    assert Conserved(d.disp, s);
    var e, r, q := At(d.disp.executed, s), RunningOn(d.disp, s), At(d.disp.queues, s);
    assert e + r + q == e + (r + q);
  }
}
