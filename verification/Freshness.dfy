/** The announce, freshness and prune protocol as a timed machine over the index.
    A gateway announces and prunes once per interval; a service that an
    announcement omits re-announces itself. */
module Freshness {
  import opened Sequences
  import opened IndexModel
  import opened IndexAgreement
  import opened IndexPinning

  /** The interval, the longest time from an announcement to the re-announcement it causes, the number of
      consecutive rounds that may be lost, and the instance the claims are about. */
  datatype Params = Params(interval: nat, latency: nat, losses: nat, name: string, id: string)

  datatype Timed<R> = Timed(
    ix: Index<R>,
    now: int,
    lastAnnounce: int,
    lastPrune: int,
    due: seq<int>,     // when each re-announcement under way must have arrived
    lost: nat)         // announcement rounds lost since the last one that was not

  datatype Event<R> =
    | Advance(to: int)
    | Announce(lose: bool)
    | Arrive(k: nat, r: R, d: Desc)
    | Prune
    | Other(op: Op<R>)

  /** gateway.announceLoop's view of the instance: it is in the announcement iff its age is at most 3 intervals. */
  ghost predicate Announced<R>(p: Params, ix: Index<R>, now: int)
    requires WellFormed(ix)
  {
    exists r :: r in ix.flat && ix.descs[r].id == p.id && Fresh(ix.descs[r], now, 3 * p.interval)
  }

  /** service.handleGatewayAnnounce: whether to announce again, given the IDs in a gateway's announcement. */
  method HandleGatewayAnnounce(gatewayNames: seq<string>, gateway: string, announced: seq<string>,
                               self: string) returns (announce: bool)
    ensures announce <==> (gatewayNames == [] || gateway in gatewayNames) && self !in announced
  {
    if gatewayNames != [] && gateway !in gatewayNames {
      return false;
    }
    for i := 0 to |announced|
      invariant self !in announced[..i]
    {
      if announced[i] == self {
        return false;
      }
    }
    return true;
  }

  /** The announcement of the fresh instances omits the service's own ID exactly if the instance is not `Announced`. */
  lemma OmittedIff<R>(p: Params, ix: Index<R>, now: int)
    requires WellFormed(ix)
    ensures p.id !in IdsOf(ix.descs, FreshRefs(ix.descs, ix.flat, now, 3 * p.interval)) <==> !Announced(p, ix, now)
  {
    hide FreshRefs, IdsOf;
    var kept := FreshRefs(ix.descs, ix.flat, now, 3 * p.interval);
    if r :| r in kept && ix.descs[r].id == p.id {
      assert r in ix.flat;
    } else {
      assert forall r | r in ix.flat && Fresh(ix.descs[r], now, 3 * p.interval) :: r in kept;
    }
  }

  ghost predicate Next<R>(p: Params, st: Timed<R>, e: Event<R>, st': Timed<R>)
    requires WellFormed(st.ix)
  {
    match e
    case Advance(t) =>
      // Tickers fire on time, and what is under way arrives in time.
      && st.now <= t <= st.lastAnnounce + p.interval && t <= st.lastPrune + p.interval
      && (forall k | 0 <= k < |st.due| :: t <= st.due[k])
      && st' == st.(now := t)
    case Announce(lose) =>
      && st.now == st.lastAnnounce + p.interval
      && if Announced(p, st.ix, st.now) then
           st' == st.(lastAnnounce := st.now, lost := 0)
         else if lose then
           st.lost < p.losses && st' == st.(lastAnnounce := st.now, lost := st.lost + 1)
         else
           st' == st.(lastAnnounce := st.now, lost := 0, due := st.due + [st.now + p.latency])
    case Arrive(k, r, d) =>
      && k < |st.due| && d.name == p.name && d.id == p.id
      && Callable(st.ix, OpSet(r, d, st.now)) && Sound(st.ix, OpSet(r, d, st.now))
      && st' == st.(ix := Set(st.ix, r, d, st.now), due := RemoveAt(st.due, k))
    case Prune =>
      && st.now == st.lastPrune + p.interval
      && Sound(st.ix, OpPrune(st.now, 5 * p.interval)) && PrunesTo(st.ix, st.now, 5 * p.interval, st'.ix)
      && st' == st.(ix := st'.ix, lastPrune := st.now)
    case Other(op) =>
      // Anything else that happens to the index, but no failed delivery to the instance and no shutdown.
      && !op.OpPrune? && !op.OpClose? && op != OpUnset(p.id) && (op.OpSet? ==> op.now == st.now)
      && Sound(st.ix, op) && IndexModel.Next(st.ix, op, st'.ix)
      && st' == st.(ix := st'.ix)
  }

  ghost predicate Trace<R>(p: Params, states: seq<Timed<R>>, es: seq<Event<R>>) {
    && |states| == |es| + 1
    && (forall i | 0 <= i < |states| :: WellFormed(states[i].ix))
    && (forall i | 0 <= i < |es| :: Next(p, states[i], es[i], states[i + 1]))
  }

  ghost predicate SeenAt<R>(p: Params, ix: Index<R>, t: int)
    requires WellFormed(ix)
  {
    exists r :: r in ix.flat && ix.descs[r].name == p.name && ix.descs[r].id == p.id && ix.descs[r].lastSeen == Some(t)
  }

  /** The instance has just been seen, no round is lost or under way, and the tickers are running. */
  ghost predicate JustSeen<R>(p: Params, st: Timed<R>) {
    && Agree(st.ix) && SeenAt(p, st.ix, st.now)
    && st.lastAnnounce <= st.now <= st.lastAnnounce + p.interval
    && st.lastPrune <= st.now <= st.lastPrune + p.interval
    && st.due == [] && st.lost == 0
  }

  /** Clocks and messages under way, for an instance last seen at t. */
  ghost predicate OnTime<R>(p: Params, st: Timed<R>, t: int) {
    && t <= st.now && st.lost <= p.losses
    && st.lastAnnounce <= st.now <= st.lastAnnounce + p.interval
    && (forall k | 0 <= k < |st.due| :: st.now <= st.due[k] <= st.now + p.latency)
    && if st.due == [] then st.lastAnnounce <= t + (3 + st.lost) * p.interval
       else exists k :: 0 <= k < |st.due| && st.due[k] <= t + (4 + p.losses) * p.interval + p.latency
  }

  ghost predicate Alive<R>(p: Params, st: Timed<R>) {
    Agree(st.ix) && exists t :: SeenAt(p, st.ix, t) && OnTime(p, st, t)
  }

  lemma Grows(interval: nat, a: int, b: int)
    requires a <= b
    ensures a * interval <= b * interval
    ensures (a + 1) * interval == a * interval + interval
  {
  }

  /** The instance is never older than 4 + losses intervals plus the latency. */
  lemma AgeBound<R>(p: Params, st: Timed<R>, t: int)
    requires OnTime(p, st, t)
    ensures st.now <= t + (4 + p.losses) * p.interval + p.latency
  {
    Grows(p.interval, 3 + st.lost, 3 + p.losses);
  }

  lemma UnsetKeepsSeen<R>(p: Params, ix: Index<R>, id: string, pick: Option<string>, t: int)
    requires Agree(ix) && ValidPick(ix, id, pick) && !LeavesDangling(ix, id) && SeenAt(p, ix, t) && id != p.id
    ensures SeenAt(p, UnsetAt(ix, id, pick), t)
  {
    hide Agree, Named;
    UnsetRemoves(ix, id, pick);
  }

  lemma SetKeepsSeen<R>(p: Params, ix: Index<R>, r: R, d: Desc, now: int, t: int)
    requires WellFormed(ix) && !ix.closed && (r in ix.descs ==> ix.descs[r] == d) && SeenAt(p, ix, t)
    requires Agree(ix)
    ensures SeenAt(p, Set(ix, r, d, now), t) || SeenAt(p, Set(ix, r, d, now), now)
    ensures d.name == p.name && d.id == p.id ==> SeenAt(p, Set(ix, r, d, now), now)
  {
    var ix' := Set(ix, r, d, now);
    var q :| q in ix.flat && ix.descs[q].name == p.name && ix.descs[q].id == p.id && ix.descs[q].lastSeen == Some(t);
    LookupFinds(ix, d.name, d.id);
    assert q in ix'.flat;
    if d.name == p.name && d.id == p.id {
      assert Indexed(ix, d.name, d.id);
    }
  }

  lemma RemapKeepsSeen<R>(p: Params, ix: Index<R>, ix': Index<R>, t: int)
    requires WellFormed(ix) && WellFormed(ix') && SeenAt(p, ix, t) && ix'.flat == ix.flat
    requires forall r | r in ix.flat :: ix'.descs[r].(sockets := []) == ix.descs[r].(sockets := [])
    ensures SeenAt(p, ix', t)
  {
    var q :| q in ix.flat && ix.descs[q].name == p.name && ix.descs[q].id == p.id && ix.descs[q].lastSeen == Some(t);
    assert ix'.descs[q].(sockets := []) == ix.descs[q].(sockets := []);
  }

  lemma SeenIsOpen<R>(p: Params, ix: Index<R>, t: int)
    requires Agree(ix) && SeenAt(p, ix, t)
    ensures !ix.closed
  {
  }

  /** Index operations of others leave the instance indexed, with its last-seen time or the current one. */
  lemma OthersKeepSeen<R>(p: Params, ix: Index<R>, op: Op<R>, ix': Index<R>, t: int) returns (t': int)
    requires Agree(ix) && IndexModel.Next(ix, op, ix') && Sound(ix, op) && SeenAt(p, ix, t)
    requires !op.OpPrune? && !op.OpClose? && op != OpUnset(p.id)
    ensures Agree(ix') && SeenAt(p, ix', t')
    ensures t' == t || (op.OpSet? && t' == op.now)
  {
    hide Agree, SeenAt;
    AgreedIsWellFormed(ix);
    SeenIsOpen(p, ix, t);
    StepAgrees(ix, op, ix');
    AgreedIsWellFormed(ix');
    t' := t;
    if op.OpUnset? {
      var pick :| ValidPick(ix, op.id, pick) && ix' == UnsetAt(ix, op.id, pick);
      UnsetKeepsSeen(p, ix, op.id, pick, t);
    } else if op.OpSet? {
      SetKeepsSeen(p, ix, op.r, op.d, op.now, t);
      t' := if SeenAt(p, ix', t) then t else op.now;
    } else {
      RemapKeepsSeen(p, ix, ix', t);
    }
  }

  // --- The invariant of a live instance ---

  lemma AnnounceStep<R>(p: Params, st: Timed<R>, lose: bool, st': Timed<R>, t: int)
    requires Agree(st.ix) && SeenAt(p, st.ix, t) && OnTime(p, st, t) && Next(p, st, Announce(lose), st')
    ensures OnTime(p, st', t)
    ensures !Announced(p, st.ix, st.now) && st.due == [] && st.lost == 0 ==>
      3 * p.interval < st.now - t <= 4 * p.interval
  {
    hide Agree;
    AgreedIsWellFormed(st.ix);
    Grows(p.interval, 3 + st.lost, 3 + p.losses);
    Grows(p.interval, 4 + st.lost, 4 + p.losses);
    Grows(p.interval, 3, 3 + st'.lost);
    var r :|
      && r in st.ix.flat && st.ix.descs[r].name == p.name && st.ix.descs[r].id == p.id
      && st.ix.descs[r].lastSeen == Some(t);
    if Announced(p, st.ix, st.now) {
      AnnouncedIsFresh(p, st.ix, st.now, t);
    } else {
      assert !Fresh(st.ix.descs[r], st.now, 3 * p.interval);
      if !lose {
        assert st'.due[|st.due|] == st.now + p.latency;
        if st.due != [] {
          var k :| 0 <= k < |st.due| && st.due[k] <= t + (4 + p.losses) * p.interval + p.latency;
          assert st'.due[k] == st.due[k];
        }
      }
    }
  }

  lemma AnnouncedIsFresh<R>(p: Params, ix: Index<R>, now: int, t: int)
    requires Agree(ix) && SeenAt(p, ix, t) && Announced(p, ix, now)
    ensures now - t <= 3 * p.interval
  {
  }

  /** A re-announcement restarts the count. */
  lemma ArriveStep<R>(p: Params, st: Timed<R>, k: nat, st': Timed<R>, t: int)
    requires OnTime(p, st, t) && k < |st.due| && st'.due == RemoveAt(st.due, k)
    requires st'.now == st.now && st'.lastAnnounce == st.lastAnnounce && st'.lost == st.lost
    ensures OnTime(p, st', st.now)
  {
    Grows(p.interval, 0, 3 + st.lost);
    Grows(p.interval, 0, 4 + p.losses);
    if st'.due != [] {
      assert st'.due[0] <= st.now + p.latency;
    }
  }

  lemma SeenAgainStep<R>(p: Params, st: Timed<R>, t: int, t': int)
    requires OnTime(p, st, t) && t <= t' <= st.now
    ensures OnTime(p, st, t')
  {
  }

  lemma PruneStep<R>(p: Params, st: Timed<R>, st': Timed<R>, t: int)
    requires Agree(st.ix) && SeenAt(p, st.ix, t) && Next(p, st, Prune, st') && st.now - t <= 5 * p.interval
    ensures Agree(st'.ix) && SeenAt(p, st'.ix, t)
  {
    hide Named, WithoutIds;
    PruneExact(st.ix, st.now, 5 * p.interval, st'.ix);
    var r :|
      && r in st.ix.flat && st.ix.descs[r].name == p.name && st.ix.descs[r].id == p.id
      && st.ix.descs[r].lastSeen == Some(t);
    assert !Stale(st.ix.descs[r], st.now, 5 * p.interval);
  }

  lemma LiveStep<R>(p: Params, st: Timed<R>, e: Event<R>, st': Timed<R>)
    requires Alive(p, st) && Next(p, st, e, st') && p.losses * p.interval + p.latency <= p.interval
    ensures Alive(p, st')
  {
    hide Agree, SeenAt, OnTime, Announced, Sound, Set, PrunesTo;
    AgreedIsWellFormed(st.ix);
    var t :| SeenAt(p, st.ix, t) && OnTime(p, st, t);
    SeenIsOpen(p, st.ix, t);
    match e
    case Advance(to) => AdvanceStep(p, st, to, st', t);
    case Announce(lose) => AnnounceStep(p, st, lose, st', t);
    case Arrive(k, r, d) =>
      StepAgrees(st.ix, OpSet(r, d, st.now), st'.ix);
      SetKeepsSeen(p, st.ix, r, d, st.now, t);
      ArriveStep(p, st, k, st', t);
    case Prune =>
      AgeBound(p, st, t);
      assert (4 + p.losses) * p.interval == 4 * p.interval + p.losses * p.interval;
      PruneStep(p, st, st', t);
      SameClocks(p, st, st', t);
    case Other(op) =>
      var t' := OthersKeepSeen(p, st.ix, op, st'.ix, t);
      SameClocks(p, st, st', t);
      SeenInPast(p, st', t);
      SeenAgainStep(p, st', t, t');
  }

  lemma AdvanceStep<R>(p: Params, st: Timed<R>, to: int, st': Timed<R>, t: int)
    requires WellFormed(st.ix) && OnTime(p, st, t) && Next(p, st, Advance(to), st')
    ensures OnTime(p, st', t)
  {
  }

  lemma SameClocks<R>(p: Params, st: Timed<R>, st': Timed<R>, t: int)
    requires OnTime(p, st, t) && st'.now == st.now && st'.lastAnnounce == st.lastAnnounce && st'.due == st.due
          && st'.lost == st.lost
    ensures OnTime(p, st', t)
  {
  }

  lemma SeenInPast<R>(p: Params, st: Timed<R>, t: int)
    requires OnTime(p, st, t)
    ensures t <= st.now
  {
  }

  /** A live instance is never pruned: over any run whose lost rounds and latency fit into one interval it stays
      indexed, never older than 5 intervals. */
  lemma {:induction false} LiveNeverPruned<R>(p: Params, states: seq<Timed<R>>, es: seq<Event<R>>, k: nat)
    requires Trace(p, states, es) && JustSeen(p, states[0]) && k <= |es|
    requires p.losses * p.interval + p.latency <= p.interval
    ensures Agree(states[k].ix) && Indexed(states[k].ix, p.name, p.id)
    ensures Alive(p, states[k])
    ensures exists t :: SeenAt(p, states[k].ix, t) && states[k].now - t <= 5 * p.interval
  {
    hide Agree, OnTime, Next;
    if k == 0 {
      assert OnTime(p, states[0], states[0].now) by { FreshStart(p, states[0]); }
    } else {
      LiveNeverPruned(p, states, es, k - 1);
      LiveStep(p, states[k - 1], es[k - 1], states[k]);
    }
    var t :| SeenAt(p, states[k].ix, t) && OnTime(p, states[k], t);
    AgeBound(p, states[k], t);
    assert (4 + p.losses) * p.interval == 4 * p.interval + p.losses * p.interval;
  }

  lemma FreshStart<R>(p: Params, st: Timed<R>)
    requires JustSeen(p, st)
    ensures OnTime(p, st, st.now)
  {
    Grows(p.interval, 0, 3);
  }

  // --- A live instance keeps its sockets ---

  lemma AliveNotStale<R>(p: Params, ix: Index<R>, now: int, t: int)
    requires Agree(ix) && SeenAt(p, ix, t) && now - t <= 5 * p.interval
    ensures !StaleInstance(ix, p.id, now, 5 * p.interval)
  {
  }

  /** The index operation behind an event, if any. */
  ghost function OpOf<R>(p: Params, st: Timed<R>, e: Event<R>): Option<Op<R>> {
    match e
    case Arrive(_, r, d) => Some(OpSet(r, d, st.now))
    case Prune => Some(OpPrune(st.now, 5 * p.interval))
    case Other(op) => Some(op)
    case _ => None
  }

  lemma IndexStep<R>(p: Params, st: Timed<R>, e: Event<R>, st': Timed<R>)
    requires WellFormed(st.ix) && Next(p, st, e, st')
    ensures match OpOf(p, st, e)
      case Some(op) => Sound(st.ix, op) && IndexModel.Next(st.ix, op, st'.ix)
      case None => st'.ix == st.ix
  {
    hide Sound, PrunesTo, Set, Announced;
  }

  lemma PinLiveStep<R>(p: Params, st: Timed<R>, e: Event<R>, st': Timed<R>, s: string)
    requires Alive(p, st) && Next(p, st, e, st') && p.losses * p.interval + p.latency <= p.interval
    requires e != Other(OpUnmap(s)) && MapsTo(st.ix.mapping, s, p.name, p.id)
    ensures MapsTo(st'.ix.mapping, s, p.name, p.id)
  {
    hide Agree, SeenAt, OnTime, Sound, IndexModel.Next, MapsTo, StaleInstance;
    AgreedIsWellFormed(st.ix);
    IndexStep(p, st, e, st');
    var t :| SeenAt(p, st.ix, t) && OnTime(p, st, t);
    AgeBound(p, st, t);
    assert (4 + p.losses) * p.interval == 4 * p.interval + p.losses * p.interval;
    AliveNotStale(p, st.ix, st.now, t);
    match OpOf(p, st, e)
    case Some(op) =>
      PinStep(st.ix, op, st'.ix, s, p.name, p.id);
    case None =>
  }

  /** Sockets pinned to a live instance stay pinned to it over the whole run, whatever else happens to the index,
      until they are unmapped: the timed protocol leaves no other way to lose a pin. */
  lemma {:induction false} LivePinSurvives<R>(p: Params, states: seq<Timed<R>>, es: seq<Event<R>>, s: string, k: nat)
    requires Trace(p, states, es) && JustSeen(p, states[0]) && k <= |es|
    requires p.losses * p.interval + p.latency <= p.interval
    requires MapsTo(states[0].ix.mapping, s, p.name, p.id)
    requires forall i | 0 <= i < |es| :: es[i] != Other(OpUnmap(s))
    ensures MapTarget(states[k].ix, p.name, s) == (p.id, false)
    ensures MapsTo(states[k].ix.mapping, s, p.name, p.id)
  {
    hide Alive, Next, MapsTo, MapTarget, JustSeen, Agree;
    if k > 0 {
      LivePinSurvives(p, states, es, s, k - 1);
      LiveNeverPruned(p, states, es, k - 1);
      PinLiveStep(p, states[k - 1], es[k - 1], states[k], s);
    }
    LiveNeverPruned(p, states, es, k);
    PinnedTarget(states[k].ix, s, p.name, p.id);
  }

  // --- A silent instance goes ---

  predicate Speaks<R>(p: Params, e: Event<R>) {
    match e
    case Arrive(_, _, _) => true
    case Other(op) => op.OpSet? && op.d.name == p.name && op.d.id == p.id
    case _ => false
  }

  /** The instance is gone, or as last seen at t with no prune tick having found it older than 5 intervals. */
  ghost predicate FadingOrGone<R>(p: Params, st: Timed<R>, t: int) {
    && Agree(st.ix) && st.lastPrune <= st.now <= st.lastPrune + p.interval
    && forall r | r in st.ix.flat && st.ix.descs[r].name == p.name && st.ix.descs[r].id == p.id ::
         st.ix.descs[r].lastSeen == Some(t) && st.lastPrune <= t + 5 * p.interval
  }

  /** Without an announcement of the instance, no operation touches its last-seen time or adds it. */
  lemma UnspokenUnseen<R>(p: Params, ix: Index<R>, op: Op<R>, ix': Index<R>)
    requires Agree(ix) && IndexModel.Next(ix, op, ix') && Sound(ix, op)
    requires op.OpSet? ==> op.d.name != p.name || op.d.id != p.id
    ensures WellFormed(ix')
    ensures forall r | r in ix'.flat && ix'.descs[r].name == p.name && ix'.descs[r].id == p.id ::
      && r in ix.flat && ix.descs[r].name == p.name && ix.descs[r].id == p.id
      && ix'.descs[r].lastSeen == ix.descs[r].lastSeen
  {
    hide Agree;
    AgreedIsWellFormed(ix);
    StepAgrees(ix, op, ix');
    AgreedIsWellFormed(ix');
    if op.OpUnset? || op.OpPrune? {
      RemovalKeeps(ix, op, ix');
    }
  }

  lemma PruneDropsStale<R>(ix: Index<R>, now: int, threshold: int, ix': Index<R>, r: R)
    requires Agree(ix) && PrunesTo(ix, now, threshold, ix') && Sound(ix, OpPrune(now, threshold))
    requires r in ix.flat && r in ix'.flat
    ensures !Stale(ix.descs[r], now, threshold)
  {
    hide Agree, Without;
    PruneExact(ix, now, threshold, ix');
  }

  lemma SilentStep<R>(p: Params, st: Timed<R>, e: Event<R>, st': Timed<R>, t: int)
    requires FadingOrGone(p, st, t) && Next(p, st, e, st') && !Speaks(p, e)
    ensures FadingOrGone(p, st', t)
  {
    hide Agree, Sound, IndexModel.Next, Announced, Set, PrunesTo;
    AgreedIsWellFormed(st.ix);
    IndexStep(p, st, e, st');
    match OpOf(p, st, e)
    case Some(op) =>
      StepAgrees(st.ix, op, st'.ix);
      UnspokenUnseen(p, st.ix, op, st'.ix);
      if e.Prune? {
        forall r | r in st'.ix.flat && st'.ix.descs[r].name == p.name && st'.ix.descs[r].id == p.id
          ensures st.now <= t + 5 * p.interval
        {
          PruneDropsStale(st.ix, st.now, 5 * p.interval, st'.ix, r);
        }
      }
    case None =>
  }

  /** A service that falls silent is removed by the first prune tick after 5 intervals, so it is gone within 6. */
  lemma {:induction false} SilentGone<R>(p: Params, states: seq<Timed<R>>, es: seq<Event<R>>, k: nat)
    requires Trace(p, states, es) && JustSeen(p, states[0]) && k <= |es|
    requires forall i | 0 <= i < |es| :: !Speaks(p, es[i])
    ensures FadingOrGone(p, states[k], states[0].now)
    ensures states[k].lastPrune > states[0].now + 5 * p.interval ==> !Indexed(states[k].ix, p.name, p.id)
    ensures states[k].now > states[0].now + 6 * p.interval ==> !Indexed(states[k].ix, p.name, p.id)
  {
    hide Agree, Next, Speaks;
    if k == 0 {
      SeenOnce(p, states[0].ix, states[0].now);
    } else {
      SilentGone(p, states, es, k - 1);
      SilentStep(p, states[k - 1], es[k - 1], states[k], states[0].now);
    }
  }

  lemma SeenOnce<R>(p: Params, ix: Index<R>, t: int)
    requires Agree(ix) && SeenAt(p, ix, t)
    ensures forall r | r in ix.flat && ix.descs[r].name == p.name && ix.descs[r].id == p.id ::
      ix.descs[r].lastSeen == Some(t)
  {
  }

  // --- The bound is exact ---

  /** One instance of service "a" with ID "x", seen at 0, alone in the index. */
  ghost function Alone(): Index<nat> {
    Index(false, map[0 := Desc("a", "x", [], Some(0), [])], [0], map["a" := [0]], map[])
  }

  lemma AloneAgrees()
    ensures Agree(Alone()) && StaleIds(Alone().descs, [0], 0, 0) == []
  {
    var ix := Alone();
    assert ix.descs[0].name == "a" && ix.flat == [0];
    forall s ensures !MapsTo(ix.mapping, s, "a", "x") {
    }
  }

  lemma AloneUnset()
    ensures ValidPick(Alone(), "x", Some("a"))
    ensures UnsetAt(Alone(), "x", Some("a")).flat == []
  {
    var ix := Alone();
    assert FirstWithId(ix.descs, ix.byName["a"], "x") == 0;
    assert RemoveAt([0], 0) == [];
  }

  /** The state just after an announcement tick at `at`, when the prune ticks come one time unit later. */
  ghost function AtTick(p: Params, at: int, due: seq<int>, lost: nat): Timed<nat> {
    Timed(Alone(), at, at, at - p.interval + 1, due, lost)
  }

  lemma NothingStale(now: int, threshold: int)
    requires now <= threshold
    ensures PrunesTo(Alone(), now, threshold, Alone()) && Sound(Alone(), OpPrune(now, threshold))
  {
    var ix := Alone();
    assert ix.flat[..0] == [];
    assert StaleIds(ix.descs, ix.flat, now, threshold) == [];
    assert UnsetsTo(ix, [], ix);
  }

  lemma OneStale(now: int, threshold: int) returns (ix': Index<nat>)
    requires now > threshold
    ensures PrunesTo(Alone(), now, threshold, ix') && Sound(Alone(), OpPrune(now, threshold))
    ensures WellFormed(ix') && ix'.flat == []
  {
    var ix := Alone();
    assert ix.flat[..0] == [];
    assert StaleIds(ix.descs, ix.flat, now, threshold) == ["x"];
    AloneUnset();
    ix' := UnsetAt(ix, "x", Some("a"));
    assert UnsetsTo(ix', [], ix') && ["x"][1..] == [] && ["x"][0] == "x";
    assert ValidPick(ix, ["x"][0], Some("a"));
    assert UnsetsTo(ix, ["x"], ix');
  }

  lemma AnnouncedAlone(p: Params, now: int)
    requires p.name == "a" && p.id == "x"
    ensures WellFormed(Alone())
    ensures Announced(p, Alone(), now) <==> now <= 3 * p.interval
  {
    var ix := Alone();
    assert ix.flat[0] == 0 && 0 in ix.flat;
    assert Fresh(ix.descs[0], now, 3 * p.interval) <==> now <= 3 * p.interval;
    assert forall r | r in ix.flat :: r == 0;
  }

  lemma TimePasses<R>(p: Params, st: Timed<R>, to: int)
    requires WellFormed(st.ix) && st.now <= to <= st.lastAnnounce + p.interval && to <= st.lastPrune + p.interval
    requires forall k | 0 <= k < |st.due| :: to <= st.due[k]
    ensures Next(p, st, Advance(to), st.(now := to))
  {
  }

  lemma PruneTicks<R>(p: Params, st: Timed<R>, ix': Index<R>)
    requires WellFormed(st.ix) && st.now == st.lastPrune + p.interval
    requires Sound(st.ix, OpPrune(st.now, 5 * p.interval)) && PrunesTo(st.ix, st.now, 5 * p.interval, ix')
    ensures Next(p, st, Prune, st.(ix := ix', lastPrune := st.now))
  {
  }

  lemma AnnounceTicks(p: Params, st: Timed<nat>, lose: bool, due': seq<int>, lost': nat)
    requires p.name == "a" && p.id == "x" && st.ix == Alone() && st.now == st.lastAnnounce + p.interval
    requires if st.now <= 3 * p.interval then due' == st.due && lost' == 0
      else if lose then st.lost < p.losses && due' == st.due && lost' == st.lost + 1
      else due' == st.due + [st.now + p.latency] && lost' == 0
    ensures WellFormed(st.ix) && Next(p, st, Announce(lose), st.(lastAnnounce := st.now, due := due', lost := lost'))
  {
    hide Alone;
    AnnouncedAlone(p, st.now);
  }

  /** From one tick to the next: time passes, a prune tick finds nothing stale, time passes, an announcement
      includes the instance or not; if not, the round is lost or a re-announcement is under way. */
  lemma Round(p: Params, at: int, due: seq<int>, lost: nat, lose: bool)
    returns (states: seq<Timed<nat>>, es: seq<Event<nat>>, due': seq<int>, lost': nat)
    requires p.name == "a" && p.id == "x" && p.interval > 0 && at + 1 <= 5 * p.interval
    requires forall k | 0 <= k < |due| :: at + p.interval <= due[k]
    requires lose ==> lost < p.losses
    ensures Trace(p, states, es) && |es| == 4
    ensures states[0] == AtTick(p, at, due, lost) && states[4] == AtTick(p, at + p.interval, due', lost')
    ensures if at + p.interval <= 3 * p.interval then due' == due && lost' == 0
      else if lose then due' == due && lost' == lost + 1
      else due' == due + [at + p.interval + p.latency] && lost' == 0
  {
    hide Alone, Next, Announced, PrunesTo, Sound, WellFormed, Agree;
    var next := at + p.interval;
    AloneAgrees();
    AgreedIsWellFormed(Alone());
    NothingStale(at + 1, 5 * p.interval);
    due', lost' := due, 0;
    if next > 3 * p.interval {
      due', lost' := if lose then due else due + [next + p.latency], if lose then lost + 1 else 0;
    }
    var s0, s4 := AtTick(p, at, due, lost), AtTick(p, next, due', lost');
    var s1 := s0.(now := at + 1);
    var s2 := s1.(lastPrune := at + 1);
    var s3 := s2.(now := next);
    es := [Advance(at + 1), Prune, Advance(next), Announce(lose)];
    states := [s0, s1, s2, s3, s4];
    TimePasses(p, s0, at + 1);
    PruneTicks(p, s1, Alone());
    TimePasses(p, s2, next);
    AnnounceTicks(p, s3, lose, due', lost');
  }

  lemma Join<R>(p: Params, a: seq<Timed<R>>, ea: seq<Event<R>>, b: seq<Timed<R>>, eb: seq<Event<R>>)
    returns (s: seq<Timed<R>>, e: seq<Event<R>>)
    requires Trace(p, a, ea) && Trace(p, b, eb) && a[|ea|] == b[0]
    ensures Trace(p, s, e) && s[0] == a[0] && s[|e|] == b[|eb|]
  {
    hide Next;
    s, e := a + b[1..], ea + eb;
    forall i | 0 <= i < |e| ensures Next(p, s[i], e[i], s[i + 1]) {
      if i >= |ea| {
        assert s[i] == b[i - |ea|] && s[i + 1] == b[i - |ea| + 1] && e[i] == eb[i - |ea|];
      }
    }
  }

  /** The last round: one time unit after the tick at age 5T, the prune tick removes the instance. */
  lemma LastPrune(p: Params, due: seq<int>, lost: nat) returns (states: seq<Timed<nat>>, es: seq<Event<nat>>)
    requires p.interval > 0 && forall k | 0 <= k < |due| :: 5 * p.interval + 1 <= due[k]
    ensures Trace(p, states, es) && states[0] == AtTick(p, 5 * p.interval, due, lost)
    ensures states[|es|].ix.flat == []
  {
    hide Alone, Next, PrunesTo, Sound;
    AloneAgrees();
    var s0 := AtTick(p, 5 * p.interval, due, lost);
    var s1 := s0.(now := 5 * p.interval + 1);
    var ix' := OneStale(s1.now, 5 * p.interval);
    var s2 := s1.(ix := ix', lastPrune := s1.now);
    es := [Advance(s1.now), Prune];
    states := [s0, s1, s2];
    TimePasses(p, s0, s1.now);
    PruneTicks(p, s1, ix');
  }

  lemma StartsJustSeen(p: Params)
    requires p.name == "a" && p.id == "x" && p.interval > 0
    ensures JustSeen(p, AtTick(p, 0, [], 0))
  {
    AloneAgrees();
    assert Alone().flat[0] == 0;
  }

  /** When lost rounds and latency exceed one interval, a live instance can be pruned. */
  lemma LiveCanBePruned(p: Params) returns (states: seq<Timed<nat>>, es: seq<Event<nat>>)
    requires p.name == "a" && p.id == "x" && p.interval > 0
    requires p.losses * p.interval + p.latency > p.interval
    ensures Trace(p, states, es) && JustSeen(p, states[0]) && states[|es|].ix.flat == []
  {
    hide Next, JustSeen, AtTick, Alone;
    var T := p.interval;
    var due, lost, more, ev;
    StartsJustSeen(p);
    states, es, due, lost := Round(p, 0, [], 0, false);
    more, ev, due, lost := Round(p, T, due, lost, false);
    states, es := Join(p, states, es, more, ev);
    more, ev, due, lost := Round(p, 2 * T, due, lost, false);
    states, es := Join(p, states, es, more, ev);
    more, ev, due, lost := Round(p, 3 * T, due, lost, p.losses >= 1);
    states, es := Join(p, states, es, more, ev);
    if p.losses == 0 {
      assert p.latency > T;
    } else if p.losses == 1 {
      assert p.latency > 0;
    }
    more, ev, due, lost := Round(p, 4 * T, due, lost, p.losses >= 2);
    states, es := Join(p, states, es, more, ev);
    more, ev := LastPrune(p, due, lost);
    states, es := Join(p, states, es, more, ev);
  }

  /** A live instance survives every run exactly if the tolerated losses and the latency fit into one interval. */
  lemma SurvivalExact(interval: nat, latency: nat, losses: nat)
    requires interval > 0
    ensures var p := Params(interval, latency, losses, "a", "x");
      (forall states: seq<Timed<nat>>, es: seq<Event<nat>> | Trace(p, states, es) && JustSeen(p, states[0]) ::
         Indexed(states[|es|].ix, "a", "x"))
      <==> losses * interval + latency <= interval
  {
    var p := Params(interval, latency, losses, "a", "x");
    if losses * interval + latency <= interval {
      forall states: seq<Timed<nat>>, es: seq<Event<nat>> | Trace(p, states, es) && JustSeen(p, states[0])
        ensures Indexed(states[|es|].ix, "a", "x")
      {
        LiveNeverPruned(p, states, es, |es|);
      }
    } else {
      var states, es := LiveCanBePruned(p);
      assert !Indexed(states[|es|].ix, "a", "x");
    }
  }
}
