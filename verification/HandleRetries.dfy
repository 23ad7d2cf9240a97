/** The retry loop of Handle among other Handle calls, prunes and closers: without announcements every retry
    uses up an instance of its service, whoever removes it. */
module HandleRetries {
  import opened Sequences
  import opened IndexModel
  import opened IndexAgreement
  import opened GatewayModel
  import opened HandleModel

  /** The two listings agree: the same instances in both, each ID once. What is mapped is left open. */
  ghost predicate ListsAgree<R>(ix: Index<R>) {
    && WellFormed(ix) && (ix.closed ==> ix.flat == [] && ix.byName == map[])
    && SameInstances(ix) && UniqueIds(ix)
  }

  /** The index as it would be with nothing mapped: the listings evolve in the same way. */
  ghost function Bare<R>(ix: Index<R>): Index<R> {
    ix.(descs := map r | r in ix.descs :: ix.descs[r].(sockets := []), mapping := map[])
  }

  lemma ListsFormed<R>(ix: Index<R>)
    requires ListsAgree(ix)
    ensures WellFormed(ix)
  {
  }

  lemma BareAgrees<R>(ix: Index<R>)
    requires WellFormed(ix)
    ensures WellFormed(Bare(ix)) && (Agree(Bare(ix)) <==> ListsAgree(ix))
  {
    var b := Bare(ix);
    assert forall r | r in ix.descs :: b.descs[r].id == ix.descs[r].id && b.descs[r].name == ix.descs[r].name;
    forall r | r in b.flat ensures LoadExact(b, r) {
    }
  }

  lemma {:induction false} BareFirst<R>(ix: Index<R>, rs: seq<R>, id: string)
    requires forall r | r in rs :: r in ix.descs
    ensures FirstWithId(Bare(ix).descs, rs, id) == FirstWithId(ix.descs, rs, id)
  {
    if rs != [] {
      BareFirst(ix, rs[1..], id);
    }
  }

  lemma {:induction false} BareStale<R>(ix: Index<R>, rs: seq<R>, now: int, threshold: int)
    requires forall r | r in rs :: r in ix.descs
    ensures StaleIds(Bare(ix).descs, rs, now, threshold) == StaleIds(ix.descs, rs, now, threshold)
  {
    if rs != [] {
      BareStale(ix, rs[..|rs| - 1], now, threshold);
    }
  }

  lemma BareFlat<R>(ix: Index<R>, id: string)
    requires WellFormed(ix)
    ensures DropFlat(Bare(ix).descs, ix.flat, id) == DropFlat(ix.descs, ix.flat, id)
  {
    BareFirst(ix, ix.flat, id);
  }

  lemma BareNamed<R>(ix: Index<R>, n: string, id: string)
    requires WellFormed(ix) && WellFormed(Bare(ix)) && n in ix.byName
    ensures HasId(Bare(ix).descs, ix.byName[n], id) <==> HasId(ix.descs, ix.byName[n], id)
    ensures HasId(ix.descs, ix.byName[n], id) ==> DropNamed(Bare(ix), n, id) == DropNamed(ix, n, id)
  {
    BareFirst(ix, ix.byName[n], id);
  }

  lemma BareUnset<R>(ix: Index<R>, id: string, pick: Option<string>)
    requires WellFormed(ix) && WellFormed(Bare(ix)) && ValidPick(ix, id, pick)
    ensures ValidPick(Bare(ix), id, pick) && UnsetAt(Bare(ix), id, pick) == Bare(UnsetAt(ix, id, pick))
  {
    hide DropFlat, DropNamed, HasId;
    forall n | n in ix.byName
      ensures HasId(Bare(ix).descs, ix.byName[n], id) <==> HasId(ix.descs, ix.byName[n], id)
    {
      BareNamed(ix, n, id);
    }
    BareFlat(ix, id);
    if pick.Some? {
      BareNamed(ix, pick.value, id);
    }
  }

  lemma {:induction false} BareUnsets<R>(ix: Index<R>, ids: seq<string>, ix': Index<R>)
    requires WellFormed(ix) && WellFormed(Bare(ix)) && UnsetsTo(ix, ids, ix')
    ensures UnsetsTo(Bare(ix), ids, Bare(ix'))
    decreases |ids|
  {
    hide WellFormed, ValidPick, UnsetAt, Bare;
    if ids != [] {
      var pick :| ValidPick(ix, ids[0], pick) && UnsetsTo(UnsetAt(ix, ids[0], pick), ids[1..], ix');
      BareUnset(ix, ids[0], pick);
      BareUnsets(UnsetAt(ix, ids[0], pick), ids[1..], ix');
    }
  }

  lemma BarePrune<R>(ix: Index<R>, now: int, threshold: int, ix': Index<R>)
    requires WellFormed(ix) && WellFormed(Bare(ix)) && PrunesTo(ix, now, threshold, ix')
    ensures PrunesTo(Bare(ix), now, threshold, Bare(ix'))
  {
    hide UnsetsTo;
    if !ix.closed {
      BareStale(ix, ix.flat, now, threshold);
      BareUnsets(ix, StaleIds(ix.descs, ix.flat, now, threshold), ix');
    }
  }

  lemma BareMaps<R>(ix: Index<R>, op: Op<R>, ix': Index<R>)
    requires WellFormed(ix) && IndexModel.Next(ix, op, ix') && (op.OpMap? || op.OpUnmap?)
    ensures Bare(ix') == Bare(ix)
  {
  }

  lemma BareClose<R>(ix: Index<R>)
    requires WellFormed(ix)
    ensures Bare(Close(ix)) == Close(Bare(ix))
  {
  }

  lemma BareSound<R>(ix: Index<R>, op: Op<R>)
    requires WellFormed(Bare(ix)) && !op.OpSet?
    ensures Sound(Bare(ix), op)
  {
    assert forall r | r in Bare(ix).flat :: Bare(ix).descs[r].sockets == [];
  }

  /** Any operation but an announcement does to the listings what it does to the bare index, or nothing. */
  lemma BareOp<R>(ix: Index<R>, op: Op<R>, ix': Index<R>)
    requires WellFormed(ix) && WellFormed(Bare(ix)) && !op.OpSet? && IndexModel.Next(ix, op, ix')
    ensures if op.OpMap? || op.OpUnmap? then Bare(ix') == Bare(ix)
      else IndexModel.Next(Bare(ix), op, Bare(ix')) && Sound(Bare(ix), op)
  {
    hide WellFormed, ValidPick, UnsetAt, Bare, PrunesTo, Sound, Map, Unmap;
    BareSound(ix, op);
    match op
    case OpUnset(id) =>
      var pick :| ValidPick(ix, id, pick) && ix' == UnsetAt(ix, id, pick);
      BareUnset(ix, id, pick);
    case OpPrune(now, threshold) => BarePrune(ix, now, threshold, ix');
    case OpMap(_, _) => BareMaps(ix, op, ix');
    case OpUnmap(_) => BareMaps(ix, op, ix');
    case OpClose => BareClose(ix);
  }

  /** The instances of n that are left once id is gone. */
  ghost function Others<R>(ix: Index<R>, n: string, id: string): seq<R>
    requires WellFormed(ix)
  {
    WithoutIds(ix.descs, Named(ix, n), [id])
  }

  /** n has no more instances than before, with or without any one of them. */
  ghost predicate NoMore<R>(ix: Index<R>, ix': Index<R>, n: string)
    requires WellFormed(ix) && WellFormed(ix')
  {
    |Named(ix', n)| <= |Named(ix, n)| && forall id :: |Others(ix', n, id)| <= |Others(ix, n, id)|
  }

  lemma {:induction false} WithoutMore<R>(descs: map<R, Desc>, rs: seq<R>, a: seq<string>, b: seq<string>)
    requires forall r | r in rs :: r in descs
    ensures |WithoutIds(descs, WithoutIds(descs, rs, a), b)| <= |WithoutIds(descs, rs, b)|
  {
    if rs != [] {
      WithoutMore(descs, rs[1..], a, b);
      var rest := WithoutIds(descs, rs[1..], a);
      if descs[rs[0]].id !in a {
        assert ([rs[0]] + rest)[0] == rs[0] && ([rs[0]] + rest)[1..] == rest;
      }
    }
  }

  lemma {:induction false} WithoutFewer<R>(descs: map<R, Desc>, rs: seq<R>, ids: seq<string>)
    requires forall r | r in rs :: r in descs
    ensures |WithoutIds(descs, rs, ids)| <= |rs|
  {
    if rs != [] {
      WithoutFewer(descs, rs[1..], ids);
    }
  }

  lemma DropsNoMore<R>(ix: Index<R>, ids: seq<string>, ix': Index<R>, n: string)
    requires WellFormed(ix) && WellFormed(ix') && Without(ix, ids, ix')
    ensures NoMore(ix, ix', n)
  {
    WithoutFewer(ix.descs, Named(ix, n), ids);
    forall id ensures |Others(ix', n, id)| <= |Others(ix, n, id)| {
      WithoutMore(ix.descs, Named(ix, n), ids, [id]);
    }
  }

  lemma SameNoMore<R>(ix: Index<R>, ix': Index<R>, n: string)
    requires WellFormed(ix) && WellFormed(ix') && ix'.byName == ix.byName
    requires forall r | r in Named(ix, n) :: ix'.descs[r].id == ix.descs[r].id
    ensures NoMore(ix, ix', n)
  {
    forall id ensures |Others(ix', n, id)| <= |Others(ix, n, id)| {
      WithoutSameIds(ix'.descs, ix.descs, Named(ix, n), [id]);
    }
  }

  lemma StepLists<R>(ix: Index<R>, op: Op<R>, ix': Index<R>)
    requires ListsAgree(ix) && !op.OpSet? && IndexModel.Next(ix, op, ix') && WellFormed(ix')
    ensures ListsAgree(ix')
  {
    hide Agree, IndexModel.Next, Sound, Bare, SameInstances, UniqueIds;
    BareAgrees(ix);
    BareAgrees(ix');
    BareOp(ix, op, ix');
    if !op.OpMap? && !op.OpUnmap? {
      StepAgrees(Bare(ix), op, Bare(ix'));
    }
  }

  /** Unsetting takes exactly the ID out of the listings. */
  lemma UnsetLists<R>(ix: Index<R>, id: string, pick: Option<string>)
    requires ListsAgree(ix) && ValidPick(ix, id, pick)
    ensures WellFormed(Bare(ix)) && Without(Bare(ix), [id], Bare(UnsetAt(ix, id, pick)))
  {
    hide Agree, UnsetAt, ValidPick, Bare, Without, SameInstances, UniqueIds, LeavesDangling;
    BareAgrees(ix);
    BareUnset(ix, id, pick);
    BareSound(ix, OpUnset(id));
    UnsetRemoves(Bare(ix), id, pick);
  }

  lemma StepNoMore<R>(ix: Index<R>, op: Op<R>, ix': Index<R>, n: string)
    requires ListsAgree(ix) && !op.OpSet? && IndexModel.Next(ix, op, ix') && WellFormed(ix')
    ensures NoMore(ix, ix', n)
  {
    hide Agree, WithoutIds, Without, NoMore, ValidPick, UnsetAt,
      PrunesTo, Map, Unmap, Bare, SameInstances, UniqueIds, Sound;
    BareAgrees(ix);
    BareAgrees(ix');
    BareOp(ix, op, ix');
    match op
    case OpUnset(id) =>
      var pick :| ValidPick(ix, id, pick) && ix' == UnsetAt(ix, id, pick);
      UnsetLists(ix, id, pick);
      DropsNoMore(Bare(ix), [id], Bare(ix'), n);
      BareNoMore(ix, ix', n);
    case OpPrune(now, threshold) =>
      PruneLists(Bare(ix), now, threshold, Bare(ix'));
      DropsNoMore(Bare(ix), StaleIds(Bare(ix).descs, Bare(ix).flat, now, threshold), Bare(ix'), n);
      BareNoMore(ix, ix', n);
    case OpMap(_, _) => SameBare(ix, ix', n);
    case OpUnmap(_) => SameBare(ix, ix', n);
    case OpClose => CloseNoMore(ix, n);
  }

  lemma PruneLists<R>(ix: Index<R>, now: int, threshold: int, ix': Index<R>)
    requires Agree(ix) && WellFormed(ix) && PrunesTo(ix, now, threshold, ix') && Sound(ix, OpPrune(now, threshold))
    ensures Without(ix, StaleIds(ix.descs, ix.flat, now, threshold), ix')
  {
    hide Agree, WellFormed, PrunesTo, Without, WithoutIds, LeavesDangling, StaleInstance;
    PruneExact(ix, now, threshold, ix');
  }

  lemma BareOthers<R>(ix: Index<R>, n: string)
    requires WellFormed(ix) && WellFormed(Bare(ix))
    ensures Named(Bare(ix), n) == Named(ix, n)
    ensures forall id :: Others(Bare(ix), n, id) == Others(ix, n, id)
  {
    forall id ensures Others(Bare(ix), n, id) == Others(ix, n, id) {
      WithoutSameIds(Bare(ix).descs, ix.descs, Named(ix, n), [id]);
    }
  }

  lemma BareNoMore<R>(ix: Index<R>, ix': Index<R>, n: string)
    requires WellFormed(ix) && WellFormed(ix') && WellFormed(Bare(ix)) && WellFormed(Bare(ix'))
    requires NoMore(Bare(ix), Bare(ix'), n)
    ensures NoMore(ix, ix', n)
  {
    hide Bare, Others, Named, WellFormed;
    BareOthers(ix, n);
    BareOthers(ix', n);
  }

  lemma SameBare<R>(ix: Index<R>, ix': Index<R>, n: string)
    requires WellFormed(ix) && WellFormed(ix') && WellFormed(Bare(ix)) && Bare(ix') == Bare(ix)
    ensures NoMore(ix, ix', n)
  {
    hide Bare, Others, Named, WellFormed;
    BareOthers(ix, n);
    BareOthers(ix', n);
  }

  lemma CloseNoMore<R>(ix: Index<R>, n: string)
    requires WellFormed(ix)
    ensures NoMore(ix, Close(ix), n)
  {
  }

  // --- The budget of one call ---

  /** How many more times the call can call MapSocket. */
  ghost function Budget<R>(g: Gateway<R>, h: nat): nat
    requires WellFormed(g.ix) && h in g.handlers
  {
    var n := g.handlers[h].service;
    match g.handlers[h].stage
    case Resolved => |Named(g.ix, n)| + 1
    case Mapping => |Named(g.ix, n)| + 1
    case Sending(id, isNew) => if isNew then |Others(g.ix, n, id)| + 1 else 0
    case Unsetting(id, isNew) => if isNew then |Others(g.ix, n, id)| + 1 else 0
    case MustClose => 0
  }

  lemma MapItSpends<R>(g: Gateway<R>, h: nat, g': Gateway<R>)
    requires WellFormed(g.ix) && WellFormed(g'.ix) && GatewayModel.Next(g, MapIt(h), g')
    ensures h in g'.handlers && Budget(g', h) + 1 <= Budget(g, h)
  {
    hide Map, MapTarget, WithoutIds;
    var n, s := g.handlers[h].service, g.handlers[h].socket;
    var (id, isNew) := MapTarget(g.ix, n, s);
    MapSameNames(g.ix, n, s);
    SameNoMore(g.ix, g'.ix, n);
    if isNew {
      var r := NewTarget(g.ix, n, s);
      WithoutShorter(g.ix.descs, Named(g.ix, n), r, [id]);
    }
  }

  lemma MapSameNames<R>(ix: Index<R>, n: string, s: string)
    requires WellFormed(ix)
    ensures Map(ix, n, s).byName == ix.byName
    ensures forall r | r in ix.descs :: r in Map(ix, n, s).descs && Map(ix, n, s).descs[r].id == ix.descs[r].id
  {
  }

  lemma NewTarget<R>(ix: Index<R>, n: string, s: string) returns (r: R)
    requires WellFormed(ix) && MapTarget(ix, n, s).1
    ensures r in Named(ix, n) && r in ix.descs && ix.descs[r].id == MapTarget(ix, n, s).0
  {
    r := LeastLoaded(ix.descs, ix.byName[n]);
  }

  lemma UnsetItKeeps<R>(g: Gateway<R>, h: nat, g': Gateway<R>)
    requires ListsAgree(g.ix) && WellFormed(g'.ix) && GatewayModel.Next(g, UnsetIt(h), g')
    ensures h in g'.handlers && Budget(g', h) <= Budget(g, h)
  {
    hide WithoutIds, ValidPick, UnsetAt, Bare, SameInstances, UniqueIds;
    var id, n := g.handlers[h].stage.id, g.handlers[h].service;
    var pick :| ValidPick(g.ix, id, pick) && g'.ix == UnsetAt(g.ix, id, pick);
    UnsetLists(g.ix, id, pick);
    BareAgrees(g.ix);
    BareAgrees(g'.ix);
    BareOthers(g.ix, n);
    BareOthers(g'.ix, n);
  }

  /** No step of anyone else raises the budget, and each MapSocket of the call spends one. */
  lemma BudgetStep<R>(g: Gateway<R>, a: Action<R>, g': Gateway<R>, h: nat)
    requires ListsAgree(g.ix) && WellFormed(g'.ix) && GatewayModel.Next(g, a, g')
    requires !(a.Indexer? && a.op.OpSet?) && h in g.handlers && h in g'.handlers
    ensures ListsAgree(g'.ix)
    ensures Budget(g', h) + (if a == MapIt(h) then 1 else 0) <= Budget(g, h)
    ensures g'.handlers[h].service == g.handlers[h].service
  {
    hide ListsAgree, IndexModel.Next, WellFormed, Map, Unmap, MapTarget, Others, GatewayModel.Next;
    ListsFormed(g.ix);
    OpBehind(g, a, g');
    match OpOf(g, a) {
      case Some(op) => StepLists(g.ix, op, g'.ix);
      case None =>
    }
    var n := g.handlers[h].service;
    ServiceKept(g, a, g', h);
    if a == MapIt(h) {
      MapItSpends(g, h, g');
    } else if a == UnsetIt(h) {
      UnsetItKeeps(g, h, g');
    } else {
      match OpOf(g, a) {
        case Some(op) => StepNoMore(g.ix, op, g'.ix, n);
        case None => SameNoMore(g.ix, g'.ix, n);
      }
    }
  }

  /** Between its own MapSocket and UnsetService calls a call's stage moves without gaining anything. */
  lemma ServiceKept<R>(g: Gateway<R>, a: Action<R>, g': Gateway<R>, h: nat)
    requires WellFormed(g.ix) && GatewayModel.Next(g, a, g') && h in g.handlers && h in g'.handlers
    ensures g'.handlers[h].service == g.handlers[h].service
    ensures a != MapIt(h) && a != UnsetIt(h) ==>
      || g'.handlers[h].stage == g.handlers[h].stage
      || (g.handlers[h].stage == Resolved && g'.handlers[h].stage == Mapping)
      || (g.handlers[h].stage.Sending? && g'.handlers[h].stage == MustClose)
      || (&& g.handlers[h].stage.Sending?
          && g'.handlers[h].stage == Unsetting(g.handlers[h].stage.id, g.handlers[h].stage.isNew))
  {
    hide IndexModel.Next, Map, Unmap, MapTarget, WellFormed;
  }

  ghost function MapsOf<R>(acts: seq<Action<R>>, a: nat, k: nat, h: nat): nat
    requires a <= k <= |acts|
  {
    if a == k then 0 else MapsOf(acts, a, k - 1, h) + if acts[k - 1] == MapIt(h) then 1 else 0
  }

  lemma {:induction false} BudgetOverRun<R>(states: seq<Gateway<R>>, acts: seq<Action<R>>, h: nat, a: nat, k: nat)
    requires GatewayModel.Trace(states, acts) && a <= k <= |acts| && ListsAgree(states[a].ix)
    requires forall m | a <= m <= k :: h in states[m].handlers
    requires forall i | a <= i < k :: !(acts[i].Indexer? && acts[i].op.OpSet?)
    ensures ListsAgree(states[k].ix)
    ensures MapsOf(acts, a, k, h) + Budget(states[k], h) <= Budget(states[a], h)
    ensures states[k].handlers[h].service == states[a].handlers[h].service
  {
    hide ListsAgree, GatewayModel.Next, Budget, WellFormed;
    if a < k {
      BudgetOverRun(states, acts, h, a, k - 1);
      BudgetStep(states[k - 1], acts[k - 1], states[k], h);
    }
  }

  /** Over any stretch of a run without announcements, whatever other Handle calls, prunes, closers and even a
      shutdown do, one Handle call calls MapSocket at most once more than its service had instances: its loop ends. */
  lemma RetriesBounded<R>(states: seq<Gateway<R>>, acts: seq<Action<R>>, h: nat, a: nat, k: nat)
    requires GatewayModel.Trace(states, acts) && a <= k <= |acts| && ListsAgree(states[a].ix)
    requires forall m | a <= m <= k :: h in states[m].handlers
    requires forall i | a <= i < k :: !(acts[i].Indexer? && acts[i].op.OpSet?)
    ensures MapsOf(acts, a, k, h) <= |Named(states[a].ix, states[a].handlers[h].service)| + 1
  {
    hide ListsAgree, GatewayModel.Next, WellFormed;
    BudgetOverRun(states, acts, h, a, k);
    BudgetLimit(states[a], h);
  }

  lemma BudgetLimit<R>(g: Gateway<R>, h: nat)
    requires WellFormed(g.ix) && h in g.handlers
    ensures Budget(g, h) <= |Named(g.ix, g.handlers[h].service)| + 1
  {
    hide WithoutIds;
    var n := g.handlers[h].service;
    match g.handlers[h].stage
    case Sending(id, _) => WithoutFewer(g.ix.descs, Named(g.ix, n), [id]);
    case Unsetting(id, _) => WithoutFewer(g.ix.descs, Named(g.ix, n), [id]);
    case _ =>
  }
}
