/** What is left of a closed socket once every Handle call and closer that knew it is done: over which runs nothing is,
    and exactly what is otherwise. */
module GatewayLeaks {
  import opened Sequences
  import opened IndexModel
  import opened IndexAgreement
  import opened GatewayModel
  import opened GatewayPins
  import HandleModel
  import IndexPinning

  /** Some closer has taken s out of the table. */
  ghost predicate WasRemoved<R>(g: Gateway<R>, s: string) {
    exists t :: t in g.tokens && g.tokens[t].socket == s
  }

  /** socket.Close has been called for s. */
  ghost predicate WasClosed<R>(g: Gateway<R>, s: string) {
    exists t :: t in g.closes && t in g.tokens && g.tokens[t].socket == s
  }

  /** No Handle call for s is under way, and no closer has anything left to do for it. */
  ghost predicate Idle<R>(g: Gateway<R>, s: string) {
    && (forall h | h in g.handlers :: g.handlers[h].socket != s)
    && !ToBeUnmapped(g, s)
  }

  // --- Over which runs a removed socket stays gone ---

  /** The socket is not registered, and if it is mapped a closer is about to unmap it. */
  ghost predicate Gone<R>(g: Gateway<R>, s: string) {
    s !in g.table && (s in g.ix.mapping ==> ToBeUnmapped(g, s))
  }

  /** A Handle call registers a socket that a closer took out of the table before. */
  ghost predicate Reopens<R>(g: Gateway<R>, a: Action<R>) {
    a.Register? && a.h in g.handlers && WasRemoved(g, g.handlers[a.h].socket)
  }

  /** Sockets leave the table by a removal, and come into it by a registration. */
  lemma TableStep<R>(g: Gateway<R>, a: Action<R>, g': Gateway<R>, s: string)
    requires WellFormed(g.ix) && GatewayModel.Next(g, a, g')
    ensures s in g'.table && s !in g.table ==> a.Register? && a.h in g.handlers && g.handlers[a.h].socket == s
    ensures a.Register? && a.h in g.handlers && g.handlers[a.h].socket == s ==> s in g'.table
    ensures WasRemoved(g', s) <==> WasRemoved(g, s) || (s in g.table && s !in g'.table)
  {
    hide GatewayModel.Next, WellFormed;
    TableMoves(g, a, g', s);
    RemovalMakesToken(g, a, g');
    if WasRemoved(g, s) {
      var t :| t in g.tokens && g.tokens[t].socket == s;
      assert t in g'.tokens && g'.tokens[t].socket == s;
    }
    if WasRemoved(g', s) && !WasRemoved(g, s) {
      var t :| t in g'.tokens && g'.tokens[t].socket == s;
      assert t !in g.tokens;
    }
  }

  lemma TableMoves<R>(g: Gateway<R>, a: Action<R>, g': Gateway<R>, s: string)
    requires WellFormed(g.ix) && GatewayModel.Next(g, a, g')
    ensures s in g'.table && s !in g.table ==> a.Register? && a.h in g.handlers && g.handlers[a.h].socket == s
    ensures a.Register? && a.h in g.handlers && g.handlers[a.h].socket == s ==> s in g'.table
  {
    hide IndexModel.Next, Map, Unmap, MapTarget, WellFormed;
  }

  lemma {:induction false} RemovedUnregistered<R>(states: seq<Gateway<R>>, acts: seq<Action<R>>, k: nat, s: string)
    requires GatewayModel.Trace(states, acts) && states[0] == Start() && k <= |acts| && WasRemoved(states[k], s)
    requires forall i | 0 <= i < |acts| :: !Reopens(states[i], acts[i])
    ensures s !in states[k].table
  {
    hide GatewayModel.Next, WellFormed, WasRemoved;
    if k == 0 {
      NoneRemoved<R>(s);
    } else {
      var g, a := states[k - 1], acts[k - 1];
      TableStep(g, a, states[k], s);
      assert !Reopens(g, a);
      if WasRemoved(g, s) {
        RemovedUnregistered(states, acts, k - 1, s);
      }
    }
  }

  lemma NoneRemoved<R>(s: string)
    ensures !WasRemoved(Start<R>(), s)
  {
  }

  lemma LateIsRemoved<R>(states: seq<Gateway<R>>, acts: seq<Action<R>>, k: nat)
    requires GatewayModel.Trace(states, acts) && states[0] == Start() && k < |acts| && LateMap(states[k], acts[k])
    ensures var s := states[k].handlers[acts[k].h].socket;
      WasRemoved(states[k + 1], s) && !Gone(states[k + 1], s)
  {
    hide WellFormed, Map, MapTarget, GatewayModel.Next;
    LateMapIsSplit(states, acts, k);
    var s := states[k].handlers[acts[k].h].socket;
    var j: nat :| j < k && acts[j].UnmapIt? && acts[j].t in states[j].tokens && states[j].tokens[acts[j].t].socket == s;
    assert WasRemoved(states[j], s);
    RemovedForGood(states, acts, j, k + 1, s);
    LateStep(states[k], acts[k], states[k + 1]);
  }

  lemma LateHandler<R>(g: Gateway<R>, a: Action<R>)
    requires WellFormed(g.ix) && LateMap(g, a)
    ensures a.MapIt? && a.h in g.handlers
  {
  }

  lemma LateStep<R>(g: Gateway<R>, a: Action<R>, g': Gateway<R>)
    requires WellFormed(g.ix) && GatewayModel.Next(g, a, g') && LateMap(g, a)
    ensures !Gone(g', g.handlers[a.h].socket)
  {
    hide IndexModel.Next, Map, MapTarget, Unmap;
    var s := g.handlers[a.h].socket;
    MapKeys(g.ix, g.handlers[a.h].service, s);
    assert forall t :: t in g'.tokens <==> t in g.tokens;
  }

  lemma {:induction false} RemovedForGood<R>(states: seq<Gateway<R>>, acts: seq<Action<R>>, j: nat, k: nat, s: string)
    requires GatewayModel.Trace(states, acts) && j <= k <= |acts| && WasRemoved(states[j], s)
    ensures WasRemoved(states[k], s)
  {
    hide GatewayModel.Next, WellFormed, WasRemoved;
    if j < k {
      RemovedForGood(states, acts, j, k - 1, s);
      TableStep(states[k - 1], acts[k - 1], states[k], s);
    }
  }

  /** Over every run: a socket that was taken out of the table is never registered again, and never mapped unless a
      closer is about to unmap it, exactly if no Handle call registers a socket that was taken out before and no
      MapSocket is late. */
  lemma RemovedStaysGoneExact<R>(states: seq<Gateway<R>>, acts: seq<Action<R>>)
    requires GatewayModel.Trace(states, acts) && states[0] == Start()
    ensures (forall k, s | 0 <= k <= |acts| && WasRemoved(states[k], s) :: Gone(states[k], s))
      <==> (forall k | 0 <= k < |acts| :: !Reopens(states[k], acts[k]) && !LateMap(states[k], acts[k]))
  {
    hide GatewayModel.Next, WellFormed, WasRemoved, LateMap;
    if forall k | 0 <= k < |acts| :: !Reopens(states[k], acts[k]) && !LateMap(states[k], acts[k]) {
      MappedIsRegistered(states, acts);
      forall k, s | 0 <= k <= |acts| && WasRemoved(states[k], s) ensures Gone(states[k], s) {
        assert Covered(states[k]);
        RemovedUnregistered(states, acts, k, s);
      }
    } else {
      var k :| 0 <= k < |acts| && (Reopens(states[k], acts[k]) || LateMap(states[k], acts[k]));
      if LateMap(states[k], acts[k]) {
        LateIsRemoved(states, acts, k);
        LateHandler(states[k], acts[k]);
      } else {
        TableStep(states[k], acts[k], states[k + 1], states[k].handlers[acts[k].h].socket);
      }
      var s := states[k].handlers[acts[k].h].socket;
      assert WasRemoved(states[k + 1], s) && !Gone(states[k + 1], s);
    }
  }

  /** Over every run in which no Handle call registers a socket after its removal or is split by a close of it between
      registering and mapping it: a closed socket with no Handle call and no closer left is neither registered nor
      mapped. */
  lemma NothingLeft<R>(states: seq<Gateway<R>>, acts: seq<Action<R>>, k: nat, s: string)
    requires GatewayModel.Trace(states, acts) && states[0] == Start() && k <= |acts|
    requires forall i | 0 <= i < |acts| :: !Reopens(states[i], acts[i]) && !SplitByClose(states, acts, i)
    requires WasClosed(states[k], s) && Idle(states[k], s)
    ensures s !in states[k].table && s !in states[k].ix.mapping
  {
    hide GatewayModel.Next, WellFormed, LateMap, SplitByClose, ToBeUnmapped;
    forall i | 0 <= i < |acts| ensures !LateMap(states[i], acts[i]) {
      if LateMap(states[i], acts[i]) {
        LateMapIsSplit(states, acts, i);
      }
    }
    RemovedStaysGoneExact(states, acts);
    assert WasRemoved(states[k], s);
    assert Gone(states[k], s);
  }

  // --- What exactly is left otherwise ---

  /** The step takes s out of the table, if it is there. */
  ghost predicate TakesOut<R>(g: Gateway<R>, a: Action<R>, s: string) {
    match a
    case Drop(h, _) => h in g.handlers && g.handlers[h].socket == s
    case Remove(_, u) => u == s
    case Sweep(_) => true
    case _ => false
  }

  lemma TakesOutStep<R>(g: Gateway<R>, a: Action<R>, g': Gateway<R>, s: string)
    requires WellFormed(g.ix) && GatewayModel.Next(g, a, g') && s in g.table
    ensures s in g'.table <==> !TakesOut(g, a, s)
  {
    hide IndexModel.Next, Map, Unmap, MapTarget, WellFormed;
  }

  /** Step i registered s although it had been taken out before, and no step since has taken it out again. */
  ghost predicate ReopenedAt<R>(states: seq<Gateway<R>>, acts: seq<Action<R>>, i: nat, k: nat, s: string) {
    && i < k <= |acts| < |states| && Reopens(states[i], acts[i]) && states[i].handlers[acts[i].h].socket == s
    && forall j | i < j < k :: !TakesOut(states[j], acts[j], s)
  }

  /** Since when a registered socket has been registered. */
  lemma {:induction false} RegisteredSince<R>(states: seq<Gateway<R>>, acts: seq<Action<R>>, k: nat, s: string)
    returns (i: nat)
    requires GatewayModel.Trace(states, acts) && states[0] == Start() && k <= |acts| && s in states[k].table
    ensures i < k && acts[i].Register? && acts[i].h in states[i].handlers && states[i].handlers[acts[i].h].socket == s
    ensures forall j | i < j < k :: !TakesOut(states[j], acts[j], s)
    ensures WasRemoved(states[k], s) ==> WasRemoved(states[i], s)
  {
    hide GatewayModel.Next, WellFormed, WasRemoved, TakesOut;
    TableStep(states[k - 1], acts[k - 1], states[k], s);
    if s in states[k - 1].table {
      i := RegisteredSince(states, acts, k - 1, s);
      TakesOutStep(states[k - 1], acts[k - 1], states[k], s);
    } else {
      i := k - 1;
    }
  }

  lemma {:induction false} StaysRegistered<R>(states: seq<Gateway<R>>, acts: seq<Action<R>>, i: nat, k: nat, s: string)
    requires GatewayModel.Trace(states, acts) && i <= k <= |acts| && s in states[i].table
    requires forall j | i <= j < k :: !TakesOut(states[j], acts[j], s)
    ensures s in states[k].table
  {
    hide GatewayModel.Next, WellFormed, TakesOut;
    if i < k {
      StaysRegistered(states, acts, i, k - 1, s);
      TakesOutStep(states[k - 1], acts[k - 1], states[k], s);
    }
  }

  /** A removed socket is registered exactly if a Handle call has registered it since its last removal. */
  lemma RegisteredExact<R>(states: seq<Gateway<R>>, acts: seq<Action<R>>, k: nat, s: string)
    requires GatewayModel.Trace(states, acts) && states[0] == Start() && k <= |acts| && WasRemoved(states[k], s)
    ensures s in states[k].table <==> exists i: nat :: ReopenedAt(states, acts, i, k, s)
  {
    hide GatewayModel.Next, WellFormed, WasRemoved, TakesOut;
    if s in states[k].table {
      var i := RegisteredSince(states, acts, k, s);
      assert ReopenedAt(states, acts, i, k, s);
    } else if i: nat :| ReopenedAt(states, acts, i, k, s) {
      TableStep(states[i], acts[i], states[i + 1], s);
      StaysRegistered(states, acts, i + 1, k, s);
    }
  }

  /** The step maps s for service n newly, to instance id. */
  ghost predicate Pins<R>(g: Gateway<R>, a: Action<R>, s: string, n: string, id: string)
    requires WellFormed(g.ix)
  {
    && a.MapIt? && a.h in g.handlers && g.handlers[a.h].socket == s && g.handlers[a.h].service == n
    && MapTarget(g.ix, n, s) == (id, true)
  }

  /** Step m pinned s, for a Handle call split by a close of s, and nothing since has broken the pin. */
  ghost predicate LeftPinned<R>(states: seq<Gateway<R>>, acts: seq<Action<R>>, m: nat, k: nat, s: string, n: string,
                                id: string)
    requires |acts| < |states| && forall i | 0 <= i < |states| :: WellFormed(states[i].ix)
  {
    && m < k <= |acts| && SplitByClose(states, acts, m) && Pins(states[m], acts[m], s, n, id)
    && Unbroken(states, acts, m + 1, k, s, id)
  }

  lemma NewByMap<R>(ix: Index<R>, n: string, s: string, t: string, k: string, id: string)
    requires Agree(ix) && !MapsTo(ix.mapping, t, k, id) && MapsTo(Map(ix, n, s).mapping, t, k, id)
    ensures t == s && k == n && MapTarget(ix, n, s) == (id, true)
  {
    if Map(ix, n, s) != ix {
      MapAdds(ix, n, s);
    }
  }

  lemma NoNewPin<R>(ix: Index<R>, op: Op<R>, ix': Index<R>, s: string, n: string, id: string)
    requires WellFormed(ix) && IndexModel.Next(ix, op, ix') && (op.OpSet? || op.OpUnmap? || op.OpClose?)
    ensures MapsTo(ix'.mapping, s, n, id) ==> MapsTo(ix.mapping, s, n, id)
  {
  }

  /** Only MapSocket makes a pin. */
  lemma NewPin<R>(ix: Index<R>, op: Op<R>, ix': Index<R>, s: string, n: string, id: string)
    requires Agree(ix) && IndexModel.Next(ix, op, ix') && Sound(ix, op)
    requires !MapsTo(ix.mapping, s, n, id) && MapsTo(ix'.mapping, s, n, id)
    ensures op == OpMap(n, s) && WellFormed(ix) && MapTarget(ix, n, s) == (id, true)
  {
    hide Agree, MapsTo, WellFormed, UnsetAt, ValidPick, LeavesDangling, PrunesTo, StaleInstance, Map, MapTarget;
    AgreedIsWellFormed(ix);
    match op
    case OpUnset(i) =>
      var pick :| ValidPick(ix, i, pick) && ix' == UnsetAt(ix, i, pick);
      IndexPinning.PinUnset(ix, i, pick, s, n, id);
    case OpPrune(now, threshold) => IndexPinning.PinPrune(ix, now, threshold, ix', s, n, id);
    case OpMap(m, t) => NewByMap(ix, m, t, s, n, id);
    case _ => NoNewPin(ix, op, ix', s, n, id);
  }

  lemma MapOp<R>(g: Gateway<R>, a: Action<R>, n: string, s: string)
    requires OpOf(g, a) == Some(OpMap(n, s)) && !(a.Indexer?)
    ensures a.MapIt? && a.h in g.handlers && g.handlers[a.h].socket == s && g.handlers[a.h].service == n
  {
  }

  lemma NotMappedDirectly<R>(g: Gateway<R>, op: Op<R>, g': Gateway<R>)
    requires WellFormed(g.ix) && GatewayModel.Next(g, Indexer(op), g')
    ensures !op.OpMap? && !op.OpUnmap?
  {
  }

  lemma NewPinStep<R(!new)>(states: seq<Gateway<R>>, acts: seq<Action<R>>, i: nat, s: string, n: string, id: string)
    requires SoundRun(states, acts) && i < |acts| && WellFormed(states[i].ix)
    requires !MapsTo(states[i].ix.mapping, s, n, id) && MapsTo(states[i + 1].ix.mapping, s, n, id)
    ensures Pins(states[i], acts[i], s, n, id)
  {
    StartsEmpty(states, acts);
    hide Agree, GatewayModel.Next, IndexModel.Next, WellFormed, OpOf, Sound, SoundRun, MapsTo, MapTarget;
    RunAgree(states, acts, i);
    SoundStep(states, acts, i);
    match OpOf(states[i], acts[i])
    case Some(op) =>
      NewPin(states[i].ix, op, states[i + 1].ix, s, n, id);
      if acts[i].Indexer? {
        IndexerOp(states[i], acts[i]);
        NotMappedDirectly(states[i], acts[i].op, states[i + 1]);
      } else {
        MapOp(states[i], acts[i], n, s);
      }
    case None =>
  }

  lemma IndexerOp<R>(g: Gateway<R>, a: Action<R>)
    requires a.Indexer?
    ensures OpOf(g, a) == Some(a.op)
  {
  }

  /** Since when a pinned socket has been pinned. */
  lemma {:induction false} PinnedSince<R(!new)>(states: seq<Gateway<R>>, acts: seq<Action<R>>, k: nat,
                                                s: string, n: string, id: string) returns (m: nat)
    requires SoundRun(states, acts) && k <= |acts| && MapsTo(states[k].ix.mapping, s, n, id)
    ensures m < k && Pins(states[m], acts[m], s, n, id) && Unbroken(states, acts, m + 1, k, s, id)
  {
    hide GatewayModel.Next, WellFormed, MapsTo, Pins, BreaksPin;
    if k == 0 {
      NothingMapped(states, acts, s, n, id);
    } else if MapsTo(states[k - 1].ix.mapping, s, n, id) {
      m := PinnedSince(states, acts, k - 1, s, n, id);
      PinnedStep(states, acts, k - 1, s, n, id);
    } else {
      m := k - 1;
      NewPinStep(states, acts, k - 1, s, n, id);
    }
  }

  lemma NothingMapped<R(!new)>(states: seq<Gateway<R>>, acts: seq<Action<R>>, s: string, n: string, id: string)
    requires SoundRun(states, acts)
    ensures |states| > 0 && !MapsTo(states[0].ix.mapping, s, n, id)
  {
  }

  /** A registered socket, or one a closer is about to unmap, stays so until a closer unmaps it. */
  lemma {:induction false} StaysCovered<R>(states: seq<Gateway<R>>, acts: seq<Action<R>>, m: nat, k: nat, s: string)
    requires GatewayModel.Trace(states, acts)
    requires m <= k <= |acts| && (s in states[m].table || ToBeUnmapped(states[m], s))
    requires forall j | m <= j < k && acts[j].UnmapIt? && acts[j].t in states[j].tokens ::
      states[j].tokens[acts[j].t].socket != s
    ensures s in states[k].table || ToBeUnmapped(states[k], s)
  {
    hide GatewayModel.Next, WellFormed, ToBeUnmapped;
    if m < k {
      StaysCovered(states, acts, m, k - 1, s);
      TokenMoves(states[k - 1], acts[k - 1], states[k]);
      TokensKept(states[k - 1], acts[k - 1], states[k], s);
    }
  }

  lemma UnmapBreaks<R>(g: Gateway<R>, a: Action<R>, s: string, id: string)
    requires WellFormed(g.ix) && a.UnmapIt? && a.t in g.tokens && g.tokens[a.t].socket == s
    ensures BreaksPin(g, a, s, id)
  {
  }

  lemma PinningHandler<R>(g: Gateway<R>, a: Action<R>, g': Gateway<R>, s: string, n: string, id: string)
    requires WellFormed(g.ix) && GatewayModel.Next(g, a, g') && Pins(g, a, s, n, id)
    ensures g.handlers[a.h].stage == Mapping && g'.ix == Map(g.ix, n, s)
  {
    hide Map, MapTarget, WellFormed;
  }

  /** A pin that outlasts its socket was made for a call split by a close. */
  lemma PinWasSplit<R(!new)>(states: seq<Gateway<R>>, acts: seq<Action<R>>, m: nat, k: nat, s: string, n: string,
                             id: string)
    requires SoundRun(states, acts) && m < k <= |acts| && Pins(states[m], acts[m], s, n, id)
    requires Unbroken(states, acts, m + 1, k, s, id) && s !in states[k].table && !ToBeUnmapped(states[k], s)
    ensures SplitByClose(states, acts, m)
  {
    hide GatewayModel.Next, WellFormed, ToBeUnmapped, BreaksPin, RegisteredAt, MapTarget;
    SoundStep(states, acts, m);
    PinningHandler(states[m], acts[m], states[m + 1], s, n, id);
    forall j | m <= j < k && acts[j].UnmapIt? && acts[j].t in states[j].tokens
      ensures states[j].tokens[acts[j].t].socket != s
    {
      if states[j].tokens[acts[j].t].socket == s {
        UnmapBreaks(states[j], acts[j], s, id);
      }
    }
    if s in states[m].table || ToBeUnmapped(states[m], s) {
      StaysCovered(states, acts, m, k, s);
    }
    var i := SinceRegistration(states, acts, acts[m].h, m);
  }

  lemma PinMade<R(!new)>(states: seq<Gateway<R>>, acts: seq<Action<R>>, m: nat, s: string, n: string, id: string)
    requires SoundRun(states, acts) && m < |acts| && Pins(states[m], acts[m], s, n, id)
    ensures MapsTo(states[m + 1].ix.mapping, s, n, id)
  {
    hide GatewayModel.Next, WellFormed, Map, MapTarget, Agree;
    SoundStep(states, acts, m);
    RunAgree(states, acts, m);
    PinningHandler(states[m], acts[m], states[m + 1], s, n, id);
    HandleModel.TargetListed(states[m].ix, n, s);
  }

  /** What is left of a closed socket when no Handle call and no closer for it is left, in every run: it is registered
      exactly if a call registered it since its last removal; and if it is not registered, it is pinned to an instance
      exactly if a call split by a close pinned it and nothing since has broken that pin. */
  lemma LeftBehindExact<R(!new)>(states: seq<Gateway<R>>, acts: seq<Action<R>>, k: nat, s: string, n: string,
                                 id: string)
    requires SoundRun(states, acts) && k <= |acts| && WasClosed(states[k], s) && Idle(states[k], s)
    ensures s in states[k].table <==> exists i: nat :: ReopenedAt(states, acts, i, k, s)
    ensures s !in states[k].table ==>
      (MapsTo(states[k].ix.mapping, s, n, id) <==> exists m: nat :: LeftPinned(states, acts, m, k, s, n, id))
  {
    hide GatewayModel.Next, WellFormed, MapsTo, ReopenedAt, Pins, SplitByClose, ToBeUnmapped, Unbroken, PinnedFrom;
    assert WasRemoved(states[k], s);
    RegisteredExact(states, acts, k, s);
    if s !in states[k].table {
      if MapsTo(states[k].ix.mapping, s, n, id) {
        var m := PinnedSince(states, acts, k, s, n, id);
        PinWasSplit(states, acts, m, k, s, n, id);
        assert LeftPinned(states, acts, m, k, s, n, id);
      } else if m: nat :| LeftPinned(states, acts, m, k, s, n, id) {
        PinMade(states, acts, m, s, n, id);
        PinHolds(states, acts, m + 1, k, s, n, id);
        PinnedAt(states, m + 1, k, s, n, id);
      }
    }
  }

  lemma PinnedAt<R>(states: seq<Gateway<R>>, a: nat, b: nat, s: string, n: string, id: string)
    requires a <= b < |states| && PinnedFrom(states, a, b, s, n, id)
    ensures MapsTo(states[b].ix.mapping, s, n, id)
  {
  }

  // --- A run that leaves a closed socket registered ---

  lemma CalledAgain(ix: Index<nat>, table: set<string>, duty: Option<Duty>, closes: seq<nat>)
    requires WellFormed(ix) && !ix.closed
    ensures GatewayModel.Next(Leaking(ix, None, table, duty, closes), Resolve(1, "s", "a"),
      Leaking(ix, Some(Resolved), table, duty, closes))
    ensures GatewayModel.Next(Leaking(ix, Some(Resolved), {}, duty, closes), Register(1),
      Leaking(ix, Some(Mapping), {"s"}, duty, closes))
  {
    hide WellFormed, Map, MapTarget, Unmap, IndexModel.Next;
    assert {} + {"s"} == {"s"};
  }

  lemma MappedAndAcknowledged(ix: Index<nat>, ix': Index<nat>, duty: Option<Duty>, closes: seq<nat>)
    requires WellFormed(ix) && MapTarget(ix, "a", "s") == ("x", true) && ix' == Map(ix, "a", "s") && WellFormed(ix')
    ensures var sending := Leaking(ix', Some(Sending("x", true)), {"s"}, duty, closes);
      && GatewayModel.Next(Leaking(ix, Some(Mapping), {"s"}, duty, closes), MapIt(1), sending)
      && GatewayModel.Next(sending, Reply(1, Acknowledged), Leaking(ix', None, {"s"}, duty, closes))
  {
    hide WellFormed, Map, MapTarget;
  }

  lemma ClosedBeforeRegister(one: Index<nat>, two: Index<nat>)
    requires WellFormed(one) && WellFormed(two) && Unmap(two, "s") == one
    ensures GatewayModel.Next(Leaking(two, Some(Resolved), {"s"}, None, []), Remove(0, "s"),
      Leaking(two, Some(Resolved), {}, Some(ToClose), []))
    ensures GatewayModel.Next(Leaking(two, Some(Resolved), {}, Some(ToClose), []), CloseIt(0),
      Leaking(two, Some(Resolved), {}, Some(ToUnmap), [0]))
    ensures GatewayModel.Next(Leaking(two, Some(Resolved), {}, Some(ToUnmap), [0]), UnmapIt(0),
      Leaking(one, Some(Resolved), {}, Some(Done), [0]))
  {
    hide WellFormed, Map, MapTarget, Unmap, IndexModel.Next;
    assert {"s"} - {"s"} == {} && [] + [0] == [0];
  }

  ghost function ReopeningActs(d: Desc): seq<Action<nat>> {
    [Indexer(OpSet(0, d, 0)), Resolve(1, "s", "a"), Register(1), MapIt(1), Reply(1, Acknowledged),
     Resolve(1, "s", "a"), Remove(0, "s"), CloseIt(0), UnmapIt(0), Register(1), MapIt(1), Reply(1, Acknowledged)]
  }

  ghost function ReopeningStates(one: Index<nat>, two: Index<nat>): seq<Gateway<nat>> {
    [Start(), Leaking(one, None, {}, None, []), Leaking(one, Some(Resolved), {}, None, []),
     Leaking(one, Some(Mapping), {"s"}, None, []), Leaking(two, Some(Sending("x", true)), {"s"}, None, []),
     Leaking(two, None, {"s"}, None, []), Leaking(two, Some(Resolved), {"s"}, None, []),
     Leaking(two, Some(Resolved), {}, Some(ToClose), []), Leaking(two, Some(Resolved), {}, Some(ToUnmap), [0]),
     Leaking(one, Some(Resolved), {}, Some(Done), [0]), Leaking(one, Some(Mapping), {"s"}, Some(Done), [0]),
     Leaking(two, Some(Sending("x", true)), {"s"}, Some(Done), [0]), Leaking(two, None, {"s"}, Some(Done), [0])]
  }

  lemma ReopeningTrace(d: Desc) returns (one: Index<nat>, two: Index<nat>)
    requires d == Desc("a", "x", [], None, [])
    ensures GatewayModel.Trace(ReopeningStates(one, two), ReopeningActs(d))
    ensures two.mapping == map["s" := map["a" := "x"]]
  {
    hide Set, Map, Unmap, MapTarget, GatewayModel.Next, WellFormed, Leaking;
    SingleAgrees(d);
    SingleInstance(d, 0);
    one := Set(Empty<nat>(), 0, d, 0);
    two := FirstMapping(d, 0, "s");
    FirstTarget(one, d);
    IndexPinning.UnmapUndoesMap(one, "a", "s");
    IndexedFirst(d, one);
    CalledAgain(one, {}, None, []);
    MappedAndAcknowledged(one, two, None, []);
    CalledAgain(two, {"s"}, None, []);
    ClosedBeforeRegister(one, two);
    CalledAgain(one, {}, Some(Done), [0]);
    MappedAndAcknowledged(one, two, Some(Done), [0]);
    LeakingIndex(one, two);
  }

  lemma LeakingIndex(one: Index<nat>, two: Index<nat>)
    requires WellFormed(one) && WellFormed(two)
    ensures forall k | 0 <= k < |ReopeningStates(one, two)| :: WellFormed(ReopeningStates(one, two)[k].ix)
  {
  }

  lemma ReopeningUnsplit(one: Index<nat>, two: Index<nat>, d: Desc, k: nat)
    requires k < |ReopeningActs(d)|
    ensures !SplitByClose(ReopeningStates(one, two), ReopeningActs(d), k)
  {
    var states, acts := ReopeningStates(one, two), ReopeningActs(d);
    assert 1 !in states[5].handlers;
    assert forall j | 0 <= j < |acts| && acts[j].UnmapIt? :: j == 8;
    assert forall i | 0 <= i < 8 && acts[i] == Register(1) :: i == 2;
  }

  lemma ReopeningEnd(one: Index<nat>, two: Index<nat>)
    ensures var last := ReopeningStates(one, two)[12];
      && WasClosed(last, "s") && Idle(last, "s") && last.handlers == map[] && Owed(last) == {}
      && last.table == {"s"} && last.ix == two
  {
    var last := ReopeningStates(one, two)[12];
    assert 0 in last.closes && 0 in last.tokens && last.tokens[0].socket == "s";
  }

  /** A close that completes after a Handle call resolved its service and before it registers the socket: the call puts
      the closed socket back and maps it, and it stays registered and mapped with no call and no closer left, although
      no call of the run is split by a close. */
  lemma ReopenedStays() returns (states: seq<Gateway<nat>>, acts: seq<Action<nat>>)
    ensures GatewayModel.Trace(states, acts) && states[0] == Start()
    ensures forall k | 0 <= k < |acts| :: !SplitByClose(states, acts, k)
    ensures var last := states[|acts|];
      && WasClosed(last, "s") && Idle(last, "s") && last.handlers == map[] && Owed(last) == {}
      && last.table == {"s"} && last.ix.mapping == map["s" := map["a" := "x"]]
  {
    hide GatewayModel.Trace, SplitByClose, WasClosed, Idle, Leaking;
    var d := Desc("a", "x", [], None, []);
    var one, two := ReopeningTrace(d);
    states, acts := ReopeningStates(one, two), ReopeningActs(d);
    forall k | 0 <= k < |acts| ensures !SplitByClose(states, acts, k) {
      ReopeningUnsplit(one, two, d, k);
    }
    ReopeningEnd(one, two);
  }

  lemma SingleAgrees(d: Desc)
    requires d.sockets == []
    ensures WellFormed(Empty<nat>()) && Agree(Set(Empty<nat>(), 0, d, 0))
  {
    EmptyAgrees<nat>();
    SetAgrees(Empty<nat>(), 0, d, 0);
  }
}
