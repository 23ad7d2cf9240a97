/** The gateway's socket table and index under concurrent Handle calls and competing closers, one critical section at a
    time. */
module GatewayModel {
  import opened Sequences
  import opened IndexModel
  import opened IndexAgreement

  /** Where a Handle call is. */
  datatype Stage =
    | Resolved
    | Mapping                               // registered, about to call MapSocket
    | Sending(id: string, isNew: bool)      // MessageService is under way
    | Unsetting(id: string, isNew: bool)    // it failed
    | MustClose                             // about to call closeSocket and return

  datatype Handler = Handler(socket: string, service: string, stage: Stage)

  datatype Result = Acknowledged | SlowConsumer | Failed

  /** What a closer still has to do with the socket it took out of the table. */
  datatype Duty = ToClose | ToUnmap | Done

  datatype Token = Token(socket: string, duty: Duty)

  datatype Gateway<R> = Gateway(
    ix: Index<R>,
    table: set<string>,
    handlers: map<nat, Handler>,
    tokens: map<nat, Token>,     // one per removal from the table, kept for good
    closes: seq<nat>,            // the calls of socket.Close, by the removal they belong to
    swept: bool)                 // closeAllSockets has emptied the table

  datatype Action<R> =
    | Resolve(h: nat, socket: string, service: string)
    | Register(h: nat)
    | MapIt(h: nat)
    | Reply(h: nat, result: Result)
    | UnsetIt(h: nat)
    | Drop(h: nat, t: nat)              // closeSocket called by Handle
    | Remove(t: nat, socket: string)    // the lock section of any other closer
    | Sweep(ids: map<nat, string>)      // the lock section of closeAllSockets
    | CloseIt(t: nat)                   // socket.Close
    | UnmapIt(t: nat)                   // UnmapSocket by the closer
    | Indexer(op: Op<R>)                // any other use of the index

  function Start<R>(): Gateway<R> {
    Gateway(Empty(), {}, map[], map[], [], false)
  }

  function TakeOut<R>(g: Gateway<R>, t: nat, s: string): Gateway<R> {
    if s in g.table then g.(table := g.table - {s}, tokens := g.tokens[t := Token(s, ToClose)]) else g
  }

  function At<R>(g: Gateway<R>, h: nat, stage: Stage): Gateway<R>
    requires h in g.handlers
  {
    g.(handlers := g.handlers[h := g.handlers[h].(stage := stage)])
  }

  function AfterMap<R(==)>(g: Gateway<R>, h: nat): Stage
    requires WellFormed(g.ix) && h in g.handlers
  {
    var (id, isNew) := MapTarget(g.ix, g.handlers[h].service, g.handlers[h].socket);
    if id == "" then MustClose else Sending(id, isNew)
  }

  ghost predicate Next<R>(g: Gateway<R>, a: Action<R>, g': Gateway<R>)
    requires WellFormed(g.ix)
  {
    match a
    case Resolve(h, s, n) =>
      h !in g.handlers && !g.ix.closed && g' == g.(handlers := g.handlers[h := Handler(s, n, Resolved)])
    case Register(h) =>
      && h in g.handlers && g.handlers[h].stage == Resolved
      && g' == At(g, h, Mapping).(table := g.table + {g.handlers[h].socket})
    case MapIt(h) =>
      && h in g.handlers && g.handlers[h].stage == Mapping
      && g' == At(g, h, AfterMap(g, h)).(ix := Map(g.ix, g.handlers[h].service, g.handlers[h].socket))
    case Reply(h, result) =>
      && h in g.handlers && g.handlers[h].stage.Sending?
      && var stage := g.handlers[h].stage;
         g' == if result.Acknowledged? then g.(handlers := g.handlers - {h})
               else if result.SlowConsumer? then At(g, h, MustClose)
               else At(g, h, Unsetting(stage.id, stage.isNew))
    case UnsetIt(h) =>
      && h in g.handlers && g.handlers[h].stage.Unsetting?
      && IndexModel.Next(g.ix, OpUnset(g.handlers[h].stage.id), g'.ix)
      && g' == At(g, h, if g.handlers[h].stage.isNew then Mapping else MustClose).(ix := g'.ix)
    case Drop(h, t) =>
      && h in g.handlers && g.handlers[h].stage == MustClose && t !in g.tokens
      && g' == TakeOut(g, t, g.handlers[h].socket).(handlers := g.handlers - {h})
    case Remove(t, s) =>
      t !in g.tokens && g' == TakeOut(g, t, s)
    case Sweep(ids) =>
      && g.ix.closed && ids.Keys !! g.tokens.Keys && ids.Values == g.table
      && (forall t, u | t in ids && u in ids && ids[t] == ids[u] :: t == u)
      && g' == g.(table := {}, tokens := g.tokens + (map t | t in ids :: Token(ids[t], ToClose)), swept := true)
    case CloseIt(t) =>
      && t in g.tokens && g.tokens[t].duty == ToClose
      && g' == g.(tokens := g.tokens[t := g.tokens[t].(duty := ToUnmap)], closes := g.closes + [t])
    case UnmapIt(t) =>
      && t in g.tokens && g.tokens[t].duty == ToUnmap
      && g' == g.(tokens := g.tokens[t := g.tokens[t].(duty := Done)], ix := Unmap(g.ix, g.tokens[t].socket))
    case Indexer(op) =>
      && !op.OpMap? && !op.OpUnmap? && !op.OpUnset?
      && IndexModel.Next(g.ix, op, g'.ix) && g' == g.(ix := g'.ix)
  }

  ghost predicate Trace<R>(states: seq<Gateway<R>>, acts: seq<Action<R>>) {
    && |states| == |acts| + 1
    && (forall i | 0 <= i < |states| :: WellFormed(states[i].ix))
    && (forall i | 0 <= i < |acts| :: Next(states[i], acts[i], states[i + 1]))
  }

  /** The index operation behind an action. */
  ghost function OpOf<R>(g: Gateway<R>, a: Action<R>): Option<Op<R>> {
    match a
    case MapIt(h) => if h in g.handlers then Some(OpMap(g.handlers[h].service, g.handlers[h].socket)) else None
    case UnsetIt(h) =>
      if h in g.handlers && g.handlers[h].stage.Unsetting? then Some(OpUnset(g.handlers[h].stage.id)) else None
    case UnmapIt(t) => if t in g.tokens then Some(OpUnmap(g.tokens[t].socket)) else None
    case Indexer(op) => Some(op)
    case _ => None
  }

  lemma OpBehind<R>(g: Gateway<R>, a: Action<R>, g': Gateway<R>)
    requires WellFormed(g.ix) && Next(g, a, g')
    ensures match OpOf(g, a)
      case Some(op) => IndexModel.Next(g.ix, op, g'.ix)
      case None => g'.ix == g.ix
  {
    hide Map, Unmap, MapTarget, WellFormed, PrunesTo, Set, UnsetAt, ValidPick;
  }

  // --- What index operations do to the set of mapped sockets ---

  lemma {:induction false} UnsetsShrink<R>(ix: Index<R>, ids: seq<string>, ix': Index<R>)
    requires WellFormed(ix) && UnsetsTo(ix, ids, ix')
    ensures ix'.mapping.Keys <= ix.mapping.Keys && ix'.closed == ix.closed
    decreases |ids|
  {
    if ids != [] {
      var pick :| ValidPick(ix, ids[0], pick) && UnsetsTo(UnsetAt(ix, ids[0], pick), ids[1..], ix');
      UnsetsShrink(UnsetAt(ix, ids[0], pick), ids[1..], ix');
    }
  }

  lemma OpShrinks<R>(ix: Index<R>, op: Op<R>, ix': Index<R>)
    requires WellFormed(ix) && !op.OpMap? && IndexModel.Next(ix, op, ix')
    ensures ix'.mapping.Keys <= ix.mapping.Keys
    ensures ix'.closed <==> ix.closed || op.OpClose?
    ensures op.OpClose? ==> ix'.mapping == map[]
  {
    if op.OpPrune? && !ix.closed {
      UnsetsShrink(ix, StaleIds(ix.descs, ix.flat, op.now, op.threshold), ix');
    }
  }

  lemma MapKeys<R>(ix: Index<R>, n: string, s: string)
    requires WellFormed(ix)
    ensures var ix' := Map(ix, n, s);
      && ix'.closed == ix.closed
      && ix'.mapping.Keys == ix.mapping.Keys + (if ix' == ix then {} else {s})
      && (ix.closed ==> ix' == ix && MapTarget(ix, n, s).0 == "")
  {
  }

  lemma UnmapKeys<R>(ix: Index<R>, s: string)
    requires WellFormed(ix) && (ix.closed ==> ix.mapping == map[])
    ensures Unmap(ix, s).closed == ix.closed && Unmap(ix, s).mapping.Keys == ix.mapping.Keys - {s}
  {
  }

  // --- The invariant ---

  /** Each removal is followed by exactly one socket.Close: none before its turn, one after. */
  ghost predicate ClosedOnce<R>(g: Gateway<R>) {
    && NoDup(g.closes)
    && forall t :: t in g.closes <==> t in g.tokens && g.tokens[t].duty != ToClose
  }

  ghost predicate ClosedIsEmpty<R>(g: Gateway<R>) {
    && (g.ix.closed ==> g.ix.mapping == map[])
    && (g.swept ==> g.ix.closed)
  }

  /** Some Handle call is still to close s. */
  ghost predicate WillDrop<R>(g: Gateway<R>, s: string) {
    exists h :: h in g.handlers && g.handlers[h].socket == s
          && (g.handlers[h].stage == Mapping || g.handlers[h].stage == MustClose)
  }

  /** After shutdown a socket is registered only while the Handle call that brought it is about to close it. */
  ghost predicate SweptStaysEmpty<R>(g: Gateway<R>) {
    g.swept ==> forall s | s in g.table :: WillDrop(g, s)
  }

  ghost predicate Inv<R>(g: Gateway<R>) {
    ClosedOnce(g) && ClosedIsEmpty(g) && SweptStaysEmpty(g)
  }

  lemma IndexPart<R>(g: Gateway<R>, a: Action<R>, g': Gateway<R>)
    requires WellFormed(g.ix) && ClosedIsEmpty(g) && Next(g, a, g')
    ensures ClosedIsEmpty(g')
    ensures g'.ix.closed <==> g.ix.closed || a == Indexer(OpClose)
  {
    hide IndexModel.Next, Map, Unmap, MapTarget;
    match a
    case MapIt(h) => MapKeys(g.ix, g.handlers[h].service, g.handlers[h].socket);
    case UnsetIt(h) => OpShrinks(g.ix, OpUnset(g.handlers[h].stage.id), g'.ix);
    case UnmapIt(t) => UnmapKeys(g.ix, g.tokens[t].socket);
    case Indexer(op) => OpShrinks(g.ix, op, g'.ix);
    case _ =>
  }

  /** A removal's token is new and to be closed; its duties are then done in order, by CloseIt and UnmapIt alone. */
  lemma TokenMoves<R>(g: Gateway<R>, a: Action<R>, g': Gateway<R>)
    requires WellFormed(g.ix) && Next(g, a, g')
    ensures a.CloseIt? || a.UnmapIt? ==> a.t in g.tokens
    ensures forall t | t in g.tokens :: t in g'.tokens && g'.tokens[t].socket == g.tokens[t].socket
    ensures forall t | t in g.tokens && a != CloseIt(t) && a != UnmapIt(t) :: g'.tokens[t].duty == g.tokens[t].duty
    ensures a.CloseIt? ==> g.tokens[a.t].duty == ToClose && g'.tokens[a.t].duty == ToUnmap
    ensures a.UnmapIt? ==> g.tokens[a.t].duty == ToUnmap && g'.tokens[a.t].duty == Done
    ensures forall t | t in g'.tokens && t !in g.tokens :: g'.tokens[t].duty == ToClose
    ensures g'.closes == if a.CloseIt? then g.closes + [a.t] else g.closes
  {
    hide IndexModel.Next, Map, Unmap, MapTarget, WellFormed;
  }

  lemma CloseStep<R>(g: Gateway<R>, a: Action<R>, g': Gateway<R>)
    requires WellFormed(g.ix) && ClosedOnce(g) && Next(g, a, g')
    ensures ClosedOnce(g')
  {
    hide Next, WellFormed;
    TokenMoves(g, a, g');
    if a.CloseIt? {
      NoDupSnoc(g.closes, a.t);
    }
  }

  lemma SweptStep<R>(g: Gateway<R>, a: Action<R>, g': Gateway<R>)
    requires WellFormed(g.ix) && ClosedIsEmpty(g) && SweptStaysEmpty(g) && Next(g, a, g')
    ensures SweptStaysEmpty(g')
  {
    hide IndexModel.Next, Map, Unmap, MapTarget, WellFormed;
    if a.MapIt? {
      MapKeys(g.ix, g.handlers[a.h].service, g.handlers[a.h].socket);
    }
    if g'.swept {
      forall s | s in g'.table ensures WillDrop(g', s) {
        if s in g.table && WillDrop(g, s) {
          var h :| h in g.handlers && g.handlers[h].socket == s
                && (g.handlers[h].stage == Mapping || g.handlers[h].stage == MustClose);
          assert h in g'.handlers && g'.handlers[h].socket == s;
        } else {
          assert a.Register?;
          assert a.h in g'.handlers && g'.handlers[a.h].socket == s;
        }
      }
    }
  }

  lemma StepInv<R>(g: Gateway<R>, a: Action<R>, g': Gateway<R>)
    requires WellFormed(g.ix) && Inv(g) && Next(g, a, g')
    ensures Inv(g')
  {
    IndexPart(g, a, g');
    CloseStep(g, a, g');
    SweptStep(g, a, g');
  }

  lemma {:induction false} RunInv<R>(states: seq<Gateway<R>>, acts: seq<Action<R>>, k: nat)
    requires Trace(states, acts) && states[0] == Start() && k <= |acts|
    ensures Inv(states[k])
  {
    hide Next, WellFormed;
    if k > 0 {
      RunInv(states, acts, k - 1);
      StepInv(states[k - 1], acts[k - 1], states[k]);
    }
  }

  // --- Every removal is closed exactly once ---

  /** A step that takes sockets out of the table makes exactly one token for each, and no step makes any other. */
  lemma RemovalMakesToken<R>(g: Gateway<R>, a: Action<R>, g': Gateway<R>)
    requires WellFormed(g.ix) && Next(g, a, g')
    ensures forall s | s in g.table && s !in g'.table ::
      exists t :: t in g'.tokens && t !in g.tokens && g'.tokens[t] == Token(s, ToClose)
    ensures forall t | t in g'.tokens && t !in g.tokens ::
      g'.tokens[t].duty == ToClose && g'.tokens[t].socket in g.table && g'.tokens[t].socket !in g'.table
    ensures forall t, u | t in g'.tokens && t !in g.tokens && u in g'.tokens && u !in g.tokens
          && g'.tokens[t].socket == g'.tokens[u].socket :: t == u
    ensures forall t | t in g.tokens :: t in g'.tokens && g'.tokens[t].socket == g.tokens[t].socket
  {
    hide IndexModel.Next, Map, Unmap, MapTarget, WellFormed;
    if a.Sweep? {
      forall s | s in g.table
        ensures exists t :: t in g'.tokens && t !in g.tokens && g'.tokens[t] == Token(s, ToClose)
      {
        var t :| t in a.ids && a.ids[t] == s;
        assert g'.tokens[t] == Token(s, ToClose);
      }
    }
  }

  /** The removals whose socket.Close is still to come. */
  ghost function Owed<R>(g: Gateway<R>): set<nat> {
    set t | t in g.tokens && g.tokens[t].duty == ToClose
  }

  /** Over every run: the calls of socket.Close and the closes still owed are together the removals, each once. */
  lemma RemovalsMatchCloses<R>(states: seq<Gateway<R>>, acts: seq<Action<R>>, k: nat)
    requires Trace(states, acts) && states[0] == Start() && k <= |acts|
    ensures var g := states[k];
      && NoDup(g.closes) && (forall t | t in g.closes :: t in g.tokens)
      && |g.closes| + |Owed(g)| == |g.tokens.Keys|
  {
    hide WellFormed, Next;
    RunInv(states, acts, k);
    SplitSize(states[k].closes, Owed(states[k]), states[k].tokens.Keys);
  }

  lemma SplitSize(closed: seq<nat>, owed: set<nat>, all: set<nat>)
    requires NoDup(closed) && forall t :: t in all <==> t in closed || t in owed
    requires forall t | t in closed :: t !in owed
    ensures |closed| + |owed| == |all|
  {
    NoDupSize(closed);
    var listed := set t | t in closed;
    assert all == listed + owed && listed !! owed;
  }

  // --- Mapped implies registered ---

  /** Every mapped socket is registered, or a closer is about to unmap it. */
  ghost predicate Covered<R>(g: Gateway<R>) {
    forall s | s in g.ix.mapping :: s in g.table || ToBeUnmapped(g, s)
  }

  ghost predicate ToBeUnmapped<R>(g: Gateway<R>, s: string) {
    exists t :: t in g.tokens && g.tokens[t].socket == s && g.tokens[t].duty != Done
  }

  /** A MapSocket that newly maps a socket that is neither registered nor about to be unmapped. */
  ghost predicate LateMap<R>(g: Gateway<R>, a: Action<R>)
    requires WellFormed(g.ix)
  {
    && a.MapIt? && a.h in g.handlers
    && var s := g.handlers[a.h].socket;
       && s !in g.table && !ToBeUnmapped(g, s)
       && Map(g.ix, g.handlers[a.h].service, s) != g.ix && s !in g.ix.mapping
  }

  lemma TokensKept<R>(g: Gateway<R>, a: Action<R>, g': Gateway<R>, s: string)
    requires WellFormed(g.ix) && Next(g, a, g') && (s in g.table || ToBeUnmapped(g, s))
    requires a.UnmapIt? ==> a.t in g.tokens && g.tokens[a.t].socket != s
    ensures s in g'.table || ToBeUnmapped(g', s)
  {
    hide IndexModel.Next, Map, Unmap, MapTarget, WellFormed;
    if s in g.table {
      if s !in g'.table {
        RemovalMakesToken(g, a, g');
      }
    } else {
      var t :| t in g.tokens && g.tokens[t].socket == s && g.tokens[t].duty != Done;
      assert t in g'.tokens && g'.tokens[t].socket == s && g'.tokens[t].duty != Done;
    }
  }

  /** Which sockets a step can newly map, and that a closer's UnmapSocket unmaps. */
  lemma MappedBy<R>(g: Gateway<R>, a: Action<R>, g': Gateway<R>, s: string)
    requires WellFormed(g.ix) && ClosedIsEmpty(g) && Next(g, a, g') && s in g'.ix.mapping
    ensures a.UnmapIt? ==> a.t in g.tokens && g.tokens[a.t].socket != s
    ensures s in g.ix.mapping || (a.MapIt? && a.h in g.handlers && s == g.handlers[a.h].socket &&
      Map(g.ix, g.handlers[a.h].service, s) != g.ix)
  {
    hide IndexModel.Next, Map, Unmap, MapTarget;
    match a
    case MapIt(h) => MapKeys(g.ix, g.handlers[h].service, g.handlers[h].socket);
    case UnsetIt(h) => OpShrinks(g.ix, OpUnset(g.handlers[h].stage.id), g'.ix);
    case UnmapIt(t) => UnmapKeys(g.ix, g.tokens[t].socket);
    case Indexer(op) => OpShrinks(g.ix, op, g'.ix);
    case _ =>
  }

  lemma CoverStep<R>(g: Gateway<R>, a: Action<R>, g': Gateway<R>)
    requires WellFormed(g.ix) && ClosedIsEmpty(g) && Covered(g) && Next(g, a, g')
    ensures Covered(g') <==> !LateMap(g, a)
  {
    hide Next, IndexModel.Next, Unmap, MapTarget, ClosedIsEmpty, ToBeUnmapped, WellFormed, Map;
    if LateMap(g, a) {
      LateMapUncovers(g, a, g');
    } else {
      forall s | s in g'.ix.mapping ensures s in g'.table || ToBeUnmapped(g', s) {
        MappedBy(g, a, g', s);
        TokensKept(g, a, g', s);
      }
    }
  }

  lemma LateMapUncovers<R>(g: Gateway<R>, a: Action<R>, g': Gateway<R>)
    requires WellFormed(g.ix) && Next(g, a, g') && LateMap(g, a)
    ensures !Covered(g')
  {
    hide IndexModel.Next, Map, MapTarget, Unmap;
    var s := g.handlers[a.h].socket;
    MapKeys(g.ix, g.handlers[a.h].service, s);
    assert g'.table == g.table && g'.tokens == g.tokens && s in g'.ix.mapping;
    assert !ToBeUnmapped(g', s) by {
      assert forall t :: t in g'.tokens <==> t in g.tokens;
    }
  }

  lemma StartCovered<R>()
    ensures Covered(Start<R>()) && Inv(Start<R>())
  {
  }

  /** Over every run: mapped implies registered (or about to be unmapped) at every point exactly if no MapSocket
      of the run was late. What makes one late is the subject of LateMapIsSplit. */
  lemma {:induction false} MappedIsRegistered<R>(states: seq<Gateway<R>>, acts: seq<Action<R>>)
    requires Trace(states, acts) && states[0] == Start()
    ensures (forall k | 0 <= k <= |acts| :: Covered(states[k])) <==>
      (forall k | 0 <= k < |acts| :: !LateMap(states[k], acts[k]))
  {
    hide Next, LateMap, Covered, Inv, WellFormed, ClosedIsEmpty;
    StartCovered<R>();
    forall k | 0 <= k < |acts| && Covered(states[k]) ensures Covered(states[k + 1]) <==> !LateMap(states[k], acts[k]) {
      RunInv(states, acts, k);
      assert ClosedIsEmpty(states[k]) by { InvParts(states[k]); }
      CoverStep(states[k], acts[k], states[k + 1]);
    }
    if forall k | 0 <= k < |acts| :: !LateMap(states[k], acts[k]) {
      for k := 0 to |acts|
        invariant forall i | 0 <= i <= k :: Covered(states[i])
      {
        assert !LateMap(states[k], acts[k]);
        assert Covered(states[k + 1]);
      }
    } else {
      var k :| 0 <= k < |acts| && LateMap(states[k], acts[k]);
      assert Covered(states[k]) ==> !Covered(states[k + 1]);
    }
  }

  /** Handle call h, now at step k, registered at step i and has been under way since. */
  ghost predicate RegisteredAt<R>(states: seq<Gateway<R>>, acts: seq<Action<R>>, h: nat, i: nat, k: nat) {
    && i < k <= |acts| && |states| == |acts| + 1 && acts[i] == Register(h) && h in states[k].handlers
    && forall m | i <= m <= k :: h in states[m].handlers && states[m].handlers[h].socket == states[k].handlers[h].socket
  }

  lemma HandlerStep<R>(g: Gateway<R>, a: Action<R>, g': Gateway<R>, h: nat)
    requires WellFormed(g.ix) && Next(g, a, g') && h in g'.handlers
    ensures h in g.handlers ==> g'.handlers[h].socket == g.handlers[h].socket
    ensures h !in g.handlers ==> g'.handlers[h].stage == Resolved
    ensures h in g.handlers && g.handlers[h].stage == Resolved ==> g'.handlers[h].stage == Resolved || a == Register(h)
  {
    hide IndexModel.Next, Map, Unmap, MapTarget, WellFormed;
  }

  /** A Handle call past its registration did register, and its socket has since been registered or about to be
      unmapped, unless a closer went through with closing it. */
  lemma {:induction false} SinceRegistration<R>(states: seq<Gateway<R>>, acts: seq<Action<R>>, h: nat, k: nat)
    returns (i: nat)
    requires Trace(states, acts) && states[0] == Start() && k <= |acts|
    requires h in states[k].handlers && states[k].handlers[h].stage != Resolved
    ensures RegisteredAt(states, acts, h, i, k)
    ensures var s := states[k].handlers[h].socket;
      || s in states[k].table || ToBeUnmapped(states[k], s)
      || exists j: nat :: i < j < k && acts[j].UnmapIt? && acts[j].t in states[j].tokens
            && states[j].tokens[acts[j].t].socket == s
  {
    hide Next, ToBeUnmapped, WellFormed;
    var g, a := states[k - 1], acts[k - 1];
    HandlerStep(g, a, states[k], h);
    if h in g.handlers && g.handlers[h].stage != Resolved {
      var s := states[k].handlers[h].socket;
      i := SinceRegistration(states, acts, h, k - 1);
      if s in g.table || ToBeUnmapped(g, s) {
        TokenMoves(g, a, states[k]);
        if !(a.UnmapIt? && g.tokens[a.t].socket == s) {
          TokensKept(g, a, states[k], s);
        }
      }
    } else {
      i := k - 1;
      RegisterStep(g, h, states[k]);
    }
  }

  lemma RegisterStep<R>(g: Gateway<R>, h: nat, g': Gateway<R>)
    requires WellFormed(g.ix) && Next(g, Register(h), g')
    ensures h in g.handlers && h in g'.handlers && g'.handlers[h].socket == g.handlers[h].socket
          && g'.handlers[h].socket in g'.table
  {
  }

  /** The step maps the socket of a Handle call of which a closer went through with a close, up to its UnmapSocket,
      since the call registered it. */
  ghost predicate SplitByClose<R>(states: seq<Gateway<R>>, acts: seq<Action<R>>, k: nat) {
    && k < |acts| && |states| == |acts| + 1 && acts[k].MapIt? && acts[k].h in states[k].handlers
    && exists i: nat, j: nat :: i < j < k && RegisteredAt(states, acts, acts[k].h, i, k) && acts[j].UnmapIt?
          && acts[j].t in states[j].tokens
         && states[j].tokens[acts[j].t].socket == states[k].handlers[acts[k].h].socket
  }

  /** A late mapping only happens when a close of the socket was completed between the registration and the mapping
      of one Handle call. */
  lemma LateMapIsSplit<R>(states: seq<Gateway<R>>, acts: seq<Action<R>>, k: nat)
    requires Trace(states, acts) && states[0] == Start() && k < |acts| && LateMap(states[k], acts[k])
    ensures SplitByClose(states, acts, k)
  {
    hide WellFormed, ToBeUnmapped, RegisteredAt, Map;
    assert Next(states[k], acts[k], states[k + 1]);
    var i := SinceRegistration(states, acts, acts[k].h, k);
  }

  /** In every run in which no Handle call is split by a close of its socket between registering and mapping it,
      every mapped socket is registered or about to be unmapped. */
  lemma UnsplitIsRegistered<R>(states: seq<Gateway<R>>, acts: seq<Action<R>>, k: nat)
    requires Trace(states, acts) && states[0] == Start() && k <= |acts|
    requires forall i | 0 <= i < |acts| :: !SplitByClose(states, acts, i)
    ensures Covered(states[k])
  {
    hide Next, LateMap, Covered, SplitByClose, WellFormed;
    MappedIsRegistered(states, acts);
    forall i | 0 <= i < |acts| ensures !LateMap(states[i], acts[i]) {
      if LateMap(states[i], acts[i]) {
        LateMapIsSplit(states, acts, i);
      }
    }
  }

  lemma InvParts<R>(g: Gateway<R>)
    requires Inv(g)
    ensures ClosedOnce(g) && ClosedIsEmpty(g) && SweptStaysEmpty(g)
  {
  }

  lemma UnmappedStays<R>(ix: Index<R>, s: string)
    requires WellFormed(ix) && s !in ix.mapping
    ensures Unmap(ix, s) == ix
  {
  }

  lemma FirstTarget(ix: Index<nat>, d: Desc)
    requires WellFormed(ix) && ix == Index(false, map[0 := d.(lastSeen := Some(0))], [0], map[d.name := [0]], map[])
    ensures MapTarget(ix, d.name, "s") == (d.id, true)
  {
  }

  ghost function Leaking<R>(ix: Index<R>, stage: Option<Stage>, table: set<string>, duty: Option<Duty>,
                            closes: seq<nat>): Gateway<R> {
    Gateway(ix, table, if stage.Some? then map[1 := Handler("s", "a", stage.value)] else map[],
      if duty.Some? then map[0 := Token("s", duty.value)] else map[], closes, false)
  }

  lemma RegisteredOnce(ix: Index<nat>)
    requires WellFormed(ix) && !ix.closed
    ensures Next(Leaking(ix, None, {}, None, []), Resolve(1, "s", "a"), Leaking(ix, Some(Resolved), {}, None, []))
    ensures Next(Leaking(ix, Some(Resolved), {}, None, []), Register(1), Leaking(ix, Some(Mapping), {"s"}, None, []))
  {
    hide Unmap, WellFormed, Map, MapTarget, IndexModel.Next, AfterMap;
    assert {} + {"s"} == {"s"};
  }

  /** A close of "s" from start to end between the registration of Handle call 1 and its mapping. */
  lemma ClosedInBetween(ix: Index<nat>)
    requires WellFormed(ix) && !ix.closed && Unmap(ix, "s") == ix
    ensures Next(Leaking(ix, Some(Mapping), {"s"}, None, []), Remove(0, "s"),
      Leaking(ix, Some(Mapping), {}, Some(ToClose), []))
    ensures Next(Leaking(ix, Some(Mapping), {}, Some(ToClose), []), CloseIt(0),
      Leaking(ix, Some(Mapping), {}, Some(ToUnmap), [0]))
    ensures Next(Leaking(ix, Some(Mapping), {}, Some(ToUnmap), [0]), UnmapIt(0),
      Leaking(ix, Some(Mapping), {}, Some(Done), [0]))
  {
    hide Unmap, WellFormed, Map, MapTarget, IndexModel.Next, AfterMap;
    assert {"s"} - {"s"} == {};
    assert [] + [0] == [0];
  }

  lemma MappedLate(ix: Index<nat>, ix': Index<nat>, closes: seq<nat>)
    requires WellFormed(ix) && WellFormed(ix') && MapTarget(ix, "a", "s") == ("x", true) && ix' == Map(ix, "a", "s")
    ensures var sending := Leaking(ix', Some(Sending("x", true)), {}, Some(Done), closes);
      && Next(Leaking(ix, Some(Mapping), {}, Some(Done), closes), MapIt(1), sending)
      && Next(sending, Reply(1, Acknowledged), Leaking(ix', None, {}, Some(Done), closes))
  {
    hide WellFormed, Map, MapTarget;
  }

  /** The close in between does happen: socket "s" is then mapped for good, with no registration and no closer left. */
  lemma SplitHandleLeaks() returns (states: seq<Gateway<nat>>, acts: seq<Action<nat>>)
    ensures Trace(states, acts) && states[0] == Start()
    ensures var last := states[|acts|];
      last.handlers == map[] && last.table == {} && Owed(last) == {} && last.ix.mapping == map["s" := map["a" := "x"]]
  {
    hide Set, Map, Unmap, MapTarget, Next;
    var d := Desc("a", "x", [], None, []);
    SingleInstance(d, 0);
    var one := Set(Empty<nat>(), 0, d, 0);
    var two := FirstMapping(d, 0, "s");
    UnmappedStays(one, "s");
    FirstTarget(one, d);
    RegisteredOnce(one);
    ClosedInBetween(one);
    MappedLate(one, two, [0]);
    IndexedFirst(d, one);
    acts := [Indexer(OpSet(0, d, 0)), Resolve(1, "s", "a"), Register(1), Remove(0, "s"), CloseIt(0), UnmapIt(0),
      MapIt(1), Reply(1, Acknowledged)];
    states := [Start(), Leaking(one, None, {}, None, []), Leaking(one, Some(Resolved), {}, None, []),
      Leaking(one, Some(Mapping), {"s"}, None, []),
      Leaking(one, Some(Mapping), {}, Some(ToClose), []), Leaking(one, Some(Mapping), {}, Some(ToUnmap), [0]),
      Leaking(one, Some(Mapping), {}, Some(Done), [0]), Leaking(two, Some(Sending("x", true)), {}, Some(Done), [0]),
      Leaking(two, None, {}, Some(Done), [0])];
  }

  lemma IndexedFirst(d: Desc, one: Index<nat>)
    requires one == Set(Empty<nat>(), 0, d, 0)
    ensures Next(Start<nat>(), Indexer(OpSet(0, d, 0)), Leaking(one, None, {}, None, []))
  {
    hide Set;
  }

  // --- Shutdown ---

  lemma SweptStays<R>(g: Gateway<R>, a: Action<R>, g': Gateway<R>)
    requires WellFormed(g.ix) && Next(g, a, g')
    ensures g'.swept <==> g.swept || a.Sweep?
  {
    hide IndexModel.Next, Map, Unmap, MapTarget, WellFormed;
  }

  lemma {:induction false} StaysDown<R>(states: seq<Gateway<R>>, acts: seq<Action<R>>, i: nat, j: nat)
    requires Trace(states, acts) && states[0] == Start() && i <= j <= |acts|
    ensures states[i].ix.closed ==> states[j].ix.closed
    ensures states[i].swept ==> states[j].swept
  {
    hide WellFormed, Next;
    if i < j {
      StaysDown(states, acts, i, j - 1);
      RunInv(states, acts, j - 1);
      IndexPart(states[j - 1], acts[j - 1], states[j]);
      SweptStays(states[j - 1], acts[j - 1], states[j]);
    }
  }

  /** Shutdown closes the index, then empties the table. From then on the index stays closed and maps nothing;
      a socket is registered only while the Handle call that brought it is about to close it, so once no
      Handle call is under way the table is empty. */
  lemma ShutdownLeavesNothing<R>(states: seq<Gateway<R>>, acts: seq<Action<R>>, i: nat, j: nat)
    requires Trace(states, acts) && states[0] == Start() && i < j <= |acts| && acts[i].Sweep?
    ensures states[j].ix.closed && states[j].ix.mapping == map[]
    ensures forall s | s in states[j].table :: WillDrop(states[j], s)
    ensures states[j].handlers == map[] ==> states[j].table == {}
  {
    hide WellFormed;
    assert Next(states[i], acts[i], states[i + 1]) && states[i + 1].swept;
    StaysDown(states, acts, i + 1, j);
    RunInv(states, acts, j);
  }
}
