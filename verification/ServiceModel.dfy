/** A service's connections and closed-socket tombstones, one lock section at a time,
    with connection closes that run beside them. */
module ServiceModel {
  import opened Sequences

  /** HandleClose runs once: Open until a caller claims it, Closing until the onClosed callback has run. */
  datatype Phase = Open | Closing | Closed

  datatype ConnInfo<S, G> = ConnInfo(socket: S, gateway: G, phase: Phase)

  datatype State<S, G, C> = State(
    now: int,
    ttl: int,
    table: map<S, C>,          // connections
    tombs: map<S, int>,        // closedSockets
    conns: map<C, ConnInfo<S, G>>,   // every connection ever made
    owed: set<C>)              // taken out of the table by a closer that has yet to call HandleClose

  datatype Action<S, G, C> =
    | Advance(to: int)
    | Ensure(s: S, g: G, made: C)   // ensureConnection; `made` is the connection it would make
    | Shut(s: S)                     // the lock section of closeConnection
    | ShutAll                        // the lock section of closeAllConnections
    | HandleClose(c: C)              // by a closer, or by a failed Write at any time
    | OnClosed(c: C)                 // the callback given to NewConnection
    | Prune                          // pruneStaleResources

  function Init<S, G, C>(now: int, ttl: int): State<S, G, C> {
    State(now, ttl, map[], map[], map[], {})
  }

  predicate Enabled<S(==), G, C(==)>(st: State<S, G, C>, a: Action<S, G, C>) {
    match a
    case Advance(to) => st.now <= to
    case Ensure(_, _, c) => c !in st.conns
    case HandleClose(c) => c in st.conns
    case OnClosed(c) => c in st.conns && st.conns[c].phase == Closing
    case _ => true
  }

  /** What ensureConnection returns. */
  function Found<S(==), G, C(==)>(st: State<S, G, C>, s: S, made: C): Option<C> {
    if s in st.tombs then None else if s in st.table then Some(st.table[s]) else Some(made)
  }

  function Apply<S(==), G, C(==)>(st: State<S, G, C>, a: Action<S, G, C>): State<S, G, C>
    requires Enabled(st, a)
  {
    match a
    case Advance(to) => st.(now := to)
    case Ensure(s, g, c) =>
      if s in st.tombs || s in st.table then st
      else st.(table := st.table[s := c], conns := st.conns[c := ConnInfo(s, g, Open)])
    case Shut(s) =>
      st.(table := st.table - {s}, tombs := st.tombs[s := st.now],
          owed := if s in st.table then st.owed + {st.table[s]} else st.owed)
    case ShutAll =>
      st.(table := map[], owed := st.owed + st.table.Values)
    case HandleClose(c) =>
      st.(owed := st.owed - {c},
          conns := if st.conns[c].phase == Open then st.conns[c := st.conns[c].(phase := Closing)] else st.conns)
    case OnClosed(c) =>
      st.(table := st.table - {st.conns[c].socket}, conns := st.conns[c := st.conns[c].(phase := Closed)])
    case Prune =>
      st.(tombs := map s | s in st.tombs && st.now - st.tombs[s] <= st.ttl :: st.tombs[s])
  }

  ghost predicate Trace<S, G, C>(states: seq<State<S, G, C>>, acts: seq<Action<S, G, C>>) {
    && |states| == |acts| + 1
    && forall i | 0 <= i < |acts| :: Enabled(states[i], acts[i]) && states[i + 1] == Apply(states[i], acts[i])
  }

  // --- The invariant ---

  ghost predicate TableTyped<S, G, C>(st: State<S, G, C>) {
    && (forall s | s in st.table :: st.table[s] in st.conns && st.conns[st.table[s]].socket == s
          && st.conns[st.table[s]].phase != Closed && st.table[s] !in st.owed)
    && (forall c | c in st.owed :: c in st.conns)
  }

  /** No socket has both a live connection and a tombstone. */
  ghost predicate Disjoint<S, G, C>(st: State<S, G, C>) {
    st.table.Keys !! st.tombs.Keys
  }

  ghost predicate TombsPast<S, G, C>(st: State<S, G, C>) {
    forall s | s in st.tombs :: st.tombs[s] <= st.now
  }

  ghost predicate Inv<S, G, C>(st: State<S, G, C>) {
    TableTyped(st) && Disjoint(st) && TombsPast(st)
  }

  lemma ApplyInv<S, G, C>(st: State<S, G, C>, a: Action<S, G, C>)
    requires Inv(st) && Enabled(st, a)
    ensures Inv(Apply(st, a))
  {
  }

  /** In every interleaving a service's live connections and its tombstones are disjoint. */
  lemma {:induction false} RunInv<S, G, C>(states: seq<State<S, G, C>>, acts: seq<Action<S, G, C>>, k: nat)
    requires Trace(states, acts) && Inv(states[0]) && k <= |acts|
    ensures Inv(states[k]) && Disjoint(states[k])
    ensures states[k].ttl == states[0].ttl && states[k].now >= states[0].now
  {
    if k > 0 {
      RunInv(states, acts, k - 1);
      ApplyInv(states[k - 1], acts[k - 1]);
    }
  }

  // --- Tombstones ---

  /** A close at t is remembered, or its time is up. */
  ghost predicate Remembered<S, G, C>(st: State<S, G, C>, s: S, t: int) {
    (s in st.tombs && st.tombs[s] >= t) || st.now > t + st.ttl
  }

  lemma RememberStep<S, G, C>(st: State<S, G, C>, a: Action<S, G, C>, s: S, t: int)
    requires Enabled(st, a) && Remembered(st, s, t) && t <= st.now
    ensures Remembered(Apply(st, a), s, t) && t <= Apply(st, a).now
  {
  }

  lemma {:induction false} StillRemembered<S, G, C>(states: seq<State<S, G, C>>, acts: seq<Action<S, G, C>>, i: nat,
                                                    j: nat, s: S)
    requires Trace(states, acts) && i < j <= |acts| && acts[i] == Shut(s)
    ensures Remembered(states[j], s, states[i].now) && states[i].now <= states[j].now
  {
    if j > i + 1 {
      StillRemembered(states, acts, i, j - 1, s);
      RememberStep(states[j - 1], acts[j - 1], s, states[i].now);
    }
  }

  /** In any run, a late message for a socket closed at time t neither finds nor makes a connection until more
      than the TTL has passed. */
  lemma NoRevival<S, G, C>(states: seq<State<S, G, C>>, acts: seq<Action<S, G, C>>, i: nat, j: nat, s: S)
    requires Trace(states, acts) && i < j < |acts| && acts[i] == Shut(s)
    requires acts[j].Ensure? && acts[j].s == s && Found(states[j], s, acts[j].made).Some?
    ensures states[j].now > states[i].now + states[j].ttl
  {
    StillRemembered(states, acts, i, j, s);
  }

  /** A prune tick forgets exactly the closes whose time is up, and after it a socket is admitted exactly if its
      last close is forgotten. */
  lemma PruneForgets<S, G, C>(st: State<S, G, C>, s: S, made: C)
    requires made !in st.conns
    ensures var st' := Apply(st, Prune);
      && (s in st'.tombs <==> s in st.tombs && st.now <= st.tombs[s] + st.ttl)
      && (Found(st', s, made).None? <==> s in st.tombs && st.now <= st.tombs[s] + st.ttl)
  {
  }

  // --- No connection is left behind ---

  /** The callback of an older connection would take a newer one out of the table. */
  predicate StaleCallback<S(==), G, C(==)>(st: State<S, G, C>, a: Action<S, G, C>) {
    && a.OnClosed? && a.c in st.conns
    && var s := st.conns[a.c].socket;
       s in st.table && st.table[s] != a.c && st.table[s] in st.conns && st.conns[st.table[s]].phase == Open
             && st.table[s] !in st.owed
  }

  /** Every connection not yet closing is in the table, where a message or a close can reach it, or about to be
      closed. */
  ghost predicate NoOrphan<S, G, C>(st: State<S, G, C>) {
    forall c | c in st.conns && st.conns[c].phase == Open ::
      c in st.owed || (st.conns[c].socket in st.table && st.table[st.conns[c].socket] == c)
  }

  lemma OrphanStep<S, G, C>(st: State<S, G, C>, a: Action<S, G, C>)
    requires Inv(st) && Enabled(st, a) && NoOrphan(st)
    ensures NoOrphan(Apply(st, a)) <==> !StaleCallback(st, a)
  {
    var st' := Apply(st, a);
    if StaleCallback(st, a) {
      var c := st.table[st.conns[a.c].socket];
      assert c in st'.conns && st'.conns[c].phase == Open && c !in st'.owed;
    }
  }

  /** Over every run, no connection is left behind at any point exactly if no stale callback ran. */
  lemma {:induction false} NoOrphanExact<S, G, C>(states: seq<State<S, G, C>>, acts: seq<Action<S, G, C>>)
    requires Trace(states, acts) && Inv(states[0]) && NoOrphan(states[0])
    ensures (forall k | 0 <= k <= |acts| :: NoOrphan(states[k])) <==>
      (forall k | 0 <= k < |acts| :: !StaleCallback(states[k], acts[k]))
  {
    hide NoOrphan, Inv, StaleCallback;
    forall k | 0 <= k < |acts| && NoOrphan(states[k])
      ensures NoOrphan(states[k + 1]) <==> !StaleCallback(states[k], acts[k])
    {
      RunInv(states, acts, k);
      OrphanStep(states[k], acts[k]);
    }
    if forall k | 0 <= k < |acts| :: !StaleCallback(states[k], acts[k]) {
      for k := 0 to |acts|
        invariant forall i | 0 <= i <= k :: NoOrphan(states[i])
      {
        assert !StaleCallback(states[k], acts[k]);
        assert NoOrphan(states[k + 1]);
      }
    } else {
      var k :| 0 <= k < |acts| && StaleCallback(states[k], acts[k]);
      assert NoOrphan(states[k]) ==> !NoOrphan(states[k + 1]);
    }
  }

  /** A closing that finishes within the TTL is never stale: a connection shut at t, whose callback runs no later
      than t + TTL, finds no newer connection in the table. */
  lemma PromptCallback<S, G, C>(states: seq<State<S, G, C>>, acts: seq<Action<S, G, C>>, i: nat, j: nat, c: C)
    requires Trace(states, acts) && Inv(states[0]) && i < j < |acts| && acts[j] == OnClosed(c)
    requires c in states[j].conns && acts[i] == Shut(states[j].conns[c].socket)
    requires states[j].now <= states[i].now + states[j].ttl
    ensures !StaleCallback(states[j], acts[j])
  {
    RunInv(states, acts, j);
    StillRemembered(states, acts, i, j, states[j].conns[c].socket);
  }

  /** A callback delayed beyond the TTL can be stale: it takes the socket's new connection out of the table, which
      then stays open with nobody left to close it. */
  lemma DelayedCallbackOrphans<S, G, C>(s: S, g: G, first: C, second: C, ttl: nat)
    returns (states: seq<State<S, G, C>>, acts: seq<Action<S, G, C>>)
    requires first != second
    ensures Trace(states, acts) && states[0] == Init(0, ttl)
    ensures var last := states[|acts|];
      second in last.conns && last.conns[second] == ConnInfo(s, g, Open) && s !in last.table && last.owed == {}
  {
    acts := [Ensure(s, g, first), Shut(s), HandleClose(first),
      Advance(ttl + 1), Prune, Ensure(s, g, second), OnClosed(first)];
    var s0: State<S, G, C> := Init(0, ttl);
    var s1 := Apply(s0, acts[0]);
    var s2 := Apply(s1, acts[1]);
    var s3 := Apply(s2, acts[2]);
    var s4 := Apply(s3, acts[3]);
    var s5 := Apply(s4, acts[4]);
    assert s5.tombs == map[];
    var s6 := Apply(s5, acts[5]);
    var s7 := Apply(s6, acts[6]);
    states := [s0, s1, s2, s3, s4, s5, s6, s7];
  }
}
