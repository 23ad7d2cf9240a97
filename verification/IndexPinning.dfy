/** Socket pinning over runs of the index, its limit, and the exact inverse of a mapping. */
module IndexPinning {
  import opened Sequences
  import opened IndexModel
  import opened IndexAgreement

  /** The operations that end a socket's pin to instance id. */
  ghost predicate Breaks<R>(ix: Index<R>, op: Op<R>, s: string, id: string)
    requires WellFormed(ix)
  {
    match op
    case OpClose => true
    case OpUnmap(t) => t == s
    case OpUnset(i) => i == id
    case OpPrune(now, threshold) => StaleInstance(ix, id, now, threshold)
    case OpSet(_, _, _) => false
    case OpMap(_, _) => false
  }

  lemma PinUnset<R>(ix: Index<R>, i: string, pick: Option<string>, s: string, n: string, id: string)
    requires Agree(ix) && ValidPick(ix, i, pick) && !LeavesDangling(ix, i)
    ensures MapsTo(UnsetAt(ix, i, pick).mapping, s, n, id) <==> MapsTo(ix.mapping, s, n, id) && i != id
  {
    hide Agree, Named, WithoutIds;
    UnsetRemoves(ix, i, pick);
  }

  lemma PinPrune<R>(ix: Index<R>, now: int, threshold: int, ix': Index<R>, s: string, n: string, id: string)
    requires Agree(ix) && PrunesTo(ix, now, threshold, ix')
    requires forall i | StaleInstance(ix, i, now, threshold) :: !LeavesDangling(ix, i)
    ensures MapsTo(ix'.mapping, s, n, id) <==> MapsTo(ix.mapping, s, n, id) && !StaleInstance(ix, id, now, threshold)
  {
    hide Agree, Named, WithoutIds;
    PruneExact(ix, now, threshold, ix');
  }

  lemma PinMap<R>(ix: Index<R>, m: string, t: string, s: string, n: string, id: string)
    requires Agree(ix) && MapsTo(ix.mapping, s, n, id)
    ensures MapsTo(Map(ix, m, t).mapping, s, n, id)
  {
    if Map(ix, m, t) != ix {
      MapAdds(ix, m, t);
    }
  }

  lemma MappedIsOpen<R>(ix: Index<R>, s: string, n: string, id: string)
    requires Agree(ix) && MapsTo(ix.mapping, s, n, id)
    ensures !ix.closed
  {
  }

  lemma PinOther<R>(ix: Index<R>, op: Op<R>, ix': Index<R>, s: string, n: string, id: string)
    requires Agree(ix) && Next(ix, op, ix') && MapsTo(ix.mapping, s, n, id) && (op.OpSet? || op.OpUnmap? || op.OpClose?)
    ensures MapsTo(ix'.mapping, s, n, id) <==> !Breaks(ix, op, s, id)
  {
    hide Agree;
    AgreedIsWellFormed(ix);
    MappedIsOpen(ix, s, n, id);
  }

  lemma PinStep<R>(ix: Index<R>, op: Op<R>, ix': Index<R>, s: string, n: string, id: string)
    requires Agree(ix) && Next(ix, op, ix') && Sound(ix, op) && MapsTo(ix.mapping, s, n, id)
    ensures MapsTo(ix'.mapping, s, n, id) <==> !Breaks(ix, op, s, id)
  {
    hide Agree, MapsTo, WellFormed, UnsetAt, ValidPick, LeavesDangling, PrunesTo, StaleInstance, Map;
    AgreedIsWellFormed(ix);
    match op
    case OpUnset(i) =>
      var pick :| ValidPick(ix, i, pick) && ix' == UnsetAt(ix, i, pick);
      PinUnset(ix, i, pick, s, n, id);
    case OpPrune(now, threshold) => PinPrune(ix, now, threshold, ix', s, n, id);
    case OpMap(m, t) => PinMap(ix, m, t, s, n, id);
    case _ => PinOther(ix, op, ix', s, n, id);
  }

  /** While pinned, MapSocket answers with the pinned instance, not new, and changes nothing. */
  lemma PinnedTarget<R>(ix: Index<R>, s: string, n: string, id: string)
    requires Agree(ix) && MapsTo(ix.mapping, s, n, id)
    ensures MapTarget(ix, n, s) == (id, false) && Map(ix, n, s) == ix
  {
  }

  /** Over any run, a pin holds at every point exactly when no operation of the run broke it;
      and as long as it holds, MapSocket answers with the pinned instance. */
  lemma {:induction false} PinStable<R>(states: seq<Index<R>>, ops: seq<Op<R>>, s: string, n: string, id: string)
    requires Trace(states, ops) && Agree(states[0]) && MapsTo(states[0].mapping, s, n, id)
    requires forall i | 0 <= i < |ops| :: Sound(states[i], ops[i])
    ensures (forall i | 0 <= i <= |ops| :: MapsTo(states[i].mapping, s, n, id))
      <==> (forall i | 0 <= i < |ops| :: !Breaks(states[i], ops[i], s, id))
    ensures forall i | 0 <= i <= |ops| && MapsTo(states[i].mapping, s, n, id) ::
      MapTarget(states[i], n, s) == (id, false)
  {
    hide Agree, Breaks, Sound, Next, MapsTo, MapTarget, WellFormed;
    TraceAgrees(states, ops);
    forall i | 0 <= i < |ops| && MapsTo(states[i].mapping, s, n, id)
      ensures MapsTo(states[i + 1].mapping, s, n, id) <==> !Breaks(states[i], ops[i], s, id)
    {
      PinStep(states[i], ops[i], states[i + 1], s, n, id);
    }
    if forall i | 0 <= i < |ops| :: !Breaks(states[i], ops[i], s, id) {
      for k := 0 to |ops|
        invariant forall i | 0 <= i <= k :: MapsTo(states[i].mapping, s, n, id)
      {
        assert MapsTo(states[k].mapping, s, n, id) && !Breaks(states[k], ops[k], s, id);
        assert MapsTo(states[k + 1].mapping, s, n, id);
      }
    } else {
      var k :| 0 <= k < |ops| && Breaks(states[k], ops[k], s, id);
      assert !(MapsTo(states[k].mapping, s, n, id) && MapsTo(states[k + 1].mapping, s, n, id));
    }
    forall i | 0 <= i <= |ops| && MapsTo(states[i].mapping, s, n, id)
      ensures MapTarget(states[i], n, s) == (id, false)
    {
      PinnedTarget(states[i], s, n, id);
    }
  }

  lemma {:induction false} TraceAgrees<R>(states: seq<Index<R>>, ops: seq<Op<R>>)
    requires Trace(states, ops) && Agree(states[0]) && forall i | 0 <= i < |ops| :: Sound(states[i], ops[i])
    ensures forall i | 0 <= i <= |ops| :: Agree(states[i])
  {
    hide Agree, Sound, Next;
    for k := 0 to |ops|
      invariant forall i | 0 <= i <= k :: Agree(states[i])
    {
      StepAgrees(states[k], ops[k], states[k + 1]);
    }
  }

  lemma RemovedUnpins<R>(ix: Index<R>, id: string, pick: Option<string>, s: string, n: string)
    requires Agree(ix) && ValidPick(ix, id, pick) && !LeavesDangling(ix, id) && MapsTo(ix.mapping, s, n, id)
    ensures var ix' := UnsetAt(ix, id, pick);
      && WellFormed(ix') && Without(ix, [id], ix') && !ix'.closed
      && !(s in ix'.mapping && n in ix'.mapping[s])
  {
    hide Named, WithoutIds;
    var ix' := UnsetAt(ix, id, pick);
    UnsetRemoves(ix, id, pick);
    assert s in ix'.mapping && n in ix'.mapping[s] ==> MapsTo(ix'.mapping, s, n, ix'.mapping[s][n]);
  }

  /** The limit of pinning: once another socket's failed delivery unsets the instance, a socket
      that was pinned to it is mapped afresh, to a different instance, on its next message. */
  lemma UnsetRemapsOthers<R>(ix: Index<R>, id: string, pick: Option<string>, s: string, n: string)
    requires Agree(ix) && ValidPick(ix, id, pick) && !LeavesDangling(ix, id)
    requires MapsTo(ix.mapping, s, n, id) && exists q :: q in Named(ix, n) && ix.descs[q].id != id
    ensures var ix' := UnsetAt(ix, id, pick);
      var (other, isNew) := MapTarget(ix', n, s);
      isNew && other != id && Indexed(ix, n, other) && MapsTo(Map(ix', n, s).mapping, s, n, other)
  {
    hide Agree, UnsetAt, LeavesDangling, ValidPick;
    AgreedIsWellFormed(ix);
    var ix' := UnsetAt(ix, id, pick);
    RemovedUnpins(ix, id, pick, s, n);
    assert Named(ix', n) == WithoutIds(ix.descs, Named(ix, n), [id]);
    var q :| q in Named(ix, n) && ix.descs[q].id != id;
    assert q in Named(ix', n);
    var r := LeastLoaded(ix'.descs, ix'.byName[n]);
    assert r in Named(ix', n);
    ListedIsIndexed(ix, n, r);
  }

  lemma MapThenRelease<R>(ix: Index<R>, n: string, s: string, q: R)
    requires Agree(ix) && s !in ix.mapping && Map(ix, n, s) != ix && q in ix.descs
    ensures Released(Map(ix, n, s), s, q) == ix.descs[q].sockets
  {
    var m := Map(ix, n, s);
    var r := LeastLoaded(ix.descs, ix.byName[n]);
    MapAdds(ix, n, s);
    MapAgrees(ix, n, s);
    if Releases(m, s, q) {
      assert q in m.byName[m.descs[q].name];
      ReleasesExactly(m, s, q);
      assert q in ix.flat && r in ix.flat && q == r;
      SnocRemove(ix.descs[r].sockets, s);
    } else {
      assert m.descs[r].name == n && r in m.flat && MapsTo(m.mapping, s, n, m.descs[r].id);
      ReleasesExactly(m, s, r);
      assert q != r;
    }
  }

  lemma ReleasedRestores<R>(ix: Index<R>, m: Index<R>, s: string)
    requires WellFormed(m) && s in m.mapping && !m.closed && m.descs.Keys == ix.descs.Keys
    requires m.mapping - {s} == ix.mapping
    requires m.flat == ix.flat && m.byName == ix.byName && m.closed == ix.closed
    requires forall q | q in ix.descs :: m.descs[q].(sockets := []) == ix.descs[q].(sockets := [])
    requires forall q | q in ix.descs :: Released(m, s, q) == ix.descs[q].sockets
    ensures Unmap(m, s) == ix
  {
    hide Releases, RemoveFirst;
    forall q | q in ix.descs ensures Unmap(m, s).descs[q] == ix.descs[q] {
      assert m.descs[q].(sockets := ix.descs[q].sockets) == m.descs[q].(sockets := []).(sockets := ix.descs[q].sockets);
      assert Unmap(m, s).descs[q] == m.descs[q].(sockets := Released(m, s, q));
    }
    assert Unmap(m, s).descs == ix.descs;
  }

  /** Unmapping a socket right after its first mapping restores the index exactly. */
  lemma UnmapUndoesMap<R>(ix: Index<R>, n: string, s: string)
    requires Agree(ix) && s !in ix.mapping
    ensures Unmap(Map(ix, n, s), s) == ix
  {
    hide Agree, Released, Unmap, LeastLoaded;
    AgreedIsWellFormed(ix);
    var m := Map(ix, n, s);
    if m != ix {
      forall q | q in ix.descs ensures Released(m, s, q) == ix.descs[q].sockets {
        MapThenRelease(ix, n, s, q);
      }
      assert m.mapping - {s} == ix.mapping;
      ReleasedRestores(ix, m, s);
    } else {
      UnmappedSame(ix, s);
    }
  }

  lemma UnmappedSame<R>(ix: Index<R>, s: string)
    requires WellFormed(ix) && s !in ix.mapping
    ensures Unmap(ix, s) == ix
  {
  }

  lemma SnocRemove<T>(xs: seq<T>, x: T)
    requires x !in xs
    ensures RemoveFirst(xs + [x], x) == xs
  {
    assert (xs + [x])[|xs|] == x;
    assert IndexOf(xs + [x], x) == |xs|;
  }
}
