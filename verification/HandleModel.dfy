/** One Handle call without concurrent announcements: map, send, and on failure unset and try again. */
module HandleModel {
  import opened Sequences
  import opened IndexModel
  import opened IndexAgreement
  import opened IndexPinning

  /** What MessageService returns for an instance. Failed does not say whether the instance has the message: its ack,
      or the ack of the last chunk, may have been lost or late (SendModel.ErrorYetHeld). */
  datatype Reply = Accepted | SlowConsumer | Failed

  /** How a call ends: an instance answered without an error, no instance did, or one rejected the socket. */
  datatype Outcome = Acknowledged(id: string) | Unreachable | Slow

  datatype Handled<R> = Handled(ix: Index<R>, tried: seq<string>, outcome: Outcome)

  lemma {:induction false} WithoutShorter<R>(descs: map<R, Desc>, rs: seq<R>, r: R, ids: seq<string>)
    requires forall q | q in rs :: q in descs
    ensures |WithoutIds(descs, rs, ids)| <= |rs|
    ensures r in rs && descs[r].id in ids ==> |WithoutIds(descs, rs, ids)| < |rs|
  {
    if rs != [] {
      WithoutShorter(descs, rs[1..], r, ids);
    }
  }

  /** What MapSocket answers is an instance of that service, found again under its name. */
  lemma TargetListed<R>(ix: Index<R>, n: string, s: string)
    requires Agree(ix) && MapTarget(ix, n, s) != ("", false)
    ensures var (id, isNew) := MapTarget(ix, n, s);
      && Agree(Map(ix, n, s)) && MapsTo(Map(ix, n, s).mapping, s, n, id) && !ix.closed
      && Indexed(ix, n, id) && Named(Map(ix, n, s), n) == Named(ix, n) != []
      && ValidPick(Map(ix, n, s), id, Some(n))
      && (isNew <==> !(s in ix.mapping && n in ix.mapping[s]))
  {
    MapAgrees(ix, n, s);
    var m := Map(ix, n, s);
    var (id, isNew) := MapTarget(ix, n, s);
    if m != ix {
      MapAdds(ix, n, s);
      assert MapsTo(m.mapping, s, n, id);
    } else {
      assert MapsTo(m.mapping, s, n, id);
    }
    assert Indexed(m, n, id);
    LookupFinds(m, n, id);
  }

  lemma NotDangling<R>(ix: Index<R>, n: string, s: string)
    requires Agree(ix) && MapTarget(ix, n, s) != ("", false) && n != ""
    ensures WellFormed(Map(ix, n, s)) && !LeavesDangling(Map(ix, n, s), MapTarget(ix, n, s).0)
  {
    TargetListed(ix, n, s);
    var m := Map(ix, n, s);
    var id := MapTarget(ix, n, s).0;
    var q :| q in ix.flat && ix.descs[q].name == n && ix.descs[q].id == id;
    assert q in m.flat && m.descs[q].name == n && m.descs[q].id == id;
  }

  /** ix' is ix without the instances of these IDs and the mappings to them; other loads and entries are as they
      were. */
  ghost predicate Dropped<R>(ix: Index<R>, ids: seq<string>, ix': Index<R>)
    requires WellFormed(ix)
  {
    && ix'.closed == ix.closed && ix'.descs.Keys == ix.descs.Keys
    && (forall r | r in ix.descs :: ix'.descs[r].name == ix.descs[r].name && ix'.descs[r].id == ix.descs[r].id)
    && (forall r | r in ix.flat && ix.descs[r].id !in ids :: ix'.descs[r] == ix.descs[r])
    && ix'.flat == WithoutIds(ix.descs, ix.flat, ids)
    && (forall n :: Named(ix', n) == WithoutIds(ix.descs, Named(ix, n), ids))
    && (forall s, n, id :: MapsTo(ix'.mapping, s, n, id) <==> MapsTo(ix.mapping, s, n, id) && id !in ids)
  }

  /** The index after the instance MapSocket chose has failed. */
  function AfterFailure<R(==)>(ix: Index<R>, n: string, s: string): (ix': Index<R>)
    requires Agree(ix) && MapTarget(ix, n, s) != ("", false)
  {
    TargetListed(ix, n, s);
    UnsetAt(Map(ix, n, s), MapTarget(ix, n, s).0, Some(n))
  }

  lemma {:induction false} WithoutSameIds<R>(a: map<R, Desc>, b: map<R, Desc>, rs: seq<R>, ids: seq<string>)
    requires forall r | r in rs :: r in a && r in b && a[r].id == b[r].id
    ensures WithoutIds(a, rs, ids) == WithoutIds(b, rs, ids)
  {
    if rs != [] {
      WithoutSameIds(a, b, rs[1..], ids);
    }
  }

  lemma MapKeepsShape<R>(ix: Index<R>, n: string, s: string)
    requires Agree(ix)
    ensures var m := Map(ix, n, s);
      && m.closed == ix.closed && m.flat == ix.flat && m.byName == ix.byName && m.descs.Keys == ix.descs.Keys
      && (forall r | r in ix.descs :: m.descs[r].name == ix.descs[r].name && m.descs[r].id == ix.descs[r].id)
      && (forall r | r in ix.flat && ix.descs[r].id != MapTarget(ix, n, s).0 :: m.descs[r] == ix.descs[r])
      && (forall t, k, i :: MapsTo(m.mapping, t, k, i) <==>
            MapsTo(ix.mapping, t, k, i) || (m != ix && t == s && k == n && i == MapTarget(ix, n, s).0))
  {
    if Map(ix, n, s) != ix {
      MapAdds(ix, n, s);
    }
  }

  lemma NamedFailure<R>(ix: Index<R>, n: string, s: string)
    requires Agree(ix) && MapTarget(ix, n, s) != ("", false) && n != ""
    ensures var ix' := AfterFailure(ix, n, s);
      var id := MapTarget(ix, n, s).0;
      && Agree(ix') && Dropped(ix, [id], ix') && |Named(ix', n)| < |Named(ix, n)|
      && !(s in ix'.mapping && n in ix'.mapping[s])
  {
    hide Agree, Map, MapTarget, UnsetAt, LeavesDangling, ValidPick, WellFormed;
    AgreedIsWellFormed(ix);
    var m, id := Map(ix, n, s), MapTarget(ix, n, s).0;
    TargetListed(ix, n, s);
    NotDangling(ix, n, s);
    MapKeepsShape(ix, n, s);
    AgreedIsWellFormed(m);
    UnsetRemoves(m, id, Some(n));
    DroppedAfterMap(ix, n, s, AfterFailure(ix, n, s));
  }

  /** ix' is m without the instance of this ID, but with all its mappings. */
  ghost predicate Delisted<R>(m: Index<R>, id: string, ix': Index<R>)
    requires WellFormed(m)
  {
    && ix'.descs == m.descs && ix'.closed == m.closed && ix'.mapping == m.mapping
    && ix'.flat == WithoutIds(m.descs, m.flat, [id])
    && forall k :: Named(ix', k) == WithoutIds(m.descs, Named(m, k), [id])
  }

  /** Under the name "" the instance is unset but its mappings are not erased. */
  lemma UnnamedFailure<R>(ix: Index<R>, s: string)
    requires Agree(ix) && MapTarget(ix, "", s) != ("", false)
    ensures WellFormed(AfterFailure(ix, "", s)) && Agree(Map(ix, "", s)) && !ix.closed
    ensures Delisted(Map(ix, "", s), MapTarget(ix, "", s).0, AfterFailure(ix, "", s))
  {
    hide Agree, Map, MapTarget, ValidPick, DropNamed, DropFlat, WithoutIds;
    AgreedIsWellFormed(ix);
    TargetListed(ix, "", s);
    var m, id := Map(ix, "", s), MapTarget(ix, "", s).0;
    AgreedIsWellFormed(m);
    var q := InstanceOf(ix, "", id);
    MapKeepsShape(ix, "", s);
    DropFlatFacts(m, id);
    DropNamedFacts(m, id, q);
    var ix' := AfterFailure(ix, "", s);
    forall k ensures Named(ix', k) == WithoutIds(m.descs, Named(m, k), [id]) {
      assert Named(m.(byName := DropNamed(m, "", id)), k) == WithoutIds(m.descs, Named(m, k), [id]);
    }
  }

  lemma InstanceOf<R>(ix: Index<R>, n: string, id: string) returns (q: R)
    requires Agree(ix) && Indexed(ix, n, id)
    ensures q in ix.flat && q in ix.descs && ix.descs[q].name == n && ix.descs[q].id == id
  {
    q :| q in ix.flat && ix.descs[q].name == n && ix.descs[q].id == id;
  }

  lemma DelistedIndexed<R>(m: Index<R>, id: string, ix': Index<R>)
    requires WellFormed(m) && WellFormed(ix') && Delisted(m, id, ix')
    ensures forall k, i :: Indexed(ix', k, i) <==> Indexed(m, k, i) && i != id
  {
  }

  /** The socket stays mapped to an instance that is gone: MapSocket answers it again, and unsetting it changes
      nothing. */
  ghost predicate Stuck<R>(ix: Index<R>, n: string, s: string, id: string) {
    && WellFormed(ix) && !ix.closed && MapTarget(ix, n, s) == (id, false) && Map(ix, n, s) == ix
    && forall pick | ValidPick(ix, id, pick) :: UnsetAt(ix, id, pick) == ix
  }

  lemma UnnamedIsStuck<R>(ix: Index<R>, s: string)
    requires Agree(ix) && MapTarget(ix, "", s) != ("", false)
    ensures Stuck(AfterFailure(ix, "", s), "", s, MapTarget(ix, "", s).0)
  {
    hide Agree, AfterFailure;
    AgreedIsWellFormed(ix);
    UnnamedFailure(ix, s);
    TargetListed(ix, "", s);
    var ix', id := AfterFailure(ix, "", s), MapTarget(ix, "", s).0;
    assert forall r | r in ix'.flat :: ix'.descs[r].id != id;
    forall pick | ValidPick(ix', id, pick) ensures UnsetAt(ix', id, pick) == ix' {
      NoneListed(ix', id, pick);
    }
  }

  lemma NoneListed<R>(ix: Index<R>, id: string, pick: Option<string>)
    requires WellFormed(ix) && ValidPick(ix, id, pick)
    requires forall r | r in ix.flat :: ix.descs[r].id != id
    requires forall k, r | r in Named(ix, k) :: ix.descs[r].id != id
    ensures UnsetAt(ix, id, pick) == ix
  {
    if pick.Some? {
      NotFound(ix.descs, Named(ix, pick.value), id);
    }
    NotFound(ix.descs, ix.flat, id);
  }

  lemma {:induction false} NotFound<R>(descs: map<R, Desc>, rs: seq<R>, id: string)
    requires forall r | r in rs :: r in descs && descs[r].id != id
    ensures FirstWithId(descs, rs, id) == |rs|
  {
    if rs != [] {
      NotFound(descs, rs[1..], id);
    }
  }

  /** A failed delivery drops the instance it went to. With a service name everything mapped to it goes with it and
      nothing else does; under the name "" its mappings stay, so the same socket is sent to it again. */
  lemma FailureDrops<R>(ix: Index<R>, n: string, s: string)
    requires Agree(ix) && MapTarget(ix, n, s) != ("", false)
    ensures var ix', id := AfterFailure(ix, n, s), MapTarget(ix, n, s).0;
      if n != "" then
        && Agree(ix') && Dropped(ix, [id], ix') && |Named(ix', n)| < |Named(ix, n)|
        && !(s in ix'.mapping && n in ix'.mapping[s])
      else
        WellFormed(Map(ix, n, s)) && Delisted(Map(ix, n, s), id, ix') && Stuck(ix', n, s, id)
  {
    hide Agree, AfterFailure, Dropped, Delisted, Stuck;
    AgreedIsWellFormed(ix);
    if n != "" {
      NamedFailure(ix, n, s);
    } else {
      UnnamedFailure(ix, s);
      AgreedIsWellFormed(Map(ix, n, s));
      UnnamedIsStuck(ix, s);
    }
  }

  lemma DroppedAfterMap<R>(ix: Index<R>, n: string, s: string, ix': Index<R>)
    requires Agree(ix) && MapTarget(ix, n, s) != ("", false)
    requires var m := Map(ix, n, s);
      Agree(m) && Without(m, [MapTarget(ix, n, s).0], ix')
    ensures var id := MapTarget(ix, n, s).0;
      Dropped(ix, [id], ix') && |Named(ix', n)| < |Named(ix, n)| && !(s in ix'.mapping && n in ix'.mapping[s])
  {
    hide Map, MapTarget, Agree, WellFormed, MappingsIndexed, SameInstances, LoadExact, UniqueIds, Without, Dropped;
    AgreedIsWellFormed(ix);
    var m, id := Map(ix, n, s), MapTarget(ix, n, s).0;
    MapKeepsShape(ix, n, s);
    TargetListed(ix, n, s);
    SameShapeDropped(ix, m, [id], ix');
    TargetGone(ix, m, n, s, id, ix');
  }

  lemma SameShapeDropped<R>(ix: Index<R>, m: Index<R>, ids: seq<string>, ix': Index<R>)
    requires WellFormed(ix) && WellFormed(m) && Without(m, ids, ix')
    requires m.closed == ix.closed && m.flat == ix.flat && m.byName == ix.byName && m.descs.Keys == ix.descs.Keys
    requires forall r | r in ix.descs :: m.descs[r].name == ix.descs[r].name && m.descs[r].id == ix.descs[r].id
    requires forall r | r in ix.flat && ix.descs[r].id !in ids :: m.descs[r] == ix.descs[r]
    requires forall t, k, i | i !in ids :: MapsTo(m.mapping, t, k, i) <==> MapsTo(ix.mapping, t, k, i)
    ensures Dropped(ix, ids, ix')
  {
    WithoutSameIds(ix.descs, m.descs, ix.flat, ids);
    forall k ensures Named(ix', k) == WithoutIds(ix.descs, Named(ix, k), ids) {
      WithoutSameIds(ix.descs, m.descs, Named(ix, k), ids);
    }
  }

  lemma TargetGone<R>(ix: Index<R>, m: Index<R>, n: string, s: string, id: string, ix': Index<R>)
    requires Agree(ix) && WellFormed(m) && Agree(m) && Dropped(ix, [id], ix') && Without(m, [id], ix')
    requires Indexed(ix, n, id) && MapsTo(m.mapping, s, n, id)
    ensures |Named(ix', n)| < |Named(ix, n)| && !(s in ix'.mapping && n in ix'.mapping[s])
  {
    var r :| r in ix.flat && ix.descs[r].name == n && ix.descs[r].id == id;
    assert r in Named(ix, n);
    WithoutShorter(ix.descs, Named(ix, n), r, [id]);
    assert s in ix'.mapping && n in ix'.mapping[s] ==> MapsTo(ix'.mapping, s, n, ix'.mapping[s][n]);
  }

  // --- The loop ---

  /** The retry loop of Handle, up to the closeSocket that ends it when nothing was acknowledged. For a service named ""
      the turn after a failure asks the same instance again, as a pinned one. */
  function Loop<R(==)>(ix: Index<R>, n: string, s: string, reply: string -> Reply): Handled<R>
    requires Agree(ix)
    decreases |Named(ix, n)|
  {
    var (id, isNew) := MapTarget(ix, n, s);
    if id == "" then
      Handled(Map(ix, n, s), [], Unreachable)
    else
      match reply(id)
      case Accepted => Handled(Map(ix, n, s), [id], Acknowledged(id))
      case SlowConsumer => Handled(Map(ix, n, s), [id], Slow)
      case Failed =>
        FailureDrops(ix, n, s);
        var ix' := AfterFailure(ix, n, s);
        if !isNew then
          Handled(ix', [id], Unreachable)
        else if n == "" then
          Handled(ix', [id, id], Unreachable)
        else
          var rest := Loop(ix', n, s, reply);
          Handled(rest.ix, [id] + rest.tried, rest.outcome)
  }

  /** Handle from the registration on: the index it leaves. */
  function Handle<R(==)>(ix: Index<R>, n: string, s: string, reply: string -> Reply): Handled<R>
    requires Agree(ix)
  {
    var h := Loop(ix, n, s, reply);
    LoopKeeps(ix, n, s, reply);
    if h.outcome.Acknowledged? then h else h.(ix := Unmap(h.ix, s))
  }

  lemma {:induction false} LoopKeeps<R>(ix: Index<R>, n: string, s: string, reply: string -> Reply)
    requires Agree(ix)
    ensures WellFormed(Loop(ix, n, s, reply).ix)
    ensures n != "" || Loop(ix, n, s, reply).outcome != Unreachable ==> Agree(Loop(ix, n, s, reply).ix)
    decreases |Named(ix, n)|
  {
    hide Agree, Map, AfterFailure, MapTarget, WellFormed, Delisted, Stuck, Dropped;
    AgreedIsWellFormed(ix);
    var (id, isNew) := MapTarget(ix, n, s);
    MapAgrees(ix, n, s);
    AgreedIsWellFormed(Map(ix, n, s));
    if id != "" && reply(id) == Failed {
      FailureDrops(ix, n, s);
      if n == "" {
        UnnamedFailure(ix, s);
      } else {
        AgreedIsWellFormed(AfterFailure(ix, n, s));
        if isNew {
          LoopKeeps(AfterFailure(ix, n, s), n, s, reply);
        }
      }
    }
  }

  // --- What a call does ---

  /** The tried instances that failed: all, or all but the one that answered otherwise. */
  function FailedOf<R>(h: Handled<R>): seq<string> {
    if h.outcome == Unreachable || h.tried == [] then h.tried else h.tried[..|h.tried| - 1]
  }

  /** The tries of a call: distinct instances of the service (or, under the name "", at most one, which after failing is
      asked again), of which all but the answering one failed. */
  ghost predicate TriesWell<R>(ix: Index<R>, n: string, s: string, reply: string -> Reply, h: Handled<R>)
    requires WellFormed(ix)
  {
    && (n != "" ==> NoDup(h.tried))
    && (n == "" ==> |h.tried| <= 1 || (|h.tried| == 2 && h.tried[0] == h.tried[1] && h.outcome == Unreachable))
    && (forall id | id in h.tried :: id != "" && Indexed(ix, n, id))
    && (forall id | id in FailedOf(h) :: reply(id) == Failed)
    && (h.outcome.Acknowledged? ==> h.tried == FailedOf(h) + [h.outcome.id] && reply(h.outcome.id) == Accepted)
    && (h.outcome.Slow? ==> h.tried != [] && reply(h.tried[|h.tried| - 1]) == SlowConsumer)
    && (s in ix.mapping && n in ix.mapping[s] && ix.mapping[s][n] != "" ==> h.tried == [ix.mapping[s][n]])
  }

  /** What is left: `mid` is ix without the failed instances, and the loop ended by mapping s there (or, for a
      pinned socket whose instance failed, without mapping it again). */
  ghost predicate Leaves<R>(ix: Index<R>, n: string, s: string, h: Handled<R>, mid: Index<R>)
    requires WellFormed(ix)
  {
    && Agree(mid) && Dropped(ix, FailedOf(h), mid)
    && (h.outcome != Unreachable ==>
          && h.ix == Map(mid, n, s) && MapTarget(mid, n, s) != ("", false)
          && h.tried == FailedOf(h) + [MapTarget(mid, n, s).0])
    && (h.outcome == Unreachable ==>
          || (h.ix == Map(mid, n, s) && MapTarget(mid, n, s).0 == "")
          || (h.ix == mid && s in ix.mapping && n in ix.mapping[s]))
  }

  lemma DroppedNothing<R>(ix: Index<R>)
    requires WellFormed(ix)
    ensures Dropped(ix, [], ix)
  {
    WithoutNothing(ix);
  }

  lemma DroppedTwice<R>(ix: Index<R>, a: seq<string>, mid: Index<R>, b: seq<string>, ix': Index<R>)
    requires WellFormed(ix) && WellFormed(mid) && Dropped(ix, a, mid) && Dropped(mid, b, ix')
    ensures Dropped(ix, a + b, ix')
  {
    WithoutBoth(ix.descs, ix.flat, a, b);
    WithoutSameIds(ix.descs, mid.descs, mid.flat, b);
    forall n ensures Named(ix', n) == WithoutIds(ix.descs, Named(ix, n), a + b) {
      WithoutBoth(ix.descs, Named(ix, n), a, b);
      WithoutSameIds(ix.descs, mid.descs, Named(mid, n), b);
    }
  }

  lemma DroppedIndexed<R>(ix: Index<R>, ids: seq<string>, ix': Index<R>, n: string, id: string)
    requires WellFormed(ix) && WellFormed(ix') && Dropped(ix, ids, ix')
    ensures Indexed(ix', n, id) <==> Indexed(ix, n, id) && id !in ids
  {
  }

  lemma {:induction false} LoopTries<R>(ix: Index<R>, n: string, s: string, reply: string -> Reply)
    requires Agree(ix)
    ensures WellFormed(ix) && TriesWell(ix, n, s, reply, Loop(ix, n, s, reply))
    decreases |Named(ix, n)|
  {
    hide Agree, Map, AfterFailure, MapTarget, Dropped, Indexed, WellFormed, Delisted, Stuck, TriesWell;
    AgreedIsWellFormed(ix);
    var (id, isNew) := MapTarget(ix, n, s);
    FirstTry(ix, n, s, reply);
    if id != "" && reply(id) == Failed && isNew && n != "" {
      FailureDrops(ix, n, s);
      var ix' := AfterFailure(ix, n, s);
      AgreedIsWellFormed(ix');
      LoopTries(ix', n, s, reply);
      OneMoreTry(ix, n, s, reply, id, ix', Loop(ix', n, s, reply), Loop(ix, n, s, reply));
    }
  }

  /** A call that does not go on to a second instance. */
  lemma FirstTry<R>(ix: Index<R>, n: string, s: string, reply: string -> Reply)
    requires Agree(ix)
    ensures var (id, isNew) := MapTarget(ix, n, s);
      && (id != "" ==> Indexed(ix, n, id) && (isNew <==> !(s in ix.mapping && n in ix.mapping[s])))
      && (id == "" || reply(id) != Failed || !isNew || n == "" ==> TriesWell(ix, n, s, reply, Loop(ix, n, s, reply)))
  {
    hide Agree, Map, AfterFailure, MapTarget, Dropped, Indexed, Delisted, Stuck, TriesWell, WellFormed;
    AgreedIsWellFormed(ix);
    EmptyTarget(ix, n, s);
    PinnedIsTarget(ix, n, s);
    var (id, isNew) := MapTarget(ix, n, s);
    if id == "" {
      NoTry(ix, n, s, reply, Loop(ix, n, s, reply));
    } else {
      TargetListed(ix, n, s);
      if reply(id) != Failed || !isNew || n == "" {
        OneTry(ix, n, s, reply, id, Loop(ix, n, s, reply));
      }
    }
  }

  lemma NoTry<R>(ix: Index<R>, n: string, s: string, reply: string -> Reply, h: Handled<R>)
    requires WellFormed(ix) && h.tried == [] && h.outcome == Unreachable
    requires s in ix.mapping && n in ix.mapping[s] ==> ix.mapping[s][n] == ""
    ensures TriesWell(ix, n, s, reply, h)
  {
  }

  lemma OneTry<R>(ix: Index<R>, n: string, s: string, reply: string -> Reply, id: string, h: Handled<R>)
    requires WellFormed(ix) && id != "" && Indexed(ix, n, id)
    requires s in ix.mapping && n in ix.mapping[s] ==> ix.mapping[s][n] == id && h.tried == [id]
    requires match reply(id)
      case Accepted => h.tried == [id] && h.outcome == Acknowledged(id)
      case SlowConsumer => h.tried == [id] && h.outcome == Slow
      case Failed => h.outcome == Unreachable && (h.tried == [id] || (n == "" && h.tried == [id, id]))
    ensures TriesWell(ix, n, s, reply, h)
  {
    hide Indexed;
  }

  lemma EmptyTarget<R>(ix: Index<R>, n: string, s: string)
    requires Agree(ix)
    ensures MapTarget(ix, n, s).0 == "" ==> !(s in ix.mapping && n in ix.mapping[s] && ix.mapping[s][n] != "")
  {
  }

  lemma PinnedIsTarget<R>(ix: Index<R>, n: string, s: string)
    requires Agree(ix)
    ensures s in ix.mapping && n in ix.mapping[s] ==> MapTarget(ix, n, s) == (ix.mapping[s][n], false)
  {
  }

  lemma OneMoreTry<R>(ix: Index<R>, n: string, s: string, reply: string -> Reply, id: string, ix': Index<R>,
                      rest: Handled<R>, h: Handled<R>)
    requires WellFormed(ix) && WellFormed(ix') && Dropped(ix, [id], ix') && TriesWell(ix', n, s, reply, rest)
    requires n != "" && id != "" && Indexed(ix, n, id) && reply(id) == Failed
    requires !(s in ix.mapping && n in ix.mapping[s])
    requires h == Handled(rest.ix, [id] + rest.tried, rest.outcome)
    ensures TriesWell(ix, n, s, reply, h)
  {
    hide Dropped, Indexed;
    forall i | i in rest.tried ensures Indexed(ix, n, i) && i != id {
      DroppedIndexed(ix, [id], ix', n, i);
    }
    PrependTried(id, rest, h);
    assert forall i | i in h.tried :: i == id || i in rest.tried;
  }

  lemma PrependTried<R>(id: string, rest: Handled<R>, h: Handled<R>)
    requires h == Handled(rest.ix, [id] + rest.tried, rest.outcome)
    requires rest.outcome == Unreachable || rest.tried != []
    requires NoDup(rest.tried) && id !in rest.tried
    ensures NoDup(h.tried) && FailedOf(h) == [id] + FailedOf(rest)
    ensures rest.tried != [] ==> h.tried[|h.tried| - 1] == rest.tried[|rest.tried| - 1]
  {
  }

  lemma {:induction false} LoopLeaves<R>(ix: Index<R>, n: string, s: string, reply: string -> Reply)
    returns (mid: Index<R>)
    requires Agree(ix) && n != ""
    ensures Leaves(ix, n, s, Loop(ix, n, s, reply), mid)
    ensures Agree(Loop(ix, n, s, reply).ix)
    decreases |Named(ix, n)|
  {
    hide Agree, Map, AfterFailure, MapTarget, Dropped, WellFormed;
    AgreedIsWellFormed(ix);
    var (id, isNew) := MapTarget(ix, n, s);
    var h := Loop(ix, n, s, reply);
    LoopKeeps(ix, n, s, reply);
    DroppedNothing(ix);
    if id == "" || reply(id) != Failed {
      mid := ix;
    } else {
      FailureDrops(ix, n, s);
      TargetListed(ix, n, s);
      var ix' := AfterFailure(ix, n, s);
      AgreedIsWellFormed(ix');
      if isNew {
        var rest := Loop(ix', n, s, reply);
        mid := LoopLeaves(ix', n, s, reply);
        LoopTries(ix', n, s, reply);
        AgreedIsWellFormed(mid);
        DroppedTwice(ix, [id], ix', FailedOf(rest), mid);
        assert [id] + FailedOf(rest) == FailedOf(h);
      } else {
        mid := ix';
      }
    }
  }

  lemma MappedThere<R>(mid: Index<R>, n: string, s: string)
    requires Agree(mid)
    ensures var m := Map(mid, n, s);
      && Agree(m)
      && (forall k, i :: Indexed(m, k, i) <==> Indexed(mid, k, i))
      && (forall t, k, i | t != s :: MapsTo(m.mapping, t, k, i) <==> MapsTo(mid.mapping, t, k, i))
  {
    MapAgrees(mid, n, s);
    MapKeepsShape(mid, n, s);
  }

  lemma UnmapShape<R>(m: Index<R>, s: string)
    requires WellFormed(m) && (m.closed ==> m.mapping == map[])
    ensures var u := Unmap(m, s);
      && u.flat == m.flat && u.descs.Keys == m.descs.Keys && s !in u.mapping
      && (forall r | r in m.descs :: u.descs[r].name == m.descs[r].name && u.descs[r].id == m.descs[r].id)
      && (forall t, k, i | t != s :: MapsTo(u.mapping, t, k, i) <==> MapsTo(m.mapping, t, k, i))
  {
  }

  lemma SameIndexed<R>(m: Index<R>, u: Index<R>)
    requires WellFormed(m) && WellFormed(u) && u.flat == m.flat && u.descs.Keys == m.descs.Keys
    requires forall r | r in m.descs :: u.descs[r].name == m.descs[r].name && u.descs[r].id == m.descs[r].id
    ensures forall k, i :: Indexed(u, k, i) <==> Indexed(m, k, i)
  {
  }

  lemma UnmappedThere<R>(m: Index<R>, s: string)
    requires Agree(m)
    ensures var u := Unmap(m, s);
      && Agree(u) && s !in u.mapping
      && (forall k, i :: Indexed(u, k, i) <==> Indexed(m, k, i))
      && (forall t, k, i | t != s :: MapsTo(u.mapping, t, k, i) <==> MapsTo(m.mapping, t, k, i))
  {
    hide Unmap, SameInstances, UniqueIds, MappingsIndexed, LoadExact, Indexed;
    UnmapAgrees(m, s);
    UnmapShape(m, s);
    SameIndexed(m, Unmap(m, s));
  }

  /** What a call leaves: exactly the failed instances are gone. With a service name exactly the mappings of other
      sockets to them are gone too; under the name "" no mapping of another socket changes. */
  ghost predicate Effect<R>(ix: Index<R>, n: string, s: string, h: Handled<R>)
    requires WellFormed(ix)
  {
    && WellFormed(h.ix) && (h.ix.closed ==> h.ix.mapping == map[])
    && (forall k, i :: Indexed(h.ix, k, i) <==> Indexed(ix, k, i) && i !in FailedOf(h))
    && (forall t, k, i | t != s :: MapsTo(h.ix.mapping, t, k, i) <==>
         MapsTo(ix.mapping, t, k, i) && (n == "" || i !in FailedOf(h)))
  }

  lemma AgreedClosedEmpty<R>(ix: Index<R>)
    requires Agree(ix)
    ensures ix.closed ==> ix.mapping == map[]
  {
  }

  lemma NamedEffect<R>(ix: Index<R>, n: string, s: string, reply: string -> Reply)
    requires Agree(ix) && n != ""
    ensures WellFormed(ix) && Effect(ix, n, s, Loop(ix, n, s, reply))
  {
    hide Agree, Map, MapTarget, WellFormed, Loop, Indexed;
    AgreedIsWellFormed(ix);
    LoopKeeps(ix, n, s, reply);
    var mid := LoopLeaves(ix, n, s, reply);
    var l := Loop(ix, n, s, reply);
    AgreedIsWellFormed(mid);
    AgreedClosedEmpty(l.ix);
    MappedThere(mid, n, s);
    forall k, i ensures Indexed(mid, k, i) <==> Indexed(ix, k, i) && i !in FailedOf(l) {
      DroppedIndexed(ix, FailedOf(l), mid, k, i);
    }
  }

  lemma UnnamedEffect<R>(ix: Index<R>, s: string, reply: string -> Reply)
    requires Agree(ix)
    ensures WellFormed(ix) && Effect(ix, "", s, Loop(ix, "", s, reply))
  {
    hide Agree, Map, MapTarget, WellFormed, Indexed, AfterFailure, Stuck;
    AgreedIsWellFormed(ix);
    var id := MapTarget(ix, "", s).0;
    MappedThere(ix, "", s);
    AgreedIsWellFormed(Map(ix, "", s));
    AgreedClosedEmpty(Map(ix, "", s));
    if id != "" && reply(id) == Failed {
      FailureDrops(ix, "", s);
      UnnamedFailure(ix, s);
      DelistedIndexed(Map(ix, "", s), id, AfterFailure(ix, "", s));
    }
  }

  lemma LoopEffect<R>(ix: Index<R>, n: string, s: string, reply: string -> Reply)
    requires Agree(ix)
    ensures WellFormed(ix) && Effect(ix, n, s, Loop(ix, n, s, reply))
  {
    hide Agree, Effect, Loop;
    if n == "" {
      UnnamedEffect(ix, s, reply);
    } else {
      NamedEffect(ix, n, s, reply);
    }
  }

  /** A Handle call removes exactly the instances that failed it. With a service name the mappings of other sockets to
      them go too, and nothing else; under the name "" those mappings stay, to an instance that is gone. */
  lemma HandleRemovesFailed<R>(ix: Index<R>, n: string, s: string, reply: string -> Reply)
    requires Agree(ix)
    ensures WellFormed(ix) && Effect(ix, n, s, Handle(ix, n, s, reply))
  {
    hide Agree, Unmap, WellFormed, Loop, Indexed;
    LoopEffect(ix, n, s, reply);
    LoopKeeps(ix, n, s, reply);
    var l := Loop(ix, n, s, reply);
    UnmapShape(l.ix, s);
    UnmapWellFormed(l.ix, s);
    SameIndexed(l.ix, Unmap(l.ix, s));
    assert FailedOf(Handle(ix, n, s, reply)) == FailedOf(l);
  }

  lemma UnmapWellFormed<R>(m: Index<R>, s: string)
    requires WellFormed(m)
    ensures WellFormed(Unmap(m, s)) && Unmap(m, s).closed == m.closed
          && ((m.closed ==> m.mapping == map[]) ==> (m.closed ==> Unmap(m, s).mapping == map[]))
  {
  }

  /** After a failure under the name "", once the socket is unmapped: base is the index with the socket unmapped
      before. */
  lemma DelistedUnmapped<R>(m: Index<R>, s: string, id: string, ix': Index<R>, q: R)
    requires Agree(m) && WellFormed(ix') && Delisted(m, id, ix') && !m.closed && MapsTo(m.mapping, s, "", id)
    requires q in m.flat && m.descs[q].id != id
    ensures Unmap(ix', s).descs[q] == Unmap(m, s).descs[q]
  {
    hide LoadExact, MappingsIndexed;
    ReleasesExactly(m, s, q);
    var k := m.descs[q].name;
    assert Named(ix', k) == WithoutIds(m.descs, Named(m, k), [id]);
    if s in m.mapping && k in m.mapping[s] {
      FirstAmongRest(m.descs, Named(m, k), id, m.mapping[s][k]);
    }
    StillReleases(m, s, id, ix', q);
  }

  ghost function FirstOf<R>(descs: map<R, Desc>, rs: seq<R>, id: string): Option<R>
    requires forall r | r in rs :: r in descs
  {
    if rs == [] then None else if descs[rs[0]].id == id then Some(rs[0]) else FirstOf(descs, rs[1..], id)
  }

  lemma {:induction false} FirstOfMeans<R>(descs: map<R, Desc>, rs: seq<R>, id: string)
    requires forall r | r in rs :: r in descs
    ensures FirstOf(descs, rs, id) == if HasId(descs, rs, id) then Some(rs[FirstWithId(descs, rs, id)]) else None
  {
    if rs != [] {
      FirstOfMeans(descs, rs[1..], id);
    }
  }

  lemma {:induction false} FirstOfRest<R>(descs: map<R, Desc>, rs: seq<R>, id: string, i: string)
    requires forall r | r in rs :: r in descs
    ensures FirstOf(descs, WithoutIds(descs, rs, [id]), i) == if i == id then None else FirstOf(descs, rs, i)
  {
    if rs != [] {
      FirstOfRest(descs, rs[1..], id, i);
      var rest := WithoutIds(descs, rs[1..], [id]);
      if descs[rs[0]].id != id {
        assert ([rs[0]] + rest)[0] == rs[0] && ([rs[0]] + rest)[1..] == rest;
      }
    }
  }

  /** Dropping the instances of one ID does not change which instance another ID finds. */
  lemma FirstAmongRest<R>(descs: map<R, Desc>, rs: seq<R>, id: string, i: string)
    requires forall r | r in rs :: r in descs
    ensures var rest := WithoutIds(descs, rs, [id]);
      i != id ==>
        && (HasId(descs, rest, i) <==> HasId(descs, rs, i))
        && (HasId(descs, rs, i) ==> rest[FirstWithId(descs, rest, i)] == rs[FirstWithId(descs, rs, i)])
    ensures !HasId(descs, WithoutIds(descs, rs, [id]), id)
  {
    hide WithoutIds, FirstOf, FirstWithId;
    var rest := WithoutIds(descs, rs, [id]);
    FirstOfMeans(descs, rs, i);
    FirstOfMeans(descs, rest, i);
    FirstOfRest(descs, rs, id, i);
    FirstOfMeans(descs, rest, id);
    FirstOfRest(descs, rs, id, id);
  }

  lemma StillReleases<R>(m: Index<R>, s: string, id: string, ix': Index<R>, q: R)
    requires WellFormed(m) && WellFormed(ix') && Delisted(m, id, ix') && !m.closed && s in m.mapping && q in m.descs
    requires var k := m.descs[q].name;
      k in m.mapping[s] ==>
        var i := m.mapping[s][k];
        && (i != id ==>
              && (HasId(m.descs, Named(ix', k), i) <==> HasId(m.descs, Named(m, k), i))
              && (HasId(m.descs, Named(m, k), i) ==>
                    Named(ix', k)[FirstWithId(m.descs, Named(ix', k), i)]
                      == Named(m, k)[FirstWithId(m.descs, Named(m, k), i)]))
        && !HasId(m.descs, Named(ix', k), id)
    requires m.descs[q].id != id
    ensures Unmap(ix', s).descs[q] == Unmap(m, s).descs[q]
  {
    hide WithoutIds;
    ReleasesNamed(m, s, q);
    ReleasesNamed(ix', s, q);
  }

  lemma ReleasesNamed<R>(m: Index<R>, s: string, q: R)
    requires WellFormed(m) && q in m.descs
    ensures var k := m.descs[q].name;
      Releases(m, s, q) <==>
        (s in m.mapping && k in m.mapping[s] && HasId(m.descs, Named(m, k), m.mapping[s][k])
         && Named(m, k)[FirstWithId(m.descs, Named(m, k), m.mapping[s][k])] == q)
  {
  }

  /** The index without the instance and the socket, with the loads of the index that never had the instance mapped. */
  lemma UnnamedBase<R>(m: Index<R>, s: string, id: string, ix': Index<R>)
    requires Agree(m) && WellFormed(ix') && Delisted(m, id, ix') && !m.closed && MapsTo(m.mapping, s, "", id)
    requires forall t, k | t != s :: !MapsTo(m.mapping, t, k, id)
    requires forall k | k in ix'.byName :: ix'.byName[k] != []
    ensures Agree(Unmap(m, s)) && Agree(Unmap(ix', s).(descs := Unmap(m, s).descs))
    ensures forall q | q in Unmap(ix', s).flat :: q in m.flat && m.descs[q].id != id
  {
    hide Agree, WithoutIds, Unmap, Named, Without, Delisted;
    AgreedIsWellFormed(m);
    UnmapAgrees(m, s);
    var base, u := Unmap(m, s), Unmap(ix', s);
    AgreedIsWellFormed(base);
    WithoutUnmapped(m, s, id, ix', base);
    MappedNonempty(base);
    WithoutAgrees(base, [id], u.(descs := base.descs));
  }

  /** Without another socket mapped to it, the failed instance leaves no trace. */
  lemma UnnamedRestores<R>(m: Index<R>, s: string, id: string, ix': Index<R>)
    requires Agree(m) && WellFormed(ix') && Delisted(m, id, ix') && !m.closed && MapsTo(m.mapping, s, "", id)
    requires forall t, k | t != s :: !MapsTo(m.mapping, t, k, id)
    requires forall k | k in ix'.byName :: ix'.byName[k] != []
    ensures Agree(Unmap(ix', s))
  {
    hide Agree, Unmap, Delisted;
    UnnamedBase(m, s, id, ix');
    AgreedIsWellFormed(m);
    var base, u := Unmap(m, s), Unmap(ix', s);
    var u2 := u.(descs := base.descs);
    AgreedIsWellFormed(u2);
    forall q | q in u2.flat ensures u.descs[q] == base.descs[q] {
      DelistedUnmapped(m, s, id, ix', q);
    }
    SameShapeAgrees(u2, u);
  }

  lemma MappedNonempty<R>(ix: Index<R>)
    requires Agree(ix)
    ensures forall t | t in ix.mapping :: ix.mapping[t] != map[]
  {
  }

  lemma UnmapMapping<R>(m: Index<R>, s: string)
    requires WellFormed(m) && !m.closed
    ensures var u := Unmap(m, s);
      && u.mapping == m.mapping - {s} && u.flat == m.flat && u.byName == m.byName && !u.closed
      && u.descs.Keys == m.descs.Keys
      && forall r | r in m.descs :: u.descs[r].name == m.descs[r].name && u.descs[r].id == m.descs[r].id
  {
  }

  lemma WithoutUnmapped<R>(m: Index<R>, s: string, id: string, ix': Index<R>, base: Index<R>)
    requires WellFormed(m) && WellFormed(ix') && Delisted(m, id, ix') && !m.closed && base == Unmap(m, s)
    requires WellFormed(base)
    requires forall t, k | t != s :: !MapsTo(m.mapping, t, k, id)
    ensures Without(base, [id], Unmap(ix', s).(descs := base.descs)) && WellFormed(Unmap(ix', s).(descs := base.descs))
    ensures Unmap(ix', s).mapping == base.mapping && Unmap(ix', s).byName == ix'.byName && !base.closed
    ensures forall q | q in Unmap(ix', s).flat :: q in m.flat && m.descs[q].id != id
  {
    hide Unmap, WithoutIds, MapsTo, WellFormed, Without, Named;
    UnmapMapping(m, s);
    UnmapMapping(ix', s);
    var u2 := Unmap(ix', s).(descs := base.descs);
    SameDescsFormed(ix', u2);
    LeftListed(m, id, ix');
    MappingWithout(m.mapping, s, id);
    DelistedWithout(m, id, ix', base, u2);
  }

  lemma SameDescsFormed<R>(a: Index<R>, b: Index<R>)
    requires WellFormed(a) && b.flat == a.flat && b.byName == a.byName && b.descs.Keys == a.descs.Keys
    requires forall r | r in a.descs :: b.descs[r].name == a.descs[r].name
    ensures WellFormed(b)
  {
  }

  lemma LeftListed<R>(m: Index<R>, id: string, ix': Index<R>)
    requires WellFormed(m) && Delisted(m, id, ix')
    ensures forall q | q in ix'.flat :: q in m.flat && m.descs[q].id != id
  {
  }

  /** Leaving an instance out of the listings is the same whatever is mapped. */
  lemma DelistedWithout<R>(m: Index<R>, id: string, ix': Index<R>, base: Index<R>, u: Index<R>)
    requires WellFormed(m) && WellFormed(base) && Delisted(m, id, ix') && u.descs == base.descs
    requires u.closed == base.closed
    requires base.flat == m.flat && base.byName == m.byName && u.flat == ix'.flat && u.byName == ix'.byName
    requires forall r | r in m.descs :: r in base.descs && base.descs[r].id == m.descs[r].id
    requires u.mapping == base.mapping
    requires forall t, k, i | MapsTo(base.mapping, t, k, i) :: i !in [id]
    ensures Without(base, [id], u)
  {
    hide WithoutIds, Named, MapsTo;
    KnownListed(m);
    WithoutSameIds(m.descs, base.descs, m.flat, [id]);
    forall k ensures forall r | r in Named(base, k) :: r in base.descs {
      NamedKnownIn(base, k);
    }
    forall k ensures Named(u, k) == WithoutIds(base.descs, Named(base, k), [id]) {
      SameListed(u, ix', k);
      SameListed(base, m, k);
      NamedKnownIn(m, k);
      WithoutSameIds(m.descs, base.descs, Named(m, k), [id]);
    }
  }

  lemma KnownListed<R>(ix: Index<R>)
    requires WellFormed(ix)
    ensures forall r | r in ix.flat :: r in ix.descs
  {
  }

  lemma SameListed<R>(a: Index<R>, b: Index<R>, k: string)
    requires a.byName == b.byName
    ensures Named(a, k) == Named(b, k)
  {
  }

  lemma NamedKnownIn<R>(ix: Index<R>, k: string)
    requires WellFormed(ix)
    ensures forall r | r in Named(ix, k) :: r in ix.descs
  {
  }

  lemma MappingWithout(m: map<string, map<string, string>>, s: string, id: string)
    requires forall t, k | t != s :: !MapsTo(m, t, k, id)
    ensures forall t, k, i | MapsTo(m - {s}, t, k, i) :: i !in [id]
  {
    forall t, k, i | MapsTo(m - {s}, t, k, i) ensures i != id {
      assert t != s && MapsTo(m, t, k, i);
    }
  }

  /** A call keeps the structures of the index in agreement exactly if the service has a name, or no other socket was
      mapped to the instance that failed. */
  lemma HandleAgrees<R>(ix: Index<R>, n: string, s: string, reply: string -> Reply)
    requires Agree(ix)
    ensures Agree(Handle(ix, n, s, reply).ix) <==>
      n != "" || forall t, id | t != s && id in FailedOf(Handle(ix, n, s, reply)) :: !MapsTo(ix.mapping, t, n, id)
  {
    hide Agree, Unmap, Loop, Map, MapTarget, AfterFailure, WellFormed;
    AgreedIsWellFormed(ix);
    LoopKeeps(ix, n, s, reply);
    var l := Loop(ix, n, s, reply);
    if n != "" || l.outcome != Unreachable {
      UnmapAgrees(l.ix, s);
    }
    if n == "" {
      UnnamedAgrees(ix, s, reply);
    }
  }

  lemma MappedIsIndexed<R>(ix: Index<R>, t: string, k: string, id: string)
    requires Agree(ix) && MapsTo(ix.mapping, t, k, id)
    ensures Indexed(ix, k, id)
  {
  }

  lemma SameNameMapped<R>(ix: Index<R>, n: string, id: string, t: string, k: string)
    requires Agree(ix) && Indexed(ix, n, id) && MapsTo(ix.mapping, t, k, id)
    ensures k == n
  {
    assert Indexed(ix, k, id);
  }

  lemma UnnamedAgrees<R>(ix: Index<R>, s: string, reply: string -> Reply)
    requires Agree(ix)
    ensures Agree(Handle(ix, "", s, reply).ix) <==>
      forall t, id | t != s && id in FailedOf(Handle(ix, "", s, reply)) :: !MapsTo(ix.mapping, t, "", id)
  {
    hide Agree, Unmap, Map, MapTarget, AfterFailure, WellFormed, Indexed, Stuck;
    AgreedIsWellFormed(ix);
    LoopKeeps(ix, "", s, reply);
    var l, h, id := Loop(ix, "", s, reply), Handle(ix, "", s, reply), MapTarget(ix, "", s).0;
    if id == "" || reply(id) != Failed {
      MapAgrees(ix, "", s);
      UnmapAgrees(l.ix, s);
    } else {
      assert forall i :: i in FailedOf(h) <==> i == id;
      UnnamedFailedAgrees(ix, s);
    }
  }

  lemma UnnamedFailedAgrees<R>(ix: Index<R>, s: string)
    requires Agree(ix) && MapTarget(ix, "", s) != ("", false)
    ensures WellFormed(AfterFailure(ix, "", s))
    ensures Agree(Unmap(AfterFailure(ix, "", s), s)) <==>
      forall t | t != s :: !MapsTo(ix.mapping, t, "", MapTarget(ix, "", s).0)
  {
    hide Agree, Unmap, Map, MapTarget, AfterFailure, WellFormed, Indexed;
    AgreedIsWellFormed(ix);
    var m, id, ix' := Map(ix, "", s), MapTarget(ix, "", s).0, AfterFailure(ix, "", s);
    UnnamedFailure(ix, s);
    TargetListed(ix, "", s);
    MappedThere(ix, "", s);
    AgreedIsWellFormed(m);
    DelistedIndexed(m, id, ix');
    UnmapShape(ix', s);
    UnmapWellFormed(ix', s);
    SameIndexed(ix', Unmap(ix', s));
    if t :| t != s && MapsTo(ix.mapping, t, "", id) {
      assert MapsTo(Unmap(ix', s).mapping, t, "", id);
      if Agree(Unmap(ix', s)) {
        MappedIsIndexed(Unmap(ix', s), t, "", id);
        assert false;
      }
    } else {
      forall t, k | t != s ensures !MapsTo(m.mapping, t, k, id) {
        if MapsTo(ix.mapping, t, k, id) {
          SameNameMapped(ix, "", id, t, k);
          assert false;
        }
      }
      NamesListed(ix, s);
      UnnamedRestores(m, s, id, ix');
    }
  }

  lemma NamesListed<R>(ix: Index<R>, s: string)
    requires Agree(ix) && MapTarget(ix, "", s) != ("", false)
    ensures forall k | k in AfterFailure(ix, "", s).byName :: AfterFailure(ix, "", s).byName[k] != []
  {
    hide Agree, Map, MapTarget, DropNamed, DropFlat, HasId;
    AgreedIsWellFormed(ix);
    TargetListed(ix, "", s);
    var m := Map(ix, "", s);
    NonemptyNames(m);
    DropKeepsNonempty(m, "", MapTarget(ix, "", s).0);
  }

  lemma NonemptyNames<R>(ix: Index<R>)
    requires Agree(ix)
    ensures WellFormed(ix) && forall k | k in ix.byName :: ix.byName[k] != []
  {
  }

  lemma DropKeepsNonempty<R>(m: Index<R>, n: string, id: string)
    requires WellFormed(m) && n in m.byName && HasId(m.descs, m.byName[n], id)
    requires forall k | k in m.byName :: m.byName[k] != []
    ensures forall k | k in DropNamed(m, n, id) :: DropNamed(m, n, id)[k] != []
  {
  }

  /** Handle ends with the message acknowledged by exactly one instance, to which the socket is then pinned, or by
      none and the socket unmapped. Either way every instance of a named service is asked at most once, and a pinned
      socket's message goes to its instance only. Who has the message is another matter: see WhoHasIt. */
  lemma HandleEnds<R>(ix: Index<R>, n: string, s: string, reply: string -> Reply)
    requires Agree(ix)
    ensures WellFormed(ix) && TriesWell(ix, n, s, reply, Handle(ix, n, s, reply))
    ensures var h := Handle(ix, n, s, reply);
      if h.outcome.Acknowledged? then
        && WellFormed(h.ix) && MapTarget(h.ix, n, s) == (h.outcome.id, false)
        && (forall id | id in h.tried :: reply(id) == Accepted <==> id == h.outcome.id)
      else
        s !in h.ix.mapping && forall id | id in h.tried :: reply(id) != Accepted
  {
    hide Agree, Map, Unmap, MapTarget, WellFormed, Loop, Indexed, Effect, NoDup;
    AgreedIsWellFormed(ix);
    LoopTries(ix, n, s, reply);
    LoopKeeps(ix, n, s, reply);
    LoopEffect(ix, n, s, reply);
    var l, h := Loop(ix, n, s, reply), Handle(ix, n, s, reply);
    assert FailedOf(h) == FailedOf(l) && TriesWell(ix, n, s, reply, h);
    WhoAccepted(ix, n, s, reply, l);
    if l.outcome.Acknowledged? {
      AcknowledgedPins(ix, n, s, reply);
    } else {
      EffectOpen(ix, n, s, l);
      UnmapShape(l.ix, s);
    }
  }

  lemma EffectOpen<R>(ix: Index<R>, n: string, s: string, h: Handled<R>)
    requires WellFormed(ix) && Effect(ix, n, s, h)
    ensures WellFormed(h.ix) && (h.ix.closed ==> h.ix.mapping == map[])
  {
  }

  lemma {:induction false} AcknowledgedPins<R>(ix: Index<R>, n: string, s: string, reply: string -> Reply)
    requires Agree(ix)
    ensures var l := Loop(ix, n, s, reply);
      l.outcome.Acknowledged? ==> WellFormed(l.ix) && MapTarget(l.ix, n, s) == (l.outcome.id, false)
    decreases |Named(ix, n)|
  {
    hide Agree, Map, MapTarget, WellFormed, AfterFailure, Stuck, Delisted, Dropped;
    AgreedIsWellFormed(ix);
    var (id, isNew) := MapTarget(ix, n, s);
    LoopKeeps(ix, n, s, reply);
    if id != "" {
      TargetListed(ix, n, s);
      PinnedTarget(Map(ix, n, s), s, n, id);
      if reply(id) == Failed && isNew && n != "" {
        FailureDrops(ix, n, s);
        AcknowledgedPins(AfterFailure(ix, n, s), n, s, reply);
      }
    }
  }

  lemma WhoAccepted<R>(ix: Index<R>, n: string, s: string, reply: string -> Reply, h: Handled<R>)
    requires WellFormed(ix) && TriesWell(ix, n, s, reply, h)
    ensures forall id | id in h.tried :: reply(id) == Accepted <==> h.outcome == Acknowledged(id)
  {
    forall id | id in h.tried && id !in FailedOf(h) ensures reply(id) == Accepted <==> h.outcome == Acknowledged(id) {
      assert id == h.tried[|h.tried| - 1];
    }
  }

  /** An instance that rejects the socket as a slow consumer stays indexed; the socket is unmapped. */
  lemma SlowStaysIndexed<R>(ix: Index<R>, n: string, s: string, reply: string -> Reply)
    requires Agree(ix) && Handle(ix, n, s, reply).outcome == Slow
    ensures var h := Handle(ix, n, s, reply);
      && h.tried != [] && reply(h.tried[|h.tried| - 1]) == SlowConsumer
      && WellFormed(h.ix) && Indexed(h.ix, n, h.tried[|h.tried| - 1]) && s !in h.ix.mapping
  {
    hide Agree, Handle, WellFormed, Indexed, NoDup;
    HandleEnds(ix, n, s, reply);
    HandleRemovesFailed(ix, n, s, reply);
    var h := Handle(ix, n, s, reply);
    assert h.tried[|h.tried| - 1] in h.tried;
  }

  /** An unpinned socket's message is acknowledged, when no instance answers slow consumer, exactly if some instance of
      the service accepts it; for a service named "", exactly if the least loaded one does. */
  lemma AcknowledgedIff<R>(ix: Index<R>, n: string, s: string, reply: string -> Reply)
    requires Agree(ix) && !(s in ix.mapping && n in ix.mapping[s])
    requires forall id | Indexed(ix, n, id) :: id != "" && reply(id) != SlowConsumer
    ensures WellFormed(ix)
    ensures Handle(ix, n, s, reply).outcome.Acknowledged? <==>
      if n != "" then exists id :: Indexed(ix, n, id) && reply(id) == Accepted
      else MapTarget(ix, n, s).0 != "" && reply(MapTarget(ix, n, s).0) == Accepted
  {
    hide Agree, MapTarget, Map, WellFormed, Handle, Loop;
    HandleEnds(ix, n, s, reply);
    AgreedIsWellFormed(ix);
    var h := Handle(ix, n, s, reply);
    if n == "" {
      UnnamedAcknowledged(ix, s, reply);
    } else if h.outcome.Acknowledged? {
      assert h.outcome.id in h.tried;
    } else {
      SomeoneSlow(ix, n, s, reply, h);
      AllFailed(ix, n, s, reply);
    }
  }

  lemma UnnamedAcknowledged<R>(ix: Index<R>, s: string, reply: string -> Reply)
    requires Agree(ix)
    ensures WellFormed(ix)
    ensures Handle(ix, "", s, reply).outcome.Acknowledged? <==>
      MapTarget(ix, "", s).0 != "" && reply(MapTarget(ix, "", s).0) == Accepted
  {
    hide Agree, MapTarget, Map, AfterFailure, Unmap;
    AgreedIsWellFormed(ix);
  }

  // --- Who has the message ---

  /** What an answer tells about who has the message: an acknowledgment means that the attempt reached its instance, a
      slow-consumer rejection that it did not, and a failure tells nothing. */
  ghost predicate Tells(reply: string -> Reply, got: string -> bool) {
    && (forall id | reply(id) == Accepted :: got(id))
    && (forall id | reply(id) == SlowConsumer :: !got(id))
  }

  /** The instances that have the message after a call. */
  ghost function Holders<R>(h: Handled<R>, got: string -> bool): set<string> {
    set id | id in h.tried && got(id)
  }

  /** The failed attempts whose instance has the message all the same. */
  ghost function HiddenHolders<R>(h: Handled<R>, got: string -> bool): set<string> {
    set id | id in FailedOf(h) && got(id)
  }

  /** What holds of the tries of any call. */
  ghost predicate Answers<R>(reply: string -> Reply, h: Handled<R>) {
    && (forall id | id in FailedOf(h) :: reply(id) == Failed)
    && (h.outcome.Acknowledged? ==> h.tried == FailedOf(h) + [h.outcome.id] && reply(h.outcome.id) == Accepted)
    && (h.outcome.Slow? ==> h.tried != [] && reply(h.tried[|h.tried| - 1]) == SlowConsumer)
  }

  lemma TriesAnswer<R>(ix: Index<R>, n: string, s: string, reply: string -> Reply, h: Handled<R>)
    requires WellFormed(ix) && TriesWell(ix, n, s, reply, h)
    ensures Answers(reply, h)
  {
  }

  lemma TriedSplit<R>(h: Handled<R>)
    ensures forall id | id in FailedOf(h) :: id in h.tried
    ensures forall id | id in h.tried && id !in FailedOf(h) :: h.outcome != Unreachable && id == h.tried[|h.tried| - 1]
  {
  }

  lemma HoldersOf<R>(reply: string -> Reply, got: string -> bool, h: Handled<R>)
    requires Answers(reply, h) && Tells(reply, got)
    ensures Holders(h, got) == HiddenHolders(h, got) + if h.outcome.Acknowledged? then {h.outcome.id} else {}
    ensures h.outcome.Acknowledged? ==> h.outcome.id !in FailedOf(h)
  {
    TriedSplit(h);
  }

  /** Who has the message after a call: the instance that acknowledged it, if any, and every instance whose failure
      hid that it had arrived. So an acknowledged message is with exactly one instance, and an unacknowledged one with
      none, exactly if no failure hid an arrival. */
  lemma WhoHasIt<R>(ix: Index<R>, n: string, s: string, reply: string -> Reply, got: string -> bool)
    requires Agree(ix) && Tells(reply, got)
    ensures var h := Handle(ix, n, s, reply);
      if h.outcome.Acknowledged? then
        && Holders(h, got) == HiddenHolders(h, got) + {h.outcome.id} && h.outcome.id !in FailedOf(h)
        && (|Holders(h, got)| == 1 <==> forall id | id in FailedOf(h) :: !got(id))
      else
        && Holders(h, got) == HiddenHolders(h, got)
        && (Holders(h, got) == {} <==> forall id | id in FailedOf(h) :: !got(id))
  {
    hide Agree, Handle, WellFormed, TriesWell, Answers, Holders;
    HandleEnds(ix, n, s, reply);
    var h := Handle(ix, n, s, reply);
    TriesAnswer(ix, n, s, reply, h);
    HoldersOf(reply, got, h);
    var hidden := HiddenHolders(h, got);
    assert (forall id | id in FailedOf(h) :: !got(id)) <==> hidden == {} by {
      assert forall id :: id in hidden <==> id in FailedOf(h) && got(id);
    }
    if h.outcome.Acknowledged? {
      assert h.outcome.id !in hidden && |hidden + {h.outcome.id}| == |hidden| + 1;
    }
  }

  /** One message can be with two instances: whenever a service has a second instance, a failure that hides the
      message's arrival at the first makes the call send it to another one, which acknowledges it. */
  lemma TwoHaveIt<R>(ix: Index<R>, n: string, s: string)
    returns (reply: string -> Reply, got: string -> bool, first: string)
    requires Agree(ix) && n != "" && !(s in ix.mapping && n in ix.mapping[s])
    requires exists a, b :: a != b && Indexed(ix, n, a) && Indexed(ix, n, b)
    requires forall id | Indexed(ix, n, id) :: id != ""
    ensures Tells(reply, got)
    ensures var h := Handle(ix, n, s, reply);
      && h.outcome.Acknowledged? && first in FailedOf(h) && first != h.outcome.id
      && Holders(h, got) == {first, h.outcome.id}
  {
    hide Agree, Handle, WellFormed, NoDup, Indexed, MapTarget;
    AgreedIsWellFormed(ix);
    first := MapTarget(ix, n, s).0;
    reply := id => if id == MapTarget(ix, n, s).0 then Failed else Accepted;
    got := id => true;
    var a, b :| a != b && Indexed(ix, n, a) && Indexed(ix, n, b);
    assert reply(a) == Accepted || reply(b) == Accepted;
    AcknowledgedIff(ix, n, s, reply);
    HandleEnds(ix, n, s, reply);
    WhoHasIt(ix, n, s, reply, got);
    FirstTried(ix, n, s, reply);
    var h := Handle(ix, n, s, reply);
    assert h.outcome.id in h.tried && first in h.tried;
    assert HiddenHolders(h, got) == {first};
  }

  lemma FirstTried<R>(ix: Index<R>, n: string, s: string, reply: string -> Reply)
    requires Agree(ix)
    ensures var h, id := Handle(ix, n, s, reply), MapTarget(ix, n, s).0;
      if id == "" then h.tried == [] else h.tried != [] && h.tried[0] == id
  {
    hide Agree, MapTarget, Map, AfterFailure, Unmap;
  }

  lemma SomeoneSlow<R>(ix: Index<R>, n: string, s: string, reply: string -> Reply, h: Handled<R>)
    requires WellFormed(ix) && TriesWell(ix, n, s, reply, h)
    ensures h.outcome == Slow ==> exists id :: Indexed(ix, n, id) && reply(id) == SlowConsumer
  {
    if h.outcome == Slow {
      assert h.tried[|h.tried| - 1] in h.tried;
    }
  }

  /** When an unpinned socket is found unreachable, every instance of the named service was tried and failed; under
      the name "" only the least loaded one was. */
  lemma AllFailed<R>(ix: Index<R>, n: string, s: string, reply: string -> Reply)
    requires Agree(ix) && !(s in ix.mapping && n in ix.mapping[s])
    requires Handle(ix, n, s, reply).outcome == Unreachable && forall id | Indexed(ix, n, id) :: id != ""
    ensures WellFormed(ix)
    ensures if n != "" then forall id | Indexed(ix, n, id) :: id in Handle(ix, n, s, reply).tried && reply(id) == Failed
      else MapTarget(ix, n, s).0 != "" ==> reply(MapTarget(ix, n, s).0) == Failed
  {
    hide Agree, Loop, WellFormed, Dropped, Map, MapTarget, NoDup;
    AgreedIsWellFormed(ix);
    LoopTries(ix, n, s, reply);
    var l := Loop(ix, n, s, reply);
    if n == "" {
      UnnamedUnreachable(ix, s, reply);
    } else {
      var mid := LoopLeaves(ix, n, s, reply);
      AgreedIsWellFormed(mid);
      NonemptyTarget(ix, FailedOf(l), mid, n, s);
      forall id | Indexed(ix, n, id) ensures id in FailedOf(l) {
        DroppedIndexed(ix, FailedOf(l), mid, n, id);
      }
    }
  }

  lemma UnnamedUnreachable<R>(ix: Index<R>, s: string, reply: string -> Reply)
    requires Agree(ix) && Loop(ix, "", s, reply).outcome == Unreachable
    ensures WellFormed(ix)
    ensures MapTarget(ix, "", s).0 != "" ==> reply(MapTarget(ix, "", s).0) == Failed
  {
    hide Agree, MapTarget, Map, AfterFailure;
    AgreedIsWellFormed(ix);
  }

  lemma NonemptyTarget<R>(ix: Index<R>, ids: seq<string>, mid: Index<R>, n: string, s: string)
    requires WellFormed(ix) && Agree(mid) && Dropped(ix, ids, mid) && !(s in ix.mapping && n in ix.mapping[s])
    requires forall id | Indexed(ix, n, id) :: id != ""
    ensures MapTarget(mid, n, s).0 == "" ==> forall id :: !Indexed(mid, n, id)
  {
    hide Agree, MapTarget, WithoutIds, Dropped;
    AgreedIsWellFormed(mid);
    if MapTarget(mid, n, s) != ("", false) {
      TargetListed(mid, n, s);
      DroppedIndexed(ix, ids, mid, n, MapTarget(mid, n, s).0);
    } else {
      NothingListed(ix, ids, mid, n, s);
    }
  }

  lemma NotMapped<R>(ix: Index<R>, n: string, s: string)
    requires Agree(ix) && MapTarget(ix, n, s) == ("", false) && !(s in ix.mapping && n in ix.mapping[s])
    ensures Named(ix, n) == []
    ensures forall id :: !HasId(ix.descs, Named(ix, n), id)
  {
  }

  lemma NothingListed<R>(ix: Index<R>, ids: seq<string>, mid: Index<R>, n: string, s: string)
    requires WellFormed(ix) && Agree(mid) && Dropped(ix, ids, mid) && !(s in ix.mapping && n in ix.mapping[s])
    requires MapTarget(mid, n, s) == ("", false)
    ensures forall id :: !Indexed(mid, n, id)
  {
    hide WithoutIds, SameInstances, UniqueIds, MappingsIndexed, LoadExact, HasId;
    assert s in mid.mapping && n in mid.mapping[s] ==> MapsTo(mid.mapping, s, n, mid.mapping[s][n]);
    NotMapped(mid, n, s);
    forall id ensures !Indexed(mid, n, id) {
      LookupFinds(mid, n, id);
    }
  }

  lemma OneLeft(m: map<string, map<string, string>>, s: string, n: string, id: string)
    requires MapsTo(m, s, n, id)
    ensures !MapsTo(EraseFrom(m, n, id), s, n, id)
  {
  }

  /** After a new mapping's instance fails, the next turn goes elsewhere exactly if the service has a name: under the
      empty name the failed instance is unset but its mappings are not erased, so the socket is sent to it again and,
      no longer being new, closed, whatever the other instances would answer. */
  lemma RetryMovesOn<R>(ix: Index<R>, n: string, s: string, id: string)
    requires Agree(ix) && MapTarget(ix, n, s) == (id, true) && id != ""
    ensures WellFormed(AfterFailure(ix, n, s))
    ensures MapTarget(AfterFailure(ix, n, s), n, s) != (id, false) <==> n != ""
  {
    hide Agree, UnsetAt, Map, MapTarget, ValidPick;
    AgreedIsWellFormed(ix);
    TargetListed(ix, n, s);
    var m := Map(ix, n, s);
    UnsetMapping(m, id, n);
    var ix' := AfterFailure(ix, n, s);
    OneLeft(m.mapping, s, n, id);
    TargetOf(ix', n, s, id);
  }

  lemma UnsetMapping<R>(m: Index<R>, id: string, n: string)
    requires WellFormed(m) && !m.closed && ValidPick(m, id, Some(n))
    ensures var u := UnsetAt(m, id, Some(n));
      !u.closed && u.mapping == if n == "" then m.mapping else EraseFrom(m.mapping, n, id)
  {
  }

  lemma TargetOf<R>(ix: Index<R>, n: string, s: string, id: string)
    requires WellFormed(ix) && !ix.closed
    ensures id != "" ==> (MapTarget(ix, n, s) == (id, false) <==> MapsTo(ix.mapping, s, n, id))
  {
  }
}
