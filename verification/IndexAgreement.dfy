/** The four structures of the index agree in every reachable state, and the
    exact inputs under which one operation would break that agreement. */
module IndexAgreement {
  import opened Sequences
  import opened IndexModel

  /** `descriptors` and `servicesByName` list the same instances, each once, and no name keeps an empty list. */
  ghost predicate SameInstances<R>(ix: Index<R>)
    requires WellFormed(ix)
  {
    && NoDup(ix.flat)
    && (forall n | n in ix.byName :: ix.byName[n] != [] && NoDup(ix.byName[n]))
    && (forall n, r | n in ix.byName && r in ix.byName[n] :: r in ix.flat)
    && (forall r | r in ix.flat :: ix.descs[r].name in ix.byName && r in ix.byName[ix.descs[r].name])
  }

  ghost predicate UniqueIds<R>(ix: Index<R>)
    requires WellFormed(ix)
  {
    forall r, q | r in ix.flat && q in ix.flat && ix.descs[r].id == ix.descs[q].id :: r == q
  }

  ghost predicate Indexed<R>(ix: Index<R>, n: string, id: string)
    requires WellFormed(ix)
  {
    exists r :: r in ix.flat && ix.descs[r].name == n && ix.descs[r].id == id
  }

  /** Every mapping names an indexed instance of that service. */
  ghost predicate MappingsIndexed<R>(ix: Index<R>)
    requires WellFormed(ix)
  {
    && (forall s | s in ix.mapping :: ix.mapping[s] != map[])
    && (forall s, n | s in ix.mapping && n in ix.mapping[s] :: Indexed(ix, n, ix.mapping[s][n]))
  }

  /** r's socketIDs list, without duplicates, exactly the sockets mapped to r. */
  ghost predicate LoadExact<R>(ix: Index<R>, r: R)
    requires r in ix.descs
  {
    var d := ix.descs[r];
    && NoDup(d.sockets)
    && forall s :: s in d.sockets <==> MapsTo(ix.mapping, s, d.name, d.id)
  }

  ghost predicate Agree<R>(ix: Index<R>) {
    && WellFormed(ix)
    && (ix.closed ==> ix.flat == [] && ix.byName == map[] && ix.mapping == map[])
    && SameInstances(ix)
    && UniqueIds(ix)
    && MappingsIndexed(ix)
    && forall r | r in ix.flat :: LoadExact(ix, r)
  }

  lemma AgreedIsWellFormed<R>(ix: Index<R>)
    requires Agree(ix)
    ensures WellFormed(ix)
  {
  }

  lemma EmptyAgrees<R>()
    ensures Agree(Empty<R>())
  {
  }

  /** Looking an ID up under its own name finds exactly the indexed instance. */
  lemma LookupFinds<R>(ix: Index<R>, n: string, id: string)
    requires Agree(ix)
    ensures HasId(ix.descs, Named(ix, n), id) <==> Indexed(ix, n, id)
    ensures HasId(ix.descs, ix.flat, id) <==> exists r :: r in ix.flat && ix.descs[r].id == id
  {
    if Indexed(ix, n, id) {
      var r :| r in ix.flat && ix.descs[r].name == n && ix.descs[r].id == id;
      var k :| 0 <= k < |ix.byName[n]| && ix.byName[n][k] == r;
    }
    if exists r :: r in ix.flat && ix.descs[r].id == id {
      var r :| r in ix.flat && ix.descs[r].id == id;
      var k :| 0 <= k < |ix.flat| && ix.flat[k] == r;
    }
  }

  lemma ListedIsIndexed<R>(ix: Index<R>, n: string, r: R)
    requires Agree(ix) && r in Named(ix, n)
    ensures r in ix.flat && ix.descs[r].name == n && Indexed(ix, n, ix.descs[r].id) && LoadExact(ix, r)
  {
  }

  // --- SetServiceDescriptor ---

  /** A re-announcement under the same name, or an ID no instance has and an unloaded descriptor. */
  ghost predicate Admissible<R>(ix: Index<R>, d: Desc)
    requires WellFormed(ix)
  {
    || HasId(ix.descs, Named(ix, d.name), d.id)
    || (d.sockets == [] && forall r | r in ix.flat :: ix.descs[r].id != d.id)
  }

  lemma SetAgrees<R>(ix: Index<R>, r: R, d: Desc, now: int)
    requires Agree(ix) && (r in ix.descs ==> ix.descs[r] == d)
    ensures Agree(Set(ix, r, d, now)) <==> ix.closed || Admissible(ix, d)
  {
    var ix' := Set(ix, r, d, now);
    LookupFinds(ix, d.name, d.id);
    if !ix.closed {
      if HasId(ix.descs, Named(ix, d.name), d.id) {
        RefreshAgrees(ix, r, d, now);
      } else if Admissible(ix, d) {
        InsertAgrees(ix, r, d, now);
      } else {
        InsertDisagrees(ix, r, d, now);
      }
    }
  }

  /** What an announcement leaves on an open index: e, an instance listed under that name with that ID, offers the
      announced routes and was seen now. If there was one before it keeps its sockets and its place, else the announced
      one is appended to both listings. No other instance and no mapping changes. */
  lemma SetAnnounces<R>(ix: Index<R>, r: R, d: Desc, now: int) returns (e: R)
    requires WellFormed(ix) && (r in ix.descs ==> ix.descs[r] == d) && !ix.closed
    ensures var ix' := Set(ix, r, d, now);
      && e in Named(ix', d.name) && e in ix'.descs && ix'.descs[e].name == d.name && ix'.descs[e].id == d.id
      && ix'.descs[e].routes == d.routes && ix'.descs[e].lastSeen == Some(now)
      && ix'.descs.Keys == ix.descs.Keys + {e} && (forall q | q in ix.descs && q != e :: ix'.descs[q] == ix.descs[q])
      && ix'.mapping == ix.mapping && !ix'.closed
      && if exists q :: q in Named(ix, d.name) && ix.descs[q].id == d.id then
           && e in Named(ix, d.name) && ix'.descs[e].sockets == ix.descs[e].sockets
           && ix'.flat == ix.flat && ix'.byName == ix.byName
         else
           && e == r && ix'.descs[e].sockets == d.sockets
           && ix'.flat == ix.flat + [r] && ix'.byName == ix.byName[d.name := Named(ix, d.name) + [r]]
  {
    var instances := Named(ix, d.name);
    var i := FirstWithId(ix.descs, instances, d.id);
    e := if i < |instances| then instances[i] else r;
    if i < |instances| {
      assert instances[i] in instances;
    } else {
      assert (instances + [r])[|instances|] == r;
      assert forall q | q in instances :: ix.descs[q].id != d.id;
    }
  }

  /** What UnmapSocket leaves: exactly the mappings of the other sockets, and every instance as it was but for s. */
  lemma UnmapExact<R>(ix: Index<R>, s: string)
    requires Agree(ix)
    ensures var ix' := Unmap(ix, s);
      && ix'.flat == ix.flat && ix'.byName == ix.byName && ix'.closed == ix.closed && ix'.descs.Keys == ix.descs.Keys
      && (forall r | r in ix.descs :: ix'.descs[r].(sockets := []) == ix.descs[r].(sockets := []))
      && (forall r | r in ix.flat :: IsSubsequence(ix'.descs[r].sockets, ix.descs[r].sockets))
      && (forall r, t | r in ix.flat :: t in ix'.descs[r].sockets <==> t in ix.descs[r].sockets && t != s)
      && (forall t, n, id :: MapsTo(ix'.mapping, t, n, id) <==> MapsTo(ix.mapping, t, n, id) && t != s)
  {
    hide SameInstances, UniqueIds, IsSubsequence;
    forall r | r in ix.flat
      ensures IsSubsequence(Unmap(ix, s).descs[r].sockets, ix.descs[r].sockets)
      ensures forall t :: t in Unmap(ix, s).descs[r].sockets <==> t in ix.descs[r].sockets && t != s
    {
      UnmapOne(ix, s, r);
    }
  }

  lemma UnmapOne<R>(ix: Index<R>, s: string, r: R)
    requires Agree(ix) && r in ix.flat
    ensures IsSubsequence(Unmap(ix, s).descs[r].sockets, ix.descs[r].sockets)
    ensures forall t :: t in Unmap(ix, s).descs[r].sockets <==> t in ix.descs[r].sockets && t != s
  {
    hide IsSubsequence, SameInstances, UniqueIds;
    assert LoadExact(ix, r);
    ReleasedExact(ix, s, r);
    SubsequenceOfSelf(ix.descs[r].sockets);
    RemovedIsSubsequence(ix.descs[r].sockets, s);
    if s in ix.mapping {
      UnmapLoad(ix, s, r);
    } else {
      UnmappedNowhere(ix, s, r);
    }
  }

  lemma UnmappedNowhere<R>(ix: Index<R>, s: string, r: R)
    requires Agree(ix) && r in ix.flat && s !in ix.mapping
    ensures Unmap(ix, s) == ix && s !in ix.descs[r].sockets
  {
    hide SameInstances, UniqueIds;
    assert LoadExact(ix, r);
  }

  /** What MapSocket leaves: at most one new mapping, and every instance as it was but for one socket appended. */
  lemma MapExact<R>(ix: Index<R>, n: string, s: string)
    requires Agree(ix)
    ensures var (ix', (id, isNew)) := (Map(ix, n, s), MapTarget(ix, n, s));
      && ix'.flat == ix.flat && ix'.byName == ix.byName && ix'.closed == ix.closed && ix'.descs.Keys == ix.descs.Keys
      && (isNew <==> !(s in ix.mapping && n in ix.mapping[s]) && Named(ix, n) != [])
      && (!isNew ==> ix' == ix && id == if s in ix.mapping && n in ix.mapping[s] then ix.mapping[s][n] else "")
      && (isNew ==> Indexed(ix, n, id))
      && (forall r | r in ix.flat :: ix'.descs[r] == ix.descs[r].(sockets := ix.descs[r].sockets +
            if isNew && ix.descs[r].name == n && ix.descs[r].id == id then [s] else []))
      && (forall t, k, i :: MapsTo(ix'.mapping, t, k, i) <==>
            MapsTo(ix.mapping, t, k, i) || (isNew && t == s && k == n && i == id))
  {
    hide LeastLoaded, MappingsIndexed, LoadExact;
    if Map(ix, n, s) != ix {
      MapAdds(ix, n, s);
      ListedIsIndexed(ix, n, LeastLoaded(ix.descs, ix.byName[n]));
    } else {
      assert forall r | r in ix.flat :: ix.descs[r].sockets + [] == ix.descs[r].sockets;
    }
  }

  lemma InsertDisagrees<R>(ix: Index<R>, r: R, d: Desc, now: int)
    requires Agree(ix) && !ix.closed && (r in ix.descs ==> ix.descs[r] == d)
    requires !HasId(ix.descs, Named(ix, d.name), d.id) && !Admissible(ix, d)
    ensures !Agree(Set(ix, r, d, now))
  {
    var ix' := Set(ix, r, d, now);
    LookupFinds(ix, d.name, d.id);
    assert ix'.flat[|ix.flat|] == r;
    if d.sockets != [] {
      var s := d.sockets[0];
      assert !MapsTo(ix.mapping, s, d.name, d.id) by {
        assert s in ix.mapping && d.name in ix.mapping[s] ==> Indexed(ix, d.name, ix.mapping[s][d.name]);
      }
      assert !LoadExact(ix', r);
    } else {
      var q :| q in ix.flat && ix.descs[q].id == d.id;
      assert q in ix'.flat && q != r;
    }
  }

  lemma RefreshAgrees<R>(ix: Index<R>, r: R, d: Desc, now: int)
    requires Agree(ix) && !ix.closed && (r in ix.descs ==> ix.descs[r] == d)
    requires HasId(ix.descs, Named(ix, d.name), d.id)
    ensures Agree(Set(ix, r, d, now))
  {
    var ix' := Set(ix, r, d, now);
    SameShapeAgrees(ix, ix');
  }

  /** Agreement only depends on names, IDs, socketIDs and the three listings. */
  lemma SameShapeAgrees<R>(ix: Index<R>, ix': Index<R>)
    requires Agree(ix) && WellFormed(ix')
    requires ix'.flat == ix.flat && ix'.byName == ix.byName && ix'.mapping == ix.mapping && ix'.closed == ix.closed
    requires forall q | q in ix.flat ::
      && ix'.descs[q].name == ix.descs[q].name && ix'.descs[q].id == ix.descs[q].id
      && ix'.descs[q].sockets == ix.descs[q].sockets
    ensures Agree(ix')
  {
    forall s, n | s in ix'.mapping && n in ix'.mapping[s] ensures Indexed(ix', n, ix'.mapping[s][n]) {
      assert Indexed(ix, n, ix.mapping[s][n]);
    }
    forall q | q in ix'.flat ensures LoadExact(ix', q) {
      assert LoadExact(ix, q);
    }
  }

  lemma InsertIsNew<R>(ix: Index<R>, r: R, d: Desc)
    requires Agree(ix) && (r in ix.descs ==> ix.descs[r] == d)
    requires !HasId(ix.descs, Named(ix, d.name), d.id) && Admissible(ix, d)
    ensures r !in ix.flat && r !in Named(ix, d.name) && forall q | q in ix.flat :: ix.descs[q].id != d.id
  {
    hide LoadExact, MappingsIndexed, UniqueIds, FirstWithId;
    assert r in Named(ix, d.name) ==> r in ix.flat;
  }

  /** Listing one more instance in both places. */
  lemma ListedInBoth<R>(ix: Index<R>, ix': Index<R>, r: R, n: string)
    requires WellFormed(ix) && WellFormed(ix') && SameInstances(ix) && r !in ix.flat && r !in Named(ix, n)
    requires ix'.flat == ix.flat + [r] && ix'.byName == ix.byName[n := Named(ix, n) + [r]]
    requires r in ix'.descs && ix'.descs[r].name == n
    requires forall q | q in ix.flat :: q in ix'.descs && ix'.descs[q].name == ix.descs[q].name
    ensures SameInstances(ix')
  {
    NoDupSnoc(ix.flat, r);
    NoDupSnoc(Named(ix, n), r);
    forall k, q | k in ix'.byName && q in ix'.byName[k] ensures q in ix'.flat {
      if q != r {
        assert q in Named(ix, k);
      }
    }
    forall q | q in ix'.flat ensures ix'.descs[q].name in ix'.byName && q in ix'.byName[ix'.descs[q].name] {
      if q == r {
        assert (Named(ix, n) + [r])[|Named(ix, n)|] == r;
      } else {
        assert q in ix.flat && q in Named(ix, ix.descs[q].name);
      }
    }
  }

  lemma InsertLists<R>(ix: Index<R>, r: R, d: Desc, now: int)
    requires Agree(ix) && !ix.closed && (r in ix.descs ==> ix.descs[r] == d)
    requires !HasId(ix.descs, Named(ix, d.name), d.id) && Admissible(ix, d)
    ensures r !in ix.flat && SameInstances(Set(ix, r, d, now)) && UniqueIds(Set(ix, r, d, now))
  {
    hide LoadExact, MappingsIndexed, SameInstances, Admissible;
    InsertIsNew(ix, r, d);
    var ix' := Set(ix, r, d, now);
    assert ix'.byName == ix.byName[d.name := Named(ix, d.name) + [r]];
    ListedInBoth(ix, ix', r, d.name);
    assert forall q :: q in ix'.flat <==> q in ix.flat || q == r;
  }

  lemma InsertAgrees<R>(ix: Index<R>, r: R, d: Desc, now: int)
    requires Agree(ix) && !ix.closed && (r in ix.descs ==> ix.descs[r] == d)
    requires !HasId(ix.descs, Named(ix, d.name), d.id) && Admissible(ix, d)
    ensures Agree(Set(ix, r, d, now))
  {
    hide SameInstances, UniqueIds;
    var ix' := Set(ix, r, d, now);
    InsertLists(ix, r, d, now);
    forall q | q in ix'.flat ensures LoadExact(ix', q) {
      if q == r {
        UnusedIdUnmapped(ix, d.name, d.id);
      } else {
        assert LoadExact(ix, q);
      }
    }
    forall s, n | s in ix'.mapping && n in ix'.mapping[s] ensures Indexed(ix', n, ix'.mapping[s][n]) {
      StillIndexed(ix, ix', n, ix.mapping[s][n]);
    }
  }

  lemma UnusedIdUnmapped<R>(ix: Index<R>, n: string, id: string)
    requires Agree(ix) && !Indexed(ix, n, id)
    ensures forall s :: !MapsTo(ix.mapping, s, n, id)
  {
  }

  lemma StillIndexed<R>(ix: Index<R>, ix': Index<R>, n: string, id: string)
    requires WellFormed(ix) && WellFormed(ix') && Indexed(ix, n, id)
    requires forall q | q in ix.flat :: q in ix'.flat && ix'.descs[q] == ix.descs[q]
    ensures Indexed(ix', n, id)
  {
    var q :| q in ix.flat && ix.descs[q].name == n && ix.descs[q].id == id;
    assert q in ix'.flat;
  }

  // --- UnsetService ---

  /** With agreement the search is deterministic: it finds the one instance with that ID. */
  lemma PickFinds<R>(ix: Index<R>, id: string, pick: Option<string>)
    requires Agree(ix) && ValidPick(ix, id, pick)
    ensures pick.Some? <==> exists r :: r in ix.flat && ix.descs[r].id == id
    ensures forall r | r in ix.flat && ix.descs[r].id == id :: pick == Some(ix.descs[r].name)
  {
    forall r | r in ix.flat && ix.descs[r].id == id ensures pick == Some(ix.descs[r].name) {
      LookupFinds(ix, ix.descs[r].name, id);
      assert Indexed(ix, ix.descs[r].name, id);
    }
    if pick.Some? {
      LookupFinds(ix, pick.value, id);
    }
  }

  /** unsetServiceLocked reads an empty service name as "not found" and returns before erasing mappings. */
  ghost predicate LeavesDangling<R>(ix: Index<R>, id: string)
    requires WellFormed(ix)
  {
    exists r :: r in ix.flat && ix.descs[r].id == id && ix.descs[r].name == "" && ix.descs[r].sockets != []
  }

  /** The entries whose ID is not among ids, in order. */
  function WithoutIds<R(==)>(descs: map<R, Desc>, rs: seq<R>, ids: seq<string>): (kept: seq<R>)
    requires forall r | r in rs :: r in descs
    ensures forall r | r in kept :: r in rs && descs[r].id !in ids
    ensures forall r | r in rs && descs[r].id !in ids :: r in kept
  {
    if rs == [] then []
    else if descs[rs[0]].id in ids then WithoutIds(descs, rs[1..], ids)
    else [rs[0]] + WithoutIds(descs, rs[1..], ids)
  }

  /** ix' is ix with the instances of these IDs and every mapping to them removed, and nothing else changed. */
  ghost predicate Without<R>(ix: Index<R>, ids: seq<string>, ix': Index<R>)
    requires WellFormed(ix)
  {
    && ix'.descs == ix.descs && ix'.closed == ix.closed
    && ix'.flat == WithoutIds(ix.descs, ix.flat, ids)
    && (forall n :: Named(ix', n) == WithoutIds(ix.descs, Named(ix, n), ids))
    && (forall s, n, id :: MapsTo(ix'.mapping, s, n, id) <==> MapsTo(ix.mapping, s, n, id) && id !in ids)
  }

  lemma {:induction false} WithoutNone<R>(descs: map<R, Desc>, rs: seq<R>, ids: seq<string>)
    requires forall r | r in rs :: r in descs && descs[r].id !in ids
    ensures WithoutIds(descs, rs, ids) == rs
  {
    if rs != [] {
      WithoutNone(descs, rs[1..], ids);
    }
  }

  lemma {:induction false} WithoutConcat<R>(descs: map<R, Desc>, a: seq<R>, b: seq<R>, ids: seq<string>)
    requires forall r | r in a + b :: r in descs
    ensures WithoutIds(descs, a + b, ids) == WithoutIds(descs, a, ids) + WithoutIds(descs, b, ids)
  {
    if a == [] {
      assert a + b == b;
    } else {
      var x, tail := a[0], a[1..];
      assert (a + b)[0] == x && (a + b)[1..] == tail + b;
      WithoutConcat(descs, tail, b, ids);
      var wa, wb := WithoutIds(descs, tail, ids), WithoutIds(descs, b, ids);
      assert [x] + (wa + wb) == ([x] + wa) + wb;
    }
  }

  lemma WithoutOne<R>(descs: map<R, Desc>, rs: seq<R>, i: nat)
    requires i < |rs| && (forall r | r in rs :: r in descs)
    requires forall k | 0 <= k < |rs| && k != i :: descs[rs[k]].id != descs[rs[i]].id
    ensures WithoutIds(descs, rs, [descs[rs[i]].id]) == RemoveAt(rs, i)
  {
    var ids := [descs[rs[i]].id];
    var a, b := rs[..i], rs[i + 1..];
    assert rs == a + ([rs[i]] + b);
    WithoutConcat(descs, a, [rs[i]] + b, ids);
    WithoutConcat(descs, [rs[i]], b, ids);
    WithoutNone(descs, a, ids);
    WithoutNone(descs, b, ids);
  }

  lemma {:induction false} WithoutBoth<R>(descs: map<R, Desc>, rs: seq<R>, a: seq<string>, b: seq<string>)
    requires forall r | r in rs :: r in descs
    ensures WithoutIds(descs, WithoutIds(descs, rs, a), b) == WithoutIds(descs, rs, a + b)
  {
    if rs != [] {
      var first, tail := rs[0], rs[1..];
      WithoutBoth(descs, tail, a, b);
      assert descs[first].id in a + b <==> descs[first].id in a || descs[first].id in b;
      if descs[first].id !in a {
        var w := [first] + WithoutIds(descs, tail, a);
        assert w[0] == first && w[1..] == WithoutIds(descs, tail, a);
      }
    }
  }

  lemma {:induction false} WithoutNoDup<R>(descs: map<R, Desc>, rs: seq<R>, ids: seq<string>)
    requires NoDup(rs) && forall r | r in rs :: r in descs
    ensures NoDup(WithoutIds(descs, rs, ids))
  {
    if rs != [] {
      WithoutNoDup(descs, rs[1..], ids);
    }
  }

  lemma EraseFromExact(m: map<string, map<string, string>>, n: string, id: string)
    ensures forall s, k, i :: MapsTo(EraseFrom(m, n, id), s, k, i) <==> MapsTo(m, s, k, i) && !(k == n && i == id)
    ensures (forall s | s in m :: m[s] != map[]) ==>
      forall s | s in EraseFrom(m, n, id) :: EraseFrom(m, n, id)[s] != map[]
    ensures (forall s :: !MapsTo(m, s, n, id)) ==> EraseFrom(m, n, id) == m
  {
    var e := EraseFrom(m, n, id);
    forall s | s in e && m[s] != map[] ensures e[s] != map[] {
      if MapsTo(m, s, n, id) {
        var k :| k in m[s] && k != n;
        assert k in e[s];
      }
    }
  }

  lemma DropNamedFacts<R>(ix: Index<R>, id: string, r: R)
    requires Agree(ix) && r in ix.flat && ix.descs[r].id == id
    ensures var n := ix.descs[r].name;
      && HasId(ix.descs, ix.byName[n], id)
      && var ix' := ix.(byName := DropNamed(ix, n, id));
         && (forall k | k in ix'.byName :: ix'.byName[k] != [])
         && forall k :: Named(ix', k) == WithoutIds(ix.descs, Named(ix, k), [id])
  {
    var n := ix.descs[r].name;
    LookupFinds(ix, n, id);
    assert Indexed(ix, n, id);
    var i := FirstWithId(ix.descs, ix.byName[n], id);
    assert ix.byName[n][i] in ix.byName[n];
    WithoutOne(ix.descs, ix.byName[n], i);
    var ix' := ix.(byName := DropNamed(ix, n, id));
    forall k ensures Named(ix', k) == WithoutIds(ix.descs, Named(ix, k), [id]) {
      if k != n {
        WithoutNone(ix.descs, Named(ix, k), [id]);
      }
    }
  }

  lemma DropFlatFacts<R>(ix: Index<R>, id: string)
    requires Agree(ix)
    ensures DropFlat(ix.descs, ix.flat, id) == WithoutIds(ix.descs, ix.flat, [id])
  {
    var i := FirstWithId(ix.descs, ix.flat, id);
    if i < |ix.flat| {
      WithoutOne(ix.descs, ix.flat, i);
    } else {
      WithoutNone(ix.descs, ix.flat, [id]);
    }
  }

  lemma MappedUnderName<R>(ix: Index<R>, r: R, s: string, k: string)
    requires Agree(ix) && r in ix.flat && MapsTo(ix.mapping, s, k, ix.descs[r].id)
    ensures k == ix.descs[r].name
  {
    hide LoadExact, SameInstances;
    assert Indexed(ix, k, ix.descs[r].id);
  }

  lemma EraseById<R>(ix: Index<R>, r: R)
    requires Agree(ix) && r in ix.flat
    ensures var d := ix.descs[r];
      forall s, k, i :: MapsTo(EraseFrom(ix.mapping, d.name, d.id), s, k, i) <==>
        MapsTo(ix.mapping, s, k, i) && i !in [d.id]
    ensures forall s | s in EraseFrom(ix.mapping, ix.descs[r].name, ix.descs[r].id) ::
      EraseFrom(ix.mapping, ix.descs[r].name, ix.descs[r].id)[s] != map[]
  {
    hide EraseFrom, MapsTo, LoadExact, SameInstances, UniqueIds;
    var d := ix.descs[r];
    EraseFromExact(ix.mapping, d.name, d.id);
    forall s, k | MapsTo(ix.mapping, s, k, d.id) ensures k == d.name {
      MappedUnderName(ix, r, s, k);
    }
  }

  /** The three listings after an instance was found and unset. */
  lemma UnsetFields<R>(ix: Index<R>, id: string, pick: Option<string>, r: R)
    requires Agree(ix) && ValidPick(ix, id, pick) && !LeavesDangling(ix, id)
    requires r in ix.flat && ix.descs[r].id == id
    ensures var n, ix' := ix.descs[r].name, UnsetAt(ix, id, pick);
      && n in ix.byName && HasId(ix.descs, ix.byName[n], id)
      && ix'.flat == DropFlat(ix.descs, ix.flat, id) && ix'.byName == DropNamed(ix, n, id)
      && ix'.mapping == EraseFrom(ix.mapping, n, id) && !ix.closed
  {
    hide DropFlat, DropNamed, EraseFrom, HasId;
    var n := ix.descs[r].name;
    PickFinds(ix, id, pick);
    if n == "" {
      assert LoadExact(ix, r);
      EraseFromExact(ix.mapping, n, id);
    }
  }

  lemma UnsetHits<R>(ix: Index<R>, id: string, pick: Option<string>, r: R)
    requires Agree(ix) && ValidPick(ix, id, pick) && !LeavesDangling(ix, id)
    requires r in ix.flat && ix.descs[r].id == id
    ensures Without(ix, [id], UnsetAt(ix, id, pick)) && Agree(UnsetAt(ix, id, pick))
  {
    hide DropFlat, DropNamed, EraseFrom, HasId, UnsetAt,
      WithoutIds, LoadExact, SameInstances, UniqueIds, MappingsIndexed;
    var n := ix.descs[r].name;
    var ix' := UnsetAt(ix, id, pick);
    UnsetFields(ix, id, pick, r);
    EraseById(ix, r);
    DropFlatFacts(ix, id);
    DropNamedFacts(ix, id, r);
    var dropped := ix.(byName := DropNamed(ix, n, id));
    assert dropped.byName == ix'.byName;
    forall k ensures Named(ix', k) == WithoutIds(ix.descs, Named(ix, k), [id]) {
      assert Named(dropped, k) == WithoutIds(ix.descs, Named(ix, k), [id]);
    }
    WithoutAgrees(ix, [id], ix');
  }

  lemma UnsetMisses<R>(ix: Index<R>, id: string, pick: Option<string>)
    requires Agree(ix) && ValidPick(ix, id, pick) && forall r | r in ix.flat :: ix.descs[r].id != id
    ensures UnsetAt(ix, id, pick) == ix && Without(ix, [id], ix)
  {
    PickFinds(ix, id, pick);
    LookupFinds(ix, "", id);
    WithoutNone(ix.descs, ix.flat, [id]);
    forall n ensures Named(ix, n) == WithoutIds(ix.descs, Named(ix, n), [id]) {
      WithoutNone(ix.descs, Named(ix, n), [id]);
    }
    forall s, n, i | MapsTo(ix.mapping, s, n, i) ensures i !in [id] {
      assert Indexed(ix, n, i);
    }
  }

  /** Unsetting an instance removes it and the mappings to it, and nothing else. */
  lemma UnsetRemoves<R>(ix: Index<R>, id: string, pick: Option<string>)
    requires Agree(ix) && ValidPick(ix, id, pick) && !LeavesDangling(ix, id)
    ensures Without(ix, [id], UnsetAt(ix, id, pick)) && Agree(UnsetAt(ix, id, pick))
  {
    if r :| r in ix.flat && ix.descs[r].id == id {
      UnsetHits(ix, id, pick, r);
    } else {
      UnsetMisses(ix, id, pick);
    }
  }

  lemma UnsetDangles<R>(ix: Index<R>, id: string, pick: Option<string>)
    requires Agree(ix) && ValidPick(ix, id, pick) && LeavesDangling(ix, id)
    ensures !Agree(UnsetAt(ix, id, pick))
  {
    var ix' := UnsetAt(ix, id, pick);
    var r :| r in ix.flat && ix.descs[r].id == id && ix.descs[r].name == "" && ix.descs[r].sockets != [];
    PickFinds(ix, id, pick);
    DropFlatFacts(ix, id);
    var s := ix.descs[r].sockets[0];
    assert LoadExact(ix, r);
    assert MapsTo(ix.mapping, s, "", id);
    assert ix'.mapping == ix.mapping;
    assert !Indexed(ix', "", id);
    assert !MappingsIndexed(ix');
  }

  lemma UnsetAgrees<R>(ix: Index<R>, id: string, pick: Option<string>)
    requires Agree(ix) && ValidPick(ix, id, pick)
    ensures Agree(UnsetAt(ix, id, pick)) <==> !LeavesDangling(ix, id)
  {
    if LeavesDangling(ix, id) {
      UnsetDangles(ix, id, pick);
    } else {
      UnsetRemoves(ix, id, pick);
    }
  }

  lemma WithoutAgrees<R>(ix: Index<R>, ids: seq<string>, ix': Index<R>)
    requires Agree(ix) && WellFormed(ix') && !ix.closed && Without(ix, ids, ix')
    requires forall n | n in ix'.byName :: ix'.byName[n] != []
    requires forall s | s in ix'.mapping :: ix'.mapping[s] != map[]
    ensures Agree(ix')
  {
    WithoutNoDup(ix.descs, ix.flat, ids);
    forall n | n in ix'.byName ensures NoDup(ix'.byName[n]) {
      assert Named(ix', n) == WithoutIds(ix.descs, Named(ix, n), ids);
      WithoutNoDup(ix.descs, Named(ix, n), ids);
    }
    forall n, q | n in ix'.byName && q in ix'.byName[n] ensures q in ix'.flat {
      assert Named(ix', n) == WithoutIds(ix.descs, Named(ix, n), ids);
    }
    forall q | q in ix'.flat ensures ix.descs[q].name in ix'.byName && q in ix'.byName[ix.descs[q].name] {
      assert q in Named(ix, ix.descs[q].name);
      assert q in Named(ix', ix.descs[q].name);
    }
    forall s, n | s in ix'.mapping && n in ix'.mapping[s] ensures Indexed(ix', n, ix'.mapping[s][n]) {
      var id := ix'.mapping[s][n];
      assert MapsTo(ix'.mapping, s, n, id);
      assert Indexed(ix, n, id);
      var q :| q in ix.flat && ix.descs[q].name == n && ix.descs[q].id == id;
      assert q in ix'.flat;
    }
    forall q | q in ix'.flat ensures LoadExact(ix', q) {
      assert LoadExact(ix, q);
    }
  }

  // --- MapSocket, UnmapSocket, Close ---

  /** A mapping made by MapSocket adds exactly one fact to the socket table. */
  lemma MapAdds<R>(ix: Index<R>, n: string, s: string)
    requires Agree(ix) && Map(ix, n, s) != ix
    ensures var (id, isNew) := MapTarget(ix, n, s);
      && isNew && Indexed(ix, n, id) && s !in ix.descs[LeastLoaded(ix.descs, ix.byName[n])].sockets
      && forall t, m, i :: MapsTo(Map(ix, n, s).mapping, t, m, i) <==>
         MapsTo(ix.mapping, t, m, i) || (t == s && m == n && i == id)
  {
    var r := LeastLoaded(ix.descs, ix.byName[n]);
    assert r in ix.flat && ix.descs[r].name == n;
    assert LoadExact(ix, r);
    assert !MapsTo(ix.mapping, s, n, ix.descs[r].id);
    AddMapping(ix.mapping, s, n, ix.descs[r].id);
  }

  lemma AddMapping(m: map<string, map<string, string>>, s: string, n: string, id: string)
    requires !(s in m && n in m[s])
    ensures var m' := m[s := (if s in m then m[s] else map[])[n := id]];
      forall t, k, i :: MapsTo(m', t, k, i) <==> MapsTo(m, t, k, i) || (t == s && k == n && i == id)
  {
    var services := if s in m then m[s] else map[];
    var m' := m[s := services[n := id]];
    forall t, k, i ensures MapsTo(m', t, k, i) <==> MapsTo(m, t, k, i) || (t == s && k == n && i == id) {
      if t == s {
        assert m'[s] == services[n := id];
        assert MapsTo(m, s, k, i) <==> k in services && services[k] == i;
      }
    }
  }

  /** Each load after a new mapping to r. */
  lemma MapLoadExact<R>(ix: Index<R>, n: string, s: string, q: R)
    requires Agree(ix) && Map(ix, n, s) != ix && q in ix.flat
    ensures LoadExact(Map(ix, n, s), q)
  {
    hide LeastLoaded, MappingsIndexed, SameInstances;
    var r := LeastLoaded(ix.descs, ix.byName[n]);
    MapAdds(ix, n, s);
    ListedIsIndexed(ix, n, r);
    assert LoadExact(ix, q);
    NoDupSnoc(ix.descs[r].sockets, s);
    if q != r {
      assert ix.descs[q].name != n || ix.descs[q].id != ix.descs[r].id;
    }
  }

  lemma MapAgrees<R>(ix: Index<R>, n: string, s: string)
    requires Agree(ix)
    ensures Agree(Map(ix, n, s))
  {
    hide LeastLoaded, SameInstances, UniqueIds, LoadExact;
    var ix' := Map(ix, n, s);
    if ix' != ix {
      MapAdds(ix, n, s);
      forall q | q in ix.flat ensures LoadExact(ix', q) {
        MapLoadExact(ix, n, s, q);
      }
      forall t, m, id | MapsTo(ix'.mapping, t, m, id) ensures Indexed(ix, m, id) {
        assert MapsTo(ix.mapping, t, m, id) ==> Indexed(ix, m, id);
      }
      forall t | t in ix'.mapping ensures ix'.mapping[t] != map[] {
        assert t == s ==> n in ix'.mapping[t];
      }
      RemappedAgrees(ix, ix');
    }
  }

  /** Agreement after a change of loads and mappings alone. */
  lemma RemappedAgrees<R>(ix: Index<R>, ix': Index<R>)
    requires Agree(ix) && !ix.closed && WellFormed(ix')
    requires ix'.flat == ix.flat && ix'.byName == ix.byName && !ix'.closed
    requires forall q | q in ix.flat :: ix'.descs[q].name == ix.descs[q].name && ix'.descs[q].id == ix.descs[q].id
    requires forall s | s in ix'.mapping :: ix'.mapping[s] != map[]
    requires forall s, n, id | MapsTo(ix'.mapping, s, n, id) :: Indexed(ix, n, id)
    requires forall q | q in ix.flat :: LoadExact(ix', q)
    ensures Agree(ix')
  {
    forall t, m | t in ix'.mapping && m in ix'.mapping[t] ensures Indexed(ix', m, ix'.mapping[t][m]) {
      assert MapsTo(ix'.mapping, t, m, ix'.mapping[t][m]);
      var q :| q in ix.flat && ix.descs[q].name == m && ix.descs[q].id == ix'.mapping[t][m];
      assert q in ix'.flat;
    }
  }

  /** With agreement, UnmapSocket releases s from exactly the instances it is mapped to. */
  lemma ReleasesExactly<R>(ix: Index<R>, s: string, r: R)
    requires Agree(ix) && r in ix.flat
    ensures Releases(ix, s, r) <==> MapsTo(ix.mapping, s, ix.descs[r].name, ix.descs[r].id)
  {
    var n := ix.descs[r].name;
    if s in ix.mapping && n in ix.mapping[s] {
      LookupFinds(ix, n, ix.mapping[s][n]);
      assert Indexed(ix, n, ix.mapping[s][n]);
    }
  }

  function Released<R(==)>(ix: Index<R>, s: string, q: R): seq<string>
    requires WellFormed(ix) && q in ix.descs
  {
    if Releases(ix, s, q) then RemoveFirst(ix.descs[q].sockets, s) else ix.descs[q].sockets
  }

  lemma ReleasedExact<R>(ix: Index<R>, s: string, q: R)
    requires Agree(ix) && q in ix.flat
    ensures NoDup(Released(ix, s, q))
    ensures forall t :: t in Released(ix, s, q) <==> t in ix.descs[q].sockets && t != s
  {
    assert LoadExact(ix, q);
    ReleasesExactly(ix, s, q);
    RemoveFirstFacts(ix.descs[q].sockets, s);
  }

  lemma UnmapLoad<R>(ix: Index<R>, s: string, q: R)
    requires WellFormed(ix) && !ix.closed && s in ix.mapping && q in ix.descs && LoadExact(ix, q)
    requires NoDup(Released(ix, s, q))
    requires forall t :: t in Released(ix, s, q) <==> t in ix.descs[q].sockets && t != s
    ensures Unmap(ix, s).descs[q] == ix.descs[q].(sockets := Released(ix, s, q))
    ensures LoadExact(Unmap(ix, s), q)
  {
    var ix', d := Unmap(ix, s), ix.descs[q];
    assert ix'.descs[q] == d.(sockets := Released(ix, s, q));
    forall t ensures t in ix'.descs[q].sockets <==> MapsTo(ix'.mapping, t, d.name, d.id) {
      assert t in d.sockets <==> MapsTo(ix.mapping, t, d.name, d.id);
    }
  }

  lemma UnmapAgrees<R>(ix: Index<R>, s: string)
    requires Agree(ix)
    ensures Agree(Unmap(ix, s))
  {
    var ix' := Unmap(ix, s);
    if ix' != ix {
      forall q | q in ix.flat ensures LoadExact(ix', q) {
        assert LoadExact(ix, q);
        ReleasedExact(ix, s, q);
        UnmapLoad(ix, s, q);
      }
      forall t, n, id | MapsTo(ix'.mapping, t, n, id) ensures Indexed(ix, n, id) {
        assert MapsTo(ix.mapping, t, n, id);
      }
      RemappedAgrees(ix, ix');
    }
  }

  // --- PruneStaleServices ---

  lemma WithoutCompose<R>(ix: Index<R>, a: seq<string>, mid: Index<R>, b: seq<string>, ix': Index<R>)
    requires WellFormed(ix) && WellFormed(mid) && Without(ix, a, mid) && Without(mid, b, ix')
    ensures Without(ix, a + b, ix')
  {
    WithoutBoth(ix.descs, ix.flat, a, b);
    forall n ensures Named(ix', n) == WithoutIds(ix.descs, Named(ix, n), a + b) {
      WithoutBoth(ix.descs, Named(ix, n), a, b);
    }
  }

  lemma WithoutNothing<R>(ix: Index<R>)
    requires WellFormed(ix)
    ensures Without(ix, [], ix)
  {
    WithoutNone(ix.descs, ix.flat, []);
    forall n ensures Named(ix, n) == WithoutIds(ix.descs, Named(ix, n), []) {
      WithoutNone(ix.descs, Named(ix, n), []);
    }
  }

  lemma StillNotDangling<R>(ix: Index<R>, ids: seq<string>, ix': Index<R>, id: string)
    requires WellFormed(ix) && WellFormed(ix') && Without(ix, ids, ix') && !LeavesDangling(ix, id)
    ensures !LeavesDangling(ix', id)
  {
  }

  lemma FirstUnset<R>(ix: Index<R>, ids: seq<string>, ix': Index<R>) returns (mid: Index<R>)
    requires Agree(ix) && ids != [] && UnsetsTo(ix, ids, ix') && !LeavesDangling(ix, ids[0])
    ensures Agree(mid) && Without(ix, [ids[0]], mid) && UnsetsTo(mid, ids[1..], ix')
  {
    var pick :| ValidPick(ix, ids[0], pick) && UnsetsTo(UnsetAt(ix, ids[0], pick), ids[1..], ix');
    UnsetRemoves(ix, ids[0], pick);
    mid := UnsetAt(ix, ids[0], pick);
  }

  lemma {:induction false} UnsetsRemove<R>(ix: Index<R>, ids: seq<string>, ix': Index<R>)
    requires Agree(ix) && UnsetsTo(ix, ids, ix')
    requires forall id | id in ids :: !LeavesDangling(ix, id)
    ensures Agree(ix') && Without(ix, ids, ix')
    decreases |ids|
  {
    hide Agree, Without, LeavesDangling, ValidPick, UnsetAt;
    AgreedIsWellFormed(ix);
    if ids == [] {
      WithoutNothing(ix);
    } else {
      var first, rest := ids[0], ids[1..];
      var mid := FirstUnset(ix, ids, ix');
      forall id | id in rest ensures !LeavesDangling(mid, id) {
        StillNotDangling(ix, [first], mid, id);
      }
      UnsetsRemove(mid, rest, ix');
      WithoutCompose(ix, [first], mid, rest, ix');
      assert [first] + rest == ids;
    }
  }

  ghost predicate StaleInstance<R>(ix: Index<R>, id: string, now: int, threshold: int)
    requires WellFormed(ix)
  {
    exists r :: r in ix.flat && ix.descs[r].id == id && Stale(ix.descs[r], now, threshold)
  }

  lemma IdsSnoc<R>(descs: map<R, Desc>, rs: seq<R>, r: R)
    requires r in descs && forall q | q in rs :: q in descs
    ensures IdsOf(descs, rs + [r]) == IdsOf(descs, rs) + [descs[r].id]
  {
    assert (rs + [r])[..|rs|] == rs;
  }

  lemma StaleSnoc<R>(descs: map<R, Desc>, rs: seq<R>, r: R, now: int, threshold: int)
    requires r in descs && forall q | q in rs :: q in descs
    ensures StaleIds(descs, rs + [r], now, threshold) ==
      StaleIds(descs, rs, now, threshold) + if Stale(descs[r], now, threshold) then [descs[r].id] else []
  {
    assert (rs + [r])[..|rs|] == rs;
  }

  /** The stale IDs come in the order of the list. */
  lemma {:induction false} StaleInOrder<R>(descs: map<R, Desc>, rs: seq<R>, now: int, threshold: int)
    requires forall r | r in rs :: r in descs
    ensures IsSubsequence(StaleIds(descs, rs, now, threshold), IdsOf(descs, rs))
    ensures NoDup(IdsOf(descs, rs)) ==> NoDup(StaleIds(descs, rs, now, threshold))
  {
    hide IsSubsequence, Stale;
    if rs == [] {
      SubsequenceOfSelf<string>([]);
    } else {
      var n := |rs| - 1;
      hide StaleIds, IdsOf, NoDup;
      StaleInOrder(descs, rs[..n], now, threshold);
      var before, ids, id := StaleIds(descs, rs[..n], now, threshold), IdsOf(descs, rs[..n]), descs[rs[n]].id;
      assert rs == rs[..n] + [rs[n]];
      IdsSnoc(descs, rs[..n], rs[n]);
      StaleSnoc(descs, rs[..n], rs[n], now, threshold);
      SubsequenceSnoc(before, ids, id);
      KeptNoDup(before, ids, id);
      assert before + [] == before;
    }
  }

  /** Appending to a list of distinct entries, and perhaps to the entries kept of it. */
  lemma KeptNoDup<T>(y: seq<T>, x: seq<T>, t: T)
    requires NoDup(x) ==> NoDup(y)
    requires forall u | u in y :: u in x
    ensures NoDup(x + [t]) ==> NoDup(y) && NoDup(y + [t])
  {
    if NoDup(x + [t]) {
      forall i, j | 0 <= i < j < |x| ensures x[i] != x[j] {
        assert (x + [t])[i] == x[i] && (x + [t])[j] == x[j];
      }
      NoDupSnoc(x, t);
      NoDupSnoc(y, t);
    }
  }

  /** The fresh instances come in the order of the list. */
  lemma {:induction false} FreshInOrder<R>(descs: map<R, Desc>, rs: seq<R>, now: int, threshold: int)
    requires forall r | r in rs :: r in descs
    ensures IsSubsequence(FreshRefs(descs, rs, now, threshold), rs)
    ensures NoDup(rs) ==> NoDup(FreshRefs(descs, rs, now, threshold))
  {
    hide IsSubsequence;
    if rs == [] {
      SubsequenceOfSelf<R>([]);
    } else {
      var n := |rs| - 1;
      assert rs == rs[..n] + [rs[n]];
      FreshInOrder(descs, rs[..n], now, threshold);
      var before := FreshRefs(descs, rs[..n], now, threshold);
      hide FreshRefs, NoDup;
      SubsequenceSnoc(before, rs[..n], rs[n]);
      KeptNoDup(before, rs[..n], rs[n]);
      assert before + [] == before;
    }
  }

  /** Pruning removes precisely the instances older than the threshold with the mappings
      to them, leaves every other instance (in order) and mapping unchanged, and the
      reported sockets are exactly those that were mapped to a removed instance. */
  lemma PruneExact<R>(ix: Index<R>, now: int, threshold: int, ix': Index<R>)
    requires Agree(ix) && PrunesTo(ix, now, threshold, ix')
    requires forall id | StaleInstance(ix, id, now, threshold) :: !LeavesDangling(ix, id)
    ensures Agree(ix')
    ensures forall r | r in ix.flat :: r in ix'.flat <==> !Stale(ix.descs[r], now, threshold)
    ensures Without(ix, StaleIds(ix.descs, ix.flat, now, threshold), ix')
    ensures forall s, n, id :: MapsTo(ix'.mapping, s, n, id) <==>
      MapsTo(ix.mapping, s, n, id) && !StaleInstance(ix, id, now, threshold)
    ensures forall s ::
      (s in AffectedBy(ix.mapping, StaleIds(ix.descs, ix.flat, now, threshold))
       <==> exists n, id :: MapsTo(ix.mapping, s, n, id) && !MapsTo(ix'.mapping, s, n, id))
  {
    var ids := StaleIds(ix.descs, ix.flat, now, threshold);
    if ix.closed {
      assert UnsetsTo(ix, [], ix);
    }
    forall id | id in ids ensures !LeavesDangling(ix, id) {
      assert StaleInstance(ix, id, now, threshold);
    }
    UnsetsRemove(ix, ids, ix');
    forall s | s in AffectedBy(ix.mapping, ids)
      ensures exists n, id :: MapsTo(ix.mapping, s, n, id) && !MapsTo(ix'.mapping, s, n, id)
    {
      var n :| n in ix.mapping[s] && ix.mapping[s][n] in ids;
      assert MapsTo(ix.mapping, s, n, ix.mapping[s][n]);
    }
  }

  // --- Every run ---

  lemma CloseAgrees<R>(ix: Index<R>)
    ensures Agree(Close(ix))
  {
  }

  /** What an operation must not do for agreement to survive it. */
  ghost predicate Sound<R>(ix: Index<R>, op: Op<R>)
    requires WellFormed(ix)
  {
    match op
    case OpSet(r, d, now) => ix.closed || Admissible(ix, d)
    case OpUnset(id) => !LeavesDangling(ix, id)
    case OpPrune(now, threshold) => forall id | StaleInstance(ix, id, now, threshold) :: !LeavesDangling(ix, id)
    case _ => true
  }

  lemma StepAgrees<R>(ix: Index<R>, op: Op<R>, ix': Index<R>)
    requires Agree(ix) && Next(ix, op, ix') && Sound(ix, op)
    ensures Agree(ix')
  {
    hide Agree, WellFormed, ValidPick, UnsetAt, LeavesDangling, Admissible, PrunesTo, StaleInstance, Map, Unmap, Set;
    AgreedIsWellFormed(ix);
    match op
    case OpSet(r, d, now) => SetAgrees(ix, r, d, now);
    case OpUnset(id) =>
      var pick :| ValidPick(ix, id, pick) && ix' == UnsetAt(ix, id, pick);
      UnsetAgrees(ix, id, pick);
    case OpPrune(now, threshold) => PruneExact(ix, now, threshold, ix');
    case OpMap(n, s) => MapAgrees(ix, n, s);
    case OpUnmap(s) => UnmapAgrees(ix, s);
    case OpClose => CloseAgrees(ix);
  }

  /** Instances are announced under a nonempty name, without sockets, and an ID belongs to one name. */
  ghost predicate WellAnnounced<R>(ops: seq<Op<R>>) {
    && (forall i | 0 <= i < |ops| && ops[i].OpSet? :: ops[i].d.name != "" && ops[i].d.sockets == [])
    && (forall i, j | 0 <= i < |ops| && 0 <= j < |ops| && ops[i].OpSet? && ops[j].OpSet?
          && ops[i].d.id == ops[j].d.id ::
          ops[i].d.name == ops[j].d.name)
  }

  ghost predicate AnnouncedBy<R>(ix: Index<R>, ops: seq<Op<R>>)
    requires WellFormed(ix)
  {
    forall r | r in ix.flat ::
      exists i :: 0 <= i < |ops| && ops[i].OpSet? && ops[i].d.name == ix.descs[r].name && ops[i].d.id == ix.descs[r].id
  }

  lemma RemovalKeeps<R>(ix: Index<R>, op: Op<R>, ix': Index<R>)
    requires Agree(ix) && Next(ix, op, ix') && Sound(ix, op) && (op.OpUnset? || op.OpPrune?)
    ensures ix'.descs == ix.descs && forall r | r in ix'.flat :: r in ix.flat
  {
    if op.OpUnset? {
      var pick :| ValidPick(ix, op.id, pick) && ix' == UnsetAt(ix, op.id, pick);
      UnsetRemoves(ix, op.id, pick);
    } else {
      PruneExact(ix, op.now, op.threshold, ix');
    }
  }

  /** An operation only ever adds the announced instance, and never changes a name or an ID. */
  lemma StepIdentities<R>(ix: Index<R>, op: Op<R>, ix': Index<R>)
    requires Agree(ix) && Next(ix, op, ix') && Sound(ix, op)
    ensures WellFormed(ix')
    ensures forall r | r in ix'.flat ::
      || (r in ix.flat && ix'.descs[r].name == ix.descs[r].name && ix'.descs[r].id == ix.descs[r].id)
      || (op.OpSet? && ix'.descs[r].name == op.d.name && ix'.descs[r].id == op.d.id)
  {
    hide Agree;
    AgreedIsWellFormed(ix);
    StepAgrees(ix, op, ix');
    AgreedIsWellFormed(ix');
    if op.OpUnset? || op.OpPrune? {
      RemovalKeeps(ix, op, ix');
    }
  }

  lemma StepAnnounced<R>(ix: Index<R>, op: Op<R>, ix': Index<R>, ops: seq<Op<R>>)
    requires Agree(ix) && Next(ix, op, ix') && Sound(ix, op)
    requires AnnouncedBy(ix, ops) && op in ops
    ensures WellFormed(ix') && AnnouncedBy(ix', ops)
  {
    StepIdentities(ix, op, ix');
    var i :| 0 <= i < |ops| && ops[i] == op;
  }

  lemma NothingAnnounced<R>(ops: seq<Op<R>>)
    ensures AnnouncedBy(Empty<R>(), ops)
  {
  }

  /** Every run of well-announced operations from a new index, in any order, keeps the
      four structures in agreement, and no operation on the way breaks it. */
  lemma {:induction false} RunAgrees<R>(states: seq<Index<R>>, ops: seq<Op<R>>, k: nat)
    requires Trace(states, ops) && states[0] == Empty() && WellAnnounced(ops) && k <= |ops|
    ensures Agree(states[k]) && AnnouncedBy(states[k], ops)
    ensures k < |ops| ==> Sound(states[k], ops[k])
  {
    hide Agree, Sound, Next, WellAnnounced, AnnouncedBy, WellFormed;
    EmptyAgrees<R>();
    NothingAnnounced<R>(ops);
    if k > 0 {
      RunAgrees(states, ops, k - 1);
      assert Next(states[k - 1], ops[k - 1], states[k]);
      StepAgrees(states[k - 1], ops[k - 1], states[k]);
      StepAnnounced(states[k - 1], ops[k - 1], states[k], ops);
    }
    if k < |ops| {
      AnnouncedIsSound(states[k], ops[k], ops);
    }
  }

  lemma AnnouncedIsSound<R>(ix: Index<R>, op: Op<R>, ops: seq<Op<R>>)
    requires Agree(ix) && WellAnnounced(ops) && AnnouncedBy(ix, ops) && op in ops
    ensures Sound(ix, op)
  {
    if op.OpSet? {
      AnnouncedIsAdmissible(ix, op.d, ops);
    }
    assert forall r | r in ix.flat :: ix.descs[r].name != "";
  }

  lemma AnnouncedIsAdmissible<R>(ix: Index<R>, d: Desc, ops: seq<Op<R>>)
    requires Agree(ix) && WellAnnounced(ops) && AnnouncedBy(ix, ops)
    requires exists j :: 0 <= j < |ops| && ops[j].OpSet? && ops[j].d == d
    ensures Admissible(ix, d)
  {
    var j :| 0 <= j < |ops| && ops[j].OpSet? && ops[j].d == d;
    LookupFinds(ix, d.name, d.id);
    if r :| r in ix.flat && ix.descs[r].id == d.id {
      var i :| 0 <= i < |ops| && ops[i].OpSet? && ops[i].d.name == ix.descs[r].name && ops[i].d.id == ix.descs[r].id;
      assert Indexed(ix, d.name, d.id);
    }
  }

  /** A closed index stays as it is under every operation. */
  lemma ClosedAbsorbs<R>(ix: Index<R>, op: Op<R>, ix': Index<R>)
    requires Agree(ix) && ix.closed && Next(ix, op, ix')
    ensures ix' == ix
    ensures forall n, s :: MapTarget(ix, n, s) == ("", false)
  {
  }

  /** Reading the socket table by instance, as SocketIDsByServiceInstance does, gives each instance its own load. */
  lemma ReportIsLoad<R>(ix: Index<R>, r: R, s: string)
    requires Agree(ix) && r in ix.flat
    ensures s in ix.mapping && ix.descs[r].id in ix.mapping[s].Values <==> s in ix.descs[r].sockets
  {
    var d := ix.descs[r];
    assert LoadExact(ix, r);
    if s in ix.mapping && d.id in ix.mapping[s].Values {
      var n :| n in ix.mapping[s] && ix.mapping[s][n] == d.id;
      assert Indexed(ix, n, d.id);
    }
  }

  // --- The two ways callers can break agreement ---

  const INSTANCE_A := Desc("a", "x", [], None, [])
  const INSTANCE_B := Desc("b", "x", [], None, [])

  lemma SingleInstance(d: Desc, now: int)
    requires d.sockets == []
    ensures Set(Empty<nat>(), 0, d, now) ==
      Index(false, map[0 := d.(lastSeen := Some(now))], [0], map[d.name := [0]], map[])
  {
    assert Named(Empty<nat>(), d.name) + [0] == [0];
    assert Empty<nat>().flat + [0] == [0];
  }

  lemma SecondInstance(now: int) returns (two: Index<nat>)
    ensures two == Set(Set(Empty<nat>(), 0, INSTANCE_A, now), 1, INSTANCE_B, now)
    ensures two.flat == [0, 1] && two.byName == map["a" := [0], "b" := [1]] && !two.closed && two.mapping == map[]
    ensures two.descs.Keys == {0, 1} && two.descs[0].id == two.descs[1].id == "x"
  {
    SingleInstance(INSTANCE_A, now);
    var one := Set(Empty<nat>(), 0, INSTANCE_A, now);
    two := Set(one, 1, INSTANCE_B, now);
    assert "a"[0] != "b"[0];
    assert Named(one, "b") == [];
    assert [] + [1] == [1] && [0] + [1] == [0, 1];
  }

  lemma SplitListings(two: Index<nat>) returns (three: Index<nat>)
    requires WellFormed(two) && two.flat == [0, 1] && two.byName == map["a" := [0], "b" := [1]] && !two.closed
    requires two.descs.Keys == {0, 1} && two.descs[0].id == two.descs[1].id == "x"
    ensures ValidPick(two, "x", Some("b")) && three == UnsetAt(two, "x", Some("b"))
    ensures three.flat == [1] && three.byName == map["a" := [0]] && !SameInstances(three)
  {
    assert "a"[0] != "b"[0];
    three := UnsetAt(two, "x", Some("b"));
    assert RemoveAt([0, 1], 0) == [1] && RemoveAt([1], 0) == [];
    assert three.byName == map["a" := [0]];
    assert 0 in three.byName["a"] && 0 !in three.flat;
  }

  /** One ID under two names: a later unset may drop the listings of two different instances. */
  lemma DuplicateIdSplitsListings(now: int) returns (states: seq<Index<nat>>)
    ensures Trace(states, [OpSet(0, INSTANCE_A, now), OpSet(1, INSTANCE_B, now), OpUnset("x")]) && states[0] == Empty()
    ensures states[3].flat == [1] && states[3].byName == map["a" := [0]] && !SameInstances(states[3])
  {
    hide Set, UnsetAt, ValidPick, SameInstances, HasId;
    SingleInstance(INSTANCE_A, now);
    var one := Set(Empty<nat>(), 0, INSTANCE_A, now);
    var two := SecondInstance(now);
    var three := SplitListings(two);
    states := [Empty(), one, two, three];
    assert Next(one, OpSet(1, INSTANCE_B, now), two);
    assert Next(two, OpUnset("x"), three);
  }

  lemma DanglingUnset(two: Index<nat>) returns (three: Index<nat>)
    requires WellFormed(two) && two.flat == [0] && two.byName == map["" := [0]] && !two.closed
    requires two.descs.Keys == {0} && two.descs[0].id == "x"
    ensures ValidPick(two, "x", Some("")) && three == UnsetAt(two, "x", Some(""))
    ensures three.flat == [] && three.mapping == two.mapping && !three.closed
  {
    three := UnsetAt(two, "x", Some(""));
    assert RemoveAt([0], 0) == [];
  }

  lemma FirstMapping(d: Desc, now: int, s: string) returns (two: Index<nat>)
    requires d.sockets == []
    ensures two == Map(Set(Empty<nat>(), 0, d, now), d.name, s)
    ensures two.flat == [0] && two.byName == map[d.name := [0]] && !two.closed
    ensures two.descs.Keys == {0} && two.descs[0].id == d.id && two.mapping == map[s := map[d.name := d.id]]
  {
    SingleInstance(d, now);
    two := Map(Set(Empty<nat>(), 0, d, now), d.name, s);
  }

  /** A service named "": after its instance is unset, its sockets stay pinned to an instance that is gone. */
  lemma EmptyNameDangles(now: int) returns (states: seq<Index<nat>>)
    ensures Trace(states, [OpSet(0, Desc("", "x", [], None, []), now), OpMap("", "s"), OpUnset("x")])
    ensures states[0] == Empty()
    ensures states[3].flat == [] && MapTarget(states[3], "", "s") == ("x", false)
  {
    hide Set, UnsetAt, Map, ValidPick, HasId;
    var d := Desc("", "x", [], None, []);
    SingleInstance(d, now);
    var one := Set(Empty<nat>(), 0, d, now);
    var two := FirstMapping(d, now, "s");
    var three := DanglingUnset(two);
    states := [Empty(), one, two, three];
    assert Next(two, OpUnset("x"), three);
  }
}
