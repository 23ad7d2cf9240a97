/** The indexer as it is written: descriptor objects shared by two listings and
    updated in place, proved against the operations of IndexModel. */
module GatewayServiceIndexer {
  import opened Sequences
  import opened IndexModel
  import opened IndexAgreement

  class ServiceDescriptor {
    const name: string
    const id: string
    var routes: seq<string>
    var lastSeenAt: Option<int>
    var socketIDs: seq<string>

    constructor (name: string, id: string, routes: seq<string>)
      ensures Value() == Desc(name, id, routes, None, [])
    {
      this.name, this.id, this.routes := name, id, routes;
      lastSeenAt, socketIDs := None, [];
    }

    ghost function Value(): Desc
      reads this
    {
      Desc(name, id, routes, lastSeenAt, socketIDs)
    }
  }

  /** m with s's mapping of n to id erased. */
  function Erased(m: map<string, map<string, string>>, s: string, n: string,
                  id: string): map<string, map<string, string>> {
    if !MapsTo(m, s, n, id) then m
    else if m[s].Keys == {n} then m - {s}
    else m[s := m[s] - {n}]
  }

  /** EraseFrom with the sockets in `pending` still to be visited. */
  ghost function ErasedBut(m: map<string, map<string, string>>, n: string, id: string,
                           pending: set<string>): map<string, map<string, string>> {
    map s | s in m && (s in pending || s in EraseFrom(m, n, id)) ::
      if s in pending then m[s] else EraseFrom(m, n, id)[s]
  }

  lemma EraseStarts(m: map<string, map<string, string>>, n: string, id: string)
    ensures ErasedBut(m, n, id, m.Keys) == m && ErasedBut(m, n, id, {}) == EraseFrom(m, n, id)
  {
  }

  lemma EraseNext(m: map<string, map<string, string>>, n: string, id: string, pending: set<string>, s: string)
    requires s in pending && pending <= m.Keys
    ensures s in ErasedBut(m, n, id, pending)
    ensures ErasedBut(m, n, id, pending - {s}) == Erased(ErasedBut(m, n, id, pending), s, n, id)
  {
    hide EraseFrom;
    EraseOne(m, n, id, s);
  }

  lemma EraseOne(m: map<string, map<string, string>>, n: string, id: string, s: string)
    requires s in m
    ensures s in EraseFrom(m, n, id) <==> s in Erased(m, s, n, id)
    ensures s in EraseFrom(m, n, id) ==> EraseFrom(m, n, id)[s] == Erased(m, s, n, id)[s]
  {
  }

  /** How often the report lists s under id. */
  function Times(report: map<string, seq<string>>, id: string, s: string): nat {
    if id in report then multiset(report[id])[s] else 0
  }

  /** The services that these mappings send to id. */
  function Sending(services: map<string, string>, id: string): set<string> {
    set n | n in services && services[n] == id
  }

  function Listing(report: map<string, seq<string>>, id: string, s: string): map<string, seq<string>> {
    report[id := (if id in report then report[id] else []) + [s]]
  }

  lemma AddEntry(report: map<string, seq<string>>, id: string, s: string)
    ensures forall i, t ::
      Times(Listing(report, id, s), i, t) == Times(report, i, t) + (if i == id && t == s then 1 else 0)
  {
  }

  class Indexer {
    var closed: bool
    var descriptors: seq<ServiceDescriptor>
    var servicesByName: map<string, seq<ServiceDescriptor>>
    var socketToInstance: map<string, map<string, string>>

    /** Every descriptor that was ever indexed here. */
    ghost var known: set<ServiceDescriptor>

    ghost predicate Valid()
      reads this
    {
      && (forall d | d in descriptors :: d in known)
      && (forall n, d | n in servicesByName && d in servicesByName[n] :: d in known && d.name == n)
      && (closed ==> descriptors == [] && servicesByName == map[] && socketToInstance == map[])
    }

    ghost function Contents(): (ix: Index<ServiceDescriptor>)
      requires Valid()
      reads this, known
      ensures WellFormed(ix)
    {
      Index(closed, Descs(), descriptors, servicesByName, socketToInstance)
    }

    ghost function Descs(): map<ServiceDescriptor, Desc>
      reads this`known, known
    {
      map d | d in known :: d.Value()
    }

    constructor ()
      ensures Valid() && Contents() == Empty() && known == {}
    {
      closed, descriptors, servicesByName, socketToInstance, known := false, [], map[], map[], {};
    }

    method Close()
      requires Valid()
      modifies this`closed, this`descriptors, this`servicesByName, this`socketToInstance
      ensures Valid() && Contents() == IndexModel.Close(old(Contents()))
    {
      closed, descriptors, servicesByName, socketToInstance := true, [], map[], map[];
    }

    method FindById(instances: seq<ServiceDescriptor>, id: string) returns (i: nat)
      ensures i <= |instances| && (i < |instances| ==> instances[i].id == id)
      ensures forall j | 0 <= j < i :: instances[j].id != id
    {
      i := 0;
      while i < |instances| && instances[i].id != id
        invariant i <= |instances| && forall j | 0 <= j < i :: instances[j].id != id
      {
        i := i + 1;
      }
    }

    /** The position FindById returns is the one the model looks up. */
    lemma FoundFirst(instances: seq<ServiceDescriptor>, id: string, i: nat)
      requires Valid() && (forall d | d in instances :: d in known)
      requires i <= |instances| && (i < |instances| ==> instances[i].id == id)
      requires forall j | 0 <= j < i :: instances[j].id != id
      ensures i == FirstWithId(Contents().descs, instances, id)
    {
      var k := FirstWithId(Contents().descs, instances, id);
      assert k < |instances| ==> instances[k] in instances;
      assert i < |instances| ==> instances[i] in instances;
    }

    method SetServiceDescriptor(descriptor: ServiceDescriptor, now: int)
      requires Valid()
      modifies this`descriptors, this`servicesByName, this`known, known, descriptor
      ensures Valid()
      ensures Contents() == Set(old(Contents()), descriptor, old(descriptor.Value()), now)
      ensures closed == old(closed) && (closed ==> Contents() == old(Contents()))
      ensures !closed ==> Offers(descriptor.name, descriptor.id, old(descriptor.routes), now)
    {
      ghost var ix, d := Contents(), descriptor.Value();
      if closed {
        return;
      }
      ghost var e := SetAnnounces(ix, descriptor, d, now);
      var instances := if descriptor.name in servicesByName then servicesByName[descriptor.name] else [];
      var i := FindById(instances, descriptor.id);
      FoundFirst(instances, descriptor.id, i);
      if i < |instances| {
        Refresh(instances[i], descriptor, now);
      } else {
        Insert(instances, descriptor, now);
      }
      assert e in servicesByName[descriptor.name] && e.Value() == Contents().descs[e];
    }

    /** An instance listed under that name with that ID offers exactly these routes and was seen at that time. */
    ghost predicate Offers(name: string, id: string, routes: seq<string>, seen: int)
      reads this, if name in servicesByName then set d | d in servicesByName[name] else {}
    {
      && name in servicesByName
      && exists d :: d in servicesByName[name] && d.id == id && d.routes == routes && d.lastSeenAt == Some(seen)
    }

    method Refresh(existing: ServiceDescriptor, descriptor: ServiceDescriptor, now: int)
      requires Valid() && existing in known
      modifies existing
      ensures Valid() && Contents() == old(Contents()).(descs :=
        old(Contents()).descs[existing :=
          old(existing.Value()).(routes := old(descriptor.routes), lastSeen := Some(now))])
    {
      existing.routes := descriptor.routes;
      existing.lastSeenAt := Some(now);
      assert Contents().descs ==
        old(Contents()).descs[existing :=
          old(existing.Value()).(routes := old(descriptor.routes), lastSeen := Some(now))];
    }

    method Insert(instances: seq<ServiceDescriptor>, descriptor: ServiceDescriptor, now: int)
      requires Valid() && !closed && instances == Named(Contents(), descriptor.name)
      modifies this`descriptors, this`servicesByName, this`known, descriptor
      ensures Valid() && !closed && socketToInstance == old(socketToInstance)
      ensures descriptors == old(descriptors) + [descriptor]
      ensures servicesByName == old(servicesByName)[descriptor.name := instances + [descriptor]]
      ensures Contents().descs == old(Contents()).descs[descriptor := old(descriptor.Value()).(lastSeen := Some(now))]
    {
      descriptor.lastSeenAt := Some(now);
      servicesByName := servicesByName[descriptor.name := instances + [descriptor]];
      descriptors := descriptors + [descriptor];
      known := known + {descriptor};
    }

    method UnsetService(id: string) returns (ghost pick: Option<string>)
      requires Valid()
      modifies this`descriptors, this`servicesByName, this`socketToInstance
      ensures Valid()
      ensures ValidPick(old(Contents()), id, pick) && Contents() == UnsetAt(old(Contents()), id, pick)
    {
      hide DropNamed, EraseFrom, HasId, DropFlat, FirstWithId, Descs;
      pick := None;
      if closed {
        return;
      }
      var serviceName;
      serviceName, pick := DropFromNames(id);
      DropFromDescriptors(id);
      if serviceName == "" {
        return;
      }
      EraseMappings(serviceName, id);
    }

    /** The first loop of unsetServiceLocked. */
    method DropFromNames(id: string) returns (serviceName: string, ghost pick: Option<string>)
      requires Valid()
      modifies this`servicesByName
      ensures Valid() && ValidPick(old(Contents()), id, pick)
      ensures serviceName == if pick.Some? then pick.value else ""
      ensures servicesByName == if pick.Some? then DropNamed(old(Contents()), pick.value, id) else old(servicesByName)
    {
      hide FirstWithId;
      var found, n, i := FindName(id);
      if !found {
        return "", None;
      }
      var rest := RemoveAt(servicesByName[n], i);
      servicesByName := if rest == [] then servicesByName - {n} else servicesByName[n := rest];
      return n, Some(n);
    }

    method FindName(id: string) returns (found: bool, n: string, i: nat)
      requires Valid()
      ensures found ==>
        n in servicesByName && i < |servicesByName[n]| && i == FirstWithId(Contents().descs, servicesByName[n], id)
      ensures !found ==> ValidPick(Contents(), id, None)
    {
      var names := servicesByName.Keys;
      found, i, n := false, 0, "";
      while names != {}
        invariant names <= servicesByName.Keys
        invariant forall m | m in servicesByName.Keys - names :: !HasId(Contents().descs, servicesByName[m], id)
        decreases |names|
      {
        n :| n in names;
        names := names - {n};
        i := FindById(servicesByName[n], id);
        FoundFirst(servicesByName[n], id, i);
        if i < |servicesByName[n]| {
          return true, n, i;
        }
      }
    }

    method DropFromDescriptors(id: string)
      requires Valid()
      modifies this`descriptors
      ensures Valid() && descriptors == DropFlat(Descs(), old(descriptors), id)
    {
      var i := FindById(descriptors, id);
      FoundFirst(descriptors, id, i);
      if i < |descriptors| {
        descriptors := RemoveAt(descriptors, i);
      }
    }

    /** The last loop of unsetServiceLocked. */
    method EraseMappings(serviceName: string, id: string)
      modifies this`socketToInstance
      ensures socketToInstance == EraseFrom(old(socketToInstance), serviceName, id)
    {
      hide EraseFrom, ErasedBut;
      ghost var was := socketToInstance;
      var sockets := socketToInstance.Keys;
      EraseStarts(was, serviceName, id);
      while sockets != {}
        invariant sockets <= was.Keys && socketToInstance == ErasedBut(was, serviceName, id, sockets)
        decreases |sockets|
      {
        var s :| s in sockets;
        EraseNext(was, serviceName, id, sockets, s);
        EraseEntry(s, serviceName, id);
        sockets := sockets - {s};
      }
    }

    /** One turn of that loop. */
    method EraseEntry(s: string, serviceName: string, id: string)
      requires s in socketToInstance
      modifies this`socketToInstance
      ensures socketToInstance == Erased(old(socketToInstance), s, serviceName, id)
    {
      var services := socketToInstance[s];
      if serviceName in services && services[serviceName] == id {
        if services.Keys == {serviceName} {
          socketToInstance := socketToInstance - {s};
        } else {
          socketToInstance := socketToInstance[s := services - {serviceName}];
        }
      }
    }

    method FreshServiceDescriptors(now: int, threshold: int) returns (kept: seq<ServiceDescriptor>)
      requires Valid()
      ensures kept == FreshRefs(Contents().descs, descriptors, now, threshold)
      ensures IsSubsequence(kept, descriptors)
      ensures forall d :: d in kept <==> d in descriptors && Fresh(d.Value(), now, threshold)
    {
      kept := [];
      for i := 0 to |descriptors|
        invariant kept == FreshRefs(Contents().descs, descriptors[..i], now, threshold)
      {
        var d := descriptors[i];
        assert descriptors[..i + 1][..i] == descriptors[..i];
        if d.lastSeenAt.Some? && now - d.lastSeenAt.value <= threshold {
          kept := kept + [d];
        }
      }
      assert descriptors[..|descriptors|] == descriptors;
      FreshInOrder(Contents().descs, descriptors, now, threshold);
    }

    method PruneStaleServices(now: int, threshold: int) returns (staleIDs: seq<string>, affected: seq<string>)
      requires Valid()
      modifies this`descriptors, this`servicesByName, this`socketToInstance
      ensures Valid() && PrunesTo(old(Contents()), now, threshold, Contents())
      ensures staleIDs == StaleIds(old(Contents()).descs, old(descriptors), now, threshold)
      ensures NoDup(affected) && forall s :: s in affected <==> s in AffectedBy(old(socketToInstance), staleIDs)
    {
      staleIDs, affected := [], [];
      if closed {
        return;
      }
      staleIDs := CollectStale(now, threshold);
      affected := CollectAffected(staleIDs);
      UnsetAll(staleIDs);
    }

    method CollectStale(now: int, threshold: int) returns (staleIDs: seq<string>)
      requires Valid()
      ensures staleIDs == StaleIds(Contents().descs, descriptors, now, threshold)
    {
      staleIDs := [];
      for i := 0 to |descriptors|
        invariant staleIDs == StaleIds(Contents().descs, descriptors[..i], now, threshold)
      {
        var d := descriptors[i];
        assert descriptors[..i + 1][..i] == descriptors[..i];
        if d.lastSeenAt.None? || now - d.lastSeenAt.value > threshold {
          staleIDs := staleIDs + [d.id];
        }
      }
      assert descriptors[..|descriptors|] == descriptors;
    }

    method UnsetAll(ids: seq<string>)
      requires Valid()
      modifies this`descriptors, this`servicesByName, this`socketToInstance
      ensures Valid() && UnsetsTo(old(Contents()), ids, Contents())
    {
      hide UnsetAt, HasId;
      ghost var was := Contents();
      for i := 0 to |ids|
        invariant Valid() && UnsetsTo(was, ids[..i], Contents())
      {
        ghost var mid := Contents();
        ghost var pick := UnsetService(ids[i]);
        UnsetsExtend(was, ids[..i], mid, ids[i], pick);
        assert ids[..i + 1] == ids[..i] + [ids[i]];
      }
      assert ids[..|ids|] == ids;
    }

    /** The second loop of PruneStaleServices: the sockets to close, each once. */
    method CollectAffected(staleIDs: seq<string>) returns (affected: seq<string>)
      ensures NoDup(affected) && forall s :: s in affected <==> s in AffectedBy(socketToInstance, staleIDs)
    {
      affected := [];
      for i := 0 to |staleIDs|
        invariant NoDup(affected) && forall s :: s in affected <==> s in AffectedBy(socketToInstance, staleIDs[..i])
      {
        affected := AddMappedTo(affected, staleIDs[i]);
        AffectedByOneMore(socketToInstance, staleIDs[..i], staleIDs[i]);
        assert staleIDs[..i + 1] == staleIDs[..i] + [staleIDs[i]];
      }
      assert staleIDs[..|staleIDs|] == staleIDs;
    }

    method AddMappedTo(before: seq<string>, id: string) returns (affected: seq<string>)
      requires NoDup(before)
      ensures NoDup(affected)
      ensures forall s :: s in affected <==> s in before || (s in socketToInstance && id in socketToInstance[s].Values)
    {
      affected := before;
      var sockets := socketToInstance.Keys;
      while sockets != {}
        invariant sockets <= socketToInstance.Keys && NoDup(affected)
        invariant forall s :: s in affected <==>
          s in before || (s in socketToInstance && s !in sockets && id in socketToInstance[s].Values)
        decreases |sockets|
      {
        var s :| s in sockets;
        sockets := sockets - {s};
        if id in socketToInstance[s].Values && s !in affected {
          NoDupSnoc(affected, s);
          affected := affected + [s];
        }
      }
    }

    method MapSocket(serviceName: string, socketID: string) returns (id: string, isNew: bool)
      requires Valid()
      modifies this`socketToInstance, known
      ensures Valid()
      ensures (id, isNew) == MapTarget(old(Contents()), serviceName, socketID)
      ensures Contents() == Map(old(Contents()), serviceName, socketID)
    {
      hide LeastLoaded;
      if closed {
        return "", false;
      }
      if socketID in socketToInstance && serviceName in socketToInstance[socketID] {
        return socketToInstance[socketID][serviceName], false;
      }
      if serviceName !in servicesByName || servicesByName[serviceName] == [] {
        return "", false;
      }
      id := Pin(serviceName, socketID);
      return id, true;
    }

    method Pin(serviceName: string, socketID: string) returns (id: string)
      requires Valid() && !closed && serviceName in servicesByName && servicesByName[serviceName] != []
      requires !(socketID in socketToInstance && serviceName in socketToInstance[socketID])
      modifies this`socketToInstance, known
      ensures Valid() && (id, true) == MapTarget(old(Contents()), serviceName, socketID)
      ensures Contents() == Map(old(Contents()), serviceName, socketID)
    {
      hide LeastLoaded, WellFormed, Map, MapTarget;
      var target := LeastLoadedOf(servicesByName[serviceName]);
      PinsTo(Contents(), serviceName, socketID, target);
      AddSocket(target, socketID);
      Record(socketID, serviceName, target.id);
      return target.id;
    }

    method Record(socketID: string, serviceName: string, id: string)
      requires Valid() && !closed
      modifies this`socketToInstance
      ensures Valid() && Contents() == old(Contents()).(mapping := old(socketToInstance)[socketID :=
        (if socketID in old(socketToInstance) then old(socketToInstance)[socketID] else map[])[serviceName := id]])
    {
      var services := if socketID in socketToInstance then socketToInstance[socketID] else map[];
      socketToInstance := socketToInstance[socketID := services[serviceName := id]];
    }

    method LeastLoadedOf(instances: seq<ServiceDescriptor>) returns (target: ServiceDescriptor)
      requires Valid() && instances != [] && forall d | d in instances :: d in known
      ensures target in known && target == LeastLoaded(Contents().descs, instances)
    {
      hide LeastLoaded;
      ghost var descs := Contents().descs;
      target := instances[0];
      LeastOfOne(descs, instances);
      for i := 1 to |instances|
        invariant target == LeastLoaded(descs, instances[..i])
      {
        LeastOfNext(descs, instances, i);
        assert target in instances && instances[i] in instances;
        if |target.socketIDs| > |instances[i].socketIDs| {
          target := instances[i];
        }
      }
      assert instances[..|instances|] == instances;
    }

    method AddSocket(target: ServiceDescriptor, socketID: string)
      requires Valid() && target in known
      modifies target`socketIDs
      ensures Valid() && Contents() == old(Contents()).(descs :=
        old(Contents()).descs[target := old(target.Value()).(sockets := old(target.socketIDs) + [socketID])])
    {
      target.socketIDs := target.socketIDs + [socketID];
      assert Contents().descs ==
        old(Contents()).descs[target := old(target.Value()).(sockets := old(target.socketIDs) + [socketID])];
    }

    method UnmapSocket(socketID: string)
      requires Valid()
      modifies this`socketToInstance, known
      ensures Valid() && Contents() == Unmap(old(Contents()), socketID)
    {
      hide RemoveFirst, FirstWithId, Releases;
      if closed || socketID !in socketToInstance {
        return;
      }
      ReleaseAll(socketID, socketToInstance[socketID]);
      socketToInstance := socketToInstance - {socketID};
      assert Contents().descs == Unmap(old(Contents()), socketID).descs;
    }

    /** What the loop of UnmapSocket leaves of a descriptor once it has visited the names outside `pending`. */
    ghost function ReleasedFrom(ix: Index<ServiceDescriptor>, socketID: string, pending: set<string>,
                                d: ServiceDescriptor): Desc
      requires WellFormed(ix) && d in ix.descs
    {
      var v := ix.descs[d];
      if v.name !in pending && Releases(ix, socketID, d) then v.(sockets := RemoveFirst(v.sockets, socketID)) else v
    }

    method ReleaseAll(socketID: string, services: map<string, string>)
      requires Valid() && socketID in socketToInstance && services == socketToInstance[socketID]
      modifies known
      ensures Valid() && forall d | d in known :: d.Value() == ReleasedFrom(old(Contents()), socketID, {}, d)
    {
      hide RemoveFirst, FirstWithId, Releases;
      ghost var ix := Contents();
      var names := services.Keys;
      NothingReleased(ix, socketID);
      while names != {}
        invariant names <= services.Keys && Valid()
        invariant forall d | d in known :: d.Value() == ReleasedFrom(ix, socketID, names, d)
        decreases |names|
      {
        var n :| n in names;
        ReleaseNamed(ix, socketID, services, names, n);
        names := names - {n};
      }
    }

    /** Before the first turn nothing is released. */
    lemma NothingReleased(ix: Index<ServiceDescriptor>, socketID: string)
      requires WellFormed(ix) && socketID in ix.mapping
      ensures forall d | d in ix.descs :: ReleasedFrom(ix, socketID, ix.mapping[socketID].Keys, d) == ix.descs[d]
    {
    }

    /** One turn of that loop. */
    method ReleaseNamed(ghost ix: Index<ServiceDescriptor>, socketID: string, services: map<string, string>,
                        ghost names: set<string>, n: string)
      requires Valid() && WellFormed(ix) && ix.descs.Keys == known && ix.byName == servicesByName
      requires socketID in ix.mapping && services == ix.mapping[socketID] && n in names && names <= services.Keys
      requires forall d | d in known :: d.Value() == ReleasedFrom(ix, socketID, names, d)
      modifies known
      ensures Valid()
      ensures forall d | d in known :: d.Value() == ReleasedFrom(ix, socketID, names - {n}, d)
    {
      hide RemoveFirst, FirstWithId;
      if n in servicesByName {
        var instances := servicesByName[n];
        var i := FindById(instances, services[n]);
        FoundFirst(instances, services[n], i);
        SameIds(ix, Contents(), instances, services[n]);
        if i < |instances| {
          RemoveSocket(instances[i], socketID);
        }
      }
    }

    method RemoveSocket(instance: ServiceDescriptor, socketID: string)
      modifies instance`socketIDs
      ensures instance.socketIDs == RemoveFirst(old(instance.socketIDs), socketID)
    {
      instance.socketIDs := RemoveFirst(instance.socketIDs, socketID);
    }

    method SocketIDsByServiceInstance() returns (report: map<string, seq<string>>)
      requires Valid()
      ensures forall id, s :: Times(report, id, s) == Pinned(s, id)
    {
      report := map[];
      if closed {
        return;
      }
      var sockets := socketToInstance.Keys;
      while sockets != {}
        invariant sockets <= socketToInstance.Keys
        invariant forall id, s :: Times(report, id, s) == if s in sockets then 0 else Pinned(s, id)
        decreases |sockets|
      {
        var s :| s in sockets;
        sockets := sockets - {s};
        report := AddReport(report, s, socketToInstance[s]);
      }
    }

    /** How many services map s to id. */
    ghost function Pinned(s: string, id: string): nat
      reads this`socketToInstance
    {
      if s in socketToInstance then |Sending(socketToInstance[s], id)| else 0
    }

    method AddReport(before: map<string, seq<string>>, socketID: string, services: map<string, string>)
      returns (report: map<string, seq<string>>)
      ensures forall id, s ::
        Times(report, id, s) == Times(before, id, s) + (if s == socketID then |Sending(services, id)| else 0)
    {
      hide Times;
      report := before;
      var names := services.Keys;
      assert forall id :: Sending(services, id) - names == {};
      while names != {}
        invariant names <= services.Keys
        invariant forall id, s ::
          Times(report, id, s) == Times(before, id, s) + (if s == socketID then |Sending(services, id) - names| else 0)
        decreases |names|
      {
        var n :| n in names;
        AddEntry(report, services[n], socketID);
        OneMoreSent(services, names, n);
        report := Listing(report, services[n], socketID);
        names := names - {n};
      }
      assert forall id :: Sending(services, id) - names == Sending(services, id);
    }

    lemma Listed(name: string, d: ServiceDescriptor)
      requires Valid() && name in servicesByName && d in servicesByName[name]
      ensures d in Named(Contents(), name) && d in Contents().descs && Contents().descs[d] == d.Value()
    {
    }

    method ResolveService(path: string, matches: (string, string) -> bool) returns (name: string, found: bool)
      requires Valid()
      ensures found ==>
        name in servicesByName && exists d :: d in servicesByName[name] && Serves(d.Value(), path, matches)
      ensures !found ==> forall n, d | n in servicesByName && d in servicesByName[n] ::
        !Serves(d.Value(), path, matches)
    {
      var names := servicesByName.Keys;
      while names != {}
        invariant names <= servicesByName.Keys
        invariant forall n, d | n in servicesByName.Keys - names && d in servicesByName[n] ::
          !Serves(d.Value(), path, matches)
        decreases |names|
      {
        name :| name in names;
        names := names - {name};
        var instances := servicesByName[name];
        for i := 0 to |instances|
          invariant forall j | 0 <= j < i :: !Serves(instances[j].Value(), path, matches)
        {
          for k := 0 to |instances[i].routes|
            invariant forall l | 0 <= l < k :: !matches(instances[i].routes[l], path)
          {
            if matches(instances[i].routes[k], path) {
              assert instances[i] in instances && Serves(instances[i].Value(), path, matches);
              return name, true;
            }
          }
        }
      }
      return "", false;
    }
  }

  lemma OneMoreSent(services: map<string, string>, names: set<string>, n: string)
    requires n in names && names <= services.Keys
    ensures forall id ::
      |Sending(services, id) - (names - {n})| == |Sending(services, id) - names| + (if services[n] == id then 1 else 0)
  {
    forall id
      ensures |Sending(services, id) - (names - {n})| ==
        |Sending(services, id) - names| + (if services[n] == id then 1 else 0)
    {
      if services[n] == id {
        assert Sending(services, id) - (names - {n}) == (Sending(services, id) - names) + {n};
      } else {
        assert Sending(services, id) - (names - {n}) == Sending(services, id) - names;
      }
    }
  }

  /** With agreement no socket is listed twice under an ID. */
  lemma SentOnce<R>(ix: Index<R>, s: string, id: string)
    requires Agree(ix) && s in ix.mapping
    ensures |Sending(ix.mapping[s], id)| <= 1
  {
    hide LoadExact, SameInstances;
    var names := Sending(ix.mapping[s], id);
    forall m, n | m in names && n in names ensures m == n {
      assert Indexed(ix, m, id) && Indexed(ix, n, id);
    }
    if n :| n in names {
      assert names == {n};
    }
  }

  /** MapSocket's effect once the least loaded instance r is known. */
  lemma PinsTo<R>(ix: Index<R>, n: string, s: string, r: R)
    requires WellFormed(ix) && !ix.closed && n in ix.byName && ix.byName[n] != []
    requires r == LeastLoaded(ix.descs, ix.byName[n])
    requires !(s in ix.mapping && n in ix.mapping[s])
    ensures r in ix.descs && MapTarget(ix, n, s) == (ix.descs[r].id, true)
    ensures Map(ix, n, s) == ix.(descs := ix.descs[r := ix.descs[r].(sockets := ix.descs[r].sockets + [s])],
      mapping := ix.mapping[s := (if s in ix.mapping then ix.mapping[s] else map[])[n := ix.descs[r].id]])
  {
  }

  lemma LeastOfOne<R>(descs: map<R, Desc>, rs: seq<R>)
    requires rs != [] && forall r | r in rs :: r in descs
    ensures LeastLoaded(descs, rs[..1]) == rs[0]
  {
  }

  lemma LeastOfNext<R>(descs: map<R, Desc>, rs: seq<R>, i: nat)
    requires 0 < i < |rs| && forall r | r in rs :: r in descs
    ensures var best := LeastLoaded(descs, rs[..i]);
      && best in rs
      && LeastLoaded(descs, rs[..i + 1]) == if |descs[best].sockets| > |descs[rs[i]].sockets| then rs[i] else best
  {
    assert rs[..i + 1][..i] == rs[..i];
  }

  lemma {:induction false} SameIds<R>(a: Index<R>, b: Index<R>, rs: seq<R>, id: string)
    requires forall r | r in rs :: r in a.descs && r in b.descs && a.descs[r].id == b.descs[r].id
    ensures FirstWithId(a.descs, rs, id) == FirstWithId(b.descs, rs, id)
  {
    if rs != [] {
      SameIds(a, b, rs[1..], id);
    }
  }

  lemma AffectedByOneMore(mapping: map<string, map<string, string>>, ids: seq<string>, id: string)
    ensures forall s :: s in AffectedBy(mapping, ids + [id]) <==>
      s in AffectedBy(mapping, ids) || (s in mapping && id in mapping[s].Values)
  {
    forall s | s in mapping && id in mapping[s].Values ensures s in AffectedBy(mapping, ids + [id]) {
      var n :| n in mapping[s] && mapping[s][n] == id;
    }
    forall s | s in AffectedBy(mapping, ids) ensures s in AffectedBy(mapping, ids + [id]) {
      var n :| n in mapping[s] && mapping[s][n] in ids;
      assert mapping[s][n] in ids + [id];
    }
  }

  lemma {:induction false} UnsetsExtend<R>(ix: Index<R>, ids: seq<string>, mid: Index<R>, id: string,
                                           pick: Option<string>)
    requires WellFormed(ix) && WellFormed(mid) && UnsetsTo(ix, ids, mid) && ValidPick(mid, id, pick)
    ensures UnsetsTo(ix, ids + [id], UnsetAt(mid, id, pick))
    decreases |ids|
  {
    var end := UnsetAt(mid, id, pick);
    if ids == [] {
      assert UnsetsTo(end, [], end);
      assert (ids + [id])[1..] == [] && (ids + [id])[0] == id;
      assert ValidPick(ix, (ids + [id])[0], pick);
    } else {
      var p :| ValidPick(ix, ids[0], p) && UnsetsTo(UnsetAt(ix, ids[0], p), ids[1..], mid);
      UnsetsExtend(UnsetAt(ix, ids[0], p), ids[1..], mid, id, pick);
      assert (ids + [id])[1..] == ids[1..] + [id] && (ids + [id])[0] == ids[0];
      assert ValidPick(ix, (ids + [id])[0], p);
    }
  }
}
