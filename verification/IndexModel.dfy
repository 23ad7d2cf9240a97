/** The gateway's service index as a value: what each operation of
    GatewayServiceIndexer does to the four structures it keeps. Instances are
    handled by reference (R), because `descriptors` and `servicesByName` share
    the same descriptor objects and an update through one is seen by the other. */
module IndexModel {
  import opened Sequences

  /** The fields of a ServiceDescriptor the index reads or writes. */
  datatype Desc = Desc(
    name: string,
    id: string,
    routes: seq<string>,
    lastSeen: Option<int>,
    sockets: seq<string>)

  datatype Index<R> = Index(
    closed: bool,
    descs: map<R, Desc>,
    flat: seq<R>,
    byName: map<string, seq<R>>,
    mapping: map<string, map<string, string>>)

  /** Every list entry is a known descriptor, filed under its own (immutable) name. */
  ghost predicate WellFormed<R>(ix: Index<R>) {
    && (forall r | r in ix.flat :: r in ix.descs)
    && (forall n, r | n in ix.byName && r in ix.byName[n] :: r in ix.descs && ix.descs[r].name == n)
  }

  function Empty<R>(): Index<R> {
    Index(false, map[], [], map[], map[])
  }

  function Close<R>(ix: Index<R>): Index<R> {
    Index(true, ix.descs, [], map[], map[])
  }

  /** slices.IndexFunc for a descriptor ID, with the length standing for "absent". */
  function FirstWithId<R(==)>(descs: map<R, Desc>, rs: seq<R>, id: string): (i: nat)
    requires forall r | r in rs :: r in descs
    ensures i <= |rs|
    ensures i < |rs| ==> descs[rs[i]].id == id
    ensures forall j | 0 <= j < i :: descs[rs[j]].id != id
  {
    if rs == [] || descs[rs[0]].id == id then 0 else 1 + FirstWithId(descs, rs[1..], id)
  }

  predicate HasId<R(==)>(descs: map<R, Desc>, rs: seq<R>, id: string)
    requires forall r | r in rs :: r in descs
  {
    FirstWithId(descs, rs, id) < |rs|
  }

  function Named<R>(ix: Index<R>, n: string): seq<R> {
    if n in ix.byName then ix.byName[n] else []
  }

  // --- SetServiceDescriptor ---

  function Set<R(==)>(ix: Index<R>, r: R, d: Desc, now: int): (ix': Index<R>)
    requires WellFormed(ix)
    requires r in ix.descs ==> ix.descs[r] == d
    ensures WellFormed(ix')
  {
    var instances := Named(ix, d.name);
    var i := FirstWithId(ix.descs, instances, d.id);
    if ix.closed then
      ix
    else if i < |instances| then
      var e := instances[i];
      ix.(descs := ix.descs[e := ix.descs[e].(routes := d.routes, lastSeen := Some(now))])
    else
      ix.(descs := ix.descs[r := d.(lastSeen := Some(now))],
          byName := ix.byName[d.name := instances + [r]],
          flat := ix.flat + [r])
  }

  // --- UnsetService ---

  /** The outcome of the first loop of unsetServiceLocked. Map iteration order is
      unspecified, so any name holding a match may be the one found. */
  ghost predicate ValidPick<R>(ix: Index<R>, id: string, pick: Option<string>)
    requires WellFormed(ix)
  {
    match pick
    case Some(n) => n in ix.byName && HasId(ix.descs, ix.byName[n], id)
    case None => forall n | n in ix.byName :: !HasId(ix.descs, ix.byName[n], id)
  }

  function EraseFrom(mapping: map<string, map<string, string>>, n: string,
                     id: string): map<string, map<string, string>> {
    map s | s in mapping && !(MapsTo(mapping, s, n, id) && mapping[s].Keys == {n}) ::
      if MapsTo(mapping, s, n, id) then mapping[s] - {n} else mapping[s]
  }

  predicate MapsTo(mapping: map<string, map<string, string>>, s: string, n: string, id: string) {
    s in mapping && n in mapping[s] && mapping[s][n] == id
  }

  function DropNamed<R(==)>(ix: Index<R>, n: string, id: string): map<string, seq<R>>
    requires WellFormed(ix) && n in ix.byName && HasId(ix.descs, ix.byName[n], id)
  {
    var rest := RemoveAt(ix.byName[n], FirstWithId(ix.descs, ix.byName[n], id));
    if rest == [] then ix.byName - {n} else ix.byName[n := rest]
  }

  function DropFlat<R(==)>(descs: map<R, Desc>, flat: seq<R>, id: string): seq<R>
    requires forall r | r in flat :: r in descs
  {
    var i := FirstWithId(descs, flat, id);
    if i < |flat| then RemoveAt(flat, i) else flat
  }

  function UnsetAt<R(==)>(ix: Index<R>, id: string, pick: Option<string>): (ix': Index<R>)
    requires WellFormed(ix) && ValidPick(ix, id, pick)
    ensures WellFormed(ix')
    ensures ix'.descs == ix.descs && ix'.closed == ix.closed
  {
    if ix.closed then
      ix
    else if pick.None? then
      ix.(flat := DropFlat(ix.descs, ix.flat, id))
    else
      ix.(flat := DropFlat(ix.descs, ix.flat, id),
          byName := DropNamed(ix, pick.value, id),
          mapping := if pick.value == "" then ix.mapping else EraseFrom(ix.mapping, pick.value, id))
  }

  // --- PruneStaleServices, FreshServiceDescriptors ---

  predicate Stale(d: Desc, now: int, threshold: int) {
    d.lastSeen.None? || now - d.lastSeen.value > threshold
  }

  predicate Fresh(d: Desc, now: int, threshold: int) {
    d.lastSeen.Some? && now - d.lastSeen.value <= threshold
  }

  function StaleIds<R(==)>(descs: map<R, Desc>, rs: seq<R>, now: int, threshold: int): (ids: seq<string>)
    requires forall r | r in rs :: r in descs
    ensures forall id :: id in ids <==> exists r :: r in rs && descs[r].id == id && Stale(descs[r], now, threshold)
  {
    if rs == [] then []
    else
      var n := |rs| - 1;
      assert rs == rs[..n] + [rs[n]];
      StaleIds(descs, rs[..n], now, threshold) +
      if Stale(descs[rs[n]], now, threshold) then [descs[rs[n]].id] else []
  }

  function FreshRefs<R(==)>(descs: map<R, Desc>, rs: seq<R>, now: int, threshold: int): (kept: seq<R>)
    requires forall r | r in rs :: r in descs
    ensures forall r | r in kept :: r in rs && Fresh(descs[r], now, threshold)
    ensures forall r | r in rs && Fresh(descs[r], now, threshold) :: r in kept
  {
    if rs == [] then []
    else
      var n := |rs| - 1;
      assert rs == rs[..n] + [rs[n]];
      FreshRefs(descs, rs[..n], now, threshold) +
      if Fresh(descs[rs[n]], now, threshold) then [rs[n]] else []
  }

  function IdsOf<R(==)>(descs: map<R, Desc>, rs: seq<R>): (ids: seq<string>)
    requires forall r | r in rs :: r in descs
    ensures forall id | id in ids :: exists r :: r in rs && descs[r].id == id
    ensures forall r | r in rs :: descs[r].id in ids
  {
    if rs == [] then []
    else
      var n := |rs| - 1;
      assert rs == rs[..n] + [rs[n]];
      IdsOf(descs, rs[..n]) + [descs[rs[n]].id]
  }

  /** The sockets mapped to one of the given instance IDs. */
  function AffectedBy(mapping: map<string, map<string, string>>, ids: seq<string>): set<string> {
    set s, n | s in mapping && n in mapping[s] && mapping[s][n] in ids :: s
  }

  /** ix' follows from unsetting ids one after the other. */
  ghost predicate UnsetsTo<R>(ix: Index<R>, ids: seq<string>, ix': Index<R>)
    requires WellFormed(ix)
    decreases |ids|
  {
    if ids == [] then ix' == ix
    else exists pick :: ValidPick(ix, ids[0], pick) && UnsetsTo(UnsetAt(ix, ids[0], pick), ids[1..], ix')
  }

  ghost predicate PrunesTo<R>(ix: Index<R>, now: int, threshold: int, ix': Index<R>)
    requires WellFormed(ix)
  {
    if ix.closed then ix' == ix
    else UnsetsTo(ix, StaleIds(ix.descs, ix.flat, now, threshold), ix')
  }

  // --- MapSocket ---

  function LeastLoaded<R(==)>(descs: map<R, Desc>, rs: seq<R>): (r: R)
    requires rs != [] && forall x | x in rs :: x in descs
    ensures r in rs
    ensures forall x | x in rs :: |descs[r].sockets| <= |descs[x].sockets|
  {
    var last := rs[|rs| - 1];
    if |rs| == 1 then last
    else
      var best := LeastLoaded(descs, rs[..|rs| - 1]);
      assert forall x | x in rs :: x in rs[..|rs| - 1] || x == last;
      if |descs[best].sockets| > |descs[last].sockets| then last else best
  }

  /** What MapSocket returns: the instance ID ("" when there is none), and isNew. */
  function MapTarget<R(==)>(ix: Index<R>, n: string, s: string): (string, bool)
    requires WellFormed(ix)
  {
    if ix.closed then ("", false)
    else if s in ix.mapping && n in ix.mapping[s] then (ix.mapping[s][n], false)
    else if Named(ix, n) == [] then ("", false)
    else (ix.descs[LeastLoaded(ix.descs, ix.byName[n])].id, true)
  }

  function Map<R(==)>(ix: Index<R>, n: string, s: string): (ix': Index<R>)
    requires WellFormed(ix)
    ensures WellFormed(ix')
  {
    if ix.closed || (s in ix.mapping && n in ix.mapping[s]) || Named(ix, n) == [] then
      ix
    else
      var r := LeastLoaded(ix.descs, ix.byName[n]);
      var services := if s in ix.mapping then ix.mapping[s] else map[];
      ix.(descs := ix.descs[r := ix.descs[r].(sockets := ix.descs[r].sockets + [s])],
          mapping := ix.mapping[s := services[n := ix.descs[r].id]])
  }

  // --- UnmapSocket ---

  /** r is the instance that UnmapSocket's inner loop stops at for one of s's mappings. */
  predicate Releases<R(==)>(ix: Index<R>, s: string, r: R)
    requires WellFormed(ix) && r in ix.descs
  {
    var n := ix.descs[r].name;
    && s in ix.mapping && n in ix.mapping[s] && n in ix.byName
    && var i := FirstWithId(ix.descs, ix.byName[n], ix.mapping[s][n]);
    i < |ix.byName[n]| && ix.byName[n][i] == r
  }

  function Unmap<R(==)>(ix: Index<R>, s: string): (ix': Index<R>)
    requires WellFormed(ix)
    ensures WellFormed(ix')
  {
    if ix.closed || s !in ix.mapping then
      ix
    else
      ix.(descs := map r | r in ix.descs ::
            if Releases(ix, s, r) then ix.descs[r].(sockets := RemoveFirst(ix.descs[r].sockets, s)) else ix.descs[r],
          mapping := ix.mapping - {s})
  }

  // --- ResolveService ---

  predicate Serves(d: Desc, path: string, matches: (string, string) -> bool): (serves: bool)
    ensures serves <==> exists route :: route in d.routes && matches(route, path)
  {
    exists k :: 0 <= k < |d.routes| && matches(d.routes[k], path)
  }

  // --- Runs ---

  datatype Op<R> =
    | OpSet(r: R, d: Desc, now: int)
    | OpUnset(id: string)
    | OpPrune(now: int, threshold: int)
    | OpMap(name: string, socket: string)
    | OpUnmap(socket: string)
    | OpClose

  ghost predicate Callable<R>(ix: Index<R>, op: Op<R>) {
    op.OpSet? && op.r in ix.descs ==> ix.descs[op.r] == op.d
  }

  /** One locked operation of the indexer. */
  ghost predicate Next<R>(ix: Index<R>, op: Op<R>, ix': Index<R>)
    requires WellFormed(ix)
  {
    && Callable(ix, op)
    && match op
       case OpSet(r, d, now) => ix' == Set(ix, r, d, now)
       case OpUnset(id) => exists pick :: ValidPick(ix, id, pick) && ix' == UnsetAt(ix, id, pick)
       case OpPrune(now, threshold) => PrunesTo(ix, now, threshold, ix')
       case OpMap(n, s) => ix' == Map(ix, n, s)
       case OpUnmap(s) => ix' == Unmap(ix, s)
       case OpClose => ix' == Close(ix)
  }

  /** A run: the states before and after each operation, in any order of operations. */
  ghost predicate Trace<R>(states: seq<Index<R>>, ops: seq<Op<R>>) {
    && |states| == |ops| + 1
    && (forall i | 0 <= i < |states| :: WellFormed(states[i]))
    && (forall i | 0 <= i < |ops| :: Next(states[i], ops[i], states[i + 1]))
  }
}
