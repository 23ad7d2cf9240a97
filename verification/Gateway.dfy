/** The gateway's handlers as they are written, each run without interference, over the indexer class. */
module Gateway {
  import opened Sequences
  import opened IndexModel
  import opened IndexAgreement
  import opened GatewayServiceIndexer
  import opened HandleModel
  import opened Heartbeat

  class Router {
    const name: string
    var gsi: Indexer?
    var sockets: set<string>

    ghost var closes: seq<string>     // the socket.Close calls
    ghost var notices: seq<string>    // the ClosedSocket broadcasts

    ghost predicate Valid()
      reads this, gsi
    {
      gsi != null ==> gsi.Valid()
    }

    constructor (name: string)
      ensures Valid() && gsi == null && sockets == {} && closes == [] && notices == []
    {
      this.name := name;
      gsi, sockets, closes, notices := null, {}, [], [];
    }

    /** handleServiceAnnouncement. */
    method HandleServiceAnnouncement(descriptor: ServiceDescriptor, gatewayNames: seq<string>, now: int)
      requires Valid() && gsi != null
      modifies gsi`descriptors, gsi`servicesByName, gsi`known, gsi.known, descriptor
      ensures Valid()
      ensures gsi.Contents() == if gatewayNames == [] || name in gatewayNames
        then Set(old(gsi.Contents()), descriptor, old(descriptor.Value()), now) else old(gsi.Contents())
      ensures (gatewayNames == [] || name in gatewayNames) && !gsi.closed ==>
        gsi.Offers(descriptor.name, descriptor.id, old(descriptor.routes), now)
    {
      if gatewayNames == [] || name in gatewayNames {
        gsi.SetServiceDescriptor(descriptor, now);
      }
    }

    /** handleSocketHeartbeats. */
    method HandleSocketHeartbeats(socketIDs: seq<string>) returns (dead: seq<string>)
      ensures dead == Absent(sockets, socketIDs)
    {
      dead := AnswerHeartbeat(sockets, socketIDs);
    }

    /** closeSocket. */
    method CloseSocket(socketID: string)
      requires Valid()
      modifies this`sockets, this`closes, this`notices, gsi, if gsi == null then {} else gsi.known
      ensures Valid() && sockets == old(sockets) - {socketID} && (gsi != null ==> gsi.known == old(gsi.known))
      ensures if socketID in old(sockets) then
          && closes == old(closes) + [socketID] && notices == old(notices) + [socketID]
          && (gsi != null ==> gsi.Contents() == Unmap(old(gsi.Contents()), socketID))
        else
          && closes == old(closes) && notices == old(notices)
          && (gsi != null ==> gsi.Contents() == old(gsi.Contents()))
    {
      var ok := socketID in sockets;
      sockets := sockets - {socketID};
      if !ok {
        return;
      }
      closes := closes + [socketID];
      notices := notices + [socketID];
      if gsi != null {
        gsi.UnmapSocket(socketID);
      }
    }

    /** handleGatewayMessage: a service's message to a socket; `sendOk` says whether sending it succeeds in time. */
    method HandleGatewayMessage(socketID: string, sendOk: bool) returns (routed: bool)
      requires Valid()
      modifies this`sockets, this`closes, this`notices, gsi, if gsi == null then {} else gsi.known
      ensures Valid() && (routed <==> socketID in old(sockets) && sendOk)
      ensures if socketID in old(sockets) && !sendOk then
          && sockets == old(sockets) - {socketID}
          && closes == old(closes) + [socketID] && notices == old(notices) + [socketID]
          && (gsi != null ==> gsi.Contents() == Unmap(old(gsi.Contents()), socketID))
        else
          && sockets == old(sockets) && closes == old(closes) && notices == old(notices)
          && (gsi != null ==> gsi.Contents() == old(gsi.Contents()))
    {
      if socketID !in sockets {
        return false;
      }
      if !sendOk {
        CloseSocket(socketID);
        return false;
      }
      return true;
    }

    /** handleSocketClosure: like closeSocket, but the closure was broadcast already. */
    method HandleSocketClosure(socketID: string)
      requires Valid() && gsi != null
      modifies this`sockets, this`closes, gsi, gsi.known
      ensures Valid() && sockets == old(sockets) - {socketID} && notices == old(notices)
      ensures if socketID in old(sockets) then
          closes == old(closes) + [socketID] && gsi.Contents() == Unmap(old(gsi.Contents()), socketID)
        else
          closes == old(closes) && gsi.Contents() == old(gsi.Contents())
    {
      if socketID !in sockets {
        return;
      }
      sockets := sockets - {socketID};
      closes := closes + [socketID];
      gsi.UnmapSocket(socketID);
    }

    /** The effect of a Handle call on the index, the table, the closes and the broadcasts, given what the loop of
        HandleModel says. */
    ghost predicate HandledAs(h: Handled<ServiceDescriptor>, socketID: string, before: set<string>,
                              closesBefore: seq<string>, noticesBefore: seq<string>)
      requires Valid() && gsi != null
      reads this, gsi, gsi.known
    {
      && gsi.Contents() == h.ix
      && sockets == (if h.outcome.Acknowledged? then before + {socketID} else before - {socketID})
      && closes == (if h.outcome.Acknowledged? then closesBefore else closesBefore + [socketID])
      && notices == (if h.outcome.Acknowledged? then noticesBefore else noticesBefore + [socketID])
    }

    /** Handle: resolve, register, then the retry loop. */
    method Handle(path: string, socketID: string, matches: (string, string) -> bool, reply: string -> Reply)
      returns (handled: bool, service: string, ghost h: Option<Handled<ServiceDescriptor>>)
      requires Valid() && (gsi != null ==> Agree(gsi.Contents()))
      modifies this`sockets, this`closes, this`notices, gsi, if gsi == null then {} else gsi.known
      ensures Valid()
      ensures handled <==> h.Some?
      ensures !handled ==> sockets == old(sockets) && closes == old(closes) && notices == old(notices)
      ensures !handled ==> (gsi != null ==> gsi.Contents() == old(gsi.Contents()))
      ensures !handled && gsi != null ==>
        forall n, d | n in gsi.servicesByName && d in gsi.servicesByName[n] :: !Serves(d.Value(), path, matches)
      ensures handled ==> gsi != null && exists r ::
        r in Named(old(gsi.Contents()), service) && Serves(old(gsi.Contents()).descs[r], path, matches)
      ensures handled ==> h.value == HandleModel.Handle(old(gsi.Contents()), service, socketID, reply)
      ensures handled ==> HandledAs(h.value, socketID, old(sockets), old(closes), old(notices))
    {
      hide Agree, Serves, HandleModel.Handle, WellFormed;
      handled, service, h := false, "", None;
      if gsi == null {
        return;
      }
      service, handled := gsi.ResolveService(path, matches);
      if !handled {
        return;
      }
      ghost var d :| d in gsi.servicesByName[service] && Serves(d.Value(), path, matches);
      gsi.Listed(service, d);
      sockets := sockets + {socketID};
      ghost var l := Route(service, socketID, reply);
      h := Some(l);
    }

    /** The loop of Handle. */
    method Route(service: string, socketID: string, reply: string -> Reply)
      returns (ghost h: Handled<ServiceDescriptor>)
      requires Valid() && gsi != null && Agree(gsi.Contents()) && socketID in sockets
      modifies this`sockets, this`closes, this`notices, gsi, gsi.known
      ensures Valid() && h == HandleModel.Handle(old(gsi.Contents()), service, socketID, reply)
      ensures HandledAs(h, socketID, old(sockets), old(closes), old(notices))
    {
      hide Agree, Loop, Map, Unmap, UnsetAt, MapTarget, ValidPick, HandleModel.Handle, Going;
      h := HandleModel.Handle(gsi.Contents(), service, socketID, reply);
      ghost var l := Loop(gsi.Contents(), service, socketID, reply);
      RoutedThenClosed(gsi.Contents(), service, socketID, reply);
      ghost var tried := [];
      ghost var stuck := None;
      var turn := Retry;
      StartsGoing(gsi.Contents(), service, socketID, reply);
      while turn == Retry
        invariant Valid() && gsi.known == old(gsi.known)
        invariant sockets == old(sockets) && closes == old(closes) && notices == old(notices)
        invariant turn == Retry ==> Going(gsi.Contents(), service, socketID, reply, tried, stuck, l)
        invariant turn != Retry ==> l.ix == gsi.Contents() && (turn == Stop <==> l.outcome.Acknowledged?)
        decreases turn == Retry, stuck.None?, |Named(gsi.Contents(), service)|
      {
        turn, tried, stuck := Attempt(service, socketID, reply, tried, stuck, l);
      }
      if turn == GiveUp {
        CloseSocket(socketID);
      }
    }

    /** One turn of the loop. */
    method Attempt(service: string, socketID: string, reply: string -> Reply, ghost tried: seq<string>,
                   ghost stuck: Option<string>,
                   ghost l: Handled<ServiceDescriptor>)
      returns (turn: Turn, ghost tried': seq<string>, ghost stuck': Option<string>)
      requires Valid() && gsi != null && Going(gsi.Contents(), service, socketID, reply, tried, stuck, l)
      modifies gsi, gsi.known
      ensures Valid() && gsi.known == old(gsi.known)
      ensures if turn == Retry then
          && Going(gsi.Contents(), service, socketID, reply, tried', stuck', l) && stuck.None?
          && (stuck'.None? ==> |Named(gsi.Contents(), service)| < |Named(old(gsi.Contents()), service)|)
        else
          l.ix == gsi.Contents() && (turn == Stop <==> l.outcome.Acknowledged?)
    {
      hide Agree, Loop, Map, UnsetAt, MapTarget, ValidPick, Going, Stuck;
      ghost var ix := gsi.Contents();
      TurnUnfolds(ix, service, socketID, reply, tried, stuck, l);
      var id, isNew := gsi.MapSocket(service, socketID);
      tried', stuck' := tried + [id], None;
      if id == "" || reply(id) == SlowConsumer {
        return GiveUp, tried', stuck';
      }
      if reply(id) == Accepted {
        return Stop, tried', stuck';
      }
      ghost var pick := gsi.UnsetService(id);
      TurnFails(ix, service, socketID, reply, tried, stuck, l, pick);
      if !isNew {
        return GiveUp, tried', stuck';
      }
      stuck' := if service == "" then Some(id) else None;
      return Retry, tried', stuck';
    }

    /** One tick of pruneLoop: drop the stale instances, then close every socket that was mapped to one. */
    method PruneTick(now: int, interval: int) returns (affected: seq<string>)
      requires Valid() && gsi != null && Agree(gsi.Contents()) && Sound(gsi.Contents(), OpPrune(now, 5 * interval))
      modifies this`sockets, this`closes, this`notices, gsi, gsi.known
      ensures Valid() && PrunedAndClosed(old(gsi.Contents()), now, 5 * interval, old(sockets), affected, gsi.Contents())
      ensures sockets == old(sockets) - (set s | s in affected)
      ensures ClosedExactly(old(closes), closes, old(sockets) - sockets)
      ensures ClosedExactly(old(notices), notices, old(sockets) - sockets)
    {
      hide Agree, StaleIds, AffectedBy, PrunesTo, Sound, PrunedAndClosed, Unmapped, ClosedExactly;
      ghost var ix := gsi.Contents();
      ghost var before := sockets;
      var stale;
      stale, affected := gsi.PruneStaleServices(now, 5 * interval);
      ghost var mid := gsi.Contents();
      PruneEffect(ix, now, 5 * interval, mid);
      CloseEach(affected);
      PruneThenClose(ix, now, 5 * interval, mid, before, affected, before - sockets, gsi.Contents());
    }

    /** The loop of pruneLoop's tick. */
    method CloseEach(socketIDs: seq<string>)
      requires Valid() && gsi != null && Agree(gsi.Contents())
      modifies this`sockets, this`closes, this`notices, gsi, gsi.known
      ensures Valid() && sockets == old(sockets) - (set s | s in socketIDs)
      ensures Unmapped(old(gsi.Contents()), old(sockets) - sockets, gsi.Contents())
      ensures ClosedExactly(old(closes), closes, old(sockets) - sockets)
      ensures ClosedExactly(old(notices), notices, old(sockets) - sockets)
    {
      hide Agree, Unmap, Unmapped, ClosedExactly;
      NothingUnmapped(gsi.Contents(), closes);
      NothingClosed(notices);
      ghost var ix := gsi.Contents();
      assert socketIDs[..0] == [] && old(sockets) - sockets == {};
      for i := 0 to |socketIDs|
        invariant Valid() && gsi.known == old(gsi.known)
        invariant sockets == old(sockets) - (set s | s in socketIDs[..i])
        invariant Unmapped(ix, old(sockets) - sockets, gsi.Contents())
        invariant ClosedExactly(old(closes), closes, old(sockets) - sockets)
        invariant ClosedExactly(old(notices), notices, old(sockets) - sockets)
      {
        ghost var mid, gone, log, told := gsi.Contents(), old(sockets) - sockets, closes, notices;
        CloseSocket(socketIDs[i]);
        assert socketIDs[..i + 1] == socketIDs[..i] + [socketIDs[i]];
        if socketIDs[i] in old(sockets) && socketIDs[i] !in gone {
          OneMoreUnmapped(ix, gone, mid, socketIDs[i], old(closes), log);
          OneMoreClosed(old(notices), told, gone, socketIDs[i]);
          assert old(sockets) - sockets == gone + {socketIDs[i]};
        } else {
          assert old(sockets) - sockets == gone;
        }
      }
      assert socketIDs[..|socketIDs|] == socketIDs;
    }

    /** closeAllSockets. */
    method CloseAllSockets()
      requires Valid()
      modifies this`sockets, this`closes, gsi, if gsi == null then {} else gsi.known
      ensures Valid() && sockets == {}
      ensures ClosedExactly(old(closes), closes, old(sockets))
      ensures gsi != null && old(gsi.closed) ==> gsi.Contents() == old(gsi.Contents())
    {
      hide ClosedExactly, Closing, Unmap, WellFormed;
      ghost var ix := if gsi == null then None else Some(gsi.Contents());
      var pending := sockets;
      ghost var all, before := sockets, closes;
      sockets := {};
      StartsClosing(all, before);
      while pending != {}
        invariant Valid() && sockets == {} && Closing(all, pending, before, closes)
        invariant gsi != null ==> gsi.known == old(gsi.known)
        invariant gsi != null ==> ix.Some? && (ix.value.closed ==> gsi.Contents() == ix.value)
        decreases |pending|
      {
        var s :| s in pending;
        ClosingNext(all, pending, before, closes, s);
        pending := pending - {s};
        CloseTaken(s);
      }
      EndsClosing(all, before, closes);
    }

    method CloseTaken(socketID: string)
      requires Valid()
      modifies this`closes, gsi, if gsi == null then {} else gsi.known
      ensures Valid() && closes == old(closes) + [socketID] && (gsi != null ==> gsi.known == old(gsi.known))
      ensures gsi != null ==> gsi.Contents() == Unmap(old(gsi.Contents()), socketID)
      ensures gsi != null && old(gsi.closed) ==> gsi.Contents() == old(gsi.Contents())
    {
      closes := closes + [socketID];
      if gsi != null {
        gsi.UnmapSocket(socketID);
      }
    }

    /** The deferred calls at the end of Connect, in the order they run. */
    method Shutdown()
      requires Valid() && gsi != null
      modifies this`sockets, this`closes, gsi, gsi.known
      ensures Valid() && sockets == {} && ClosedExactly(old(closes), closes, old(sockets))
      ensures gsi.Contents() == IndexModel.Close(old(gsi.Contents()))
    {
      gsi.Close();
      CloseAllSockets();
    }
  }

  /** Since `before`, socket.Close was called (or the closure broadcast) once for each socket in `gone`, and for no
      other. */
  ghost predicate ClosedExactly(before: seq<string>, now: seq<string>, gone: set<string>) {
    && before <= now && NoDup(now[|before|..])
    && forall s :: s in now[|before|..] <==> s in gone
  }

  /** ix' is ix with these sockets unmapped: all instances and all other mappings are as they were. */
  ghost predicate Unmapped<R>(ix: Index<R>, gone: set<string>, ix': Index<R>)
    requires WellFormed(ix)
  {
    && Agree(ix')
    && (forall k, i :: Indexed(ix', k, i) <==> Indexed(ix, k, i))
    && (forall t, k, i :: MapsTo(ix'.mapping, t, k, i) <==> MapsTo(ix.mapping, t, k, i) && t !in gone)
  }

  /** Of the sockets in `all`, those not pending have been closed. */
  ghost predicate Closing(all: set<string>, pending: set<string>, before: seq<string>, now: seq<string>) {
    pending <= all && ClosedExactly(before, now, all - pending)
  }

  lemma StartsClosing(all: set<string>, closes: seq<string>)
    ensures Closing(all, all, closes, closes)
  {
  }

  lemma ClosingNext(all: set<string>, pending: set<string>, before: seq<string>, now: seq<string>, s: string)
    requires Closing(all, pending, before, now) && s in pending
    ensures Closing(all, pending - {s}, before, now + [s])
  {
    OneMoreClosed(before, now, all - pending, s);
    assert all - (pending - {s}) == (all - pending) + {s};
  }

  lemma EndsClosing(all: set<string>, before: seq<string>, now: seq<string>)
    ensures Closing(all, {}, before, now) ==> ClosedExactly(before, now, all)
  {
    assert all - {} == all;
  }

  lemma NothingClosed(closes: seq<string>)
    ensures ClosedExactly(closes, closes, {})
  {
  }

  lemma OneMoreClosed(before: seq<string>, now: seq<string>, gone: set<string>, s: string)
    requires ClosedExactly(before, now, gone) && s !in gone
    ensures ClosedExactly(before, now + [s], gone + {s})
  {
    NoDupSnoc(now[|before|..], s);
    assert (now + [s])[|before|..] == now[|before|..] + [s];
  }

  lemma NothingUnmapped<R>(ix: Index<R>, closes: seq<string>)
    requires Agree(ix)
    ensures WellFormed(ix) && Unmapped(ix, {}, ix) && ClosedExactly(closes, closes, {})
  {
  }

  lemma OneMoreUnmapped<R>(ix: Index<R>, gone: set<string>, mid: Index<R>, s: string, before: seq<string>,
                           now: seq<string>)
    requires WellFormed(ix) && Unmapped(ix, gone, mid) && ClosedExactly(before, now, gone) && s !in gone
    ensures WellFormed(mid) && Unmapped(ix, gone + {s}, Unmap(mid, s)) && ClosedExactly(before, now + [s], gone + {s})
  {
    hide Unmap, Agree, Indexed;
    AgreedIsWellFormed(mid);
    UnmappedThere(mid, s);
    OneMoreClosed(before, now, gone, s);
  }

  /** A prune tick removes exactly the stale instances. It reports, each once, the sockets that were mapped to one;
      those that were registered end up with no mapping at all, and every other mapping stays unless it was to one. */
  ghost predicate PrunedAndClosed<R>(ix: Index<R>, now: int, threshold: int, sockets: set<string>,
                                     affected: seq<string>, ix': Index<R>)
    requires WellFormed(ix)
  {
    && Agree(ix') && NoDup(affected)
    && (forall s :: s in affected <==>
         exists n, id :: MapsTo(ix.mapping, s, n, id) && StaleInstance(ix, id, now, threshold))
    && (forall k, i :: Indexed(ix', k, i) <==> Indexed(ix, k, i) && !StaleInstance(ix, i, now, threshold))
    && (forall t, k, i :: MapsTo(ix'.mapping, t, k, i) <==>
          MapsTo(ix.mapping, t, k, i) && !StaleInstance(ix, i, now, threshold) && !(t in affected && t in sockets))
  }

  lemma PruneThenClose<R>(ix: Index<R>, now: int, threshold: int, mid: Index<R>, sockets: set<string>,
                          affected: seq<string>, gone: set<string>, ix': Index<R>)
    requires Agree(ix) && PrunesTo(ix, now, threshold, mid) && Sound(ix, OpPrune(now, threshold)) && NoDup(affected)
    requires forall s :: s in affected <==> s in AffectedBy(ix.mapping, StaleIds(ix.descs, ix.flat, now, threshold))
    requires WellFormed(mid) && Unmapped(mid, gone, ix') && gone == sockets - (sockets - set s | s in affected)
    ensures PrunedAndClosed(ix, now, threshold, sockets, affected, ix')
  {
    hide Agree, StaleIds, AffectedBy, PrunesTo, Sound, StaleInstance, Indexed, MapsTo;
    AgreedIsWellFormed(ix);
    PruneEffect(ix, now, threshold, mid);
  }

  lemma PruneEffect<R>(ix: Index<R>, now: int, threshold: int, ix': Index<R>)
    requires Agree(ix) && PrunesTo(ix, now, threshold, ix') && Sound(ix, OpPrune(now, threshold))
    ensures Agree(ix')
    ensures forall k, i :: Indexed(ix', k, i) <==> Indexed(ix, k, i) && !StaleInstance(ix, i, now, threshold)
    ensures forall s, n, id :: MapsTo(ix'.mapping, s, n, id) <==>
      MapsTo(ix.mapping, s, n, id) && !StaleInstance(ix, id, now, threshold)
    ensures forall s :: s in AffectedBy(ix.mapping, StaleIds(ix.descs, ix.flat, now, threshold)) <==>
      exists n, id :: MapsTo(ix.mapping, s, n, id) && StaleInstance(ix, id, now, threshold)
  {
    hide Agree, PrunesTo, WithoutIds, Named;
    AgreedIsWellFormed(ix);
    PruneExact(ix, now, threshold, ix');
    forall k, i ensures Indexed(ix', k, i) <==> Indexed(ix, k, i) && !StaleInstance(ix, i, now, threshold) {
      PrunedIndexed(ix, now, threshold, ix', k, i);
    }
  }

  lemma PrunedIndexed<R>(ix: Index<R>, now: int, threshold: int, ix': Index<R>, n: string, id: string)
    requires Agree(ix) && Agree(ix') && Without(ix, StaleIds(ix.descs, ix.flat, now, threshold), ix')
    ensures Indexed(ix', n, id) <==> Indexed(ix, n, id) && !StaleInstance(ix, id, now, threshold)
  {
    var ids := StaleIds(ix.descs, ix.flat, now, threshold);
    assert id in ids <==> StaleInstance(ix, id, now, threshold);
  }

  datatype Turn = Stop | GiveUp | Retry

  ghost function Prepend<R>(tried: seq<string>, h: Handled<R>): Handled<R> {
    Handled(h.ix, tried + h.tried, h.outcome)
  }

  /** Where the loop is before a turn: what is left of the call is the call on the present index, or the socket is
      stuck with the instance of a service named "" that failed it. */
  ghost predicate Going<R>(ix: Index<R>, n: string, s: string, reply: string -> Reply, tried: seq<string>,
                           stuck: Option<string>, l: Handled<R>) {
    match stuck
    case None => Agree(ix) && l == Prepend(tried, Loop(ix, n, s, reply))
    case Some(id) =>
      n == "" && id != "" && reply(id) == Failed && Stuck(ix, n, s, id) && l == Handled(ix, tried + [id], Unreachable)
  }

  lemma StartsGoing<R>(ix: Index<R>, n: string, s: string, reply: string -> Reply)
    requires Agree(ix)
    ensures Going(ix, n, s, reply, [], None, Loop(ix, n, s, reply))
  {
    hide Loop, Agree;
    assert [] + Loop(ix, n, s, reply).tried == Loop(ix, n, s, reply).tried;
  }

  /** A turn that does not fail ends the call as it should. */
  lemma TurnUnfolds<R>(ix: Index<R>, n: string, s: string, reply: string -> Reply, tried: seq<string>,
                       stuck: Option<string>, l: Handled<R>)
    requires Going(ix, n, s, reply, tried, stuck, l)
    ensures WellFormed(ix)
    ensures var id := MapTarget(ix, n, s).0;
      id == "" || reply(id) != Failed ==>
        l.ix == Map(ix, n, s) && (l.outcome.Acknowledged? <==> id != "" && reply(id) == Accepted)
  {
    hide Agree, Map, MapTarget, AfterFailure;
    if stuck.None? {
      AgreedIsWellFormed(ix);
    }
  }

  /** A turn that fails: the socket is not new and the call ends, or it goes on from the index it left. */
  lemma TurnFails<R>(ix: Index<R>, n: string, s: string, reply: string -> Reply, tried: seq<string>,
                     stuck: Option<string>, l: Handled<R>,
                     pick: Option<string>)
    requires Going(ix, n, s, reply, tried, stuck, l) && WellFormed(ix) && WellFormed(Map(ix, n, s))
    requires var id := MapTarget(ix, n, s).0;
      id != "" && reply(id) == Failed && ValidPick(Map(ix, n, s), id, pick)
    ensures var (id, isNew) := MapTarget(ix, n, s);
      var ix' := UnsetAt(Map(ix, n, s), id, pick);
      if !isNew then l.ix == ix' && l.outcome == Unreachable
      else
        && stuck.None? && Going(ix', n, s, reply, tried + [id], if n == "" then Some(id) else None, l)
        && (n != "" ==> |Named(ix', n)| < |Named(ix, n)|)
  {
    hide Agree, Map, MapTarget, AfterFailure, UnsetAt, ValidPick, Dropped, Delisted;
    var (id, isNew) := MapTarget(ix, n, s);
    if stuck.None? {
      UnsetAsPicked(ix, n, s, id, pick);
      FailureDrops(ix, n, s);
      if isNew {
        assert tried + [id, id] == (tried + [id]) + [id];
        if n != "" {
          var rest := Loop(AfterFailure(ix, n, s), n, s, reply);
          assert tried + ([id] + rest.tried) == (tried + [id]) + rest.tried;
        }
      }
    }
  }

  lemma UnsetAsPicked<R>(ix: Index<R>, n: string, s: string, id: string, pick: Option<string>)
    requires Agree(ix) && WellFormed(Map(ix, n, s)) && MapTarget(ix, n, s).0 == id != ""
    requires ValidPick(Map(ix, n, s), id, pick)
    ensures UnsetAt(Map(ix, n, s), id, pick) == AfterFailure(ix, n, s)
  {
    hide UnsetAt, Map, MapTarget;
    TargetListed(ix, n, s);
    PickFinds(Map(ix, n, s), id, pick);
    PickFinds(Map(ix, n, s), id, Some(n));
  }

  lemma RoutedThenClosed<R>(ix: Index<R>, n: string, s: string, reply: string -> Reply)
    requires Agree(ix)
    ensures var l := Loop(ix, n, s, reply);
      && WellFormed(l.ix)
      && HandleModel.Handle(ix, n, s, reply) == if l.outcome.Acknowledged? then l else l.(ix := Unmap(l.ix, s))
  {
    LoopKeeps(ix, n, s, reply);
  }
}
