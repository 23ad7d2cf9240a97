/** Handle calls over whole runs of the gateway: how each of them ends, and what becomes of the pin it leaves. */
module GatewayPins {
  import opened Sequences
  import opened IndexModel
  import opened IndexAgreement
  import opened IndexPinning
  import opened GatewayModel
  import HandleModel

  /** Every use of the index in the run is a well-announced descriptor or leaves no mapping of a service named ""
      dangling. */
  ghost predicate SoundRun<R(!new)>(states: seq<Gateway<R>>, acts: seq<Action<R>>) {
    && GatewayModel.Trace(states, acts) && states[0] == Start()
    && forall i, op | 0 <= i < |acts| && OpOf(states[i], acts[i]) == Some(op) :: Sound(states[i].ix, op)
  }

  lemma SoundStep<R(!new)>(states: seq<Gateway<R>>, acts: seq<Action<R>>, i: nat)
    requires SoundRun(states, acts) && i < |acts|
    ensures WellFormed(states[i].ix) && WellFormed(states[i + 1].ix)
    ensures GatewayModel.Next(states[i], acts[i], states[i + 1])
    ensures match OpOf(states[i], acts[i])
      case Some(op) => IndexModel.Next(states[i].ix, op, states[i + 1].ix) && Sound(states[i].ix, op)
      case None => states[i + 1].ix == states[i].ix
  {
    hide GatewayModel.Next, WellFormed, OpOf, Sound;
    OpBehind(states[i], acts[i], states[i + 1]);
  }

  lemma StepAgree<R(!new)>(states: seq<Gateway<R>>, acts: seq<Action<R>>, i: nat)
    requires SoundRun(states, acts) && i < |acts| && Agree(states[i].ix)
    ensures Agree(states[i + 1].ix)
  {
    StartsEmpty(states, acts);
    hide Agree, GatewayModel.Next, IndexModel.Next, WellFormed, OpOf, Sound, SoundRun;
    SoundStep(states, acts, i);
    match OpOf(states[i], acts[i])
    case Some(op) => StepAgrees(states[i].ix, op, states[i + 1].ix);
    case None =>
  }

  lemma {:induction false} RunAgree<R(!new)>(states: seq<Gateway<R>>, acts: seq<Action<R>>, k: nat)
    requires SoundRun(states, acts) && k <= |acts|
    ensures Agree(states[k].ix)
  {
    StartsEmpty(states, acts);
    hide Agree, SoundRun;
    if k == 0 {
      EmptyAgrees<R>();
    } else {
      RunAgree(states, acts, k - 1);
      StepAgree(states, acts, k - 1);
    }
  }

  lemma StartsEmpty<R(!new)>(states: seq<Gateway<R>>, acts: seq<Action<R>>)
    requires SoundRun(states, acts)
    ensures |states| == |acts| + 1 && states[0] == Start()
  {
  }

  // --- Pins ---

  /** The step breaks the pin of s to instance id. */
  ghost predicate BreaksPin<R>(g: Gateway<R>, a: Action<R>, s: string, id: string)
    requires WellFormed(g.ix)
  {
    OpOf(g, a).Some? && Breaks(g.ix, OpOf(g, a).value, s, id)
  }

  lemma PinnedStep<R(!new)>(states: seq<Gateway<R>>, acts: seq<Action<R>>, i: nat, s: string, n: string, id: string)
    requires SoundRun(states, acts) && i < |acts| && MapsTo(states[i].ix.mapping, s, n, id)
    ensures WellFormed(states[i].ix)
    ensures MapsTo(states[i + 1].ix.mapping, s, n, id) <==> !BreaksPin(states[i], acts[i], s, id)
  {
    StartsEmpty(states, acts);
    hide Agree, GatewayModel.Next, IndexModel.Next, WellFormed, OpOf, Sound, SoundRun, Breaks, MapsTo;
    RunAgree(states, acts, i);
    SoundStep(states, acts, i);
    match OpOf(states[i], acts[i])
    case Some(op) => PinStep(states[i].ix, op, states[i + 1].ix, s, n, id);
    case None =>
  }

  /** No step of the stretch breaks the pin. */
  ghost predicate Unbroken<R>(states: seq<Gateway<R>>, acts: seq<Action<R>>, a: nat, b: nat, s: string, id: string)
    requires b <= |acts| <= |states| && forall i | 0 <= i < |states| :: WellFormed(states[i].ix)
  {
    forall i | a <= i < b :: !BreaksPin(states[i], acts[i], s, id)
  }

  ghost predicate PinnedFrom<R>(states: seq<Gateway<R>>, a: nat, b: nat, s: string, n: string, id: string)
    requires b < |states|
  {
    forall i | a <= i <= b :: MapsTo(states[i].ix.mapping, s, n, id)
  }

  /** The pin holds throughout the stretch exactly if no step of it breaks it. */
  ghost predicate PinExact<R>(states: seq<Gateway<R>>, acts: seq<Action<R>>, a: nat, b: nat, s: string, n: string,
                              id: string)
    requires b <= |acts| && b < |states| && |acts| <= |states|
    requires forall i | 0 <= i < |states| :: WellFormed(states[i].ix)
  {
    PinnedFrom(states, a, b, s, n, id) <==> Unbroken(states, acts, a, b, s, id)
  }

  ghost predicate PinExactFrom<R>(states: seq<Gateway<R>>, acts: seq<Action<R>>, a: nat, s: string, n: string,
                                  id: string)
    requires |acts| < |states| && forall i | 0 <= i < |states| :: WellFormed(states[i].ix)
  {
    forall b | a <= b <= |acts| :: PinExact(states, acts, a, b, s, n, id)
  }

  lemma PinHoldsFrom<R(!new)>(states: seq<Gateway<R>>, acts: seq<Action<R>>, a: nat, s: string, n: string, id: string)
    requires SoundRun(states, acts) && a <= |acts| && MapsTo(states[a].ix.mapping, s, n, id)
    ensures PinExactFrom(states, acts, a, s, n, id)
  {
    hide GatewayModel.Next, WellFormed, PinExact, MapsTo;
    forall b | a <= b <= |acts| ensures PinExact(states, acts, a, b, s, n, id) {
      PinHolds(states, acts, a, b, s, n, id);
    }
  }

  lemma {:induction false} PinHolds<R(!new)>(states: seq<Gateway<R>>, acts: seq<Action<R>>, a: nat, b: nat,
                                             s: string, n: string, id: string)
    requires SoundRun(states, acts) && a <= b <= |acts| && MapsTo(states[a].ix.mapping, s, n, id)
    ensures PinExact(states, acts, a, b, s, n, id)
  {
    hide GatewayModel.Next, WellFormed, BreaksPin, MapsTo;
    if a < b {
      PinHolds(states, acts, a, b - 1, s, n, id);
      if MapsTo(states[b - 1].ix.mapping, s, n, id) {
        PinnedStep(states, acts, b - 1, s, n, id);
      }
      assert PinnedFrom(states, a, b, s, n, id) <==>
        PinnedFrom(states, a, b - 1, s, n, id) && MapsTo(states[b].ix.mapping, s, n, id);
      assert Unbroken(states, acts, a, b, s, id) <==>
        Unbroken(states, acts, a, b - 1, s, id) && !BreaksPin(states[b - 1], acts[b - 1], s, id);
      assert PinnedFrom(states, a, b - 1, s, n, id) ==> MapsTo(states[b - 1].ix.mapping, s, n, id);
    }
  }

  // --- How a call ends ---

  /** Handle call h, under way at k, last called MapSocket at step m. */
  ghost predicate LastMapped<R>(states: seq<Gateway<R>>, acts: seq<Action<R>>, h: nat, m: nat, k: nat) {
    && m < k <= |acts| < |states| && acts[m] == MapIt(h)
    && (forall j | m < j < k :: acts[j] != MapIt(h))
    && h in states[m].handlers && h in states[k].handlers
    && states[m].handlers[h].socket == states[k].handlers[h].socket
    && states[m].handlers[h].service == states[k].handlers[h].service
  }

  lemma StageStep<R>(g: Gateway<R>, a: Action<R>, g': Gateway<R>, h: nat)
    requires WellFormed(g.ix) && GatewayModel.Next(g, a, g') && h in g'.handlers && g'.handlers[h].stage.Sending?
    ensures h in g.handlers
    ensures g'.handlers[h].socket == g.handlers[h].socket && g'.handlers[h].service == g.handlers[h].service
    ensures if a == MapIt(h) then
        g'.handlers[h].stage == AfterMap(g, h) && g'.ix == Map(g.ix, g.handlers[h].service, g.handlers[h].socket)
      else g'.handlers[h].stage == g.handlers[h].stage
  {
    hide IndexModel.Next, Map, Unmap, MapTarget, WellFormed;
  }

  /** A call that waits for an answer waits for the one its last MapSocket chose. */
  lemma {:induction false} SendingWhere<R(!new)>(states: seq<Gateway<R>>, acts: seq<Action<R>>, h: nat, k: nat)
    returns (m: nat)
    requires SoundRun(states, acts) && k <= |acts| && h in states[k].handlers && states[k].handlers[h].stage.Sending?
    ensures LastMapped(states, acts, h, m, k) && WellFormed(states[m].ix)
    ensures states[k].handlers[h].stage == AfterMap(states[m], h)
    ensures states[m + 1].ix == Map(states[m].ix, states[m].handlers[h].service, states[m].handlers[h].socket)
  {
    hide GatewayModel.Next, WellFormed, AfterMap, Map;
    SoundStep(states, acts, k - 1);
    StageStep(states[k - 1], acts[k - 1], states[k], h);
    if acts[k - 1] == MapIt(h) {
      m := k - 1;
    } else {
      m := SendingWhere(states, acts, h, k - 1);
    }
  }

  lemma EndStep<R>(g: Gateway<R>, a: Action<R>, g': Gateway<R>, h: nat)
    requires WellFormed(g.ix) && GatewayModel.Next(g, a, g') && h in g.handlers && h !in g'.handlers
    ensures a == Reply(h, Acknowledged) || (a.Drop? && a.h == h)
    ensures a == Reply(h, Acknowledged) ==> g.handlers[h].stage.Sending?
    ensures a.Drop? ==> var s := g.handlers[h].socket;
      && s !in g'.table && g'.tokens.Keys - g.tokens.Keys == (if s in g.table then {a.t} else {})
      && (s in g.table ==> g'.tokens[a.t] == Token(s, ToClose))
  {
    hide IndexModel.Next, Map, Unmap, MapTarget, WellFormed;
  }

  lemma MappedTo<R>(ix: Index<R>, n: string, s: string)
    requires Agree(ix)
    ensures WellFormed(ix)
    ensures var id := MapTarget(ix, n, s).0;
      id != "" ==> MapsTo(Map(ix, n, s).mapping, s, n, id) && Indexed(ix, n, id)
  {
    hide Agree, Map, MapTarget;
    AgreedIsWellFormed(ix);
    if MapTarget(ix, n, s).0 != "" {
      HandleModel.TargetListed(ix, n, s);
    }
  }

  /** The call was answered without an error by the instance that its last MapSocket, at step m, pinned the socket to;
      from there on the pin holds over any stretch of the run exactly if nothing in it breaks it. */
  ghost predicate EndedPinned<R(!new)>(states: seq<Gateway<R>>, acts: seq<Action<R>>, h: nat, k: nat, m: nat)
    requires SoundRun(states, acts)
  {
    && LastMapped(states, acts, h, m, k) && states[k].handlers[h].stage.Sending?
    && var s, n, id := states[k].handlers[h].socket, states[k].handlers[h].service, states[k].handlers[h].stage.id;
       && Indexed(states[m].ix, n, id) && MapsTo(states[m + 1].ix.mapping, s, n, id)
       && PinExactFrom(states, acts, m + 1, s, n, id)
  }

  /** In every run, whatever other calls, prunes and closers do: a Handle call that ends was answered without an error
      by the instance its last MapSocket pinned the socket to, or took its socket out of the table, with exactly one
      obligation to close it if it was still there. */
  lemma CallEnds<R(!new)>(states: seq<Gateway<R>>, acts: seq<Action<R>>, h: nat, k: nat) returns (m: nat)
    requires SoundRun(states, acts) && k < |acts| && h in states[k].handlers && h !in states[k + 1].handlers
    ensures if acts[k] == Reply(h, Acknowledged) then EndedPinned(states, acts, h, k, m)
      else var s := states[k].handlers[h].socket;
        && acts[k].Drop? && acts[k].h == h && s !in states[k + 1].table
        && states[k + 1].tokens.Keys - states[k].tokens.Keys == (if s in states[k].table then {acts[k].t} else {})
        && (s in states[k].table ==> states[k + 1].tokens[acts[k].t] == Token(s, ToClose))
  {
    hide GatewayModel.Next, WellFormed, Map, MapTarget, Agree, MapsTo, PinExactFrom;
    SoundStep(states, acts, k);
    EndStep(states[k], acts[k], states[k + 1], h);
    m := 0;
    if acts[k] == Reply(h, Acknowledged) {
      m := SendingWhere(states, acts, h, k);
      RunAgree(states, acts, m);
      var s, n, id := states[k].handlers[h].socket, states[k].handlers[h].service, states[k].handlers[h].stage.id;
      MappedTo(states[m].ix, n, s);
      PinHoldsFrom(states, acts, m + 1, s, n, id);
    }
  }
}
