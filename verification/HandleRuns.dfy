/** A Handle call on its own is one of the runs of the gateway, so everything proved of runs holds of it. */
module HandleRuns {
  import opened Sequences
  import opened IndexModel
  import opened IndexAgreement
  import opened GatewayModel
  import H = HandleModel

  ghost function ResultOf(r: H.Reply): Result {
    match r
    case Accepted => Acknowledged
    case SlowConsumer => SlowConsumer
    case Failed => Failed
  }

  lemma Prepend<R>(g: Gateway<R>, a: Action<R>, states: seq<Gateway<R>>, acts: seq<Action<R>>)
    requires WellFormed(g.ix) && GatewayModel.Trace(states, acts) && GatewayModel.Next(g, a, states[0])
    ensures GatewayModel.Trace([g] + states, [a] + acts)
    ensures ([g] + states)[|[a] + acts|] == states[|acts|] && ([g] + states)[0] == g
  {
    hide GatewayModel.Next, WellFormed;
    var ss, aa := [g] + states, [a] + acts;
    forall i | 0 <= i < |aa| ensures GatewayModel.Next(ss[i], aa[i], ss[i + 1]) {
      assert i > 0 ==> aa[i] == acts[i - 1] && ss[i] == states[i - 1] && ss[i + 1] == states[i];
    }
  }

  lemma Single<R>(g: Gateway<R>)
    requires WellFormed(g.ix)
    ensures GatewayModel.Trace([g], [])
  {
  }

  /** Where the loop of call h leaves the gateway: done, or about to close its socket. */
  ghost function AfterLoop<R>(g: Gateway<R>, h: nat, l: H.Handled<R>): Gateway<R>
    requires h in g.handlers
  {
    if l.outcome.Acknowledged? then g.(ix := l.ix, handlers := g.handlers - {h})
    else GatewayModel.At(g, h, MustClose).(ix := l.ix)
  }

  /** The gateway with call h at this stage over this index. */
  ghost function Stands<R>(g: Gateway<R>, h: nat, stage: Stage, ix: Index<R>): Gateway<R>
    requires h in g.handlers
  {
    GatewayModel.At(g, h, stage).(ix := ix)
  }

  lemma Mapped<R>(g: Gateway<R>, h: nat)
    requires WellFormed(g.ix) && h in g.handlers && g.handlers[h].stage == Mapping
    ensures var n, s := g.handlers[h].service, g.handlers[h].socket;
      GatewayModel.Next(g, MapIt(h), Stands(g, h, AfterMap(g, h), Map(g.ix, n, s)))
  {
    hide Map, MapTarget, WellFormed;
  }

  lemma Replied<R>(g: Gateway<R>, h: nat, id: string, isNew: bool, result: Result)
    requires WellFormed(g.ix) && h in g.handlers && g.handlers[h].stage == Sending(id, isNew)
    ensures GatewayModel.Next(g, Reply(h, result), match result
      case Acknowledged => g.(handlers := g.handlers - {h})
      case SlowConsumer => Stands(g, h, MustClose, g.ix)
      case Failed => Stands(g, h, Unsetting(id, isNew), g.ix))
  {
  }

  lemma UnsetBy<R>(g: Gateway<R>, h: nat, id: string, isNew: bool, pick: Option<string>)
    requires WellFormed(g.ix) && ValidPick(g.ix, id, pick)
    requires h in g.handlers && g.handlers[h].stage == Unsetting(id, isNew)
    ensures GatewayModel.Next(g, UnsetIt(h),
      Stands(g, h, if isNew then Mapping else MustClose, UnsetAt(g.ix, id, pick)))
  {
    hide UnsetAt, ValidPick, WellFormed;
  }

  /** One turn that fails: map, ask, unset. */
  lemma FailedTurn<R>(g: Gateway<R>, h: nat, pick: Option<string>, states: seq<Gateway<R>>, acts: seq<Action<R>>)
    returns (states': seq<Gateway<R>>, acts': seq<Action<R>>)
    requires WellFormed(g.ix) && h in g.handlers && g.handlers[h].stage == Mapping
    requires WellFormed(Map(g.ix, g.handlers[h].service, g.handlers[h].socket))
    requires MapTarget(g.ix, g.handlers[h].service, g.handlers[h].socket).0 != ""
    requires var n, s := g.handlers[h].service, g.handlers[h].socket;
      var (id, isNew) := MapTarget(g.ix, n, s);
      && ValidPick(Map(g.ix, n, s), id, pick) && GatewayModel.Trace(states, acts)
      && |states| == |acts| + 1
      && states[0] == Stands(g, h, if isNew then Mapping else MustClose, UnsetAt(Map(g.ix, n, s), id, pick))
    ensures GatewayModel.Trace(states', acts') && |states'| == |acts'| + 1
    ensures states'[0] == g && states'[|acts'|] == states[|acts|]
  {
    hide GatewayModel.Next, GatewayModel.Trace, WellFormed, Map, MapTarget, UnsetAt, ValidPick;
    var n, s := g.handlers[h].service, g.handlers[h].socket;
    var (id, isNew) := MapTarget(g.ix, n, s);
    var m := Map(g.ix, n, s);
    var sending, unsetting := Stands(g, h, Sending(id, isNew), m), Stands(g, h, Unsetting(id, isNew), m);
    Mapped(g, h);
    Replied(sending, h, id, isNew, Failed);
    UnsetBy(unsetting, h, id, isNew, pick);
    assert Stands(sending, h, Unsetting(id, isNew), m) == unsetting;
    var u := UnsetAt(m, id, pick);
    assert Stands(unsetting, h, if isNew then Mapping else MustClose, u) == states[0];
    Prepend(unsetting, UnsetIt(h), states, acts);
    Prepend(sending, Reply(h, Failed), [unsetting] + states, [UnsetIt(h)] + acts);
    states', acts' := [sending] + ([unsetting] + states), [Reply(h, Failed)] + ([UnsetIt(h)] + acts);
    Prepend(g, MapIt(h), states', acts');
    states', acts' := [g] + states', [MapIt(h)] + acts';
  }

  /** One turn that ends the loop without a failure. */
  lemma LastTurn<R>(g: Gateway<R>, h: nat, reply: string -> H.Reply)
    returns (states: seq<Gateway<R>>, acts: seq<Action<R>>)
    requires Agree(g.ix) && h in g.handlers && g.handlers[h].stage == Mapping
    requires WellFormed(g.ix) && WellFormed(Map(g.ix, g.handlers[h].service, g.handlers[h].socket))
    requires var id := MapTarget(g.ix, g.handlers[h].service, g.handlers[h].socket).0; id == "" || reply(id) != H.Failed
    ensures GatewayModel.Trace(states, acts) && |states| == |acts| + 1 && states[0] == g
    ensures states[|acts|] == AfterLoop(g, h, H.Loop(g.ix, g.handlers[h].service, g.handlers[h].socket, reply))
  {
    hide GatewayModel.Next, GatewayModel.Trace, WellFormed, Map, MapTarget, Agree;
    var n, s := g.handlers[h].service, g.handlers[h].socket;
    var (id, isNew) := MapTarget(g.ix, n, s);
    var m := Map(g.ix, n, s);
    Mapped(g, h);
    if id == "" {
      Single(Stands(g, h, MustClose, m));
      Prepend(g, MapIt(h), [Stands(g, h, MustClose, m)], []);
      states, acts := [g] + [Stands(g, h, MustClose, m)], [MapIt(h)] + [];
    } else {
      var sending := Stands(g, h, Sending(id, isNew), m);
      var result := ResultOf(reply(id));
      Replied(sending, h, id, isNew, result);
      var end := AfterLoop(g, h, H.Loop(g.ix, n, s, reply));
      assert result == Acknowledged ==> sending.(handlers := sending.handlers - {h}) == end;
      assert result == SlowConsumer ==> Stands(sending, h, MustClose, m) == end;
      Single(end);
      Prepend(sending, Reply(h, result), [end], []);
      Prepend(g, MapIt(h), [sending] + [end], [Reply(h, result)] + []);
      states, acts := [g] + ([sending] + [end]), [MapIt(h)] + ([Reply(h, result)] + []);
    }
  }

  lemma SomePick<R>(ix: Index<R>, id: string) returns (pick: Option<string>)
    requires WellFormed(ix)
    ensures ValidPick(ix, id, pick)
  {
    if n :| n in ix.byName && HasId(ix.descs, ix.byName[n], id) {
      pick := Some(n);
    } else {
      pick := None;
    }
  }

  /** The turns of the loop, one after the other. */
  lemma {:induction false} LoopIsRun<R>(g: Gateway<R>, h: nat, reply: string -> H.Reply)
    returns (states: seq<Gateway<R>>, acts: seq<Action<R>>)
    requires Agree(g.ix) && h in g.handlers && g.handlers[h].stage == Mapping
    ensures GatewayModel.Trace(states, acts) && |states| == |acts| + 1 && states[0] == g
    ensures states[|acts|] == AfterLoop(g, h, H.Loop(g.ix, g.handlers[h].service, g.handlers[h].socket, reply))
    decreases |Named(g.ix, g.handlers[h].service)|
  {
    hide GatewayModel.Next, GatewayModel.Trace, WellFormed, Map, MapTarget, Agree;
    hide ValidPick, UnsetAt, H.AfterFailure, H.Delisted, H.Dropped, H.Stuck;
    var n, s := g.handlers[h].service, g.handlers[h].socket;
    AgreedIsWellFormed(g.ix);
    var (id, isNew) := MapTarget(g.ix, n, s);
    MapAgrees(g.ix, n, s);
    AgreedIsWellFormed(Map(g.ix, n, s));
    if id == "" || reply(id) != H.Failed {
      states, acts := LastTurn(g, h, reply);
    } else {
      H.TargetListed(g.ix, n, s);
      H.FailureDrops(g.ix, n, s);
      var ix' := H.AfterFailure(g.ix, n, s);
      FailureIs(g.ix, n, s);
      var next := Stands(g, h, if isNew then Mapping else MustClose, ix');
      if !isNew {
        FormedAfter(g.ix, n, s);
        Single(next);
        states, acts := [next], [];
      } else if n == "" {
        states, acts := StuckTurn(next, h, id);
        assert states[|acts|] == AfterLoop(g, h, H.Loop(g.ix, n, s, reply));
      } else {
        states, acts := LoopIsRun(next, h, reply);
        assert states[|acts|] == AfterLoop(g, h, H.Loop(g.ix, n, s, reply));
      }
      states, acts := FailedTurn(g, h, Some(n), states, acts);
    }
  }

  lemma FailureIs<R>(ix: Index<R>, n: string, s: string)
    requires Agree(ix) && MapTarget(ix, n, s) != ("", false)
    ensures WellFormed(Map(ix, n, s)) && ValidPick(Map(ix, n, s), MapTarget(ix, n, s).0, Some(n))
    ensures H.AfterFailure(ix, n, s) == UnsetAt(Map(ix, n, s), MapTarget(ix, n, s).0, Some(n))
  {
    H.TargetListed(ix, n, s);
  }

  lemma FormedAfter<R>(ix: Index<R>, n: string, s: string)
    requires Agree(ix) && MapTarget(ix, n, s) != ("", false)
    ensures WellFormed(H.AfterFailure(ix, n, s))
  {
  }

  /** A socket stuck with an instance that is gone: asked again, it fails again, and nothing more happens to the
      index. */
  lemma StuckTurn<R>(g: Gateway<R>, h: nat, id: string) returns (states: seq<Gateway<R>>, acts: seq<Action<R>>)
    requires h in g.handlers && g.handlers[h].stage == Mapping && id != ""
    requires H.Stuck(g.ix, g.handlers[h].service, g.handlers[h].socket, id)
    ensures GatewayModel.Trace(states, acts) && |states| == |acts| + 1
    ensures states[0] == g && states[|acts|] == Stands(g, h, MustClose, g.ix)
  {
    hide GatewayModel.Next, GatewayModel.Trace, Map, MapTarget, WellFormed, ValidPick, UnsetAt;
    var pick := SomePick(g.ix, id);
    var end := Stands(g, h, MustClose, g.ix);
    Single(end);
    states, acts := FailedTurn(g, h, pick, [end], []);
  }

  /** What a call for socket s leaves of the gateway: the index of the model; the socket registered if the call was
      acknowledged, and else taken out, closed and unmapped by the call itself. */
  ghost function AfterHandle<R>(g: Gateway<R>, t: nat, s: string, h: H.Handled<R>): Gateway<R> {
    if h.outcome.Acknowledged? then g.(ix := h.ix, table := g.table + {s})
    else g.(ix := h.ix, table := g.table - {s}, tokens := g.tokens[t := Token(s, Done)], closes := g.closes + [t])
  }

  lemma Entered<R>(g: Gateway<R>, h: nat, n: string, s: string)
    requires WellFormed(g.ix) && !g.ix.closed && h !in g.handlers
    ensures var resolved := g.(handlers := g.handlers[h := Handler(s, n, Resolved)]);
      && GatewayModel.Next(g, Resolve(h, s, n), resolved)
      && GatewayModel.Next(resolved, Register(h), Stands(resolved, h, Mapping, g.ix).(table := g.table + {s}))
  {
  }

  /** closeSocket at the end of the call. */
  lemma ClosesItself<R>(g: Gateway<R>, h: nat, t: nat) returns (states: seq<Gateway<R>>, acts: seq<Action<R>>)
    requires WellFormed(g.ix) && h in g.handlers && g.handlers[h].stage == MustClose && t !in g.tokens
    requires g.handlers[h].socket in g.table
    ensures GatewayModel.Trace(states, acts) && |states| == |acts| + 1 && states[0] == g
    ensures var s := g.handlers[h].socket;
      states[|acts|] == g.(ix := Unmap(g.ix, s), table := g.table - {s}, handlers := g.handlers - {h},
        tokens := g.tokens[t := Token(s, Done)], closes := g.closes + [t])
  {
    hide Unmap, WellFormed;
    var s := g.handlers[h].socket;
    var dropped := g.(table := g.table - {s}, handlers := g.handlers - {h}, tokens := g.tokens[t := Token(s, ToClose)]);
    var closed := dropped.(tokens := g.tokens[t := Token(s, ToUnmap)], closes := g.closes + [t]);
    var end := closed.(tokens := g.tokens[t := Token(s, Done)], ix := Unmap(g.ix, s));
    assert dropped.tokens[t := Token(s, ToUnmap)] == closed.tokens && closed.tokens[t := Token(s, Done)] == end.tokens;
    assert GatewayModel.Next(g, Drop(h, t), dropped) && GatewayModel.Next(dropped, CloseIt(t), closed);
    assert GatewayModel.Next(closed, UnmapIt(t), end);
    states, acts := [g, dropped, closed, end], [Drop(h, t), CloseIt(t), UnmapIt(t)];
  }

  lemma {:induction false} Joins<R>(xs: seq<Gateway<R>>, a: seq<Action<R>>, ys: seq<Gateway<R>>, b: seq<Action<R>>)
    requires GatewayModel.Trace(xs, a) && GatewayModel.Trace(ys, b) && xs[|a|] == ys[0]
    ensures GatewayModel.Trace(xs + ys[1..], a + b) && (xs + ys[1..])[0] == xs[0]
    ensures (xs + ys[1..])[|a + b|] == ys[|b|]
  {
    hide GatewayModel.Next, WellFormed;
    var zs, c := xs + ys[1..], a + b;
    forall i | 0 <= i < |c| ensures GatewayModel.Next(zs[i], c[i], zs[i + 1]) {
      if i >= |a| {
        assert c[i] == b[i - |a|] && zs[i + 1] == ys[i - |a| + 1] && zs[i] == ys[i - |a|];
      }
    }
  }

  /** A Handle call that runs by itself takes the gateway from g to what the model of one call says. */
  lemma HandleIsRun<R>(g: Gateway<R>, h: nat, t: nat, n: string, s: string, reply: string -> H.Reply)
    returns (states: seq<Gateway<R>>, acts: seq<Action<R>>)
    requires Agree(g.ix) && !g.ix.closed && h !in g.handlers && t !in g.tokens
    ensures GatewayModel.Trace(states, acts) && |states| == |acts| + 1 && states[0] == g
    ensures states[|acts|] == AfterHandle(g, t, s, H.Handle(g.ix, n, s, reply))
  {
    hide GatewayModel.Next, GatewayModel.Trace, WellFormed, Agree, H.Loop, Unmap;
    AgreedIsWellFormed(g.ix);
    H.LoopKeeps(g.ix, n, s, reply);
    var resolved := g.(handlers := g.handlers[h := Handler(s, n, Resolved)]);
    var registered := Stands(resolved, h, Mapping, g.ix).(table := g.table + {s});
    Entered(g, h, n, s);
    states, acts := LoopIsRun(registered, h, reply);
    var l := H.Loop(g.ix, n, s, reply);
    var looped := states[|acts|];
    if l.outcome.Acknowledged? {
      assert looped.handlers == g.handlers;
    } else {
      var more, closing := ClosesItself(looped, h, t);
      Joins(states, acts, more, closing);
      states, acts := states + more[1..], acts + closing;
      assert looped.handlers - {h} == g.handlers && (g.table + {s}) - {s} == g.table - {s};
    }
    assert states[|acts|] == AfterHandle(g, t, s, H.Handle(g.ix, n, s, reply));
    Prepend(resolved, Register(h), states, acts);
    Prepend(g, Resolve(h, s, n), [resolved] + states, [Register(h)] + acts);
    states, acts := [g] + ([resolved] + states), [Resolve(h, s, n)] + ([Register(h)] + acts);
  }
}
