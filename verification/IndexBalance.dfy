/** Least-connections balancing over runs of mappings. */
module IndexBalance {
  import opened Sequences
  import opened IndexModel
  import opened IndexAgreement

  /** The loads of a service's instances, in list order. */
  ghost function Loads<R>(ix: Index<R>, n: string): (loads: seq<nat>)
    requires WellFormed(ix)
    ensures |loads| == |Named(ix, n)|
  {
    seq(|Named(ix, n)|, i requires 0 <= i < |Named(ix, n)| => |ix.descs[Named(ix, n)[i]].sockets|)
  }

  ghost predicate Within(loads: seq<nat>, spread: nat) {
    forall i, j | 0 <= i < |loads| && 0 <= j < |loads| :: loads[i] <= loads[j] + spread
  }

  ghost function Sum(loads: seq<nat>): nat {
    if loads == [] then 0 else Sum(loads[..|loads| - 1]) + loads[|loads| - 1]
  }

  /** A new mapping raises exactly one load, a minimal one, by one; other services' loads stay. */
  lemma MapLoads<R>(ix: Index<R>, n: string, s: string) returns (i: nat)
    requires Agree(ix) && Map(ix, n, s) != ix
    ensures i < |Loads(ix, n)| && forall j | 0 <= j < |Loads(ix, n)| :: Loads(ix, n)[i] <= Loads(ix, n)[j]
    ensures Loads(Map(ix, n, s), n) == Loads(ix, n)[i := Loads(ix, n)[i] + 1]
    ensures forall m | m != n :: Loads(Map(ix, n, s), m) == Loads(ix, m)
  {
    var rs := ix.byName[n];
    var r := LeastLoaded(ix.descs, rs);
    i :| 0 <= i < |rs| && rs[i] == r;
    var ix' := Map(ix, n, s);
    forall j | 0 <= j < |rs| ensures Loads(ix', n)[j] == Loads(ix, n)[i := Loads(ix, n)[i] + 1][j] {
      assert rs[j] in rs;
    }
    forall m | m != n ensures Loads(ix', m) == Loads(ix, m) {
      forall q | q in Named(ix, m) ensures q != r {
      }
    }
  }

  /** Mapping a socket never raises a service's load spread above max(old spread, 1). */
  lemma MapSpread<R>(ix: Index<R>, n: string, s: string, m: string, spread: nat)
    requires Agree(ix) && Within(Loads(ix, m), spread) && spread >= 1
    ensures Within(Loads(Map(ix, n, s), m), spread)
  {
    if Map(ix, n, s) != ix {
      var i := MapLoads(ix, n, s);
    }
  }

  ghost function SocketsOf<R>(ix: Index<R>, n: string): set<string> {
    set s | s in ix.mapping && n in ix.mapping[s]
  }

  ghost function SocketsOn<R>(ix: Index<R>, rs: seq<R>): set<string>
    requires forall r | r in rs :: r in ix.descs
  {
    set r, s | r in rs && s in ix.descs[r].sockets :: s
  }

  /** No socket is listed by two instances of one service. */
  lemma DisjointLoads<R>(ix: Index<R>, n: string, q: R, r: R, s: string)
    requires Agree(ix) && q in Named(ix, n) && r in Named(ix, n) && q != r
    ensures !(s in ix.descs[q].sockets && s in ix.descs[r].sockets)
  {
    assert q in ix.flat && r in ix.flat;
    assert LoadExact(ix, q) && LoadExact(ix, r);
  }

  lemma {:induction false} SumOfPrefix<R>(ix: Index<R>, n: string, k: nat)
    requires Agree(ix) && k <= |Named(ix, n)|
    ensures Sum(Loads(ix, n)[..k]) == |SocketsOn(ix, Named(ix, n)[..k])|
  {
    hide Agree;
    AgreedIsWellFormed(ix);
    if k > 0 {
      SumOfPrefix(ix, n, k - 1);
      NextLoad(ix, n, k - 1);
      assert Loads(ix, n)[..k][..k - 1] == Loads(ix, n)[..k - 1];
    }
  }

  lemma NextLoad<R>(ix: Index<R>, n: string, k: nat)
    requires Agree(ix) && k < |Named(ix, n)|
    ensures |SocketsOn(ix, Named(ix, n)[..k + 1])| == |SocketsOn(ix, Named(ix, n)[..k])| + Loads(ix, n)[k]
  {
    hide Agree, NoDup, SocketsOn, WellFormed;
    AgreedIsWellFormed(ix);
    NamedKnown(ix, n);
    var rs := Named(ix, n);
    var r := rs[k];
    var before, here := SocketsOn(ix, rs[..k]), set s | s in ix.descs[r].sockets;
    NewSockets(ix, n, k);
    JoinSockets(ix, rs[..k], r);
    assert rs[..k + 1] == rs[..k] + [r];
    NoDupSize(ix.descs[r].sockets);
    JoinedSize(before, here);
  }

  lemma NamedKnown<R>(ix: Index<R>, n: string)
    requires WellFormed(ix)
    ensures forall r | r in Named(ix, n) :: r in ix.descs
  {
  }

  lemma JoinedSize<T>(a: set<T>, b: set<T>)
    requires forall x | x in a :: x !in b
    ensures |a + b| == |a| + |b|
  {
    assert a !! b;
  }

  lemma NewSockets<R>(ix: Index<R>, n: string, k: nat)
    requires Agree(ix) && k < |Named(ix, n)|
    ensures var rs := Named(ix, n);
      && NoDup(ix.descs[rs[k]].sockets)
      && forall s | s in SocketsOn(ix, rs[..k]) :: s !in ix.descs[rs[k]].sockets
  {
    var rs := Named(ix, n);
    var r := rs[k];
    assert NoDup(rs) && NoDup(ix.descs[r].sockets) by {
      assert r in ix.flat;
      assert LoadExact(ix, r);
    }
    forall s | s in SocketsOn(ix, rs[..k]) ensures s !in ix.descs[r].sockets {
      var j :| 0 <= j < k && s in ix.descs[rs[j]].sockets;
      DisjointLoads(ix, n, rs[j], r, s);
    }
  }

  lemma JoinSockets<R>(ix: Index<R>, rs: seq<R>, r: R)
    requires r in ix.descs && forall q | q in rs :: q in ix.descs
    ensures SocketsOn(ix, rs + [r]) == SocketsOn(ix, rs) + set s | s in ix.descs[r].sockets
  {
  }

  lemma SocketsAgree<R>(ix: Index<R>, n: string, s: string)
    requires Agree(ix)
    ensures s in SocketsOn(ix, Named(ix, n)) <==> s in SocketsOf(ix, n)
  {
    if s in SocketsOf(ix, n) {
      var id := ix.mapping[s][n];
      assert Indexed(ix, n, id);
      var r :| r in ix.flat && ix.descs[r].name == n && ix.descs[r].id == id;
      assert LoadExact(ix, r) && MapsTo(ix.mapping, s, n, id);
    }
    if s in SocketsOn(ix, Named(ix, n)) {
      var r :| r in Named(ix, n) && s in ix.descs[r].sockets;
      assert LoadExact(ix, r);
    }
  }

  /** A service's loads sum to the number of sockets mapped to it. */
  lemma LoadsSum<R>(ix: Index<R>, n: string)
    requires Agree(ix)
    ensures Sum(Loads(ix, n)) == |SocketsOf(ix, n)|
  {
    hide Agree, SocketsOn, SocketsOf, Sum, Named, WellFormed;
    AgreedIsWellFormed(ix);
    NamedKnown(ix, n);
    var rs := Named(ix, n);
    SumOfPrefix(ix, n, |rs|);
    assert Loads(ix, n)[..|rs|] == Loads(ix, n) && rs[..|rs|] == rs;
    forall s ensures s in SocketsOn(ix, rs) <==> s in SocketsOf(ix, n) {
      SocketsAgree(ix, n, s);
    }
    assert SocketsOn(ix, rs) == SocketsOf(ix, n);
  }

  lemma {:induction false} SumBounds(loads: seq<nat>, low: nat)
    requires forall i | 0 <= i < |loads| :: low <= loads[i] <= low + 1
    ensures |loads| * low <= Sum(loads) <= |loads| * low + |loads|
    ensures (exists i :: 0 <= i < |loads| && loads[i] == low) ==> Sum(loads) < |loads| * low + |loads|
  {
    if loads != [] {
      var init := loads[..|loads| - 1];
      SumBounds(init, low);
      assert |loads| * low == |init| * low + low;
      if i :| 0 <= i < |loads| && loads[i] == low {
        assert i < |init| ==> init[i] == low;
      }
    }
  }

  /** Loads that differ by at most one are all floor(k/n) or ceil(k/n) of their sum k. */
  lemma EvenLoads(loads: seq<nat>, i: nat)
    requires Within(loads, 1) && i < |loads|
    ensures Sum(loads) / |loads| <= loads[i] <= (Sum(loads) + |loads| - 1) / |loads|
  {
    var low := loads[i];
    var at := i;
    for j := 0 to |loads|
      invariant 0 <= at < |loads| && low == loads[at]
      invariant forall k | 0 <= k < j :: low <= loads[k]
    {
      if loads[j] < low {
        low, at := loads[j], j;
      }
    }
    SumBounds(loads, low);
    Quotient(Sum(loads), |loads|, low);
    if loads[i] == low + 1 && Sum(loads) == |loads| * low {
      AllLow(loads, low, i);
    }
  }

  lemma Quotient(k: nat, n: nat, low: nat)
    requires n > 0 && n * low <= k < n * low + n
    ensures k / n == low
    ensures k > n * low ==> (k + n - 1) / n == low + 1
    ensures k == n * low ==> (k + n - 1) / n == low
  {
    assert k == n * low + (k - n * low);
    DivideUnique(k, n, low);
    if k > n * low {
      assert n * (low + 1) == n * low + n;
      DivideUnique(k + n - 1, n, low + 1);
    } else {
      DivideUnique(k + n - 1, n, low);
    }
  }

  lemma Monotone(n: nat, a: nat, b: nat)
    ensures a <= b ==> n * a <= n * b
    ensures n * (a + 1) == n * a + n
  {
  }

  lemma QuotientBetween(k: nat, n: nat, d: nat, r: nat, q: nat)
    requires k == n * d + r && r < n && n * q <= k < n * q + n
    ensures d == q
  {
    Monotone(n, d + 1, q);
    Monotone(n, q + 1, d);
    Monotone(n, d, d);
    Monotone(n, q, q);
  }

  lemma DivideUnique(k: nat, n: nat, q: nat)
    requires n > 0 && n * q <= k < n * q + n
    ensures k / n == q
  {
    var d, r := k / n, k % n;
    assert k == n * d + r && 0 <= r < n;
    QuotientBetween(k, n, d, r, q);
  }

  lemma {:induction false} AllLow(loads: seq<nat>, low: nat, i: nat)
    requires (forall k | 0 <= k < |loads| :: low <= loads[k] <= low + 1) && Sum(loads) == |loads| * low && i < |loads|
    ensures loads[i] == low
  {
    var init := loads[..|loads| - 1];
    SumBounds(init, low);
    assert |loads| * low == |init| * low + low;
    if i < |init| {
      AllLow(init, low, i);
    }
  }

  /** From instances without sockets, however mappings to this and other services interleave, every
      instance of the service carries floor(k/n) or ceil(k/n) of the k sockets mapped to its n instances. */
  lemma {:induction false} FillsEvenly<R>(states: seq<Index<R>>, ops: seq<Op<R>>, n: string, i: nat)
    requires Trace(states, ops) && Agree(states[0]) && (forall j | 0 <= j < |ops| :: ops[j].OpMap?)
    requires forall j | 0 <= j < |Loads(states[0], n)| :: Loads(states[0], n)[j] == 0
    requires i < |Named(states[|ops|], n)|
    ensures var last := states[|ops|];
      var k, size := |SocketsOf(last, n)|, |Named(last, n)|;
      k / size <= Loads(last, n)[i] <= (k + size - 1) / size
  {
    hide Agree, Map, Loads, Named, WellFormed;
    for j := 0 to |ops|
      invariant Agree(states[j]) && Within(Loads(states[j], n), 1)
    {
      assert Next(states[j], ops[j], states[j + 1]);
      MapAgrees(states[j], ops[j].name, ops[j].socket);
      MapSpread(states[j], ops[j].name, ops[j].socket, n, 1);
    }
    LoadsSum(states[|ops|], n);
    EvenLoads(Loads(states[|ops|], n), i);
  }
}
