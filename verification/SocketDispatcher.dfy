/** The dispatcher as it is written: a queue map and a wait group changed in place.
    The worker loop is proved with arbitrary steps of other goroutines at every
    point where it does not hold the lock. */
module SocketDispatcher {
  import opened Sequences
  import opened DispatchModel

  lemma {:induction false} StepsJoin<S(!new), W>(a: State<S, W>, xs: seq<Action<S, W>>, b: State<S, W>,
                                                 ys: seq<Action<S, W>>, c: State<S, W>)
    requires Steps(a, xs, b) && Steps(b, ys, c)
    ensures Steps(a, xs + ys, c)
    decreases |xs|
  {
    if xs == [] {
      assert xs + ys == ys;
    } else {
      StepsJoin(Apply(a, xs[0]), xs[1..], b, ys, c);
      assert (xs + ys)[0] == xs[0] && (xs + ys)[1..] == xs[1..] + ys;
    }
  }

  ghost function Dispatches<S, W>(acts: seq<Action<S, W>>): nat {
    if acts == [] then 0 else (if acts[0].Dispatch? then 1 else 0) + Dispatches(acts[1..])
  }

  ghost predicate ByOthers<S(!new), W>(acts: seq<Action<S, W>>, g: nat) {
    forall i | 0 <= i < |acts| :: Key(acts[i]) != g
  }

  lemma OtherOnlyAppends<S(!new), W>(st: State<S, W>, a: Action<S, W>, g: nat, s: S)
    requires Inv(st) && Draining(st, g, s) && Enabled(st, a) && Key(a) != g
    ensures var st' := Apply(st, a);
      && g in st'.workers && st'.workers[g] == st.workers[g]
      && At(st.queues, s) <= At(st'.queues, s)
      && |At(st'.queues, s)| <= |At(st.queues, s)| + if a.Dispatch? then 1 else 0
  {
    OnlyOwnWorker(st, a, g);
    if SocketOf(st, a) != s {
      OnlyOwnSocket(st, a, s);
    } else if a.Take? {
      assert Draining(st, a.g, s);
    }
  }

  /** While g drains s, other goroutines can only append to s's queue: no one else pops it. */
  lemma {:induction false} OthersOnlyAppend<S(!new), W>(st: State<S, W>, acts: seq<Action<S, W>>, st': State<S, W>,
                                                        g: nat, s: S)
    requires Inv(st) && Draining(st, g, s) && Steps(st, acts, st') && ByOthers(acts, g)
    ensures Inv(st') && g in st'.workers && st'.workers[g] == st.workers[g]
    ensures At(st.queues, s) <= At(st'.queues, s)
    ensures |At(st'.queues, s)| <= |At(st.queues, s)| + Dispatches(acts)
    decreases |acts|
  {
    hide Inv, Apply;
    if acts != [] {
      OtherOnlyAppends(st, acts[0], g, s);
      ApplyInv(st, acts[0]);
      OthersOnlyAppend(Apply(st, acts[0]), acts[1..], st', g, s);
    }
  }

  class Dispatcher<S(==, !new), W> {
    const queueSize: int
    var queues: map<S, seq<W>>
    var wg: int

    ghost var workers: map<nat, Worker<S, W>>
    ghost var accepted: map<S, seq<W>>
    ghost var executed: map<S, seq<W>>
    ghost var overflows: seq<S>
    /** How many more dispatches the other goroutines will make: the worker loop ends only once they stop. */
    ghost var budget: nat

    ghost function Now(): State<S, W>
      reads this
    {
      State(queueSize, queues, wg, workers, accepted, executed, overflows)
    }

    constructor (queueSize: int)
      ensures Now() == Init(queueSize) && Inv(Now())
    {
      this.queueSize, queues, wg := queueSize, map[], 0;
      workers, accepted, executed, overflows := map[], map[], map[], [];
    }

    /** `spawn` is the goroutine `go d.run` would start. */
    method Dispatch(socketID: S, work: W, ghost spawn: nat) returns (ok: bool)
      requires spawn !in workers
      modifies this
      ensures Now() == Apply(old(Now()), Action.Dispatch(socketID, work, spawn))
      ensures ok <==> At(accepted, socketID) == At(old(accepted), socketID) + [work]
      ensures !ok <==> overflows == old(overflows) + [socketID]
      ensures ok <==> |At(old(queues), socketID)| < queueSize
      ensures queues == if ok then old(queues)[socketID := At(old(queues), socketID) + [work]] else old(queues)
      ensures workers ==
        if ok && socketID !in old(queues) then old(workers)[spawn := Worker(socketID, AtLock)] else old(workers)
      ensures wg == old(wg) + |workers| - |old(workers)| && executed == old(executed)
      ensures budget == old(budget)
    {
      var active := socketID in queues;
      var queue := if active then queues[socketID] else [];
      if |queue| >= queueSize {
        overflows := overflows + [socketID];
        return false;
      }
      queues := queues[socketID := queue + [work]];
      accepted := accepted[socketID := At(accepted, socketID) + [work]];
      if !active {
        wg := wg + 1;
        workers := workers[spawn := Worker(socketID, AtLock)];
      }
      return true;
    }

    /** Any steps of goroutines other than g: their effect on the caller is what this contract says. */
    method Interfere(ghost g: nat) returns (ghost acts: seq<Action<S, W>>)
      modifies this
      ensures Steps(old(Now()), acts, Now()) && ByOthers(acts, g)
      ensures Dispatches(acts) + budget <= old(budget)
    {
      acts := [];
    }

    /** A stretch of g's code without the lock, as part of the run `acts` from `start`. */
    method Yield(ghost g: nat, ghost socketID: S, ghost start: State<S, W>, ghost acts: seq<Action<S, W>>)
      returns (ghost more: seq<Action<S, W>>)
      requires Inv(Now()) && Steps(start, acts, Now()) && Draining(Now(), g, socketID)
      modifies this
      ensures Inv(Now()) && Steps(start, more, Now())
      ensures g in workers && workers[g] == old(workers[g])
      ensures At(old(queues), socketID) <= At(queues, socketID)
      ensures budget + |At(queues, socketID)| <= old(budget) + |At(old(queues), socketID)|
    {
      hide Inv;
      ghost var others := Interfere(g);
      OthersOnlyAppend(old(Now()), others, Now(), g, socketID);
      StepsJoin(start, acts, old(Now()), others, Now());
      more := acts + others;
    }

    /** One locked section of the loop. */
    method TakeNext(ghost g: nat, socketID: S) returns (work: Option<W>)
      requires g in workers && workers[g] == Worker(socketID, AtLock)
      modifies this
      ensures Now() == Apply(old(Now()), Take(g)) && budget == old(budget)
      ensures if work.None? then At(old(queues), socketID) == [] && queues == old(queues) - {socketID}
        else
          && At(old(queues), socketID) == [work.value] + At(queues, socketID)
          && queues == old(queues)[socketID := At(queues, socketID)]
      ensures workers == old(workers)[g := Worker(socketID, if work.None? then Exiting else Running(work.value))]
    {
      var queue := if socketID in queues then queues[socketID] else [];
      if queue == [] {
        queues := queues - {socketID};
        workers := workers[g := Worker(socketID, Exiting)];
        return None;
      }
      queues := queues[socketID := queue[1..]];
      workers := workers[g := Worker(socketID, Running(queue[0]))];
      return Some(queue[0]);
    }

    /** work() returns. */
    ghost method Complete(g: nat)
      requires g in workers && workers[g].phase.Running?
      modifies this
      ensures Now() == Apply(old(Now()), Finish(g)) && budget == old(budget)
    {
      var s := workers[g].socket;
      executed := executed[s := At(executed, s) + [workers[g].phase.work]];
      workers := workers[g := Worker(s, AtLock)];
    }

    /** The deferred wg.Done(). */
    method Leave(ghost g: nat)
      requires g in workers && workers[g].phase.Exiting?
      modifies this
      ensures Now() == Apply(old(Now()), Done(g))
      ensures wg == old(wg) - 1 && workers == old(workers) - {g} && queues == old(queues)
    {
      wg := wg - 1;
      workers := workers - {g};
    }

    /** The worker loop. It ends, provided dispatching eventually stops (`budget`), whatever else the others do in
        between, and the whole run is an interleaving of atomic steps that g leaves with its Done. */
    method Run(ghost g: nat, socketID: S) returns (ghost acts: seq<Action<S, W>>)
      requires Inv(Now()) && g in workers && workers[g] == Worker(socketID, AtLock)
      modifies this
      ensures Steps(old(Now()), acts, Now()) && Inv(Now())
      ensures g !in workers && acts != [] && acts[|acts| - 1] == Done(g)
    {
      hide Inv, Apply;
      acts := [];
      while true
        invariant Inv(Now()) && Steps(old(Now()), acts, Now())
        invariant g in workers && workers[g] == Worker(socketID, AtLock)
        decreases budget + |At(queues, socketID)|
      {
        acts := Yield(g, socketID, old(Now()), acts);
        ghost var mid := Now();
        var work := TakeNext(g, socketID);
        OwnStep(old(Now()), acts, mid, Take(g), socketID);
        acts := acts + [Take(g)];
        if work.None? {
          break;
        }
        acts := Yield(g, socketID, old(Now()), acts);
        mid := Now();
        Complete(g);
        OwnStep(old(Now()), acts, mid, Finish(g), socketID);
        acts := acts + [Finish(g)];
      }
      ghost var mid := Now();
      ghost var others := Interfere(g);
      OthersKeep(mid, others, Now(), g);
      StepsJoin(old(Now()), acts, mid, others, Now());
      acts := acts + others;
      mid := Now();
      Leave(g);
      OwnStep(old(Now()), acts, mid, Done(g), socketID);
      acts := acts + [Done(g)];
    }
  }

  /** Extending a run by a step of g, and what that step does to g and its queue. */
  lemma OwnStep<S(!new), W>(start: State<S, W>, acts: seq<Action<S, W>>, mid: State<S, W>, a: Action<S, W>, s: S)
    requires Steps(start, acts, mid) && Inv(mid) && Enabled(mid, a) && !a.Dispatch? && mid.workers[a.g].socket == s
    ensures Steps(start, acts + [a], Apply(mid, a)) && Inv(Apply(mid, a))
    ensures a.Take? ==> var st := Apply(mid, a);
      && a.g in st.workers
      && if At(mid.queues, s) == [] then st.workers[a.g] == Worker(s, Exiting)
         else st.workers[a.g] == Worker(s, Running(At(mid.queues, s)[0])) && At(st.queues, s) == At(mid.queues, s)[1..]
    ensures a.Finish? ==> var st := Apply(mid, a);
      a.g in st.workers && st.workers[a.g] == Worker(s, AtLock) && st.queues == mid.queues
    ensures a.Done? ==> a.g !in Apply(mid, a).workers
  {
    ApplyInv(mid, a);
    assert Steps(mid, [a], Apply(mid, a)) by {
      assert [a][1..] == [];
    }
    StepsJoin(start, acts, mid, [a], Apply(mid, a));
  }

  lemma {:induction false} OthersKeep<S(!new), W>(st: State<S, W>, acts: seq<Action<S, W>>, st': State<S, W>, g: nat)
    requires Inv(st) && g in st.workers && Steps(st, acts, st') && ByOthers(acts, g)
    ensures Inv(st') && g in st'.workers && st'.workers[g] == st.workers[g]
    decreases |acts|
  {
    hide Inv, Apply;
    if acts != [] {
      OnlyOwnWorker(st, acts[0], g);
      ApplyInv(st, acts[0]);
      OthersKeep(Apply(st, acts[0]), acts[1..], st', g);
    }
  }
}
