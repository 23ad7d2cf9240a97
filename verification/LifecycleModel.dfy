/** The run lifecycle of Gateway and Service as interleaved atomic steps. A run is
    named by the begin that claimed it; its cancel function and done channel are
    named by the run, a ready channel by a number of its own. */
module LifecycleModel {
  import opened Sequences

  /** The thread that claimed a run: between begin and end, in end after its locked section, after cancel, finished. */
  datatype Runner =
    | Running
    | Ending(cancel: Option<nat>, done: Option<nat>)
    | Closing(done: Option<nat>)
    | Ended

  datatype Role = InClose | InInterrupt

  /** A thread in close or interrupt, with what it sampled under the lock. */
  datatype Caller =
    | Sampled(role: Role, cancel: Option<nat>, done: Option<nat>)
    | Awaiting(done: Option<nat>)
    | Returned(done: Option<nat>)

  datatype State = State(
    cancel: Option<nat>,
    done: Option<nat>,
    ready: Option<nat>,
    runners: map<nat, Runner>,
    callers: map<nat, Caller>,
    canceled: set<nat>,        // runs whose context is canceled
    doneCloses: seq<nat>,      // every close(done) performed, in order
    readyCloses: seq<nat>,     // every close(ready) performed, in order
    channels: nat)             // ready channels made so far

  datatype Event =
    | Begin(run: nat) | MarkReady | ReadyChan
    | EndLocked(run: nat) | EndCancel(run: nat) | EndClose(run: nat)
    | CloseLocked(t: nat) | CloseCancel(t: nat) | CloseWait(t: nat)
    | InterruptLocked(t: nat) | InterruptCancel(t: nat)
    | ParentCancel(run: nat)

  const INIT := State(None, None, None, map[], map[], {}, [], [], 0)

  predicate Enabled(s: State, e: Event) {
    match e
    case Begin(r) => r !in s.runners
    case EndLocked(r) => r in s.runners && s.runners[r].Running?
    case EndCancel(r) => r in s.runners && s.runners[r].Ending?
    case EndClose(r) => r in s.runners && s.runners[r].Closing?
    case CloseLocked(t) => t !in s.callers
    case InterruptLocked(t) => t !in s.callers
    case CloseCancel(t) => t in s.callers && s.callers[t].Sampled? && s.callers[t].role == InClose
    case InterruptCancel(t) => t in s.callers && s.callers[t].Sampled? && s.callers[t].role == InInterrupt
    case CloseWait(t) => t in s.callers && s.callers[t].Awaiting?
      && (s.callers[t].done.Some? ==> s.callers[t].done.value in s.doneCloses)
    case ParentCancel(r) => r in s.runners
    case _ => true
  }

  /** begin: refused while a run is claimed. */
  predicate Claims(s: State) {
    s.cancel.None?
  }

  function WithReady(s: State): State {
    if s.ready.Some? then s else s.(ready := Some(s.channels), channels := s.channels + 1)
  }

  function CancelRun(s: State, run: Option<nat>): State {
    if run.Some? then s.(canceled := s.canceled + {run.value}) else s
  }

  function Apply(s: State, e: Event): State
    requires Enabled(s, e)
  {
    match e
    case Begin(r) =>
      if !Claims(s) then s else WithReady(s.(cancel := Some(r), done := Some(r), runners := s.runners[r := Running]))
    case MarkReady =>
      var s' := WithReady(s);
      if s'.ready.value in s'.readyCloses then s' else s'.(readyCloses := s'.readyCloses + [s'.ready.value])
    case ReadyChan => WithReady(s)
    case EndLocked(r) =>
      s.(cancel := None, done := None, ready := None, runners := s.runners[r := Ending(s.cancel, s.done)])
    case EndCancel(r) =>
      CancelRun(s.(runners := s.runners[r := Closing(s.runners[r].done)]), s.runners[r].cancel)
    case EndClose(r) =>
      s.(runners := s.runners[r := Ended],
         doneCloses := if s.runners[r].done.Some? then s.doneCloses + [s.runners[r].done.value] else s.doneCloses)
    case CloseLocked(t) => s.(callers := s.callers[t := Sampled(InClose, s.cancel, s.done)])
    case CloseCancel(t) =>
      CancelRun(s.(callers := s.callers[t := Awaiting(s.callers[t].done)]), s.callers[t].cancel)
    case CloseWait(t) => s.(callers := s.callers[t := Returned(s.callers[t].done)])
    case InterruptLocked(t) => s.(callers := s.callers[t := Sampled(InInterrupt, s.cancel, None)])
    case InterruptCancel(t) => CancelRun(s.(callers := s.callers[t := Returned(None)]), s.callers[t].cancel)
    case ParentCancel(r) => s.(canceled := s.canceled + {r})
  }

  /** s' is reached from s by the events in order: one interleaving of the threads. */
  ghost predicate Steps(s: State, es: seq<Event>, s': State)
    decreases |es|
  {
    if es == [] then s' == s
    else Enabled(s, es[0]) && Steps(Apply(s, es[0]), es[1..], s')
  }

  ghost predicate OneRun(s: State) {
    && s.cancel == s.done
    && (forall r | r in s.runners && s.runners[r].Running? :: s.cancel == Some(r))
    && (s.cancel.Some? ==> s.cancel.value in s.runners && s.runners[s.cancel.value].Running?)
  }

  ghost predicate EndsOwn(s: State) {
    && (forall r | r in s.runners && s.runners[r].Ending? :: s.runners[r] == Ending(Some(r), Some(r)))
    && (forall r | r in s.runners && s.runners[r].Closing? :: s.runners[r] == Closing(Some(r)))
  }

  ghost predicate DoneOnce(s: State) {
    && NoDup(s.doneCloses)
    && (forall r :: r in s.doneCloses <==> r in s.runners && s.runners[r].Ended?)
  }

  ghost predicate ReadyOnce(s: State) {
    && NoDup(s.readyCloses)
    && (forall c | c in s.readyCloses :: c < s.channels)
    && (s.ready.Some? ==> s.ready.value < s.channels)
  }

  ghost predicate CallersKnow(s: State) {
    forall t | t in s.callers ::
      && (s.callers[t].done.Some? ==> s.callers[t].done.value in s.runners)
      && (s.callers[t].Returned? && s.callers[t].done.Some? ==> s.callers[t].done.value in s.doneCloses)
      && (s.callers[t].Sampled? && s.callers[t].done.Some? ==> s.callers[t].cancel == s.callers[t].done)
      && (!s.callers[t].Sampled? && s.callers[t].done.Some? ==> s.callers[t].done.value in s.canceled)
  }

  ghost predicate Inv(s: State) {
    OneRun(s) && EndsOwn(s) && DoneOnce(s) && ReadyOnce(s) && CallersKnow(s)
  }

  lemma ApplyOneRun(s: State, e: Event)
    requires OneRun(s) && EndsOwn(s) && Enabled(s, e)
    ensures OneRun(Apply(s, e)) && EndsOwn(Apply(s, e))
  {
  }

  lemma ApplyDoneOnce(s: State, e: Event)
    requires EndsOwn(s) && DoneOnce(s) && Enabled(s, e)
    ensures DoneOnce(Apply(s, e)) && forall r | r in s.doneCloses :: r in Apply(s, e).doneCloses
  {
    if e.EndClose? {
      NoDupSnoc(s.doneCloses, e.run);
      assert forall q :: q in s.doneCloses + [e.run] <==> q in s.doneCloses || q == e.run;
    } else {
      assert Apply(s, e).doneCloses == s.doneCloses;
    }
  }

  lemma ApplyReadyOnce(s: State, e: Event)
    requires ReadyOnce(s) && Enabled(s, e)
    ensures ReadyOnce(Apply(s, e))
  {
    if e.MarkReady? {
      NoDupSnoc(s.readyCloses, WithReady(s).ready.value);
    }
  }

  lemma ApplyCallersKnow(s: State, e: Event)
    requires OneRun(s) && CallersKnow(s) && Enabled(s, e)
    requires forall r | r in s.doneCloses :: r in Apply(s, e).doneCloses
    ensures CallersKnow(Apply(s, e))
  {
    var s' := Apply(s, e);
    assert s.runners.Keys <= s'.runners.Keys && s.canceled <= s'.canceled;
  }

  lemma ApplyInv(s: State, e: Event)
    requires Inv(s) && Enabled(s, e)
    ensures Inv(Apply(s, e))
  {
    hide OneRun, EndsOwn, DoneOnce, ReadyOnce, CallersKnow, Apply;
    ApplyOneRun(s, e);
    ApplyDoneOnce(s, e);
    ApplyReadyOnce(s, e);
    ApplyCallersKnow(s, e);
  }

  lemma {:induction false} StepsInv(s: State, es: seq<Event>, s': State)
    requires Inv(s) && Steps(s, es, s')
    ensures Inv(s')
    decreases |es|
  {
    hide Inv, Apply;
    if es != [] {
      ApplyInv(s, es[0]);
      StepsInv(Apply(s, es[0]), es[1..], s');
    }
  }

  /** In every interleaving at most one run is claimed, cancel and done are set together and name it, and no
      channel is ever closed twice. */
  lemma ExclusiveRuns(es: seq<Event>, s: State)
    requires Steps(INIT, es, s)
    ensures s.cancel == s.done
    ensures forall q, r | q in s.runners && r in s.runners && s.runners[q].Running? && s.runners[r].Running? :: q == r
    ensures Claims(s) <==> forall r | r in s.runners :: !s.runners[r].Running?
    ensures NoDup(s.doneCloses) && NoDup(s.readyCloses)
  {
    StepsInv(INIT, es, s);
  }

  /** What a thread in close sampled stays with it. */
  ghost predicate InCloseWith(s: State, t: nat, done: Option<nat>) {
    t in s.callers && s.callers[t].done == done && (s.callers[t].Sampled? ==> s.callers[t].role == InClose)
  }

  lemma SampleStep(s: State, e: Event, t: nat, done: Option<nat>)
    requires InCloseWith(s, t, done) && Enabled(s, e)
    ensures InCloseWith(Apply(s, e), t, done)
  {
  }

  lemma {:induction false} CloseKeepsSample(s: State, es: seq<Event>, s': State, t: nat, done: Option<nat>)
    requires Inv(s) && InCloseWith(s, t, done) && Steps(s, es, s')
    ensures Inv(s') && InCloseWith(s', t, done)
    decreases |es|
  {
    hide Inv, InCloseWith, Apply, Enabled;
    if es != [] {
      ApplyInv(s, es[0]);
      SampleStep(s, es[0], t, done);
      CloseKeepsSample(Apply(s, es[0]), es[1..], s', t, done);
    }
  }

  /** A close that takes its sample while run r is claimed can return exactly from r's end on, at whatever later
      point of whatever run: not before it, and without waiting for any later run. By then r's context is canceled. */
  lemma CloseWaitsForItsRun(es: seq<Event>, s: State, t: nat, r: nat, more: seq<Event>, s': State)
    requires Steps(INIT, es, s) && s.done == Some(r) && Enabled(s, CloseLocked(t))
    requires Steps(Apply(s, CloseLocked(t)), more, s')
    ensures t in s'.callers && r in s'.runners
    ensures s'.callers[t].Awaiting? ==> (Enabled(s', CloseWait(t)) <==> s'.runners[r].Ended?)
    ensures s'.callers[t].Returned? ==> s'.runners[r].Ended? && r in s'.canceled
  {
    StepsInv(INIT, es, s);
    ApplyInv(s, CloseLocked(t));
    CloseKeepsSample(Apply(s, CloseLocked(t)), more, s', t, Some(r));
  }

  /** A close that takes its sample while no run is claimed never waits, whatever runs begin later. */
  lemma CloseWithoutRun(es: seq<Event>, s: State, t: nat, more: seq<Event>, s': State)
    requires Steps(INIT, es, s) && Enabled(s, CloseLocked(t))
    requires forall r | r in s.runners :: !s.runners[r].Running?
    requires Steps(Apply(s, CloseLocked(t)), more, s')
    ensures Enabled(s', CloseCancel(t)) || Enabled(s', CloseWait(t)) || (t in s'.callers && s'.callers[t].Returned?)
  {
    StepsInv(INIT, es, s);
    ApplyInv(s, CloseLocked(t));
    CloseKeepsSample(Apply(s, CloseLocked(t)), more, s', t, None);
  }

  /** A run that was claimed can always be brought to its end, whatever the other threads do: its three steps
      are enabled in turn, and nobody else moves it. */
  lemma EndAlwaysPossible(s: State, e: Event, r: nat)
    requires Inv(s) && r in s.runners && Enabled(s, e) && e !in {EndLocked(r), EndCancel(r), EndClose(r)}
    ensures Apply(s, e).runners[r] == s.runners[r]
    ensures s.runners[r].Ended? || Enabled(s, EndLocked(r)) || Enabled(s, EndCancel(r)) || Enabled(s, EndClose(r))
  {
  }

  /** A run is canceled only by its own end, by a close or interrupt that sampled it, or by its parent context. */
  lemma CanceledBy(es: seq<Event>, s: State, e: Event, r: nat)
    requires Steps(INIT, es, s) && Enabled(s, e)
    ensures r in Apply(s, e).canceled <==>
      || r in s.canceled || e == EndCancel(r) || e == ParentCancel(r)
      || ((e.CloseCancel? || e.InterruptCancel?) && s.callers[e.t].cancel == Some(r))
  {
    StepsInv(INIT, es, s);
  }

  /** No run ever finds itself ready before it says so: from an end until the next MarkReady the ready channel, whoever
      makes it, is not closed. */
  lemma {:induction false} NotYetReady(s: State, r: nat, es: seq<Event>, s': State)
    requires Inv(s) && Enabled(s, EndLocked(r)) && Steps(Apply(s, EndLocked(r)), es, s') && MarkReady !in es
    ensures s'.ready.Some? ==> s'.ready.value !in s'.readyCloses
  {
    ApplyInv(s, EndLocked(r));
    StaysUnready(Apply(s, EndLocked(r)), es, s');
  }

  lemma {:induction false} StaysUnready(s: State, es: seq<Event>, s': State)
    requires Inv(s) && (s.ready.Some? ==> s.ready.value !in s.readyCloses) && Steps(s, es, s') && MarkReady !in es
    ensures s'.ready.Some? ==> s'.ready.value !in s'.readyCloses
    decreases |es|
  {
    if es != [] {
      ApplyInv(s, es[0]);
      assert es[0] in es;
      StaysUnready(Apply(s, es[0]), es[1..], s');
    }
  }

  /** A ready channel once made stays the same until the next end. */
  lemma ReadyStays(s: State, e: Event)
    requires Enabled(s, e) && s.ready.Some? && !e.EndLocked?
    ensures Apply(s, e).ready == s.ready
  {
  }

  /** The limit of readiness: end discards the ready channel, and one that was not closed by then never will be. */
  lemma {:induction false} DiscardedReadyNeverFires(s: State, es: seq<Event>, s': State, c: nat)
    requires Inv(s) && Steps(s, es, s') && c < s.channels && s.ready != Some(c) && c !in s.readyCloses
    ensures c !in s'.readyCloses
    decreases |es|
  {
    if es != [] {
      ApplyInv(s, es[0]);
      DiscardedReadyNeverFires(Apply(s, es[0]), es[1..], s', c);
    }
  }
}
