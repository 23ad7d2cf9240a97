/** The lifecycle as it is written: fields set and cleared under a lock, channels
    closed. Each method is one locked section, or one effect after it. */
module Lifecycle {
  import opened Sequences
  import opened LifecycleModel

  class RunLifecycle {
    var cancel: Option<nat>
    var done: Option<nat>
    var ready: Option<nat>
    // The world of contexts and channels.
    var canceled: set<nat>
    var doneCloses: seq<nat>
    var readyCloses: seq<nat>
    var channels: nat

    ghost var runners: map<nat, Runner>
    ghost var callers: map<nat, Caller>

    ghost function Now(): State
      reads this
    {
      State(cancel, done, ready, runners, callers, canceled, doneCloses, readyCloses, channels)
    }

    constructor ()
      ensures Now() == INIT && Inv(Now())
    {
      cancel, done, ready, canceled, doneCloses, readyCloses, channels := None, None, None, {}, [], [], 0;
      runners, callers := map[], map[];
    }

    /** `run` names the context and the done channel that a successful begin makes. */
    method Begin(run: nat) returns (ok: bool)
      requires Inv(Now()) && Enabled(Now(), Event.Begin(run))
      modifies this
      ensures Now() == Apply(old(Now()), Event.Begin(run)) && Inv(Now())
      ensures ok <==> forall r | r in old(runners) :: !old(runners)[r].Running?
      ensures if ok then
          && cancel == done == Some(run) && run in runners && runners[run] == Running
          && ready == (if old(ready).Some? then old(ready) else Some(old(channels)))
          && (old(ready).None? ==> ready.value !in readyCloses)
        else
          Now() == old(Now())
    {
      ApplyInv(Now(), Event.Begin(run));
      if cancel.Some? {
        return false;
      }
      cancel, done := Some(run), Some(run);
      runners := runners[run := Running];
      if ready.None? {
        ready, channels := Some(channels), channels + 1;
      }
      return true;
    }

    method MarkReady()
      requires Inv(Now())
      modifies this`ready, this`channels, this`readyCloses
      ensures Now() == Apply(old(Now()), Event.MarkReady) && Inv(Now())
      ensures ready.Some? && ready.value in readyCloses && (old(ready).Some? ==> ready == old(ready))
      ensures forall c :: c in readyCloses <==> c in old(readyCloses) || c == ready.value
    {
      ApplyInv(Now(), Event.MarkReady);
      if ready.None? {
        ready, channels := Some(channels), channels + 1;
      }
      if ready.value !in readyCloses {
        readyCloses := readyCloses + [ready.value];
      }
    }

    method ReadyChan() returns (c: nat)
      requires Inv(Now())
      modifies this`ready, this`channels
      ensures Now() == Apply(old(Now()), Event.ReadyChan) && Inv(Now())
      ensures ready == Some(c) && (old(ready).Some? ==> old(ready) == Some(c))
      ensures old(ready).None? ==> c !in readyCloses
    {
      ApplyInv(Now(), Event.ReadyChan);
      if ready.None? {
        ready, channels := Some(channels), channels + 1;
      }
      return ready.value;
    }

    /** Any steps of other threads, none of them in `own`: their effect on the caller is what this contract says. */
    method Interfere(ghost own: set<Event>) returns (ghost others: seq<Event>)
      modifies this
      ensures Steps(old(Now()), others, Now()) && forall i | 0 <= i < |others| :: others[i] !in own
    {
      others := [];
    }

    /** end, with other threads stepping between its locked section, its cancel and its close: it ends its own run. */
    method End(ghost run: nat) returns (ghost first: seq<Event>, ghost second: seq<Event>)
      requires Inv(Now()) && Enabled(Now(), EndLocked(run))
      modifies this
      ensures Steps(old(Now()), [EndLocked(run)] + first + [EndCancel(run)] + second + [EndClose(run)], Now())
      ensures Inv(Now())
      ensures forall i | 0 <= i < |first + second| :: (first + second)[i] !in Ends(run)
      ensures run in runners && runners[run] == Ended && run in canceled && run in doneCloses
    {
      hide Inv, Apply, Enabled;
      ghost var start := Now();
      var cancelFunc, doneChan := ReleaseLocked(run);
      first := Interfere(Ends(run));
      OthersKeepRun(Apply(start, EndLocked(run)), first, Now(), run);
      StepThen(start, EndLocked(run), Apply(start, EndLocked(run)), first, Now());
      ghost var mid := Now();
      CancelSampled(run, cancelFunc);
      ghost var canceledAt := Now();
      second := Interfere(Ends(run));
      OthersKeepRun(canceledAt, second, Now(), run);
      StepThen(mid, EndCancel(run), canceledAt, second, Now());
      StepsJoin(start, [EndLocked(run)] + first, mid, [EndCancel(run)] + second, Now());
      ghost var late := Now();
      CloseSampled(run, doneChan);
      StepThen(late, EndClose(run), Now(), [], Now());
      StepsJoin(start, ([EndLocked(run)] + first) + ([EndCancel(run)] + second), late, [EndClose(run)] + [], Now());
      assert ([EndLocked(run)] + first) + ([EndCancel(run)] + second) + ([EndClose(run)] + [])
        == [EndLocked(run)] + first + [EndCancel(run)] + second + [EndClose(run)];
    }

    /** The locked section of end. */
    method ReleaseLocked(ghost run: nat) returns (cancelFunc: Option<nat>, doneChan: Option<nat>)
      requires Inv(Now()) && Enabled(Now(), EndLocked(run))
      modifies this
      ensures Now() == Apply(old(Now()), EndLocked(run)) && Inv(Now())
      ensures cancel == done == ready == None && canceled == old(canceled) && doneCloses == old(doneCloses)
      ensures cancelFunc == doneChan == Some(run) && run in runners && runners[run] == Ending(cancelFunc, doneChan)
    {
      ClaimedRun(Now(), run);
      ApplyInv(Now(), EndLocked(run));
      cancelFunc, doneChan := cancel, done;
      cancel, done, ready := None, None, None;
      runners := runners[run := Ending(cancelFunc, doneChan)];
    }

    method CancelSampled(ghost run: nat, cancelFunc: Option<nat>)
      requires Inv(Now()) && cancelFunc == Some(run) && run in runners && runners[run] == Ending(cancelFunc, Some(run))
      modifies this
      ensures Enabled(old(Now()), EndCancel(run)) && Now() == Apply(old(Now()), EndCancel(run)) && Inv(Now())
      ensures run in runners && runners[run] == Closing(Some(run)) && canceled == old(canceled) + {run}
    {
      ApplyInv(Now(), EndCancel(run));
      if cancelFunc.Some? {
        canceled := canceled + {cancelFunc.value};
      }
      runners := runners[run := Closing(runners[run].done)];
    }

    method CloseSampled(ghost run: nat, doneChan: Option<nat>)
      requires Inv(Now()) && doneChan == Some(run) && run in runners && runners[run] == Closing(doneChan)
      modifies this
      ensures Enabled(old(Now()), EndClose(run)) && Now() == Apply(old(Now()), EndClose(run)) && Inv(Now())
      ensures run in runners && runners[run] == Ended
      ensures doneCloses == old(doneCloses) + [run] && canceled == old(canceled)
    {
      ApplyInv(Now(), EndClose(run));
      if doneChan.Some? {
        doneCloses := doneCloses + [doneChan.value];
        assert doneCloses[|doneCloses| - 1] == run;
      }
      runners := runners[run := Ended];
    }

    /** interrupt, with other threads stepping between its sampling and its cancel: the run it sampled is canceled. */
    method Interrupt(ghost t: nat) returns (ghost others: seq<Event>)
      requires Inv(Now()) && t !in callers
      modifies this
      ensures Steps(old(Now()), [InterruptLocked(t)] + others + [InterruptCancel(t)], Now()) && Inv(Now())
      ensures old(cancel).Some? ==> old(cancel).value in canceled
    {
      hide Inv, Apply;
      ghost var start := Now();
      var cancelFunc := SampleToInterrupt(t);
      ghost var locked := Now();
      others := Interfere(Calls(t));
      OthersKeepCaller(locked, others, Now(), t);
      StepThen(start, InterruptLocked(t), locked, others, Now());
      ghost var late := Now();
      CancelToInterrupt(t, cancelFunc);
      StepThen(late, InterruptCancel(t), Now(), [], Now());
      StepsJoin(start, [InterruptLocked(t)] + others, late, [InterruptCancel(t)] + [], Now());
      assert [InterruptCancel(t)] + [] == [InterruptCancel(t)];
    }

    /** The locked section of interrupt. */
    method SampleToInterrupt(ghost t: nat) returns (cancelFunc: Option<nat>)
      requires Inv(Now()) && t !in callers
      modifies this`callers
      ensures Now() == Apply(old(Now()), InterruptLocked(t)) && Inv(Now()) && cancelFunc == cancel
      ensures t in callers && callers[t] == Sampled(InInterrupt, cancelFunc, None)
    {
      ApplyInv(Now(), InterruptLocked(t));
      cancelFunc := cancel;
      callers := callers[t := Sampled(InInterrupt, cancelFunc, None)];
    }

    method CancelToInterrupt(ghost t: nat, cancelFunc: Option<nat>)
      requires Inv(Now()) && t in callers && callers[t] == Sampled(InInterrupt, cancelFunc, None)
      modifies this`canceled, this`callers
      ensures Now() == Apply(old(Now()), InterruptCancel(t)) && Inv(Now())
      ensures canceled == old(canceled) + if cancelFunc.Some? then {cancelFunc.value} else {}
    {
      ApplyInv(Now(), InterruptCancel(t));
      if cancelFunc.Some? {
        canceled := canceled + {cancelFunc.value};
      }
      callers := callers[t := Returned(None)];
    }

    /** close up to the point where it waits for `waitFor`, the done channel it sampled, with other threads stepping
        between the sampling and the cancel. */
    method StartClose(ghost t: nat) returns (waitFor: Option<nat>, ghost others: seq<Event>)
      requires Inv(Now()) && t !in callers
      modifies this
      ensures Steps(old(Now()), [CloseLocked(t)] + others + [CloseCancel(t)], Now()) && Inv(Now())
      ensures waitFor == old(done) && t in callers && callers[t] == Awaiting(waitFor)
      ensures waitFor.Some? ==> waitFor.value in canceled
    {
      hide Inv;
      ghost var start := Now();
      CancelIsDone(start);
      var cancelFunc := cancel;
      waitFor := done;
      callers := callers[t := Sampled(InClose, cancelFunc, waitFor)];
      ghost var locked := Now();
      ApplyInv(start, CloseLocked(t));
      others := Interfere(Calls(t));
      OthersKeepCaller(locked, others, Now(), t);
      StepThen(start, CloseLocked(t), locked, others, Now());
      ghost var late := Now();
      if cancelFunc.Some? {
        canceled := canceled + {cancelFunc.value};
      }
      callers := callers[t := Awaiting(waitFor)];
      ApplyInv(late, CloseCancel(t));
      StepThen(late, CloseCancel(t), Now(), [], Now());
      StepsJoin(start, [CloseLocked(t)] + others, late, [CloseCancel(t)] + [], Now());
      assert [CloseCancel(t)] + [] == [CloseCancel(t)];
    }

    /** The wait at the end of close, once `waitFor` is closed. */
    method FinishClose(waitFor: Option<nat>, ghost t: nat)
      requires Inv(Now()) && t in callers && callers[t] == Awaiting(waitFor)
      requires waitFor.Some? ==> waitFor.value in doneCloses
      modifies this`callers
      ensures Now() == Apply(old(Now()), CloseWait(t)) && Inv(Now())
      ensures waitFor.Some? ==> waitFor.value in runners && runners[waitFor.value] == Ended
    {
      ApplyInv(Now(), CloseWait(t));
      callers := callers[t := Returned(waitFor)];
    }
  }

  ghost function Ends(run: nat): set<Event> {
    {EndLocked(run), EndCancel(run), EndClose(run)}
  }

  ghost function Calls(t: nat): set<Event> {
    {CloseCancel(t), CloseWait(t), InterruptCancel(t)}
  }

  lemma ClaimedRun(s: State, run: nat)
    requires Inv(s) && run in s.runners && s.runners[run].Running?
    ensures s.cancel == s.done == Some(run)
  {
  }

  lemma CancelIsDone(s: State)
    requires Inv(s)
    ensures s.cancel == s.done
  {
  }

  /** Only the thread that claimed a run moves it. */
  lemma {:induction false} OthersKeepRun(s: State, es: seq<Event>, s': State, run: nat)
    requires Inv(s) && run in s.runners && Steps(s, es, s') && forall i | 0 <= i < |es| :: es[i] !in Ends(run)
    ensures Inv(s') && run in s'.runners && s'.runners[run] == s.runners[run] && s.canceled <= s'.canceled
    decreases |es|
  {
    hide Inv;
    if es != [] {
      ApplyInv(s, es[0]);
      EndAlwaysPossible(s, es[0], run);
      OthersKeepRun(Apply(s, es[0]), es[1..], s', run);
    }
  }

  lemma {:induction false} OthersKeepCaller(s: State, es: seq<Event>, s': State, t: nat)
    requires Inv(s) && t in s.callers && Steps(s, es, s') && forall i | 0 <= i < |es| :: es[i] !in Calls(t)
    ensures Inv(s') && t in s'.callers && s'.callers[t] == s.callers[t]
    decreases |es|
  {
    hide Inv;
    if es != [] {
      ApplyInv(s, es[0]);
      assert es[0] !in Calls(t);
      OthersKeepCaller(Apply(s, es[0]), es[1..], s', t);
    }
  }

  lemma StepThen(a: State, e: Event, b: State, es: seq<Event>, c: State)
    requires Enabled(a, e) && b == Apply(a, e) && Steps(b, es, c)
    ensures Steps(a, [e] + es, c)
  {
    assert ([e] + es)[1..] == es;
  }

  lemma {:induction false} StepsJoin(a: State, xs: seq<Event>, b: State, ys: seq<Event>, c: State)
    requires Steps(a, xs, b) && Steps(b, ys, c)
    ensures Steps(a, xs + ys, c)
    decreases |xs|
  {
    if xs == [] {
      assert xs + ys == ys;
    } else {
      StepsJoin(Apply(a, xs[0]), xs[1..], b, ys, c);
      assert (xs + ys)[0] == xs[0] && (xs + ys)[1..] == xs[1..] + ys;
    }
  }
}
