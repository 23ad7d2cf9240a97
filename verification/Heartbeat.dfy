/** Socket heartbeats: the batched query of the NATS transport, and the gateway's answer to one batch. */
module Heartbeat {
  import opened Sequences

  const MAX_BATCH_SIZE := 4096

  /** The queried sockets the table does not hold, in query order. */
  function Absent<S(==)>(table: set<S>, ids: seq<S>): (dead: seq<S>)
    ensures forall s | s in dead :: s in ids && s !in table
    ensures forall s | s in ids && s !in table :: s in dead
    ensures |dead| <= |ids|
  {
    if ids == [] then []
    else
      var n := |ids| - 1;
      assert ids == ids[..n] + [ids[n]];
      Absent(table, ids[..n]) + if ids[n] in table then [] else [ids[n]]
  }

  lemma AbsentSnoc<S>(table: set<S>, ids: seq<S>, x: S)
    ensures Absent(table, ids + [x]) == Absent(table, ids) + if x in table then [] else [x]
  {
    assert (ids + [x])[..|ids|] == ids;
  }

  lemma Assoc<T>(a: seq<T>, b: seq<T>, c: seq<T>)
    ensures a + (b + c) == (a + b) + c
  {
  }

  lemma {:induction false} AbsentConcat<S>(table: set<S>, a: seq<S>, b: seq<S>)
    ensures Absent(table, a + b) == Absent(table, a) + Absent(table, b)
  {
    if b == [] {
      assert a + b == a;
    } else {
      var init, last := b[..|b| - 1], b[|b| - 1];
      var tail := if last in table then [] else [last];
      AbsentConcat(table, a, init);
      hide Absent;
      assert b == init + [last];
      Assoc(a, init, [last]);
      AbsentSnoc(table, a + init, last);
      AbsentSnoc(table, init, last);
      Assoc(Absent(table, a), Absent(table, init), tail);
    }
  }

  lemma {:induction false} AbsentOnce<S>(table: set<S>, ids: seq<S>)
    requires NoDup(ids)
    ensures NoDup(Absent(table, ids))
  {
    if ids != [] {
      var n := |ids| - 1;
      AbsentOnce(table, ids[..n]);
      if ids[n] !in table {
        NoDupSnoc(Absent(table, ids[..n]), ids[n]);
      }
    }
  }

  /** handleSocketHeartbeats. */
  method AnswerHeartbeat<S(==)>(table: set<S>, ids: seq<S>) returns (dead: seq<S>)
    ensures dead == Absent(table, ids)
  {
    dead := [];
    for i := 0 to |ids|
      invariant dead == Absent(table, ids[..i])
    {
      assert ids[..i + 1][..i] == ids[..i];
      if ids[i] !in table {
        dead := dead + [ids[i]];
      }
    }
    assert ids[..|ids|] == ids;
  }

  // --- HeartbeatSockets ---

  function Batches<S>(ids: seq<S>): (batches: seq<seq<S>>)
    ensures forall b | b in batches :: 0 < |b| <= MAX_BATCH_SIZE
    decreases |ids|
  {
    if ids == [] then []
    else
      var end := if MAX_BATCH_SIZE < |ids| then MAX_BATCH_SIZE else |ids|;
      [ids[..end]] + Batches(ids[end..])
  }

  /** The gateway's table when it answers each request; None when a request gets no usable reply. */
  type Answers<!S> = nat -> Option<set<S>>

  predicate AllAnswered<S>(answers: Answers<S>, count: nat) {
    forall i | 0 <= i < count :: answers(i).Some?
  }

  /** The replies to the first k batches, one after the other. */
  ghost function Replies<S>(batches: seq<seq<S>>, answers: Answers<S>, k: nat): seq<S>
    requires k <= |batches| && AllAnswered(answers, k)
  {
    if k == 0 then [] else Replies(batches, answers, k - 1) + Absent(answers(k - 1).value, batches[k - 1])
  }

  function BatchEnd<S>(ids: seq<S>, start: nat): (end: nat)
    requires start < |ids|
    ensures start < end <= |ids|
  {
    if start + MAX_BATCH_SIZE < |ids| then start + MAX_BATCH_SIZE else |ids|
  }

  lemma BatchesFrom<S>(ids: seq<S>, start: nat)
    requires start < |ids|
    ensures var end := BatchEnd(ids, start);
      Batches(ids[start..]) == [ids[start..end]] + Batches(ids[end..])
  {
    var end := BatchEnd(ids, start);
    assert ids[start..][..end - start] == ids[start..end] && ids[start..][end - start..] == ids[end..];
  }

  /** HeartbeatSockets: sends the batches one by one and gives up at the first that is not answered. */
  method HeartbeatSockets<S(==)>(ids: seq<S>, answers: Answers<S>) returns (dead: Option<seq<S>>, sent: seq<seq<S>>)
    ensures sent <= Batches(ids)
    ensures dead.Some? <==> AllAnswered(answers, |Batches(ids)|)
    ensures dead.Some? ==> sent == Batches(ids) && dead.value == Replies(sent, answers, |sent|)
    ensures dead.None? ==> sent != [] && AllAnswered(answers, |sent| - 1) && answers(|sent| - 1).None?
  {
    hide Batches, Absent, Replies;
    sent := [];
    var all: seq<S> := [];
    var start := 0;
    assert ids[0..] == ids;
    NoReplies(sent, answers);
    while start < |ids|
      invariant start <= |ids|
      invariant Batches(ids) == sent + Batches(ids[start..])
      invariant AllAnswered(answers, |sent|) && all == Replies(sent, answers, |sent|)
    {
      var end := BatchEnd(ids, start);
      var batch := ids[start..end];
      BatchesFrom(ids, start);
      Assoc(sent, [batch], Batches(ids[end..]));
      ghost var before := sent;
      sent := sent + [batch];
      match answers(|sent| - 1)
      case None =>
        return None, sent;
      case Some(table) =>
        var reply := AnswerHeartbeat(table, batch);
        NextReply(before, batch, answers);
        all := all + reply;
        start := end;
    }
    NoBatches(ids[start..]);
    assert sent == Batches(ids);
    return Some(all), sent;
  }

  lemma NoBatches<S>(ids: seq<S>)
    requires ids == []
    ensures Batches(ids) == []
  {
  }

  lemma NoReplies<S>(batches: seq<seq<S>>, answers: Answers<S>)
    ensures Replies(batches, answers, 0) == []
  {
  }

  lemma NextReply<S>(sent: seq<seq<S>>, batch: seq<S>, answers: Answers<S>)
    requires AllAnswered(answers, |sent|) && answers(|sent|).Some?
    ensures Replies(sent + [batch], answers, |sent| + 1) ==
      Replies(sent, answers, |sent|) + Absent(answers(|sent|).value, batch)
  {
    hide Absent;
    RepliesPrefix(sent, sent + [batch], answers, |sent|);
  }

  lemma {:induction false} RepliesPrefix<S>(a: seq<seq<S>>, b: seq<seq<S>>, answers: Answers<S>, k: nat)
    requires a <= b && k <= |a| && AllAnswered(answers, k)
    ensures Replies(a, answers, k) == Replies(b, answers, k)
  {
    if k > 0 {
      RepliesPrefix(a, b, answers, k - 1);
    }
  }

  /** The number of requests: one for every MAX_BATCH_SIZE sockets or part of it, so a single one exactly if the
      sockets fit into one batch. */
  lemma {:induction false} BatchCount<S>(ids: seq<S>)
    ensures var n := |Batches(ids)|;
      && (n - 1) * MAX_BATCH_SIZE < |ids| <= n * MAX_BATCH_SIZE
      && (n <= 1 <==> |ids| <= MAX_BATCH_SIZE)
    decreases |ids|
  {
    if ids != [] {
      var end := if MAX_BATCH_SIZE < |ids| then MAX_BATCH_SIZE else |ids|;
      BatchCount(ids[end..]);
    }
  }

  function Joined<S>(batches: seq<seq<S>>, k: nat): seq<S>
    requires k <= |batches|
  {
    if k == 0 then [] else Joined(batches, k - 1) + batches[k - 1]
  }

  lemma JoinedNext<S>(batches: seq<seq<S>>, k: nat)
    requires k < |batches|
    ensures Joined(batches, k + 1) == Joined(batches, k) + batches[k]
  {
  }

  lemma {:induction false} JoinedShift<S>(first: seq<S>, batches: seq<seq<S>>, k: nat)
    requires k <= |batches|
    ensures Joined([first] + batches, k + 1) == first + Joined(batches, k)
  {
    var all := [first] + batches;
    JoinedNext(all, k);
    if k == 0 {
      assert Joined(all, 0) == [] && Joined(batches, 0) == [];
      assert all[0] == first;
    } else {
      JoinedShift(first, batches, k - 1);
      hide Joined;
      JoinedNext(batches, k - 1);
      assert all[k] == batches[k - 1];
      Assoc(first, Joined(batches, k - 1), batches[k - 1]);
    }
  }

  /** Batching splits the query: nothing is left out, repeated or reordered. */
  lemma {:induction false} BatchesCover<S>(ids: seq<S>)
    ensures Joined(Batches(ids), |Batches(ids)|) == ids
    decreases |ids|
  {
    if ids != [] {
      var end := if MAX_BATCH_SIZE < |ids| then MAX_BATCH_SIZE else |ids|;
      BatchesCover(ids[end..]);
      var rest := Batches(ids[end..]);
      JoinedShift(ids[..end], rest, |rest|);
    }
  }

  lemma {:induction false} SameTableReplies<S>(batches: seq<seq<S>>, answers: Answers<S>, table: set<S>, k: nat)
    requires k <= |batches| && forall i | 0 <= i < k :: answers(i) == Some(table)
    ensures AllAnswered(answers, k) && Replies(batches, answers, k) == Absent(table, Joined(batches, k))
  {
    hide Absent;
    if k > 0 {
      SameTableReplies(batches, answers, table, k - 1);
      AbsentConcat(table, Joined(batches, k - 1), batches[k - 1]);
    }
  }

  /** While the gateway's table does not change, the batched query answers exactly what one query would. */
  lemma BatchedIsOneShot<S>(ids: seq<S>, answers: Answers<S>, table: set<S>)
    requires forall i | 0 <= i < |Batches(ids)| :: answers(i) == Some(table)
    ensures AllAnswered(answers, |Batches(ids)|)
    ensures Replies(Batches(ids), answers, |Batches(ids)|) == Absent(table, ids)
  {
    SameTableReplies(Batches(ids), answers, table, |Batches(ids)|);
    BatchesCover(ids);
  }

  /** Whatever the tables do meanwhile, a reported socket was queried and was absent when its batch was answered. */
  lemma {:induction false} ReportedWasAbsent<S>(batches: seq<seq<S>>, answers: Answers<S>, k: nat, s: S)
    requires k <= |batches| && AllAnswered(answers, k)
    ensures s in Replies(batches, answers, k) <==> exists i :: 0 <= i < k && s in batches[i] && s !in answers(i).value
  {
    hide Absent;
    if k > 0 {
      ReportedWasAbsent(batches, answers, k - 1, s);
    }
  }

  lemma {:induction false} InJoined<S>(batches: seq<seq<S>>, k: nat, s: S)
    requires k <= |batches|
    ensures s in Joined(batches, k) <==> exists i :: 0 <= i < k && s in batches[i]
  {
    if k > 0 {
      InJoined(batches, k - 1, s);
    }
  }

  /** No false alarm: a socket that is in the table at every answer is not reported; one that never is, is. */
  lemma ReportExact<S>(ids: seq<S>, answers: Answers<S>, s: S)
    requires AllAnswered(answers, |Batches(ids)|) && s in ids
    ensures var dead := Replies(Batches(ids), answers, |Batches(ids)|);
      && ((forall i | 0 <= i < |Batches(ids)| :: s in answers(i).value) ==> s !in dead)
      && ((forall i | 0 <= i < |Batches(ids)| :: s !in answers(i).value) ==> s in dead)
  {
    var n := |Batches(ids)|;
    ReportedWasAbsent(Batches(ids), answers, n, s);
    BatchesCover(ids);
    InJoined(Batches(ids), n, s);
  }

  /** The sockets heartbeatConnections closes for one gateway: those reported dead, or all if a request fails. */
  ghost function DeadOf<S>(ids: seq<S>, answers: Answers<S>): seq<S> {
    if AllAnswered(answers, |Batches(ids)|) then Replies(Batches(ids), answers, |Batches(ids)|) else ids
  }

  lemma {:induction false} RepliesNoDup<S>(batches: seq<seq<S>>, answers: Answers<S>, k: nat)
    requires k <= |batches| && AllAnswered(answers, k) && NoDup(Joined(batches, k))
    ensures NoDup(Replies(batches, answers, k))
    ensures forall s | s in Replies(batches, answers, k) :: s in Joined(batches, k)
  {
    hide Absent;
    if k > 0 {
      var before, batch := Joined(batches, k - 1), batches[k - 1];
      JoinedNext(batches, k - 1);
      assert forall i | 0 <= i < |before| :: (before + batch)[i] == before[i];
      assert forall i | 0 <= i < |batch| :: (before + batch)[|before| + i] == batch[i];
      RepliesNoDup(batches, answers, k - 1);
      AbsentOnce(answers(k - 1).value, batch);
      ConcatNoDup(before, batch, Replies(batches, answers, k - 1), Absent(answers(k - 1).value, batch));
    }
  }

  lemma ConcatNoDup<T>(a: seq<T>, b: seq<T>, x: seq<T>, y: seq<T>)
    requires NoDup(a + b) && NoDup(x) && NoDup(y)
    requires (forall t | t in x :: t in a) && (forall t | t in y :: t in b)
    ensures NoDup(x + y)
  {
    forall i, j | 0 <= i < |x| && 0 <= j < |y| ensures x[i] != y[j] {
      assert x[i] in a && y[j] in b;
      var k :| 0 <= k < |a| && a[k] == x[i];
      var l :| 0 <= l < |b| && b[l] == y[j];
      assert (a + b)[k] == x[i] && (a + b)[|a| + l] == y[j];
    }
  }

  /** Closing what was reported closes queried sockets only, each once. */
  lemma DeadQueried<S>(ids: seq<S>, answers: Answers<S>)
    requires NoDup(ids)
    ensures NoDup(DeadOf(ids, answers)) && forall s | s in DeadOf(ids, answers) :: s in ids
  {
    BatchesCover(ids);
    if AllAnswered(answers, |Batches(ids)|) {
      RepliesNoDup(Batches(ids), answers, |Batches(ids)|);
    }
  }
}
