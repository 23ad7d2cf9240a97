/** The chunk protocol: a payload cut into acked chunks and an EOF, over a network
    that may drop or delay chunks and acks but does not duplicate them. Neither
    side looks at the indexes it sends. */
module ChunkModel {
  import opened Sequences

  const MAX_CHUNK_SIZE: nat := 1024 * 16

  datatype Chunk<B> = Chunk(index: nat, data: seq<B>, isEOF: bool)

  function ChunksFrom<B>(payload: seq<B>, offset: nat, index: nat): (cs: seq<Chunk<B>>)
    requires offset <= |payload|
    ensures cs != []
    decreases |payload| - offset
  {
    if offset == |payload| then
      [Chunk(index, [], true)]
    else
      var end := if offset + MAX_CHUNK_SIZE < |payload| then offset + MAX_CHUNK_SIZE else |payload|;
      [Chunk(index, payload[offset..end], false)] + ChunksFrom(payload, end, index + 1)
  }

  function Chunks<B>(payload: seq<B>): seq<Chunk<B>> {
    ChunksFrom(payload, 0, 0)
  }

  function Joined<B>(cs: seq<Chunk<B>>): seq<B> {
    if cs == [] then [] else Joined(cs[..|cs| - 1]) + cs[|cs| - 1].data
  }

  lemma {:induction false} JoinedConcat<B>(a: seq<Chunk<B>>, b: seq<Chunk<B>>)
    ensures Joined(a + b) == Joined(a) + Joined(b)
  {
    if b == [] {
      assert a + b == a;
    } else {
      var n := |b| - 1;
      JoinedConcat(a, b[..n]);
      assert (a + b)[..|a + b| - 1] == a + b[..n] && (a + b)[|a + b| - 1] == b[n];
      var x, y, z := Joined(a), Joined(b[..n]), b[n].data;
      assert (x + y) + z == x + (y + z);
    }
  }

  /** Chunks carry the payload in order, in pieces no larger than the limit, numbered from the
      first; exactly the last is an EOF, and it carries nothing. */
  lemma {:induction false} ChunksCarry<B>(payload: seq<B>, offset: nat, index: nat)
    requires offset <= |payload|
    ensures var cs := ChunksFrom(payload, offset, index);
      && Joined(cs) == payload[offset..]
      && (forall k | 0 <= k < |cs| :: cs[k].index == index + k && |cs[k].data| <= MAX_CHUNK_SIZE)
      && (forall k | 0 <= k < |cs| :: cs[k].isEOF <==> k == |cs| - 1)
      && (forall k | 0 <= k < |cs| :: cs[k].data == [] <==> cs[k].isEOF)
    decreases |payload| - offset
  {
    if offset == |payload| {
      LastChunk(payload, index);
    } else {
      var end := if offset + MAX_CHUNK_SIZE < |payload| then offset + MAX_CHUNK_SIZE else |payload|;
      ChunksCarry(payload, end, index + 1);
      var first, rest := Chunk(index, payload[offset..end], false), ChunksFrom(payload, end, index + 1);
      assert ChunksFrom(payload, offset, index) == [first] + rest;
      hide Joined, ChunksFrom;
      JoinedConcat([first], rest);
      JoinedOne(first);
      assert payload[offset..] == payload[offset..end] + payload[end..];
    }
  }

  lemma JoinedOne<B>(c: Chunk<B>)
    ensures Joined([c]) == c.data
  {
    assert [c][..0] == [];
    assert [] + c.data == c.data;
  }

  lemma LastChunk<B>(payload: seq<B>, index: nat)
    ensures ChunksFrom(payload, |payload|, index) == [Chunk(index, [], true)]
    ensures Joined(ChunksFrom(payload, |payload|, index)) == payload[|payload|..] == []
  {
    var last: Chunk<B> := Chunk(index, [], true);
    JoinedOne(last);
  }

  lemma JoinedPrefix<B>(payload: seq<B>, k: nat)
    requires k <= |Chunks(payload)|
    ensures Joined(Chunks(payload)[..k]) <= payload
    ensures k >= |Chunks(payload)| - 1 ==> Joined(Chunks(payload)[..k]) == payload
  {
    var cs := Chunks(payload);
    ChunksCarry(payload, 0, 0);
    assert cs == cs[..k] + cs[k..] && payload[0..] == payload;
    JoinedConcat(cs[..k], cs[k..]);
    if k == |cs| - 1 {
      assert cs[k..] == [cs[k]] && cs[k].data == [];
    }
  }

  // --- The two parties and the network ---

  datatype Sender = Ready(next: nat) | Waiting(next: nat) | SentAll | GaveUp(next: nat)

  /** Appending(k): the ack of chunk k is published, its data not yet appended. */
  datatype Phase = Receiving | Got(k: nat) | Appending(k: nat) | Success | ReceiverFailed

  /** `got` and `done` count the chunks taken from the inbox and those appended. */
  datatype Receiver<B> = Receiver(phase: Phase, got: nat, done: nat, buffer: seq<B>)

  datatype Transfer<B> = Transfer(
    payload: seq<B>,
    sender: Sender,
    receiver: Receiver<B>,
    toReceiver: multiset<nat>,   // chunks under way
    toSender: multiset<nat>)     // acks under way, by the request they answer

  datatype Event =
    | Send | SenderTimeout | AckArrives(k: nat)
    | Take(k: nat) | PublishAck | PublishFails | Append | ReceiverTimeout
    | DropChunk(k: nat) | DropAck(k: nat)

  function Start<B>(payload: seq<B>): Transfer<B> {
    Transfer(payload, Ready(0), Receiver(Receiving, 0, 0, []), multiset{}, multiset{})
  }

  predicate Enabled<B>(t: Transfer<B>, e: Event) {
    match e
    case Send => t.sender.Ready? && t.sender.next < |Chunks(t.payload)|
    case SenderTimeout => t.sender.Waiting?
    case AckArrives(k) => k in t.toSender
    case Take(k) => t.receiver.phase.Receiving? && k in t.toReceiver
    case PublishAck => t.receiver.phase.Got?
    case PublishFails => t.receiver.phase.Got?
    case Append => t.receiver.phase.Appending? && t.receiver.phase.k < |Chunks(t.payload)|
    case ReceiverTimeout => t.receiver.phase.Receiving?
    case DropChunk(k) => k in t.toReceiver
    case DropAck(k) => k in t.toSender
  }

  function Do<B>(t: Transfer<B>, e: Event): Transfer<B>
    requires Enabled(t, e)
  {
    match e
    case Send => t.(sender := Waiting(t.sender.next), toReceiver := t.toReceiver + multiset{t.sender.next})
    case SenderTimeout => t.(sender := GaveUp(t.sender.next))
    case AckArrives(k) =>
      // The ack goes to the reply inbox of request k: nobody is listening unless the sender still waits for it.
      var t' := t.(toSender := t.toSender - multiset{k});
      if t.sender == Waiting(k) then
        t'.(sender := if k == |Chunks(t.payload)| - 1 then SentAll else Ready(k + 1))
      else
        t'
    case Take(k) =>
      t.(toReceiver := t.toReceiver - multiset{k}, receiver := t.receiver.(phase := Got(k), got := t.receiver.got + 1))
    case PublishAck =>
      var k := t.receiver.phase.k;
      t.(toSender := t.toSender + multiset{k}, receiver := t.receiver.(phase := Appending(k)))
    case PublishFails => t.(receiver := t.receiver.(phase := ReceiverFailed))
    case Append =>
      var c := Chunks(t.payload)[t.receiver.phase.k];
      t.(receiver := t.receiver.(phase := if c.isEOF then Success else Receiving,
                                 done := t.receiver.done + 1, buffer := t.receiver.buffer + c.data))
    case ReceiverTimeout => t.(receiver := t.receiver.(phase := ReceiverFailed))
    case DropChunk(k) => t.(toReceiver := t.toReceiver - multiset{k})
    case DropAck(k) => t.(toSender := t.toSender - multiset{k})
  }

  ghost predicate Steps<B>(t: Transfer<B>, es: seq<Event>, t': Transfer<B>)
    decreases |es|
  {
    if es == [] then t' == t
    else Enabled(t, es[0]) && Steps(Do(t, es[0]), es[1..], t')
  }

  ghost function Sent<B>(t: Transfer<B>): nat {
    match t.sender
    case Ready(k) => k
    case Waiting(k) => k + 1
    case GaveUp(k) => k + 1
    case SentAll => |Chunks(t.payload)|
  }

  ghost function Acked<B>(t: Transfer<B>): nat {
    match t.sender
    case Ready(k) => k
    case Waiting(k) => k
    case GaveUp(k) => k
    case SentAll => |Chunks(t.payload)|
  }

  /** Lock step: at most one request is outstanding, and everything under way belongs to it. */
  ghost predicate LockStep<B>(t: Transfer<B>) {
    var r, sent, n := t.receiver, Sent(t), |Chunks(t.payload)|;
    && Acked(t) <= r.got <= sent <= n && r.done <= r.got
    && (t.sender.Ready? ==> sent < n)
    && (t.toReceiver == multiset{} || (t.toReceiver == multiset{sent - 1} && r.got == sent - 1))
    && (|| t.toSender == multiset{}
        || (t.toSender == multiset{sent - 1} && r.got == sent && Acked(t) == sent - 1 && !r.phase.Got?))
    && (Acked(t) == sent ==> r.got == sent && !r.phase.Got? && t.toReceiver == multiset{})
    && match r.phase
       case Receiving => r.got == r.done < n
       case Got(k) => k == r.done && r.got == k + 1 == sent
       case Appending(k) => k == r.done && r.got == k + 1
       case Success => r.got == r.done == n
       case ReceiverFailed => r.done < n && r.got < n + 1 && (r.got == n ==> Acked(t) < n && t.toSender == multiset{})
  }

  ghost predicate Inv<B>(t: Transfer<B>) {
    && LockStep(t)
    && t.receiver.buffer == Joined(Chunks(t.payload)[..t.receiver.done])
  }

  lemma OnlyLastIsEOF<B>(payload: seq<B>)
    ensures Chunks(payload) != []
    ensures forall k | 0 <= k < |Chunks(payload)| :: Chunks(payload)[k].isEOF <==> k == |Chunks(payload)| - 1
  {
    ChunksCarry(payload, 0, 0);
  }

  lemma One(m: multiset<nat>, k: nat)
    ensures m == multiset{} ==> m + multiset{k} == multiset{k} && k !in m
    ensures forall j: nat | m == multiset{j} && k in m :: k == j && m - multiset{k} == multiset{}
  {
  }

  lemma SenderStep<B>(t: Transfer<B>, e: Event)
    requires Inv(t) && Enabled(t, e) && (e.Send? || e.SenderTimeout?)
    ensures Inv(Do(t, e))
  {
    hide Chunks, Joined;
    One(t.toReceiver, t.sender.next);
  }

  lemma AckStep<B>(t: Transfer<B>, e: Event)
    requires Inv(t) && Enabled(t, e) && (e.AckArrives? || e.DropAck?)
    ensures Inv(Do(t, e))
  {
    hide Chunks, Joined;
    One(t.toSender, e.k);
    assert Do(t, e).toSender == multiset{};
  }

  lemma TakeStep<B>(t: Transfer<B>, e: Event)
    requires Inv(t) && Enabled(t, e) && (e.Take? || e.DropChunk?)
    ensures Inv(Do(t, e))
  {
    hide Chunks, Joined;
    One(t.toReceiver, e.k);
    assert Do(t, e).toReceiver == multiset{};
  }

  lemma ReceiverStep<B>(t: Transfer<B>, e: Event)
    requires Inv(t) && Enabled(t, e) && (e.PublishAck? || e.PublishFails? || e.ReceiverTimeout?)
    ensures Inv(Do(t, e))
  {
    hide Chunks, Joined;
    match e
    case PublishAck =>
      One(t.toSender, t.receiver.phase.k);
      assert LockStep(Do(t, e));
    case _ =>
  }

  lemma JoinedTake<B>(cs: seq<Chunk<B>>, k: nat)
    requires k < |cs|
    ensures Joined(cs[..k + 1]) == Joined(cs[..k]) + cs[k].data
  {
    assert cs[..k + 1][..k] == cs[..k] && cs[..k + 1][k] == cs[k];
  }

  lemma AppendStep<B>(t: Transfer<B>)
    requires Inv(t) && Enabled(t, Append)
    ensures Inv(Do(t, Append))
  {
    hide Chunks, Joined;
    OnlyLastIsEOF(t.payload);
    JoinedTake(Chunks(t.payload), t.receiver.phase.k);
  }

  lemma DoInv<B>(t: Transfer<B>, e: Event)
    requires Inv(t) && Enabled(t, e)
    ensures Inv(Do(t, e))
  {
    hide Inv, Do;
    match e
    case Send => SenderStep(t, e);
    case SenderTimeout => SenderStep(t, e);
    case AckArrives(_) => AckStep(t, e);
    case DropAck(_) => AckStep(t, e);
    case Take(_) => TakeStep(t, e);
    case DropChunk(_) => TakeStep(t, e);
    case Append => AppendStep(t);
    case _ => ReceiverStep(t, e);
  }

  lemma {:induction false} StepsInv<B>(t: Transfer<B>, es: seq<Event>, t': Transfer<B>)
    requires Inv(t) && Steps(t, es, t')
    ensures Inv(t') && t'.payload == t.payload
    decreases |es|
  {
    hide Inv;
    if es != [] {
      DoInv(t, es[0]);
      StepsInv(Do(t, es[0]), es[1..], t');
    }
  }

  /** In every run the receiver's buffer is a prefix of the payload; a receiver that returns success has exactly
      the payload; and a sender that returns success was acked for every chunk and the EOF, all of which the
      receiver took, so that it holds the whole payload. */
  lemma TransferExact<B>(payload: seq<B>, es: seq<Event>, t: Transfer<B>)
    requires Steps(Start(payload), es, t)
    ensures t.receiver.buffer <= payload
    ensures t.receiver.phase.Success? ==> t.receiver.buffer == payload
    ensures t.sender.SentAll? ==>
      && t.receiver.got == |Chunks(payload)| && t.receiver.buffer == payload
      && (t.receiver.phase.Success? || t.receiver.phase == Appending(|Chunks(payload)| - 1))
  {
    StepsInv(Start(payload), es, t);
    JoinedPrefix(payload, t.receiver.done);
  }

  // --- Without losses ---

  ghost predicate LossFree(e: Event) {
    e.Send? || e.AckArrives? || e.Take? || e.PublishAck? || e.Append?
  }

  /** Steps taken so far: chunks sent, taken, acked by the receiver, appended, and acks received. */
  ghost function Progress<B>(t: Transfer<B>): int {
    var r := t.receiver;
    Sent(t) + r.got + (if r.phase.Got? then r.got - 1 else r.got) + r.done + Acked(t)
  }

  /** The outstanding request is somewhere. */
  ghost predicate NothingLost<B>(t: Transfer<B>) {
    && !t.sender.GaveUp? && !t.receiver.phase.ReceiverFailed?
    && (t.sender.Waiting? ==>
          || t.sender.next in t.toReceiver || t.receiver.phase == Got(t.sender.next) || t.sender.next in t.toSender)
  }

  lemma LossFreeSend<B>(t: Transfer<B>, e: Event)
    requires Inv(t) && NothingLost(t) && Enabled(t, e) && (e.Send? || e.AckArrives?)
    ensures NothingLost(Do(t, e)) && Progress(Do(t, e)) == Progress(t) + 1
  {
    hide Chunks, Joined;
    if e.AckArrives? {
      One(t.toSender, e.k);
    }
  }

  lemma LossFreeTake<B>(t: Transfer<B>, k: nat)
    requires Inv(t) && NothingLost(t) && Enabled(t, Event.Take(k))
    ensures NothingLost(Do(t, Event.Take(k))) && Progress(Do(t, Event.Take(k))) == Progress(t) + 1
  {
    hide Chunks, Joined;
    One(t.toReceiver, k);
  }

  lemma LossFreeAck<B>(t: Transfer<B>)
    requires Inv(t) && NothingLost(t) && Enabled(t, PublishAck)
    ensures NothingLost(Do(t, PublishAck)) && Progress(Do(t, PublishAck)) == Progress(t) + 1
  {
    hide Chunks, Joined;
  }

  lemma LossFreeAppend<B>(t: Transfer<B>)
    requires Inv(t) && NothingLost(t) && Enabled(t, Append)
    ensures NothingLost(Do(t, Append)) && Progress(Do(t, Append)) == Progress(t) + 1
  {
    hide Chunks, Joined;
    OnlyLastIsEOF(t.payload);
  }

  lemma LossFreeStep<B>(t: Transfer<B>, e: Event)
    requires Inv(t) && NothingLost(t) && Enabled(t, e) && LossFree(e)
    ensures NothingLost(Do(t, e)) && Progress(Do(t, e)) == Progress(t) + 1
  {
    hide Inv, NothingLost, Progress, Do;
    match e
    case Take(k) => LossFreeTake(t, k);
    case PublishAck => LossFreeAck(t);
    case Append => LossFreeAppend(t);
    case Send => LossFreeSend(t, e);
    case AckArrives(_) => LossFreeSend(t, e);
    case _ =>
  }

  lemma {:induction false} LossFreeSteps<B>(t: Transfer<B>, es: seq<Event>, t': Transfer<B>)
    requires Inv(t) && NothingLost(t) && Steps(t, es, t') && forall i | 0 <= i < |es| :: LossFree(es[i])
    ensures Inv(t') && NothingLost(t') && t'.payload == t.payload && Progress(t') == Progress(t) + |es|
    decreases |es|
  {
    hide Inv, NothingLost, Progress, LossFree;
    if es != [] {
      DoInv(t, es[0]);
      LossFreeStep(t, es[0]);
      LossFreeSteps(Do(t, es[0]), es[1..], t');
    }
  }

  lemma CanGoOn<B>(t: Transfer<B>)
    requires Inv(t) && NothingLost(t)
    ensures Progress(t) <= 5 * |Chunks(t.payload)|
    ensures (t.sender.SentAll? && t.receiver.phase.Success?) || exists e :: LossFree(e) && Enabled(t, e)
  {
    hide Chunks, Joined;
    OnlyLastIsEOF(t.payload);
    if t.receiver.phase.Got? {
      assert LossFree(PublishAck) && Enabled(t, PublishAck);
    } else if t.receiver.phase.Appending? {
      assert LossFree(Append) && Enabled(t, Append);
    } else if t.sender.Ready? {
      assert LossFree(Send) && Enabled(t, Send);
    } else if t.sender.Waiting? {
      var k := t.sender.next;
      assert LossFree(Event.Take(k)) && LossFree(AckArrives(k));
      assert Enabled(t, AckArrives(k)) || Enabled(t, Event.Take(k));
    }
  }

  /** If no message is lost or late, the transfer can always go on until both sides return success,
      and takes exactly five steps a chunk however they interleave. */
  lemma LossFreeCompletes<B>(payload: seq<B>, es: seq<Event>, t: Transfer<B>)
    requires Steps(Start(payload), es, t) && forall i | 0 <= i < |es| :: LossFree(es[i])
    ensures |es| <= 5 * |Chunks(payload)|
    ensures (forall e :: LossFree(e) ==> !Enabled(t, e)) ==>
      t.sender.SentAll? && t.receiver.phase.Success? && t.receiver.buffer == payload && |es| == 5 * |Chunks(payload)|
  {
    LossFreeSteps(Start(payload), es, t);
    CanGoOn(t);
    JoinedPrefix(payload, t.receiver.done);
  }

  // --- The two loops as they are written ---

  /** What one request comes back with: an ack, or an error or timeout. */
  type Replies = nat -> bool

  /** streamChunks: each chunk must be acked before the next is sent. */
  method StreamChunks<B>(payload: seq<B>, acked: Replies) returns (ok: bool, sent: seq<Chunk<B>>)
    ensures sent <= Chunks(payload) && sent != []
    ensures ok <==> sent == Chunks(payload) && forall k | 0 <= k < |sent| :: acked(k)
    ensures !ok ==> !acked(|sent| - 1)
    ensures forall k | 0 <= k < |sent| - 1 :: acked(k)
  {
    sent := [];
    var index, offset := 0, 0;
    while offset < |payload|
      invariant offset <= |payload| && index == |sent| && Chunks(payload) == sent + ChunksFrom(payload, offset, index)
      invariant forall k | 0 <= k < index :: acked(k)
      decreases |payload| - offset
    {
      var end := if offset + MAX_CHUNK_SIZE < |payload| then offset + MAX_CHUNK_SIZE else |payload|;
      var chunk := Chunk(index, payload[offset..end], false);
      assert sent + ChunksFrom(payload, offset, index) == (sent + [chunk]) + ChunksFrom(payload, end, index + 1);
      sent := sent + [chunk];
      if !acked(index) {
        return false, sent;
      }
      offset := end;
      index := index + 1;
    }
    sent := sent + [Chunk(index, [], true)];
    return acked(index), sent;
  }

  /** receiveChunks on the messages its inbox yields; None stands for a failed or timed-out read. */
  method ReceiveChunks<B>(inbox: seq<Option<Chunk<B>>>) returns (payload: Option<seq<B>>)
    ensures payload.Some? <==> exists k :: FirstEOF(inbox, k)
    ensures forall k | FirstEOF(inbox, k) :: payload == Some(Joined(Values(inbox[..k + 1])))
  {
    var assembled: seq<B> := [];
    for i := 0 to |inbox|
      invariant forall k | 0 <= k < i :: inbox[k].Some? && !inbox[k].value.isEOF
      invariant assembled == Joined(Values(inbox[..i]))
    {
      if inbox[i].None? {
        return None;
      }
      assert inbox[..i + 1][..i] == inbox[..i];
      assert Values(inbox[..i + 1]) == Values(inbox[..i]) + [inbox[i].value];
      assembled := assembled + inbox[i].value.data;
      if inbox[i].value.isEOF {
        assert FirstEOF(inbox, i);
        return Some(assembled);
      }
    }
    return None;
  }

  function Values<B>(inbox: seq<Option<Chunk<B>>>): (cs: seq<Chunk<B>>)
    requires forall k | 0 <= k < |inbox| :: inbox[k].Some?
    ensures |cs| == |inbox| && forall k | 0 <= k < |cs| :: cs[k] == inbox[k].value
  {
    seq(|inbox|, k requires 0 <= k < |inbox| => inbox[k].value)
  }

  ghost predicate FirstEOF<B>(inbox: seq<Option<Chunk<B>>>, k: nat) {
    && k < |inbox| && (forall j | 0 <= j <= k :: inbox[j].Some?)
    && inbox[k].value.isEOF && forall j | 0 <= j < k :: !inbox[j].value.isEOF
  }

  function Delivered<B>(cs: seq<Chunk<B>>): seq<Option<Chunk<B>>> {
    seq(|cs|, k requires 0 <= k < |cs| => Some(cs[k]))
  }

  /** What streamChunks sends, delivered once and in order, is what receiveChunks returns. */
  method RoundTrip<B>(payload: seq<B>) returns (received: Option<seq<B>>)
    ensures received == Some(payload)
  {
    var ok, sent := StreamChunks(payload, k => true);
    ChunksCarry(payload, 0, 0);
    var inbox := Delivered(sent);
    assert FirstEOF(inbox, |inbox| - 1);
    assert inbox[..|inbox|] == inbox && Values(inbox) == sent && payload[0..] == payload;
    received := ReceiveChunks(inbox);
  }

  /** Why duplicates are excluded: no index is checked, so a data chunk delivered twice is appended twice. */
  method DuplicatedChunk<B>(payload: seq<B>) returns (received: Option<seq<B>>)
    requires 0 < |payload| <= MAX_CHUNK_SIZE
    ensures received == Some(payload + payload)
  {
    var cs := Chunks(payload);
    ChunksCarry(payload, 0, 0);
    assert ChunksFrom(payload, |payload|, 1) == [Chunk(1, [], true)];
    assert payload[0..|payload|] == payload;
    assert cs == [Chunk(0, payload, false)] + ChunksFrom(payload, |payload|, 1);
    var twice := [cs[0], cs[0], cs[1]];
    var inbox := Delivered(twice);
    assert FirstEOF(inbox, 2);
    assert inbox[..3] == inbox && Values(inbox) == twice;
    assert twice[..2] == [cs[0], cs[0]] && twice[..2][..1] == [cs[0]];
    assert Joined([cs[0]]) == payload && Joined(twice[..2]) == payload + payload;
    assert cs[1].data == [] && Joined(twice) == payload + payload;
    received := ReceiveChunks(inbox);
  }
}
