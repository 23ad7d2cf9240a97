/** A service-side connection as it is written: a bounded mailbox and a close that happens once. */
module Connection {
  import opened Sequences
  import opened MailboxModel

  datatype Outcome = Entered | Dropped | Blocked

  class Conn<S, G, M> {
    const socketID: S
    const gatewayID: G
    const mailboxSize: nat
    var mailbox: seq<M>
    var close: Option<CloseInfo>

    ghost var entered: seq<M>
    ghost var read: seq<M>
    ghost var onClosedCalls: nat

    ghost function Value(): Box<M>
      reads this
    {
      Box(mailbox, entered, read, close, onClosedCalls)
    }

    constructor (gatewayID: G, socketID: S, mailboxSize: int)
      ensures this.gatewayID == gatewayID && this.socketID == socketID
      ensures Value() == NewBox() && BoxInv(Value(), this.mailboxSize)
      ensures this.mailboxSize == if mailboxSize < 0 then 0 else mailboxSize
    {
      this.gatewayID, this.socketID := gatewayID, socketID;
      this.mailboxSize := if mailboxSize < 0 then 0 else mailboxSize;
      mailbox, close, entered, read, onClosedCalls := [], None, [], [], 0;
    }

    /** The select of HandleMessage, with no Read waiting: either ready case may be taken. */
    method HandleMessage(msg: M) returns (outcome: Outcome)
      requires BoxInv(Value(), mailboxSize)
      modifies this`mailbox, this`entered
      ensures BoxInv(Value(), mailboxSize)
      ensures Value() == if outcome == Entered then EnterBox(old(Value()), msg) else old(Value())
      ensures outcome == Entered ==> |old(mailbox)| < mailboxSize && mailbox == old(mailbox) + [msg]
      ensures outcome != Entered ==> mailbox == old(mailbox)
      ensures outcome == Dropped ==> close.Some?
      ensures outcome == Blocked <==> close.None? && |old(mailbox)| == mailboxSize
    {
      if
      case |mailbox| < mailboxSize =>
        mailbox := mailbox + [msg];
        entered := entered + [msg];
        outcome := Entered;
      case close.Some? =>
        outcome := Dropped;
      case close.None? && |mailbox| == mailboxSize =>
        outcome := Blocked;
    }

    method HandleClose(status: Status, reason: string)
      requires BoxInv(Value(), mailboxSize)
      modifies this`close, this`onClosedCalls
      ensures BoxInv(Value(), mailboxSize)
      ensures Value() == CloseBox(old(Value()), CloseInfo(status, reason))
      ensures ClosedFrom(old(Value()), CloseInfo(status, reason), Value())
    {
      if close.None? {
        close := Some(CloseInfo(status, reason));
        onClosedCalls := onClosedCalls + 1;
      }
    }

    /** The select of Read. None: it returned the connection's or the caller's context error, or has nothing to return
        yet. */
    method Read(canceled: bool) returns (msg: Option<M>)
      requires BoxInv(Value(), mailboxSize)
      modifies this`mailbox, this`read
      ensures BoxInv(Value(), mailboxSize)
      ensures msg.None? ==> Value() == old(Value()) && (close.Some? || canceled || mailbox == [])
      ensures msg.Some? ==> old(mailbox) == [msg.value] + mailbox && Value() == ReadBox(old(Value()))
    {
      if
      case close.Some? || canceled || mailbox == [] =>
        msg := None;
      case mailbox != [] =>
        msg := Some(mailbox[0]);
        read := read + [mailbox[0]];
        mailbox := mailbox[1..];
    }

    /** Write: a message the gateway did not take closes the connection. */
    method Write(delivered: bool) returns (ok: bool)
      requires BoxInv(Value(), mailboxSize)
      modifies this`close, this`onClosedCalls
      ensures ok == delivered && BoxInv(Value(), mailboxSize)
      ensures delivered ==> Value() == old(Value())
      ensures !delivered ==>
        ClosedFrom(old(Value()), CloseInfo(InternalError, "Failed to write message to gateway"), Value())
    {
      if !delivered {
        HandleClose(InternalError, "Failed to write message to gateway");
      }
      return delivered;
    }
  }
}
