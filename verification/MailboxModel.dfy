/** A connection's mailbox as a value. */
module MailboxModel {
  import opened Sequences

  datatype Status = InternalError | GoingAway | PolicyViolation | OtherStatus(code: int)

  datatype CloseInfo = CloseInfo(status: Status, reason: string)

  /** A connection's mailbox, with the history of what entered it and what was read from it. */
  datatype Box<M> = Box(mailbox: seq<M>, entered: seq<M>, read: seq<M>, close: Option<CloseInfo>, onClosedCalls: nat)

  function NewBox<M>(): Box<M> {
    Box([], [], [], None, 0)
  }

  function EnterBox<M>(b: Box<M>, m: M): Box<M> {
    b.(mailbox := b.mailbox + [m], entered := b.entered + [m])
  }

  /** A message handed straight to a Read that is waiting: the only way in when the mailbox has no buffer. */
  function HandOver<M>(b: Box<M>, m: M): Box<M> {
    b.(entered := b.entered + [m], read := b.read + [m])
  }

  function ReadBox<M>(b: Box<M>): Box<M>
    requires b.mailbox != []
  {
    b.(mailbox := b.mailbox[1..], read := b.read + [b.mailbox[0]])
  }

  /** HandleClose: the first call decides the status and runs onClosed, later ones do nothing. */
  function CloseBox<M>(b: Box<M>, info: CloseInfo): Box<M> {
    if b.close.Some? then b else b.(close := Some(info), onClosedCalls := b.onClosedCalls + 1)
  }

  /** now is b closed: with this information by the close at hand, or as it was by an earlier one; its mailbox is as it
      was. */
  ghost predicate ClosedFrom<M>(b: Box<M>, info: CloseInfo, now: Box<M>) {
    && now.close == Some(if b.close.Some? then b.close.value else info)
    && now.mailbox == b.mailbox && now.entered == b.entered && now.read == b.read
    && now.onClosedCalls == b.onClosedCalls + if b.close.Some? then 0 else 1
  }

  ghost predicate BoxInv<M>(b: Box<M>, mailboxSize: nat) {
    && |b.mailbox| <= mailboxSize
    && b.entered == b.read + b.mailbox
    && b.onClosedCalls == if b.close.Some? then 1 else 0
  }
}
