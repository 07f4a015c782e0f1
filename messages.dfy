/**
  The resolution-mismatch message of the experiment window
  (`update_converters`, `add_message`, `remove_message` in lib/qexperiment.cc).
  One message object, `resMsg`, is shown while the horizontal and vertical
  pixel densities differ too much; it sits in the list of shown messages.
*/
module Messages {
  import opened Wrappers

  datatype MessageType = Warning | Error

  class Message {
    var kind: MessageType
    const text: string

    constructor (kind: MessageType, text: string)
      ensures this.kind == kind && this.text == text
    {
      this.kind := kind;
      this.text := text;
    }
  }

  /** Number of occurrences of x in s. */
  function Count<T(==)>(s: seq<T>, x: T): (n: nat)
    ensures n <= |s|
    ensures n == 0 <==> x !in s
  {
    if s == [] then 0 else (if s[0] == x then 1 else 0) + Count(s[1..], x)
  }

  lemma {:induction false} CountAppend<T>(s: seq<T>, t: seq<T>, x: T)
    ensures Count(s + t, x) == Count(s, x) + Count(t, x)
  {
    if s == [] {
      assert s + t == t;
    } else {
      assert (s + t)[1..] == s[1..] + t;
      CountAppend(s[1..], t, x);
    }
  }

  /** `QList::removeOne`: drop the first occurrence of x, if any. */
  function RemoveFirst<T(==)>(s: seq<T>, x: T): (r: seq<T>)
    ensures x in s ==> |r| == |s| - 1 && Count(r, x) == Count(s, x) - 1
    ensures x !in s ==> r == s
    ensures forall y :: y in s && y != x ==> Count(r, y) == Count(s, y)
    ensures forall y :: y in r ==> y in s
  {
    if s == [] then []
    else if s[0] == x then s[1..]
    else [s[0]] + RemoveFirst(s[1..], x)
  }

  /** The three-state message as a value: none, a warning or an error. */
  function NextMessage(current: Option<MessageType>, err: real): (r: Option<MessageType>)
    // No message yet: an error above 10 %, a warning above 1 %, otherwise none.
    ensures current.None? ==> (r == Some(Error) <==> err > 1.0 / 10.0)
    ensures current.None? ==> (r == Some(Warning) <==> 1.0 / 100.0 < err <= 1.0 / 10.0)
    ensures current.None? ==> (r.None? <==> err <= 1.0 / 100.0)
    // A shown message goes away below 1 %; an error is lowered below 10 %; a warning is never raised.
    ensures current.Some? ==> (r.None? <==> err < 1.0 / 100.0)
    ensures current == Some(Error) && 1.0 / 100.0 <= err < 1.0 / 10.0 ==> r == Some(Warning)
    ensures current == Some(Error) && err >= 1.0 / 10.0 ==> r == Some(Error)
    ensures current == Some(Warning) ==> r != Some(Error)
  {
    match current
    case None =>
      if err > 1.0 / 10.0 then Some(Error)
      else if err > 1.0 / 100.0 then Some(Warning)
      else None
    case Some(t) =>
      if err < 1.0 / 100.0 then None
      else if t == Error && err < 1.0 / 10.0 then Some(Warning)
      else Some(t)
  }

  /** Re-running the update with the same mismatch changes nothing. */
  lemma NextMessageIdempotent(current: Option<MessageType>, err: real)
    ensures NextMessage(NextMessage(current, err), err) == NextMessage(current, err)
  {
  }

  const ResolutionLabel: string := "too much difference between horizontal and vertical resolutions"

  /** The message-related state of the experiment window. */
  class MessageBoard {
    var resMsg: Message?
    var messages: seq<Message>

    /** The resolution message, when there is one, is listed exactly once. */
    ghost predicate Valid()
      reads this
    {
      resMsg != null ==> Count<Message>(messages, resMsg) == 1
    }

    function Current(): Option<MessageType>
      reads this, resMsg
    {
      if resMsg == null then None else Some(resMsg.kind)
    }

    constructor ()
      ensures Valid() && resMsg == null && messages == []
    {
      resMsg := null;
      messages := [];
    }

    method AddMessage(msg: Message)
      modifies this`messages
      ensures messages == old(messages) + [msg]
    {
      messages := messages + [msg];
    }

    method RemoveMessage(msg: Message)
      modifies this`messages
      ensures messages == RemoveFirst(old(messages), msg)
    {
      messages := RemoveFirst(messages, msg);
    }

    /** Create, remove or lower the message for a relative mismatch `err`. */
    method UpdateConverters(err: real)
      requires Valid()
      modifies this, resMsg
      ensures Valid()
      ensures Current() == NextMessage(old(Current()), err)
      ensures old(resMsg) == null && resMsg != null ==>
        fresh(resMsg) && resMsg.text == ResolutionLabel && messages == old(messages) + [resMsg]
      ensures old(resMsg) == null && resMsg == null ==> messages == old(messages)
      ensures old(resMsg) != null && resMsg == null ==> messages == RemoveFirst<Message>(old(messages), old(resMsg))
      ensures old(resMsg) != null && resMsg != null ==> resMsg == old(resMsg)
      ensures old(resMsg) != null && resMsg != null && resMsg.kind != old(resMsg.kind) ==>
        messages == RemoveFirst<Message>(old(messages), resMsg) + [resMsg]
      ensures old(resMsg) != null && resMsg != null && resMsg.kind == old(resMsg.kind) ==>
        messages == old(messages)
    {
      if resMsg == null {
        if err > 1.0 / 10.0 {
          resMsg := new Message(Error, ResolutionLabel);
        } else if err > 1.0 / 100.0 {
          resMsg := new Message(Warning, ResolutionLabel);
        }
        if resMsg != null {
          var m: Message := resMsg;
          assert m !in messages;
          CountAppend(messages, [m], m);
          AddMessage(m);
        }
      } else {
        if err < 1.0 / 100.0 {
          var m: Message := resMsg;
          RemoveMessage(m);
          resMsg := null;
        } else if resMsg.kind == Error && err < 1.0 / 10.0 {
          var m: Message := resMsg;
          RemoveMessage(m);
          m.kind := Warning;
          CountAppend(messages, [m], m);
          AddMessage(m);
        }
      }
    }
  }
}
