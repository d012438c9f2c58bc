/** The capped handshake transcript that fails closed. */
module Transcript {
  import opened Bytes

  const MAX_TRANSCRIPT: nat := 256 * 1024

  datatype State = State(buf: seq<byte>, overflow: bool)

  const EMPTY: State := State([], false)

  function Append(t: State, msg: seq<byte>): (r: State)
  {
    if t.overflow || |t.buf| + |msg| > MAX_TRANSCRIPT then t.(overflow := true)
    else State(t.buf + msg, false)
  }

  function AppendAll(msgs: seq<seq<byte>>): (r: State)
  {
    if msgs == [] then EMPTY else Append(AppendAll(msgs[..|msgs| - 1]), msgs[|msgs| - 1])
  }

  lemma AppendAllSnoc(msgs: seq<seq<byte>>, msg: seq<byte>)
    ensures AppendAll(msgs + [msg]) == Append(AppendAll(msgs), msg)
  {
    assert (msgs + [msg])[..|msgs|] == msgs;
  }

  /** After any writes the transcript has overflowed exactly when they exceed
      the cap together; until then it holds their concatenation. So a dropped
      write can never be hidden by a later, shorter one. */
  lemma {:induction false} AppendAllIsConcatenation(msgs: seq<seq<byte>>)
    ensures AppendAll(msgs).overflow <==> |Flatten(msgs)| > MAX_TRANSCRIPT
    ensures !AppendAll(msgs).overflow ==> AppendAll(msgs).buf == Flatten(msgs)
    ensures |AppendAll(msgs).buf| <= MAX_TRANSCRIPT
  {
    if msgs != [] {
      var front, last := msgs[..|msgs| - 1], msgs[|msgs| - 1];
      assert msgs == front + [last];
      AppendAllIsConcatenation(front);
      FlattenSnoc(front, last);
    }
  }

  class Transcript {
    var buf: seq<byte>
    var overflow: bool

    ghost function St(): State
      reads this
    {
      State(buf, overflow)
    }

    constructor ()
      ensures St() == EMPTY
    {
      buf, overflow := [], false;
    }

    method Write(msg: seq<byte>)
      modifies this
      ensures St() == Append(old(St()), msg)
    {
      if overflow || |buf| + |msg| > MAX_TRANSCRIPT {
        overflow := true;
        return;
      }
      buf := buf + msg;
    }

    /** Fails without a hash and after an overflow. */
    method Sum(factory: Option<seq<byte> -> seq<byte>>) returns (digest: Option<seq<byte>>)
      ensures digest == if factory.None? || overflow then None else Some(factory.value(buf))
    {
      if factory.None? {
        return None;
      }
      if overflow {
        return None;
      }
      digest := Some(factory.value(buf));
    }
  }
}
