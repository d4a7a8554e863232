/** The earlier revision of the bridge (lachesis/message.go), where the
    server itself was the read/writer: an explicit switch over the eth/63
    codes and a `blockConvert` stub. That file redeclares `msgEventer` and
    `newMsgEventer` exactly as lachesis/events.go declares them (only the
    doc comments differ), so the package cannot build with both; the
    Eventer module stands for both copies. It
    also reads `srv.lachesis`, a field `lachesisServer` does not have; here
    the engine is the `submit` answer and the commit handed in. */
module EarlyBridge {
  import opened Wrappers
  import opened Wire
  import Adapter

  /** The arms of `WriteMsg`'s switch; `NoCase` is falling through a switch
      that has no default. */
  datatype Case =
    | StatusCase | NewBlockHashesCase | TxCase | GetBlockHeadersCase
    | BlockHeadersCase | GetBlockBodiesCase | BlockBodiesCase | NewBlockCase
    | NoCase

  /** Selects the switch arm for a message code. */
  function Switch(code: uint64): (r: Case)
    ensures r == TxCase <==> code == TxMsg
    ensures r == NoCase <==> code !in {StatusMsg, NewBlockHashesMsg, TxMsg, GetBlockHeadersMsg,
                                       BlockHeadersMsg, GetBlockBodiesMsg, BlockBodiesMsg, NewBlockMsg}
  {
    if code == StatusMsg then StatusCase
    else if code == NewBlockHashesMsg then NewBlockHashesCase
    else if code == TxMsg then TxCase
    else if code == GetBlockHeadersMsg then GetBlockHeadersCase
    else if code == BlockHeadersMsg then BlockHeadersCase
    else if code == GetBlockBodiesMsg then GetBlockBodiesCase
    else if code == BlockBodiesMsg then BlockBodiesCase
    else if code == NewBlockMsg then NewBlockCase
    else NoCase
  }

  /** `lachesisServer.WriteMsg`: every arm but TxMsg only logs and returns
      nil, as does an unmatched code. The TxMsg arm reads `Size` bytes,
      returns a read error before submitting, then returns `SubmitTx`'s error
      or nil. */
  function WriteMsg(msg: Msg, submit: Submit): (r: Written)
    ensures Switch(msg.code) != TxCase ==> r.err.None? && r.submitted == [] && r.rest == msg.payload
    ensures Switch(msg.code) == TxCase && msg.size > |Remaining(msg.payload)| ==>
      && r.submitted == []
      && r.err == (if Remaining(msg.payload) == [] then Some(EOF) else Some(UnexpectedEOF))
      && Remaining(r.rest) == []
    ensures Switch(msg.code) == TxCase && msg.size <= |Remaining(msg.payload)| ==>
      && r.submitted == [Remaining(msg.payload)[..msg.size]]
      && r.err == submit(Remaining(msg.payload)[..msg.size])
      && Remaining(r.rest) == Remaining(msg.payload)[msg.size..]
  {
    match Switch(msg.code)
    case TxCase =>
      var f := ReadFull(msg.payload, msg.size);
      if f.err.Some? then Written(f.err, [], f.rest)
      else
        var err := submit(f.data);
        if err.Some? then Written(err, [f.data], f.rest)
        else Written(None, [f.data], f.rest)
    case _ => Written(None, [], msg.payload)
  }

  /** The two revisions of the write path agree on every message: on TxMsg
      (same bytes submitted, same error, same payload left) and on every
      other code, named in the switch or not. */
  lemma AgreesWithAdapter(a: Adapter.Adapter, msg: Msg, submit: Submit)
    requires Adapter.HasLogger(a) && a.linked
    ensures WriteMsg(msg, submit) == Adapter.WriteMsg(a, msg, submit)
  {
  }

  /** The `blockConvert` stub: it only sets the code, leaving size and
      payload as they were, and never fails. */
  function StubConvert(m: Msg): (r: Adapter.Conversion)
    ensures r.err.None? && r.msg.code == NewBlockMsg
    ensures r.msg.size == m.size && r.msg.payload == m.payload
  {
    Adapter.Conversion(None, m.(code := NewBlockMsg))
  }

  /** `lachesisServer.ReadMsg`: waits for a commit (there is no quit case)
      and stub-converts it into a zero message, so the frame handed on is an
      empty NewBlockMsg whatever the commit carried. */
  function ReadMsg(c: Commit): (r: Adapter.Conversion)
    ensures r.err.None? && r.msg.code == NewBlockMsg
    ensures r.msg.size == 0 && Remaining(r.msg.payload) == []
  {
    StubConvert(ZeroMsg)
  }
}
