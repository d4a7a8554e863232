/** The instrumented read/writer `msgEventer` (lachesis/events.go): it wraps
    a message read/writer and publishes one MsgRecv or MsgSend peer event for
    every message that actually crossed it. The feed is modelled by the
    events each call publishes, in publication order. */
module Eventer {
  import opened Wrappers
  import opened Wire

  /** How the wrapped read/writer answers Go's `io.Closer` type assertion:
      it is not a closer, or its `Close()` returns the given error. */
  datatype Closer = NotCloser | Closes(result: Option<Error>)

  /** The wrapped `p2p.MsgReadWriter`. Its reads and writes are outside the
      model: each call below is given what the wrapped call returned. */
  datatype Inner = Inner(closer: Closer)

  /** `msgEventer` as `newMsgEventer(rw, feed, peerID, proto)` builds it: the
      datatype constructor stores every argument as given. The feed pointer
      is the single feed every call publishes to. */
  datatype MsgEventer = MsgEventer(rw: Inner, peer: NodeId, protocol: string)

  /** A message and the error returned with it. */
  datatype Delivery = Delivery(msg: Msg, err: Option<Error>)

  /** A call's result together with the events it published. */
  datatype Observed<T> = Observed(result: T, published: seq<PeerEvent>)

  /** The event describing `msg` crossing `ev` in direction `kind`: it names
      the peer and protocol and carries code and size, never the payload. */
  function MsgEvent(ev: MsgEventer, kind: EventKind, msg: Msg): PeerEvent {
    PeerEvent(kind, ev.peer, ev.protocol, Some(msg.code), Some(msg.size))
  }

  /** `ReadMsg`: hands back whatever the wrapped read returned; publishes one
      MsgRecv event exactly when that read succeeded. */
  function ReadMsg(ev: MsgEventer, got: Delivery): (r: Observed<Delivery>)
    ensures r.result == got
    ensures got.err.Some? ==> r.published == []
    ensures got.err.None? ==> |r.published| == 1
    ensures forall e | e in r.published ::
      e.kind == MsgRecv && e.peer == ev.peer && e.protocol == ev.protocol
      && e.code == Some(got.msg.code) && e.size == Some(got.msg.size)
  {
    if got.err.Some? then Observed(got, [])
    else Observed(Delivery(got.msg, None), [MsgEvent(ev, MsgRecv, got.msg)])
  }

  /** `WriteMsg`: returns the wrapped write's error unchanged; publishes one
      MsgSend event exactly when that write succeeded. */
  function WriteMsg(ev: MsgEventer, msg: Msg, wrote: Option<Error>): (r: Observed<Option<Error>>)
    ensures r.result == wrote
    ensures wrote.Some? ==> r.published == []
    ensures wrote.None? ==> |r.published| == 1
    ensures forall e | e in r.published ::
      e.kind == MsgSend && e.peer == ev.peer && e.protocol == ev.protocol
      && e.code == Some(msg.code) && e.size == Some(msg.size)
  {
    if wrote.Some? then Observed(wrote, [])
    else Observed(None, [MsgEvent(ev, MsgSend, msg)])
  }

  /** `Close`: the wrapped `Close()` result when the wrapped value is a
      closer, nil otherwise. */
  function Close(ev: MsgEventer): (r: Option<Error>)
    ensures ev.rw.closer.NotCloser? ==> r.None?
    ensures ev.rw.closer.Closes? ==> r == ev.rw.closer.result
  {
    match ev.rw.closer
    case NotCloser => None
    case Closes(result) => result
  }

  /** One call on the eventer, with what the wrapped read/writer returned. */
  datatype Op = Read(got: Delivery) | Write(msg: Msg, wrote: Option<Error>)

  /** The events a sequence of calls publishes, call by call. */
  function Replay(ev: MsgEventer, ops: seq<Op>): seq<PeerEvent> {
    if ops == [] then []
    else
      var now := match ops[0]
        case Read(got) => ReadMsg(ev, got).published
        case Write(msg, wrote) => WriteMsg(ev, msg, wrote).published;
      now + Replay(ev, ops[1..])
  }

  /** The calls whose message actually crossed the channel. */
  function Crossed(ops: seq<Op>): seq<Op> {
    if ops == [] then []
    else
      var ok := match ops[0]
        case Read(got) => got.err.None?
        case Write(_, wrote) => wrote.None?;
      (if ok then [ops[0]] else []) + Crossed(ops[1..])
  }

  /** The event a crossing call should be reported by. */
  function Expected(ev: MsgEventer, op: Op): PeerEvent {
    match op
    case Read(got) => MsgEvent(ev, MsgRecv, got.msg)
    case Write(msg, _) => MsgEvent(ev, MsgSend, msg)
  }

  /** Over any sequence of calls the feed sees exactly one event per message
      that crossed the channel, in call order, and none for a failed read or
      write. */
  lemma {:induction false} ReplayReportsCrossed(ev: MsgEventer, ops: seq<Op>)
    ensures |Replay(ev, ops)| == |Crossed(ops)|
    ensures forall i | 0 <= i < |Crossed(ops)| :: Replay(ev, ops)[i] == Expected(ev, Crossed(ops)[i])
  {
    if ops != [] {
      ReplayReportsCrossed(ev, ops[1..]);
    }
  }
}
