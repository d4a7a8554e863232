/** Shared vocabulary of the bridge: Go's fixed-width integers, the devp2p
    message frame with a read-once payload, the peer events published on the
    server's feed, and the data the consensus engine hands over. */
module Wire {
  import opened Wrappers

  type byte = x: int | 0 <= x < 0x100
  type uint32 = x: int | 0 <= x < 0x1_0000_0000
  type uint64 = x: int | 0 <= x < 0x1_0000_0000_0000_0000

  /** Go's `uint32(n)` conversion of a non-negative length: keeps the low 32 bits. */
  function Truncate32(n: nat): (r: uint32)
    ensures n < 0x1_0000_0000 ==> r == n
    ensures r <= n
  {
    n % 0x1_0000_0000
  }

  /** An `enode.ID` (32 bytes), identified here with its big-endian value. */
  type NodeId = nat

  // Message codes of version 63 of the devp2p "eth" wire protocol.
  const StatusMsg: uint64 := 0x00
  const NewBlockHashesMsg: uint64 := 0x01
  const TxMsg: uint64 := 0x02
  const GetBlockHeadersMsg: uint64 := 0x03
  const BlockHeadersMsg: uint64 := 0x04
  const GetBlockBodiesMsg: uint64 := 0x05
  const BlockBodiesMsg: uint64 := 0x06
  const NewBlockMsg: uint64 := 0x07

  /** The errors the modelled code can return. Errors raised by code outside
      the model (the RLP codec, the gRPC proxy, the engine, a wrapped
      read/writer) are `External`. */
  datatype Error =
    | EOF                    // io.EOF
    | UnexpectedEOF          // io.ErrUnexpectedEOF
    | AlreadyRunning         // "server already running"
    | External(origin: string)

  /** A payload as an owned buffer plus a read cursor. */
  datatype Cursor = Cursor(buf: seq<byte>, pos: nat)
  type Payload = c: Cursor | c.pos <= |c.buf| witness Cursor([], 0)

  /** A fresh reader over `bytes` (Go's `bytes.NewReader`). */
  function Reader(bytes: seq<byte>): Payload {
    Cursor(bytes, 0)
  }

  /** The bytes a reader has not yet handed out. */
  function Remaining(p: Payload): seq<byte> {
    p.buf[p.pos..]
  }

  /** What `io.ReadFull` leaves behind: the bytes read, the advanced reader, the error. */
  datatype Fill = Fill(data: seq<byte>, rest: Payload, err: Option<Error>)

  /** `io.ReadFull(p, make([]byte, n))`: succeeds iff `n` bytes are left;
      otherwise it has consumed everything and reports EOF when nothing was
      left and ErrUnexpectedEOF when only part of the request was. No byte
      is lost or invented in either case. */
  function ReadFull(p: Payload, n: nat): (r: Fill)
    ensures r.data + Remaining(r.rest) == Remaining(p)
    ensures r.err.None? <==> n <= |Remaining(p)|
    ensures r.err.None? ==> |r.data| == n
    ensures r.err.Some? ==> Remaining(r.rest) == []
    ensures r.err.Some? ==> r.err == (if Remaining(p) == [] then Some(EOF) else Some(UnexpectedEOF))
  {
    var left := |p.buf| - p.pos;
    if n <= left then Fill(p.buf[p.pos..p.pos + n], Cursor(p.buf, p.pos + n), None)
    else if left == 0 then Fill([], p, Some(EOF))
    else Fill(p.buf[p.pos..], Cursor(p.buf, |p.buf|), Some(UnexpectedEOF))
  }

  /** A drained payload stays drained: a further read yields no bytes and
      reports EOF, never fresh data. */
  lemma DrainedStaysDrained(p: Payload, n: nat)
    requires 0 < n
    ensures var first := ReadFull(p, |Remaining(p)|);
            var second := ReadFull(first.rest, n);
            second.data == [] && second.err == Some(EOF)
  {
  }

  /** `p2p.Msg`: a code, the declared payload size, and the payload reader. */
  datatype Msg = Msg(code: uint64, size: uint32, payload: Payload)

  /** Go's zero `p2p.Msg`; its nil payload is modelled as an empty reader. */
  const ZeroMsg: Msg := Msg(0, 0, Reader([]))

  /** `p2p.PeerEventType`. */
  datatype EventKind = PeerAdd | PeerDrop | MsgSend | MsgRecv

  /** `p2p.PeerEvent`: add/drop events carry no protocol, code or size. */
  datatype PeerEvent = PeerEvent(
    kind: EventKind,
    peer: NodeId,
    protocol: string,
    code: Option<uint64>,
    size: Option<uint32>)

  /** A consensus decision as delivered on the commit channel: the raw,
      already ordered transactions of the committed block's body. */
  datatype Commit = Commit(transactions: seq<seq<byte>>)

  /** The consensus engine's answer to `SubmitTx(bytes)`: nil or an error. */
  type Submit = seq<byte> -> Option<Error>

  /** What handing one message to the engine side did: the error returned,
      the byte strings passed to `SubmitTx` in call order, and the payload
      reader as it was left. */
  datatype Written = Written(err: Option<Error>, submitted: seq<seq<byte>>, rest: Payload)
}
