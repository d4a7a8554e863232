/** The lachesis adapter (eth/lachesis_adapter.go): the read/writer through
    which the fake peer's protocol run-loops talk to the consensus engine.
    Reads turn commits into NewBlockMsg frames; writes hand TxMsg payloads to
    the engine and accept every other code without acting on it. */
module Adapter {
  import opened Wrappers
  import opened Wire

  /** The quit channel: not yet made (nil), open, or closed. Each channel
      made carries the serial number it was made with. */
  datatype Quit = Unmade | Open(serial: nat) | Closed(serial: nat)

  /** Adapter state: the engine address, the quit channel, how many quit
      channels have been made so far, and whether the gRPC proxy is set. */
  datatype Adapter = Adapter(addr: string, quit: Quit, made: nat, linked: bool)

  /** Every quit channel in existence was made before the current count. */
  predicate Numbered(a: Adapter) {
    !a.quit.Unmade? ==> a.quit.serial < a.made
  }

  /** `srv.log` is set by `Start` alone, which also makes the first quit
      channel; `ReadMsg` and `WriteMsg` log before anything else, so on an
      adapter that was never started they panic on the nil logger. */
  predicate HasLogger(a: Adapter) {
    !a.quit.Unmade?
  }

  /** The state `NewLachesisAdapter(addr)` returns. */
  function New(addr: string): (a: Adapter)
    ensures Numbered(a) && !a.linked && !HasLogger(a)
  {
    Adapter(addr, Unmade, 0, false)
  }

  datatype Started = Started(adapter: Adapter, err: Option<Error>)

  /** `Start`: makes a fresh quit channel first, then dials the proxy; `dial`
      is the dial's error, if any, which is returned unchanged. */
  function Start(a: Adapter, dial: Option<Error>): (r: Started)
    ensures r.err == dial
    ensures r.adapter.quit.Open? && HasLogger(r.adapter)
    ensures Numbered(a) ==> Numbered(r.adapter) && r.adapter.quit != a.quit
    ensures Numbered(a) ==> r.adapter.quit.serial >= a.made
    ensures r.adapter.linked <==> dial.None?
    ensures r.adapter.addr == a.addr
  {
    var made := Open(a.made);
    Started(a.(quit := made, made := a.made + 1, linked := dial.None?), dial)
  }

  /** `Stop`: closes the quit channel. Closing a nil or closed channel panics
      in Go, so callers may only stop an adapter whose quit channel is open. */
  function Stop(a: Adapter): (r: Adapter)
    requires a.quit.Open?
    ensures r.quit.Closed? && r.quit.serial == a.quit.serial
    ensures r.addr == a.addr && r.made == a.made && r.linked == a.linked
    ensures Numbered(a) ==> Numbered(r)
  {
    a.(quit := Closed(a.quit.serial))
  }

  /** The block the adapter builds: a zero header (its fields are still a
      TODO in the source), the transactions, no uncles. */
  datatype Header = ZeroHeader
  datatype Block<Tx> = Block(header: Header, txs: seq<Tx>, uncles: seq<Header>)

  function NewBlock<Tx>(txs: seq<Tx>): Block<Tx> {
    Block(ZeroHeader, txs, [])
  }

  /** The RLP codec, outside the model: transaction decoding, block encoding
      and (for stating round trips) block decoding. */
  datatype Codec<!Tx> = Codec(
    decodeTx: seq<byte> -> Result<Tx, Error>,
    encodeBlock: Block<Tx> -> Result<seq<byte>, Error>,
    decodeBlock: seq<byte> -> Result<Block<Tx>, Error>)

  /** The codec law a faithful RLP implementation obeys for blocks. */
  ghost predicate BlockRoundTrips<Tx(!new)>(codec: Codec<Tx>) {
    forall b: Block<Tx> :: codec.encodeBlock(b).Success? ==>
      codec.decodeBlock(codec.encodeBlock(b).value) == Success(b)
  }

  /** Decodes every raw transaction, in order, stopping at the first one that
      does not decode: all of them or the first error. */
  function DecodeTxs<Tx>(decode: seq<byte> -> Result<Tx, Error>, raws: seq<seq<byte>>): (r: Result<seq<Tx>, Error>)
    ensures r.Success? <==> forall i | 0 <= i < |raws| :: decode(raws[i]).Success?
    ensures r.Success? ==> |r.value| == |raws|
    ensures r.Success? ==> forall i | 0 <= i < |raws| :: decode(raws[i]) == Success(r.value[i])
    ensures r.Failure? ==> exists k | 0 <= k < |raws| ::
      decode(raws[k]) == Failure(r.error) && forall i | 0 <= i < k :: decode(raws[i]).Success?
    decreases |raws|
  {
    if raws == [] then Success([])
    else
      match decode(raws[0])
      case Failure(e) => Failure(e)
      case Success(tx) =>
        match DecodeTxs(decode, raws[1..])
        case Failure(e) =>
          assert forall i | 1 <= i < |raws| :: raws[i] == raws[1..][i - 1];
          Failure(e)
        case Success(txs) =>
          assert forall i | 1 <= i < |raws| :: raws[i] == raws[1..][i - 1];
          Success([tx] + txs)
  }

  /** The result of `blockConvert(c, &m)`: the error and the message as left. */
  datatype Conversion = Conversion(err: Option<Error>, msg: Msg)

  /** Reference statement of `blockConvert`: all-or-nothing. The first
      transaction that does not decode, or a failing block encoding, leaves
      `m` untouched and is returned; otherwise `m` becomes a NewBlockMsg
      whose payload is the encoded block of all decoded transactions in
      commit order and whose size is that encoding's length cut to 32 bits. */
  function Convert<Tx>(codec: Codec<Tx>, c: Commit, m: Msg): (r: Conversion)
    ensures r.err.Some? ==> r.msg == m
    ensures r.err.None? <==>
      DecodeTxs(codec.decodeTx, c.transactions).Success? &&
      codec.encodeBlock(NewBlock(DecodeTxs(codec.decodeTx, c.transactions).value)).Success?
    ensures DecodeTxs(codec.decodeTx, c.transactions).Failure? ==>
      r.err == Some(DecodeTxs(codec.decodeTx, c.transactions).error)
    ensures DecodeTxs(codec.decodeTx, c.transactions).Success? &&
            codec.encodeBlock(NewBlock(DecodeTxs(codec.decodeTx, c.transactions).value)).Failure? ==>
      r.err == Some(codec.encodeBlock(NewBlock(DecodeTxs(codec.decodeTx, c.transactions).value)).error)
    ensures r.err.None? ==>
      && r.msg.code == NewBlockMsg
      && codec.encodeBlock(NewBlock(DecodeTxs(codec.decodeTx, c.transactions).value))
           == Success(Remaining(r.msg.payload))
      && r.msg.size == Truncate32(|Remaining(r.msg.payload)|)
  {
    match DecodeTxs(codec.decodeTx, c.transactions)
    case Failure(e) => Conversion(Some(e), m)
    case Success(txs) =>
      match codec.encodeBlock(NewBlock(txs))
      case Failure(e) => Conversion(Some(e), m)
      case Success(bytes) => Conversion(None, Msg(NewBlockMsg, Truncate32(|bytes|), Reader(bytes)))
  }

  /** `blockConvert` as the source writes it, one transaction per loop
      iteration; it agrees with `Convert`. */
  method BlockConvert<Tx>(codec: Codec<Tx>, c: Commit, m: Msg) returns (err: Option<Error>, out: Msg)
    ensures Conversion(err, out) == Convert(codec, c, m)
    ensures (exists k | 0 <= k < |c.transactions| :: codec.decodeTx(c.transactions[k]).Failure?) ==>
      out == m && exists k | 0 <= k < |c.transactions| ::
        && err.Some? && codec.decodeTx(c.transactions[k]) == Failure(err.value)
        && forall i | 0 <= i < k :: codec.decodeTx(c.transactions[i]).Success?
  {
    var raws := c.transactions;
    var txs: seq<Tx> := [];
    var i := 0;
    while i < |raws|
      invariant 0 <= i <= |raws|
      invariant |txs| == i
      invariant forall j | 0 <= j < i :: codec.decodeTx(raws[j]) == Success(txs[j])
    {
      var d := codec.decodeTx(raws[i]);
      if d.Failure? {
        var all := DecodeTxs(codec.decodeTx, raws);
        assert all.Failure? && all.error == d.error by {
          assert !codec.decodeTx(raws[i]).Success?;
          var k :| 0 <= k < |raws| && codec.decodeTx(raws[k]) == Failure(all.error)
                   && forall j | 0 <= j < k :: codec.decodeTx(raws[j]).Success?;
          assert !(k < i);
          assert !(k > i);
        }
        return Some(d.error), m;
      }
      txs := txs + [d.value];
      i := i + 1;
    }
    var all := DecodeTxs(codec.decodeTx, raws);
    assert all.Success?;
    assert all.value == txs by {
      forall j | 0 <= j < |raws|
        ensures all.value[j] == txs[j]
      {
        assert codec.decodeTx(raws[j]) == Success(all.value[j]);
      }
    }
    assert !(exists k | 0 <= k < |raws| :: codec.decodeTx(raws[k]).Failure?) by {
      forall k | 0 <= k < |raws| ensures codec.decodeTx(raws[k]).Success? {
        assert codec.decodeTx(raws[k]) == Success(txs[k]);
      }
    }
    var enc := codec.encodeBlock(NewBlock(txs));
    if enc.Failure? {
      return Some(enc.error), m;
    }
    return None, Msg(NewBlockMsg, Truncate32(|enc.value|), Reader(enc.value));
  }

  /** Which case of `ReadMsg`'s `select` fires: the quit channel (only once
      it has been closed) or a commit arriving from the engine. When both are
      ready Go picks either; the caller's choice stands for that. */
  datatype Ready = QuitClosed | CommitReady(commit: Commit)

  /** `ReadMsg`: io.EOF with the zero message on the quit case, otherwise
      `blockConvert` of the received commit into a zero message. The select
      evaluates `srv.lachesis.CommitCh()` first, so the proxy must be set. */
  function ReadMsg<Tx>(a: Adapter, codec: Codec<Tx>, ready: Ready): (r: Conversion)
    requires HasLogger(a) && a.linked
    requires ready.QuitClosed? ==> a.quit.Closed?
    ensures ready.QuitClosed? ==> r == Conversion(Some(EOF), ZeroMsg)
    ensures ready.CommitReady? ==> r == Convert(codec, ready.commit, ZeroMsg)
    ensures r.err.None? ==> r.msg.code == NewBlockMsg
    ensures r.err.Some? ==> r.msg == ZeroMsg
  {
    match ready
    case QuitClosed => Conversion(Some(EOF), ZeroMsg)
    case CommitReady(c) => Convert(codec, c, ZeroMsg)
  }

  /** Round trip of a commit through `ReadMsg`: when the codec's block
      encoding is faithful and the encoding fits a 32-bit size, reading the
      message's declared size from its payload and decoding it gives back a
      block whose transactions are the commit's, decoded, in commit order. */
  lemma ReadMsgRoundTrip<Tx(!new)>(a: Adapter, codec: Codec<Tx>, c: Commit)
    requires HasLogger(a) && a.linked
    requires BlockRoundTrips(codec)
    requires ReadMsg(a, codec, CommitReady(c)).err.None?
    requires |Remaining(ReadMsg(a, codec, CommitReady(c)).msg.payload)| < 0x1_0000_0000
    ensures var m := ReadMsg(a, codec, CommitReady(c)).msg;
            var f := ReadFull(m.payload, m.size);
            && f.err.None?
            && codec.decodeBlock(f.data).Success?
            && |codec.decodeBlock(f.data).value.txs| == |c.transactions|
            && forall i | 0 <= i < |c.transactions| ::
                 codec.decodeTx(c.transactions[i]) == Success(codec.decodeBlock(f.data).value.txs[i])
  {
    var m := ReadMsg(a, codec, CommitReady(c)).msg;
    var txs := DecodeTxs(codec.decodeTx, c.transactions).value;
    var f := ReadFull(m.payload, m.size);
    assert f.data == Remaining(m.payload);
    assert codec.decodeBlock(f.data) == Success(NewBlock(txs));
  }

  /** `WriteMsg`: any code but TxMsg is accepted untouched. A TxMsg reads
      exactly `Size` payload bytes; a short read returns the read error
      without calling the engine, a full read calls `SubmitTx` once with
      those bytes and returns its answer. Every call logs first, so the
      adapter must have been started; calling `SubmitTx` on a nil proxy
      panics, so a full TxMsg also needs the proxy to be set. */
  function WriteMsg(a: Adapter, msg: Msg, submit: Submit): (r: Written)
    requires HasLogger(a)
    requires msg.code == TxMsg && msg.size <= |Remaining(msg.payload)| ==> a.linked
    ensures msg.code != TxMsg ==> r == Written(None, [], msg.payload)
    ensures msg.code == TxMsg && msg.size > |Remaining(msg.payload)| ==>
      && r.submitted == []
      && r.err == (if Remaining(msg.payload) == [] then Some(EOF) else Some(UnexpectedEOF))
      && Remaining(r.rest) == []
    ensures msg.code == TxMsg && msg.size <= |Remaining(msg.payload)| ==>
      && r.submitted == [Remaining(msg.payload)[..msg.size]]
      && r.err == submit(Remaining(msg.payload)[..msg.size])
      && Remaining(r.rest) == Remaining(msg.payload)[msg.size..]
  {
    if msg.code != TxMsg then Written(None, [], msg.payload)
    else
      var f := ReadFull(msg.payload, msg.size);
      if f.err.Some? then Written(f.err, [], f.rest)
      else Written(submit(f.data), [f.data], f.rest)
  }

  /** The submissions a sequence of `WriteMsg` calls makes, in call order. */
  function SubmittedBy(a: Adapter, msgs: seq<Msg>, submit: Submit): seq<seq<byte>>
    requires HasLogger(a) && a.linked
  {
    if msgs == [] then []
    else WriteMsg(a, msgs[0], submit).submitted + SubmittedBy(a, msgs[1..], submit)
  }

  /** The transaction bodies carried by complete TxMsg frames, in order. */
  function TxBodies(msgs: seq<Msg>): seq<seq<byte>> {
    if msgs == [] then []
    else
      var m := msgs[0];
      (if m.code == TxMsg && m.size <= |Remaining(m.payload)| then [Remaining(m.payload)[..m.size]] else [])
      + TxBodies(msgs[1..])
  }

  /** The engine sees the complete transaction frames' bodies exactly once
      each and in the order the frames were written; nothing else reaches it. */
  lemma {:induction false} SubmissionOrder(a: Adapter, msgs: seq<Msg>, submit: Submit)
    requires HasLogger(a) && a.linked
    ensures SubmittedBy(a, msgs, submit) == TxBodies(msgs)
  {
    if msgs != [] {
      SubmissionOrder(a, msgs[1..], submit);
    }
  }
}
