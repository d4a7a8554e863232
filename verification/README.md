# Lachesis bridge model

A Dafny model of the bridge that presents a Lachesis consensus engine to
go-ethereum's networking layer as a fake peer. It has five parts:

- `FakeServer` (`server.dfy`) is the fake p2p server. It covers the
  running/stopped state machine, the lock, peer creation with Add and Drop
  events, and protocol launch by capability match. It also covers the peer
  directory (`PeerCount`, `PeersInfo`, the `NodeInfo` protocol map), the
  no-op peer management calls and `truncateName`. Each transition returns
  the new state, the events it published and the run-loops it launched. A
  `Lock()` that can never return is the `Blocked` step.
- `Adapter` (`adapter.dfy`) is the lachesis adapter the server uses as its
  read/writer. It covers the quit channel, the `ReadMsg` choice between quit
  and a commit, and the all-or-nothing `blockConvert`. It also covers the
  `WriteMsg` dispatch, which submits a TxMsg payload and accepts every other
  code without acting on it.
- `Eventer` (`eventer.dfy`) is `msgEventer`, the decorator that publishes
  one MsgRecv or MsgSend event for each message that crossed it.
- `EarlyBridge` (`early.dfy`) is the earlier revision in `lachesis/message.go`.
  It has an explicit switch over the eth/63 codes and a `blockConvert`
  stub, and is proved to agree with the adapter on every write.
- `DiscFilter` (`discfilter.dfy`) is the discovery ban filter. It has a
  one-way enable flag, a 50000-entry ban cache and the static "eth"/"eth2"
  ENR rule. It is an explicit record instead of package globals.

`Wire` (`wire.dfy`) holds the shared vocabulary:

- Go's `uint32`/`uint64` and the `uint32(n)` truncation.
- The eth/63 message codes. They are the version-63 values of the devp2p
  "eth" wire protocol, StatusMsg 0x00 through NewBlockMsg 0x07.
  eth/protocol.go, where the source declares them, is not part of this
  model.
- `p2p.Msg`, with its payload as a byte buffer plus a read cursor.
- `io.ReadFull` on such a payload.
- Peer events and commits.

`Wrappers` (`wrappers.dfy`) holds `Option` and `Result`.

Parameters stand in for everything outside the model:

- The RLP codec is a `Codec` record of functions.
- `SubmitTx`'s answer is a `Submit` function.
- The gRPC dial result is an `Option<Error>`.
- What a wrapped read/writer returned is passed to each eventer call.
- Which `select` case fires is a `Ready` value chosen by the caller.

## Model

| member | source | states |
|---|---|---|
| Wire.Truncate32 | eth/lachesis_adapter.go:127 | `uint32(size)` keeps a length below 2^32 exactly and never increases one |
| Wire.ReadFull | eth/lachesis_adapter.go:89-90 | `io.ReadFull` succeeds iff `Size` bytes remain. On failure it consumes everything and reports EOF if nothing was left, ErrUnexpectedEOF otherwise. Bytes read plus bytes left always equal the bytes that were there |
| Wire.DrainedStaysDrained | eth/lachesis_adapter.go:78-80 | a payload can be read only once: after draining it, a further read gives no bytes and EOF |
| Adapter.New | eth/lachesis_adapter.go:16-20 | a new adapter has no quit channel, no logger and no proxy |
| Adapter.Start | eth/lachesis_adapter.go:35-47 | sets the logger and makes a quit channel distinct from every earlier one before dialling. Returns the dial error unchanged. The proxy is set iff the dial succeeded |
| Adapter.Stop | eth/lachesis_adapter.go:49-51 | closes the open quit channel and changes nothing else. It may only be called while the channel is open, because a second close panics |
| Adapter.DecodeTxs | eth/lachesis_adapter.go:104-112 | decodes all raw transactions in order, or returns the error of the first one that does not decode (all earlier ones decode) |
| Adapter.Convert | eth/lachesis_adapter.go:102-131 | `blockConvert` is all-or-nothing: a decode or encode error leaves the message untouched and is returned as is: the first failing transaction's error, or the encoder's. On success the code is NewBlockMsg, the payload is the encoded block of all decoded transactions in commit order, and the size is that length cut to 32 bits |
| Adapter.BlockConvert | eth/lachesis_adapter.go:102-131 | the loop as written computes exactly `Convert`. When some transaction fails to decode, the message is unchanged and the error is that of the first failing one |
| Adapter.ReadMsg | eth/lachesis_adapter.go:59-73 | needs a started adapter (it logs first) with the proxy set. The quit case, possible only once quit is closed, gives io.EOF with the zero message. The commit case gives `blockConvert` of the commit into a zero message. The result is a NewBlockMsg or an error with the zero message |
| Adapter.ReadMsgRoundTrip | eth/lachesis_adapter.go:119-128 | given a faithful block codec and a size that fits 32 bits, reading `Size` bytes of a converted commit and decoding them gives a block whose transactions are the commit's, decoded, in order |
| Adapter.WriteMsg | eth/lachesis_adapter.go:81-96 | needs a started adapter, because it logs first. A non-TxMsg code returns nil, does not read the payload and submits nothing. A short TxMsg payload returns the read error and submits nothing. A full TxMsg submits exactly the `Size` bytes once, returns `SubmitTx`'s answer and leaves the rest unread |
| Adapter.SubmissionOrder | eth/lachesis_adapter.go:89-95 | over a sequence of writes, the engine receives the bodies of exactly the complete TxMsg frames, once each, in write order |
| Eventer.ReadMsg | lachesis/events.go:34-47 | returns the wrapped read's message and error unchanged. Publishes one MsgRecv event, carrying peer, protocol, code and size, iff the read succeeded |
| Eventer.WriteMsg | lachesis/events.go:51-64 | returns the wrapped write's error unchanged. Publishes one MsgSend event, carrying peer, protocol, code and size, iff the write succeeded |
| Eventer.Close | lachesis/events.go:68-73 | the wrapped `Close()` result when the wrapped value is a closer, nil otherwise |
| Eventer.ReplayReportsCrossed | lachesis/events.go:32-64 | over any sequence of reads and writes, the feed gets exactly one event per message that crossed, in call order, and none for a failure |
| EarlyBridge.Switch | lachesis/message.go:43-77 | TxMsg is the only code reaching the submitting arm. Exactly the codes outside the eight eth/63 cases fall through the switch |
| EarlyBridge.WriteMsg | lachesis/message.go:41-79 | non-Tx codes, named or not, return nil untouched. A short TxMsg payload returns EOF if it was empty and ErrUnexpectedEOF otherwise, consumed, and submits nothing. A full TxMsg submits the `Size` bytes once, returns `SubmitTx`'s error or nil and leaves the rest unread |
| EarlyBridge.AgreesWithAdapter | lachesis/message.go:43-78 | the earlier switch and the adapter's dispatch give the same error, submissions and payload for every message |
| EarlyBridge.StubConvert | lachesis/message.go:29-33 | the stub always succeeds, sets only the code to NewBlockMsg, and keeps size and payload |
| EarlyBridge.ReadMsg | lachesis/message.go:20-27 | every commit becomes an empty NewBlockMsg (size 0, no payload): the stub drops the transactions |
| FakeServer.New | lachesis/server.go:34-36 | a new server is valid, stopped, unlocked, and has no peers or run-loops |
| FakeServer.Decimal | lachesis/server.go:84 | `%d` output is non-empty decimal digits with no leading zero |
| FakeServer.DecimalRoundTrip | lachesis/server.go:84 | `%d` output reads back as the printed number |
| FakeServer.FakePeersDistinct | lachesis/server.go:82-85 | different fake peers get different identifiers and different "fake-node-i" names |
| FakeServer.LaunchServing | lachesis/server.go:95-99 | for one capability, launches one run-loop per registered protocol whose name and version both match, counting repeats, and nothing else |
| FakeServer.StartProtocol | lachesis/server.go:222-225 | the run-loop is on the given peer, runs the given protocol, and its eventer wraps the adapter, carries the peer's identifier and is tagged with the name of the protocol the loop runs |
| FakeServer.CapturedProtocolMismatch | lachesis/server.go:95-97 | with eth/63 registered before les/2, the one run-loop launched is for eth/63 and tagged "eth", yet as written its goroutine may run les/2 |
| FakeServer.Launch | lachesis/server.go:94-100 | for one peer, launches protocol `p` once per matching (capability, registration) pair. Every run-loop is bound to that peer through an eventer tagged with the protocol's name |
| FakeServer.Spawn | lachesis/server.go:82-101 | makes peers 0..k-1 in order, each announced by one Add event carrying its ID, with its matching protocols launched |
| FakeServer.Start | lachesis/server.go:60-103 | a locked server blocks. A running one fails with "already running" and changes nothing. The adapter is started in every other case, so a failed dial still leaves it with a fresh quit channel; the dial error is returned with the server stopped and no peer, event or run-loop. Otherwise the server runs, `peerCount` fake peers are appended after the existing ones, one Add event is published per peer, and exactly the run-loops of the peer loop are launched. Name and listen address never change. Validity is preserved |
| FakeServer.StartLaunchesEth63 | lachesis/server.go:94-100 | with `caps` = eth/63, a protocol is launched on the fake peer iff its name is "eth" and its version 63, once per registration. Every run-loop launched is `startProtocol` of such a protocol on that peer, so nothing else is launched |
| FakeServer.DropEvents | lachesis/server.go:114-120 | one Drop event per peer, in list order, carrying that peer's ID |
| FakeServer.Stop | lachesis/server.go:107-126 | a locked server blocks. A stopped one is left as it is. A running one publishes one Drop per peer in list order, closes quit, waits for every run-loop and stops running. It keeps the peer list and the lock. Name, listen address, engine address and proxy never change. Validity is preserved |
| FakeServer.RunningIsStoppable | lachesis/server.go:114-122 | a valid running server has an open quit channel and no nil peer, so `Stop` cannot panic |
| FakeServer.StopLeavesServerLocked | lachesis/server.go:107-126 | after `Stop` of a running server, every later `Start` or `Stop` waits forever on the lock |
| FakeServer.StartStopLifecycle | lachesis/server.go:60-126 | start then stop of a new server publishes Add(0) then Drop(0), and `PeerCount` is still 1 afterwards |
| FakeServer.PeersInfo | lachesis/server.go:189-199 | the infos of exactly the non-nil peers, one per live entry (the list's length less its nil entries). With no nil entry, one info per peer in list order |
| FakeServer.PeerCount | lachesis/server.go:184-186 | counts nil entries too: the infos `PeersInfo` returns plus the nil entries, so never fewer than the infos, and equal to them exactly when no entry is nil |
| FakeServer.PeersInfoCountsAll | lachesis/server.go:184-199 | on every state the transitions produce, `PeersInfo` has `PeerCount` entries |
| FakeServer.ProtocolInfosFirstWins | lachesis/server.go:146-154 | one entry per distinct protocol name. It comes from the first protocol with that name: its hook's report, or "unknown" without a hook |
| FakeServer.GetNodeInfo | lachesis/server.go:129-157 | reports the configured name and listen address, and a protocol entry for a name iff some registered protocol has it. The entry is the report of the first protocol with that name, or "unknown" without a hook |
| FakeServer.AddProtocols | lachesis/server.go:204-206 | appends the protocols in order and changes nothing else. In particular it launches no run-loop. Validity is preserved |
| FakeServer.ManagePeer | lachesis/server.go:168-181 | `AddPeer`, `RemovePeer` and the trusted variants succeed with no effect and no event |
| FakeServer.TruncateName | lachesis/server.go:239-244 | names of up to 20 bytes are kept. Longer ones keep their first 20 bytes followed by "...". The result is at most 23 bytes |
| FakeServer.TruncateNameIdempotent | lachesis/server.go:239-244 | truncating a truncated name changes nothing |
| FakeServer.RunLoopWriteReporting | lachesis/server.go:222-228 | a run-loop writing through its eventer onto the adapter gets a MsgSend event iff the adapter accepted. This always holds for non-Tx codes, and for a full TxMsg iff the engine accepted. Its eventer's `Close` returns nil |
| DiscFilter.Enable | p2p/discover/discfilter/discfilter.go:17-19 | switches the filter on and keeps the ban list |
| DiscFilter.Ban | p2p/discover/discfilter/discfilter.go:21-26 | does nothing while disabled. Once enabled, `id` is banned afterwards and the size never exceeds 50000. Nothing else is added. A member is evicted only when the cache was full and `id` was new |
| DiscFilter.BannedDynamic | p2p/discover/discfilter/discfilter.go:28-33 | true iff enabled and `id` is in the ban cache |
| DiscFilter.BannedStatic | p2p/discover/discfilter/discfilter.go:35-40 | true iff enabled and the record has an "eth" or "eth2" key |
| DiscFilter.Banned | p2p/discover/discfilter/discfilter.go:42-48 | false while disabled. Otherwise true iff the record has "eth"/"eth2" or `id` is in the ban cache |
| DiscFilter.GetBanned | p2p/discover/discfilter/discfilter.go:50-56 | ignores the flag. Lists each banned identifier exactly once and nothing else, and never more than 50000 |
| DiscFilter.EnableIsOneWay | p2p/discover/discfilter/discfilter.go:13-19 | no sequence of operations switches an enabled filter off |
| DiscFilter.BansIgnoredUntilEnabled | p2p/discover/discfilter/discfilter.go:21-26 | bans before `Enable` leave the filter unchanged |
| DiscFilter.BanThenBanned | p2p/discover/discfilter/discfilter.go:21-33 | once enabled, a node just banned is reported by `BannedDynamic` and by `Banned`, whatever its record |
| DiscFilter.InitialIgnoresBans | p2p/discover/discfilter/discfilter.go:13-56 | from the package's initial state, bans before `Enable` leave the filter as it started: nothing is reported banned and the banned list is empty |
| DiscFilter.DisabledBansNothing | p2p/discover/discfilter/discfilter.go:28-48 | while disabled, all three checks answer false for every input |

## Source quirks the model keeps

- `Stop` locks and never unlocks on the running path (lachesis/server.go:108-125).
  Every later `Start` or `Stop` therefore blocks (`StopLeavesServerLocked`).
  So `Stop` is not idempotent.
- `Stop` never clears `peers`, and `Start` appends to it (lachesis/server.go:87).
  `PeerCount` stays at 1 after `Stop`. The type is documented as not reusable
  (lachesis/server.go:59).
- A failed `Start` still leaves the adapter with a fresh quit channel. This is
  because the adapter makes it before dialling (eth/lachesis_adapter.go:39-44).
- `AddProtocols` promises in its comment that matching protocols are
  launched, but it only appends (lachesis/server.go:201-206).
- `blockConvert` stores `uint32(size)`, so an encoding of 2^32 bytes or more
  gets a wrong size (`Wire.Truncate32`, `Adapter.ReadMsgRoundTrip`).
- lachesis/message.go redeclares `msgEventer` and `newMsgEventer`. They
  duplicate lachesis/events.go declaration for declaration (only the doc
  comments differ), so the package cannot build with both files. The file
  also uses a `srv.lachesis` field that `lachesisServer` lacks. The
  `Eventer` module stands for both copies of `msgEventer`.

## Behaviour worth noting

- The first transaction that fails to decode aborts the whole batch, and
  `ReadMsg` returns that error with the zero message
  (eth/lachesis_adapter.go:105-110, `Adapter.DecodeTxs`, `Adapter.Convert`).
- A commit with no transactions still becomes a NewBlockMsg carrying an
  empty block (eth/lachesis_adapter.go:102-131).
- A StatusMsg, like every code other than TxMsg, is accepted and ignored:
  `WriteMsg` returns nil and leaves the payload unread
  (eth/lachesis_adapter.go:84-87).
- A TxMsg payload reaches the engine as one raw byte string of `Size`
  bytes; the adapter does not split or decode it
  (eth/lachesis_adapter.go:89-95).
- `ReadMsg`'s `select` gives the quit case no priority over a ready commit
  (eth/lachesis_adapter.go:62-67).

## Findings

| source | as written | input that shows it | evidently intended | confidence | as-written member | corrected member |
|---|---|---|---|---|---|---|
| lachesis/server.go:95-97 | `Start` passes `&proto`, the address of the `range` variable, to `startProtocol`, whose goroutine reads `proto` only when it runs (:226-228); before Go 1.22 the variable is shared by the loop's iterations | `Protocols` = [eth/63, les/2]: the run-loop launched for eth/63, whose eventer tags its messages "eth", may call les/2's `Run` | each run-loop runs the protocol it was launched for, the one its eventer is tagged with | medium, not executed; depends on the Go version the package is built with | FakeServer.CapturedProtocolMismatch | FakeServer.StartProtocol |

## Left out

- p2p/interface.go (the `Server` wrapper that forwards to the interface) is
  not part of this model. It only forwards, and it copies config and DiscV5
  after `Start`.
- `SubscribeEvents` and `event.Feed` delivery, subscription and
  backpressure belong to a foreign library. Each call returns the events it
  publishes, in order.
- Goroutines, the mutex and `sync.WaitGroup` are concurrency. The lock is a
  flag, and a `Lock()` that cannot return is `Blocked`. The wait group is
  the list of live run-loops, which `Stop` empties. This assumes every
  run-loop returns once quit is closed.
- `proto.Run`, the protocols' own run-loops, is foreign code. Only its
  launch is modelled.
- RLP encoding and decoding, `types.NewBlock`'s derived header fields and
  ENR encoding are foreign codecs. They are the `Codec` parameter or are
  omitted.
- The enode URL, ID, IP, ports and ENR fields of `NodeInfo` come from
  foreign encoders. Only name, listen address and the protocol map are
  kept.
- The gRPC proxy (`NewGrpcLachesisProxy`, `CommitCh`, `SubmitTx`) is
  network I/O. The model keeps only the dial error, the commit received and
  `SubmitTx`'s answer.
- `GetConfig`, `GetDiscV5` (which always returns nil) and the adapter's
  `Address` return fields or constants. They have no logic to state.
- Log output, and `fmt.Println` in `Ban`, have no observable effect. Of
  the logging panics, only the one through the nil logger of an adapter
  that was never started is kept, as the `HasLogger` precondition of the
  adapter's `ReadMsg` and `WriteMsg`.
- FakeServer.GetNodeInfo: a configured private key is assumed. `NodeInfo`
  derives the node's enode from `Config.PrivateKey` (lachesis/server.go:131)
  and panics when it is nil. The `Server` record holds no key, so that
  panic is not represented.
- FakeServer.Start: a configured adapter is assumed. `Start` calls
  `Config.LachesisAdapter.Start` (lachesis/server.go:72) and panics when no
  adapter is set. The `Server` record always carries one.
- Wire.ZeroMsg: Go's zero `p2p.Msg` has a nil `Payload`, and reading it
  panics. The model gives it an empty reader instead, so reading it gives
  EOF. `EarlyBridge.ReadMsg` hands out exactly such a message.
- EarlyBridge.WriteMsg: `lachesisServer` in lachesis/message.go logs
  through its own `srv.log` in every named arm. The model does not track
  whether that logger is set.
- Adapter.ReadMsg: Go chooses at random when both `select` cases are ready.
  Here the caller's `Ready` argument makes that choice, so fairness is not
  stated.
- Adapter.Convert: the block header is a placeholder `ZeroHeader`, because
  the source leaves every header field unset (a TODO).
- FakeServer.TruncateName: each string element stands for one byte of the
  Go string, so UTF-8 encoding is not modelled. Go's `len(s)` and `s[:20]`
  count bytes, and a name with multi-byte characters is cut earlier than
  its element count suggests.
- FakeServer.PeersInfo: the order of the infos is stated only when the peer
  list has no nil entry, which is every state `Start` and `Stop` produce.
- FakeServer.Spawn: Add events and launched run-loops are two separate
  sequences, so their interleaving (each Add before that peer's launches)
  is not recorded.
- Node identifiers are unbounded naturals standing for 32-byte IDs. The
  fake peers use 0 .. `peerCount`-1, so the 256-bit bound never matters.
- DiscFilter.Ban: the ban cache is a least-recently-used list that evicts
  its oldest key. The contract claims only membership, size and "evicts
  only when full". It makes no claim about which key is evicted or about
  the order `GetBanned` lists keys in, because those belong to the
  hashicorp LRU library.
