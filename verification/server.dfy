/** The fake p2p server (lachesis/server.go): it presents the consensus
    engine to go-ethereum's networking layer as peers of its own making.
    Each transition returns the new state, the peer events it published on
    the server's feed and the protocol run-loops it launched. Goroutines
    and the wait group become the list of live run-loops; a `Lock()` that
    can never return is the `Blocked` step. */
module FakeServer {
  import opened Wrappers
  import opened Wire
  import Adapter
  import Eventer

  /** How many fake peers `Start` makes (`peerCount`). */
  const FakePeerCount: nat := 1

  /** `p2p.Cap`: a protocol name and version a peer speaks. */
  datatype Cap = Cap(name: string, version: nat)

  /** The capabilities of every fake peer (`caps`): eth/63 only. */
  const Caps: seq<Cap> := [Cap("eth", 63)]

  /** A registered `p2p.Protocol`. `nodeInfo` is what its `NodeInfo` hook
      reports, `None` when it has no hook. */
  datatype Protocol = Protocol(name: string, version: nat, nodeInfo: Option<string>)

  /** A protocol serves a capability when name and version both match. */
  predicate Serves(cap: Cap, p: Protocol) {
    p.name == cap.name && p.version == cap.version
  }

  /** The number of capabilities in `caps` that `p` serves. */
  function ServedCount(caps: seq<Cap>, p: Protocol): nat {
    if caps == [] then 0
    else (if Serves(caps[0], p) then 1 else 0) + ServedCount(caps[1..], p)
  }

  datatype Peer = Peer(id: NodeId, name: string, caps: seq<Cap>)

  /** An entry of the peer list, a `*p2p.Peer` that may be nil. */
  datatype PeerSlot = Nil | Live(peer: Peer)

  /** What `peer.Info()` reports about a peer. */
  datatype PeerInfo = PeerInfo(id: NodeId, name: string, caps: seq<Cap>)

  /** The adapter seen as the read/writer the run-loops are given; it
      implements no `Close`. */
  const AdapterRW: Eventer.Inner := Eventer.Inner(Eventer.NotCloser)

  /** A launched `proto.Run(peer, rw)`, with the eventer built for it. */
  datatype RunLoop = RunLoop(peer: NodeId, protocol: Protocol, rw: Eventer.MsgEventer)

  /** `startProtocol(peer, proto)`, bookkeeping only: the run-loop for
      `proto` on the peer with identifier `id`, reading and writing through
      an eventer over the adapter tagged with the peer and protocol name.
      The protocol is the value at the call, so the eventer's tag always
      names the protocol the loop runs (see `CapturedProtocolMismatch` for
      the code as written). */
  function StartProtocol(id: NodeId, p: Protocol): (r: RunLoop)
    ensures r.peer == id && r.protocol == p
    ensures r.rw.rw == AdapterRW && r.rw.peer == r.peer && r.rw.protocol == r.protocol.name
  {
    RunLoop(id, p, Eventer.MsgEventer(AdapterRW, id, p.name))
  }

  /** `Start` as written passes `&proto`, the address of the `range`
      variable, and the goroutine reads it only when it runs. With the loop
      semantics before Go 1.22 one variable serves every iteration of the
      inner loop, so the goroutine launched for the registration at index
      `i` may find it holding any registration at or after `i`. */
  predicate MayRunAsWritten(protos: seq<Protocol>, i: nat, q: Protocol) {
    exists j | i <= j < |protos| :: protos[j] == q
  }

  /** The capture as written: with "eth"/63 registered before "les"/2, the
      single run-loop launched for the fake peer is the "eth" one, its
      eventer tags every message "eth", and yet its goroutine may run the
      "les" protocol. */
  lemma CapturedProtocolMismatch(eth: Protocol, les: Protocol)
    requires eth.name == "eth" && eth.version == 63
    requires les.name == "les" && les.version == 2
    ensures var protos := [eth, les];
            && LaunchServing(0, Caps[0], protos) == [StartProtocol(0, eth)]
            && StartProtocol(0, eth).rw.protocol == "eth"
            && MayRunAsWritten(protos, 0, les)
            && les.name != "eth"
  {
    var protos := [eth, les];
    assert protos[1] == les;
    assert protos[1..] == [les] && [les][1..] == [];
    assert Caps[0] == Cap("eth", 63);
    assert !Serves(Caps[0], les) by { assert les.name[0] != "eth"[0]; }
    assert LaunchServing(0, Caps[0], [les]) == [];
    assert Serves(Caps[0], eth);
  }

  /** `lachesisServer`: the configuration it reads (`Name`, `ListenAddr`,
      `Protocols`, the adapter), the lock, the running flag, the peer list
      and the run-loops the wait group is still counting. */
  datatype Server = Server(
    name: string,
    listenAddr: string,
    protocols: seq<Protocol>,
    adapter: Adapter.Adapter,
    locked: bool,
    running: bool,
    peers: seq<PeerSlot>,
    live: seq<RunLoop>)

  /** A server as `NewServer(cfg)` builds it. */
  function New(name: string, listenAddr: string, protocols: seq<Protocol>, addr: string): (s: Server)
    ensures Valid(s) && !s.locked && !s.running && s.peers == [] && s.live == []
  {
    Server(name, listenAddr, protocols, Adapter.New(addr), false, false, [], [])
  }

  /** What can be stopped without panicking: an open quit channel (closing
      it twice panics) and no nil peer (a nil `peer.ID()` panics). */
  predicate Stoppable(s: Server) {
    s.adapter.quit.Open? && forall i | 0 <= i < |s.peers| :: s.peers[i].Live?
  }

  /** The states `New`, `Start` and `Stop` keep the server in. */
  predicate Valid(s: Server) {
    && Adapter.Numbered(s.adapter)
    && (forall i | 0 <= i < |s.peers| :: s.peers[i].Live?)
    && (s.running ==> s.adapter.quit.Open? && s.adapter.linked)
  }

  /** The outcome of a transition: it returned (new state, error, events
      published in order, run-loops launched in order) or it waits forever
      on the lock. */
  datatype Step =
    | Returned(server: Server, err: Option<Error>, events: seq<PeerEvent>, started: seq<RunLoop>)
    | Blocked

  function AddEvent(id: NodeId): PeerEvent {
    PeerEvent(PeerAdd, id, "", None, None)
  }

  function DropEvent(id: NodeId): PeerEvent {
    PeerEvent(PeerDrop, id, "", None, None)
  }

  /** The character of a decimal digit. */
  function DigitChar(d: nat): (c: char)
    requires d < 10
    ensures '0' <= c <= '9' && (c as int) - ('0' as int) == d
  {
    (('0' as int) + d) as char
  }

  /** Go's `%d` formatting of a natural number. */
  function Decimal(n: nat): (r: string)
    ensures |r| >= 1
    ensures forall i | 0 <= i < |r| :: '0' <= r[i] <= '9'
    ensures r[0] == '0' ==> r == "0"
  {
    if n < 10 then [DigitChar(n)]
    else Decimal(n / 10) + [DigitChar(n % 10)]
  }

  /** Reads a string of decimal digits back as a number. */
  function DecimalValue(s: string): nat
    requires forall i | 0 <= i < |s| :: '0' <= s[i] <= '9'
  {
    if s == [] then 0
    else DecimalValue(s[..|s| - 1]) * 10 + ((s[|s| - 1] as int) - ('0' as int))
  }

  /** `%d` loses nothing: its output reads back as the number printed. */
  lemma {:induction false} DecimalRoundTrip(n: nat)
    ensures DecimalValue(Decimal(n)) == n
  {
    var r := Decimal(n);
    if n < 10 {
      assert r[..|r| - 1] == [];
    } else {
      var q, d := n / 10, n % 10;
      assert r == Decimal(q) + [DigitChar(d)];
      assert r[..|r| - 1] == Decimal(q);
      DecimalRoundTrip(q);
      assert DecimalValue(r) == q * 10 + d;
    }
  }

  /** The `i`-th fake peer: identifier `enode.HexID` of the zero-padded hex
      of `i` (the ID whose value is `i`), name "fake-node-i", caps `Caps`. */
  function FakePeer(i: nat): Peer {
    Peer(i, "fake-node-" + Decimal(i), Caps)
  }

  /** Different fake peers get different identifiers and different names. */
  lemma FakePeersDistinct(i: nat, j: nat)
    requires i != j
    ensures FakePeer(i).id != FakePeer(j).id
    ensures FakePeer(i).name != FakePeer(j).name
  {
    var p := "fake-node-";
    if FakePeer(i).name == FakePeer(j).name {
      assert Decimal(i) == FakePeer(i).name[|p|..];
      assert Decimal(j) == FakePeer(j).name[|p|..];
      DecimalRoundTrip(i);
      DecimalRoundTrip(j);
    }
  }

  /** The inner loop of `Start` for one capability: the run-loops for the
      registered protocols serving `cap`, in registration order. */
  function LaunchServing(id: NodeId, cap: Cap, protos: seq<Protocol>): (loops: seq<RunLoop>)
    ensures forall l | l in loops :: l.peer == id && l == StartProtocol(id, l.protocol) && Serves(cap, l.protocol)
    ensures forall p :: multiset(loops)[StartProtocol(id, p)] == (if Serves(cap, p) then multiset(protos)[p] else 0)
    decreases |protos|
  {
    if protos == [] then []
    else
      var rest := LaunchServing(id, cap, protos[1..]);
      assert protos == [protos[0]] + protos[1..];
      (if Serves(cap, protos[0]) then [StartProtocol(id, protos[0])] else []) + rest
  }

  /** A run-loop not in a list of loops is counted zero times in it. */
  lemma AbsentUncounted(loops: seq<RunLoop>, x: RunLoop)
    requires x !in loops
    ensures multiset(loops)[x] == 0
  {
  }

  /** Both loops of `Start` for one peer: for each capability in order,
      each serving protocol in registration order. */
  function Launch(id: NodeId, caps: seq<Cap>, protos: seq<Protocol>): (loops: seq<RunLoop>)
    ensures forall l | l in loops :: l.peer == id && l == StartProtocol(id, l.protocol)
                                     && ServedCount(caps, l.protocol) > 0
    ensures forall p :: multiset(loops)[StartProtocol(id, p)] == ServedCount(caps, p) * multiset(protos)[p]
    decreases |caps|
  {
    if caps == [] then []
    else
      var here := LaunchServing(id, caps[0], protos);
      var rest := Launch(id, caps[1..], protos);
      LaunchStep(id, caps, protos, here, rest);
      here + rest
  }

  /** The step of `Launch` from the later capabilities to all of them. */
  lemma LaunchStep(id: NodeId, caps: seq<Cap>, protos: seq<Protocol>, here: seq<RunLoop>, rest: seq<RunLoop>)
    requires caps != []
    requires forall l | l in here :: l.peer == id && l == StartProtocol(id, l.protocol) && Serves(caps[0], l.protocol)
    requires forall p :: multiset(here)[StartProtocol(id, p)] == (if Serves(caps[0], p) then multiset(protos)[p] else 0)
    requires forall l | l in rest :: l.peer == id && l == StartProtocol(id, l.protocol)
                                     && ServedCount(caps[1..], l.protocol) > 0
    requires forall p :: multiset(rest)[StartProtocol(id, p)] == ServedCount(caps[1..], p) * multiset(protos)[p]
    ensures forall l | l in here + rest :: l.peer == id && l == StartProtocol(id, l.protocol)
                                           && ServedCount(caps, l.protocol) > 0
    ensures forall p :: multiset(here + rest)[StartProtocol(id, p)] == ServedCount(caps, p) * multiset(protos)[p]
  {
    forall l | l in here + rest
      ensures l.peer == id && l == StartProtocol(id, l.protocol) && ServedCount(caps, l.protocol) > 0
    {
      assert ServedCount(caps, l.protocol)
             == (if Serves(caps[0], l.protocol) then 1 else 0) + ServedCount(caps[1..], l.protocol);
    }
    forall p
      ensures multiset(here + rest)[StartProtocol(id, p)] == ServedCount(caps, p) * multiset(protos)[p]
    {
      var x := StartProtocol(id, p);
      var a := if Serves(caps[0], p) then 1 else 0;
      var b := ServedCount(caps[1..], p);
      var m := multiset(protos)[p];
      assert multiset(here + rest)[x] == multiset(here)[x] + multiset(rest)[x];
      assert multiset(here)[x] == a * m;
      assert ServedCount(caps, p) == a + b;
      Distribute(a, b, m);
    }
  }

  lemma Distribute(a: nat, b: nat, m: nat)
    ensures (a + b) * m == a * m + b * m
  {
  }

  /** What making the fake peers produces. */
  datatype Spawned = Spawned(peers: seq<PeerSlot>, events: seq<PeerEvent>, loops: seq<RunLoop>)

  /** The peer loop of `Start` for peers `0 .. k-1`: each peer is appended,
      announced by an Add event and has its protocols launched. */
  function Spawn(k: nat, protos: seq<Protocol>): (r: Spawned)
    ensures |r.peers| == k && |r.events| == k
    ensures forall i | 0 <= i < k :: r.peers[i] == Live(FakePeer(i)) && r.events[i] == AddEvent(i)
    ensures forall l | l in r.loops :: l.peer < k && l == StartProtocol(l.peer, l.protocol)
                                       && ServedCount(Caps, l.protocol) > 0
    ensures forall i: nat, p | i < k ::
      multiset(r.loops)[StartProtocol(i, p)] == ServedCount(Caps, p) * multiset(protos)[p]
  {
    if k == 0 then Spawned([], [], [])
    else
      var prev := Spawn(k - 1, protos);
      var loops := Launch(k - 1, Caps, protos);
      SpawnStep(k, protos, prev.loops, loops);
      Spawned(prev.peers + [Live(FakePeer(k - 1))], prev.events + [AddEvent(k - 1)], prev.loops + loops)
  }

  /** The step of `Spawn` from peers `0 .. k-2` to peer `k-1`. */
  lemma SpawnStep(k: nat, protos: seq<Protocol>, prev: seq<RunLoop>, loops: seq<RunLoop>)
    requires k > 0
    requires forall l | l in prev :: l.peer < k - 1 && l == StartProtocol(l.peer, l.protocol)
                                     && ServedCount(Caps, l.protocol) > 0
    requires forall i: nat, p | i < k - 1 ::
      multiset(prev)[StartProtocol(i, p)] == ServedCount(Caps, p) * multiset(protos)[p]
    requires forall l | l in loops :: l.peer == k - 1 && l == StartProtocol(k - 1, l.protocol)
                                      && ServedCount(Caps, l.protocol) > 0
    requires forall p :: multiset(loops)[StartProtocol(k - 1, p)] == ServedCount(Caps, p) * multiset(protos)[p]
    ensures forall i: nat, p | i < k ::
      multiset(prev + loops)[StartProtocol(i, p)] == ServedCount(Caps, p) * multiset(protos)[p]
  {
    forall i: nat, p | i < k
      ensures multiset(prev + loops)[StartProtocol(i, p)] == ServedCount(Caps, p) * multiset(protos)[p]
    {
      var x := StartProtocol(i, p);
      if i < k - 1 {
        assert x !in loops;
        AbsentUncounted(loops, x);
      } else {
        assert x !in prev;
        AbsentUncounted(prev, x);
      }
    }
  }

  /** `Start`. It waits for the lock; on a running server it fails with
      "server already running" and changes nothing; it then starts the
      adapter (which makes a fresh quit channel even if the dial fails) and
      returns the dial error with the server still stopped and no peer
      made; otherwise it marks the server running, appends `FakePeerCount`
      fake peers, publishes one Add event for each and launches every
      registered protocol serving one of their capabilities. */
  function Start(s: Server, dial: Option<Error>): (r: Step)
    ensures s.locked <==> r.Blocked?
    ensures !s.locked && s.running ==> r == Returned(s, Some(AlreadyRunning), [], [])
    ensures !s.locked && !s.running && dial.Some? ==>
      && r.Returned? && r.err == dial && r.events == [] && r.started == []
      && !r.server.running && r.server.peers == s.peers && r.server.live == s.live
      && r.server.protocols == s.protocols && !r.server.locked
      && r.server.adapter == Adapter.Start(s.adapter, dial).adapter
    ensures !s.locked && !s.running && dial.None? ==>
      && r.Returned? && r.err.None? && r.server.running && !r.server.locked
      && r.server.adapter.linked && r.server.adapter.quit.Open?
      && r.server.adapter == Adapter.Start(s.adapter, dial).adapter
      && |r.server.peers| == |s.peers| + FakePeerCount
      && r.server.peers[..|s.peers|] == s.peers
      && |r.events| == FakePeerCount
      && (forall i | 0 <= i < FakePeerCount ::
            r.server.peers[|s.peers| + i] == Live(FakePeer(i)) && r.events[i] == AddEvent(i))
      && r.server.live == s.live + r.started
      && r.started == Spawn(FakePeerCount, s.protocols).loops
      && r.server.protocols == s.protocols
    ensures r.Returned? ==> r.server.name == s.name && r.server.listenAddr == s.listenAddr
    ensures Valid(s) && r.Returned? ==> Valid(r.server)
  {
    if s.locked then Blocked
    else if s.running then Returned(s, Some(AlreadyRunning), [], [])
    else
      var started := Adapter.Start(s.adapter, dial);
      if started.err.Some? then Returned(s.(adapter := started.adapter), started.err, [], [])
      else
        var spawn := Spawn(FakePeerCount, s.protocols);
        var next := s.(adapter := started.adapter, running := true,
                       peers := s.peers + spawn.peers, live := s.live + spawn.loops);
        assert next.peers[..|s.peers|] == s.peers;
        Returned(next, None, spawn.events, spawn.loops)
  }

  /** A successful `Start` launches a run-loop on the fake peer for a
      protocol iff the protocol is registered and its name and version are
      "eth" and 63, once per registration; it launches nothing else. */
  lemma StartLaunchesEth63(s: Server, p: Protocol)
    requires !s.locked && !s.running
    ensures var r := Start(s, None);
            && multiset(r.started)[StartProtocol(0, p)]
                 == (if p.name == "eth" && p.version == 63 then multiset(s.protocols)[p] else 0)
            && forall l | l in r.started ::
                 l.peer == 0 && l == StartProtocol(0, l.protocol)
                 && l.protocol.name == "eth" && l.protocol.version == 63
  {
  }

  /** The Drop events for a peer list, in list order. */
  function DropEvents(peers: seq<PeerSlot>): (r: seq<PeerEvent>)
    requires forall i | 0 <= i < |peers| :: peers[i].Live?
    ensures |r| == |peers|
    ensures forall i | 0 <= i < |peers| :: r[i] == DropEvent(peers[i].peer.id)
  {
    if peers == [] then []
    else [DropEvent(peers[0].peer.id)] + DropEvents(peers[1..])
  }

  /** `Stop`. It waits for the lock; on a stopped server it releases the
      lock and does nothing. On a running server it publishes one Drop event
      per peer in list order, closes the adapter's quit channel, waits for
      every launched run-loop and clears the running flag, but keeps the
      peer list and never releases the lock. */
  function Stop(s: Server): (r: Step)
    requires !s.locked && s.running ==> Stoppable(s)
    ensures s.locked <==> r.Blocked?
    ensures !s.locked && !s.running ==> r == Returned(s, None, [], [])
    ensures !s.locked && s.running ==>
      && r.Returned? && r.err.None? && r.started == []
      && |r.events| == |s.peers|
      && (forall i | 0 <= i < |s.peers| :: r.events[i] == DropEvent(s.peers[i].peer.id))
      && !r.server.running && r.server.live == [] && r.server.locked
      && r.server.peers == s.peers && r.server.protocols == s.protocols
      && r.server.adapter.quit == Adapter.Closed(s.adapter.quit.serial)
    ensures r.Returned? ==>
      && r.server.name == s.name && r.server.listenAddr == s.listenAddr
      && r.server.adapter.addr == s.adapter.addr && r.server.adapter.made == s.adapter.made
      && r.server.adapter.linked == s.adapter.linked
    ensures Valid(s) && r.Returned? ==> Valid(r.server)
  {
    if s.locked then Blocked
    else if !s.running then Returned(s, None, [], [])
    else
      var drops := DropEvents(s.peers);
      var adapter := Adapter.Stop(s.adapter);
      Returned(s.(adapter := adapter, live := [], running := false, locked := true), None, drops, [])
  }

  /** A valid running server can always be stopped. */
  lemma RunningIsStoppable(s: Server)
    requires Valid(s) && s.running
    ensures Stoppable(s)
  {
  }

  /** The server is not reusable, and worse: since `Stop` keeps the lock,
      every later `Start` or `Stop` waits forever. */
  lemma StopLeavesServerLocked(s: Server, dial: Option<Error>)
    requires Valid(s) && !s.locked && s.running
    ensures Stop(s).Returned?
    ensures Start(Stop(s).server, dial).Blocked?
    ensures Stop(Stop(s).server).Blocked?
  {
  }

  /** A fresh server started and stopped: one fake peer announced and then
      dropped, and the peer still counted after `Stop`. */
  lemma StartStopLifecycle(name: string, listenAddr: string, protocols: seq<Protocol>, addr: string)
    ensures var s0 := New(name, listenAddr, protocols, addr);
            var up := Start(s0, None);
            && up.Returned? && up.events == [AddEvent(0)]
            && var down := Stop(up.server);
            && down.Returned? && down.events == [DropEvent(0)]
            && PeerCount(down.server) == 1 && !down.server.running
  {
  }

  /** A peer list's nil entries are its head's, if nil, plus its tail's. */
  lemma NilsOfTail(peers: seq<PeerSlot>)
    requires peers != []
    ensures multiset(peers)[Nil] == (if peers[0].Nil? then 1 else 0) + multiset(peers[1..])[Nil]
  {
    assert peers == [peers[0]] + peers[1..];
  }

  /** `PeerCount`: the length of the peer list, nil entries included. It
      never undercounts `PeersInfo`, and agrees with it exactly when no
      entry is nil. */
  function PeerCount(s: Server): (r: nat)
    ensures r >= |PeersInfo(s.peers)|
    ensures r == |PeersInfo(s.peers)| + multiset(s.peers)[Nil]
    ensures r == |PeersInfo(s.peers)| <==> forall i | 0 <= i < |s.peers| :: s.peers[i].Live?
  {
    |s.peers|
  }

  /** What `peer.Info()` reports about a live peer. */
  function Info(p: Peer): PeerInfo {
    PeerInfo(p.id, p.name, p.caps)
  }

  /** `PeersInfo`: the info of every non-nil peer, in list order. */
  function PeersInfo(peers: seq<PeerSlot>): (r: seq<PeerInfo>)
    ensures |r| <= |peers|
    ensures |r| + multiset(peers)[Nil] == |peers|
    ensures forall i | 0 <= i < |peers| && peers[i].Live? :: Info(peers[i].peer) in r
    ensures forall x | x in r :: exists i | 0 <= i < |peers| :: peers[i].Live? && x == Info(peers[i].peer)
    ensures (forall i | 0 <= i < |peers| :: peers[i].Live?) ==>
      |r| == |peers| && forall i | 0 <= i < |peers| :: r[i] == Info(peers[i].peer)
  {
    if peers == [] then []
    else
      var rest := PeersInfo(peers[1..]);
      var r := if peers[0].Nil? then rest else [Info(peers[0].peer)] + rest;
      PeersInfoCountStep(peers, rest, r);
      PeersInfoListedStep(peers, rest, r);
      PeersInfoOrderStep(peers, rest, r);
      r
  }

  /** The steps of `PeersInfo` from the tail of the list to the whole:
      the count, membership, and order when no entry is nil. */
  lemma PeersInfoCountStep(peers: seq<PeerSlot>, rest: seq<PeerInfo>, r: seq<PeerInfo>)
    requires peers != []
    requires |rest| + multiset(peers[1..])[Nil] == |peers| - 1
    requires r == if peers[0].Nil? then rest else [Info(peers[0].peer)] + rest
    ensures |r| + multiset(peers)[Nil] == |peers|
  {
    NilsOfTail(peers);
  }

  lemma PeersInfoListedStep(peers: seq<PeerSlot>, rest: seq<PeerInfo>, r: seq<PeerInfo>)
    requires peers != []
    requires forall i | 0 <= i < |peers| - 1 && peers[1..][i].Live? :: Info(peers[1..][i].peer) in rest
    requires forall x | x in rest :: exists i | 0 <= i < |peers| - 1 ::
      peers[1..][i].Live? && x == Info(peers[1..][i].peer)
    requires r == if peers[0].Nil? then rest else [Info(peers[0].peer)] + rest
    ensures forall i | 0 <= i < |peers| && peers[i].Live? :: Info(peers[i].peer) in r
    ensures forall x | x in r :: exists i | 0 <= i < |peers| :: peers[i].Live? && x == Info(peers[i].peer)
  {
    forall i | 0 <= i < |peers| && peers[i].Live?
      ensures Info(peers[i].peer) in r
    {
      if i > 0 {
        assert peers[i] == peers[1..][i - 1];
      }
    }
    forall x | x in r
      ensures exists i | 0 <= i < |peers| :: peers[i].Live? && x == Info(peers[i].peer)
    {
      if peers[0].Live? && x == Info(peers[0].peer) {
      } else {
        assert x in rest;
        var k :| 0 <= k < |peers| - 1 && peers[1..][k].Live? && x == Info(peers[1..][k].peer);
        assert peers[k + 1] == peers[1..][k];
      }
    }
  }

  lemma PeersInfoOrderStep(peers: seq<PeerSlot>, rest: seq<PeerInfo>, r: seq<PeerInfo>)
    requires peers != []
    requires (forall i | 0 <= i < |peers| - 1 :: peers[1..][i].Live?) ==>
      |rest| == |peers| - 1 && forall i | 0 <= i < |peers| - 1 :: rest[i] == Info(peers[1..][i].peer)
    requires r == if peers[0].Nil? then rest else [Info(peers[0].peer)] + rest
    ensures (forall i | 0 <= i < |peers| :: peers[i].Live?) ==>
      |r| == |peers| && forall i | 0 <= i < |peers| :: r[i] == Info(peers[i].peer)
  {
    if forall i | 0 <= i < |peers| :: peers[i].Live? {
      assert forall i | 0 <= i < |peers| - 1 :: peers[1..][i] == peers[i + 1];
    }
  }

  /** On any state `Start`, `Stop` and `New` produce, there are as many
      infos as `PeerCount` says. */
  lemma PeersInfoCountsAll(s: Server)
    requires Valid(s)
    ensures |PeersInfo(s.peers)| == PeerCount(s)
  {
  }

  /** What `NodeInfo` records for one protocol. */
  datatype ProtoInfo = Unknown | Reported(info: string)

  function Describe(p: Protocol): ProtoInfo {
    match p.nodeInfo
    case None => Unknown
    case Some(info) => Reported(info)
  }

  /** No protocol before position `j` has the name of the one at `j`. */
  predicate FirstOfName(ps: seq<Protocol>, j: nat)
    requires j < |ps|
  {
    forall k | 0 <= k < j :: ps[k].name != ps[j].name
  }

  /** The protocol map of `NodeInfo`, built in registration order: a name
      already in the map is skipped, a new one gets its protocol's info. */
  function ProtocolInfos(ps: seq<Protocol>): map<string, ProtoInfo>
    decreases |ps|
  {
    if ps == [] then map[]
    else
      var m := ProtocolInfos(ps[..|ps| - 1]);
      var last := ps[|ps| - 1];
      if last.name in m then m else m[last.name := Describe(last)]
  }

  /** The protocol map has one entry per distinct protocol name; the first
      protocol with that name decides it, "unknown" when it has no
      `NodeInfo` hook. */
  lemma {:induction false} ProtocolInfosFirstWins(ps: seq<Protocol>)
    ensures ProtocolInfos(ps).Keys == set p | p in ps :: p.name
    ensures forall j | 0 <= j < |ps| :: ps[j].name in ProtocolInfos(ps)
    ensures forall j | 0 <= j < |ps| && FirstOfName(ps, j) :: ProtocolInfos(ps)[ps[j].name] == Describe(ps[j])
    decreases |ps|
  {
    if ps != [] {
      var init, last := ps[..|ps| - 1], ps[|ps| - 1];
      var m := ProtocolInfos(init);
      assert ps == init + [last];
      assert ProtocolInfos(ps) == if last.name in m then m else m[last.name := Describe(last)];
      ProtocolInfosFirstWins(init);
      ProtocolInfosStep(ps, init, last, m, ProtocolInfos(ps));
    }
  }

  /** The step of `ProtocolInfos` from all but the last protocol to all. */
  lemma ProtocolInfosStep(ps: seq<Protocol>, init: seq<Protocol>, last: Protocol,
                          m: map<string, ProtoInfo>, r: map<string, ProtoInfo>)
    requires ps == init + [last]
    requires m.Keys == set p | p in init :: p.name
    requires forall j | 0 <= j < |init| :: init[j].name in m
    requires forall j | 0 <= j < |init| && FirstOfName(init, j) :: m[init[j].name] == Describe(init[j])
    requires r == if last.name in m then m else m[last.name := Describe(last)]
    ensures r.Keys == set p | p in ps :: p.name
    ensures forall j | 0 <= j < |ps| :: ps[j].name in r
    ensures forall j | 0 <= j < |ps| && FirstOfName(ps, j) :: r[ps[j].name] == Describe(ps[j])
  {
    assert (set p | p in ps :: p.name) == (set p | p in init :: p.name) + {last.name} by {
      assert forall p :: p in ps <==> p in init || p == last;
    }
    assert r.Keys == m.Keys + {last.name};
    forall j | 0 <= j < |ps| && FirstOfName(ps, j)
      ensures r[ps[j].name] == Describe(ps[j])
    {
      if j < |init| {
        assert init[j] == ps[j];
        assert FirstOfName(init, j) by {
          forall k | 0 <= k < j ensures init[k].name != init[j].name {
            assert init[k] == ps[k];
          }
        }
      } else {
        assert ps[j] == last;
        forall q | q in init ensures q.name != last.name {
          var k :| 0 <= k < |init| && init[k] == q;
          assert ps[k] == q;
        }
        assert last.name !in m;
      }
    }
  }

  /** The part of `p2p.NodeInfo` the model keeps: the configured name and
      listen address and the protocol map. The enode URL, ID, IP, ports and
      ENR come from foreign encoders and are left out. */
  datatype NodeInfo = NodeInfo(name: string, listenAddr: string, protocols: map<string, ProtoInfo>)

  function GetNodeInfo(s: Server): (r: NodeInfo)
    ensures r.name == s.name && r.listenAddr == s.listenAddr
    ensures forall n :: n in r.protocols <==> exists p | p in s.protocols :: p.name == n
    ensures forall j | 0 <= j < |s.protocols| && FirstOfName(s.protocols, j) ::
      s.protocols[j].name in r.protocols && r.protocols[s.protocols[j].name] == Describe(s.protocols[j])
  {
    ProtocolInfosFirstWins(s.protocols);
    NodeInfo(s.name, s.listenAddr, ProtocolInfos(s.protocols))
  }

  /** `AddProtocols`: appends to the registered protocols. Although its
      comment says matching protocols are launched for each peer, nothing is
      launched: only a later `Start` would launch them. */
  function AddProtocols(s: Server, ps: seq<Protocol>): (r: Server)
    ensures |r.protocols| == |s.protocols| + |ps|
    ensures r.protocols[..|s.protocols|] == s.protocols && r.protocols[|s.protocols|..] == ps
    ensures r.live == s.live && r.peers == s.peers && r.running == s.running && r.locked == s.locked
    ensures r.adapter == s.adapter && r.name == s.name && r.listenAddr == s.listenAddr
    ensures Valid(s) ==> Valid(r)
  {
    s.(protocols := s.protocols + ps)
  }

  /** The peer-management calls of the server interface. */
  datatype PeerRequest = AddPeer | RemovePeer | AddTrustedPeer | RemoveTrustedPeer

  /** `AddPeer`, `RemovePeer`, `AddTrustedPeer`, `RemoveTrustedPeer`: the
      fake peers are the engine's, so every request is accepted and has no
      effect. */
  function ManagePeer(s: Server, request: PeerRequest, node: NodeId): (r: Step)
    ensures r == Returned(s, None, [], [])
  {
    Returned(s, None, [], [])
  }

  /** `truncateName`: names longer than 20 bytes are cut to 20 bytes and
      marked with "...". Strings here count one element per byte, as Go's
      `len` and slicing do. */
  function TruncateName(s: string): (r: string)
    ensures |s| <= 20 ==> r == s
    ensures |s| > 20 ==> |r| == 23 && r[..20] == s[..20] && r[20..] == "..."
    ensures |r| <= 23
  {
    if |s| > 20 then s[..20] + "..." else s
  }

  /** Truncating twice is truncating once. */
  lemma TruncateNameIdempotent(s: string)
    ensures TruncateName(TruncateName(s)) == TruncateName(s)
  {
  }

  /** A run-loop's write through its eventer onto the adapter: a MsgSend
      event is published exactly when the adapter accepted the message,
      so a TxMsg the engine rejects, or whose payload is short, is never
      reported as sent, while every other code always is. */
  lemma RunLoopWriteReporting(s: Server, l: RunLoop, msg: Msg, submit: Submit)
    requires Valid(s) && s.running && l in s.live && l == StartProtocol(l.peer, l.protocol)
    ensures var w := Adapter.WriteMsg(s.adapter, msg, submit);
            var o := Eventer.WriteMsg(l.rw, msg, w.err);
            && (|o.published| == 1 <==> w.err.None?)
            && (msg.code != TxMsg ==> |o.published| == 1)
            && ((msg.code == TxMsg && msg.size <= |Remaining(msg.payload)|) ==>
                  (|o.published| == 1 <==> submit(Remaining(msg.payload)[..msg.size]).None?))
            && Eventer.Close(l.rw).None?
  {
  }
}
