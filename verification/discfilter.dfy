/** The discovery ban filter (p2p/discover/discfilter/discfilter.go). The
    source keeps its state in package globals; here it is an explicit
    record: a one-way `enabled` flag and the dynamic ban list, a
    least-recently-used cache of at most 50000 node identifiers. */
module DiscFilter {
  import opened Wire

  /** The capacity of the dynamic ban cache (`lru.New(50000)`). */
  const BanCapacity: nat := 50000

  predicate Distinct(q: seq<NodeId>) {
    forall i, j | 0 <= i < j < |q| :: q[i] != q[j]
  }

  /** The ban cache's keys from least to most recently added. Contracts
      below speak only of membership and size, not of this order. */
  type BanList = q: seq<NodeId> | Distinct(q) && |q| <= BanCapacity witness []

  datatype Filter = Filter(enabled: bool, dynamic: BanList)

  /** The filter as the package starts: disabled, nothing banned. */
  const Initial: Filter := Filter(false, [])

  /** An ENR record, reduced to the keys it holds. */
  datatype Record = Record(keys: set<string>)

  /** `Enable`: switches the filter on; the ban list is kept. */
  function Enable(f: Filter): (r: Filter)
    ensures r.enabled && r.dynamic == f.dynamic
  {
    f.(enabled := true)
  }

  /** `q` without `x`. */
  function Without(q: seq<NodeId>, x: NodeId): (r: seq<NodeId>)
    ensures forall y :: y in r <==> y in q && y != x
    ensures Distinct(q) ==> Distinct(r)
    ensures Distinct(q) && x in q ==> |r| == |q| - 1
    ensures x !in q ==> r == q
    ensures |r| <= |q|
  {
    if q == [] then []
    else if q[0] == x then
      assert Distinct(q) ==> x !in q[1..];
      Without(q[1..], x)
    else
      var rest := Without(q[1..], x);
      assert forall y | y in q[1..] :: y in q;
      assert Distinct(q) ==> q[0] !in q[1..] && Distinct(q[1..]);
      assert x !in q ==> rest == q[1..] && q == [q[0]] + q[1..];
      [q[0]] + rest
  }

  /** Appending a new identifier to a list without repeats keeps it so. */
  lemma AppendFresh(q: seq<NodeId>, x: NodeId)
    requires Distinct(q) && x !in q
    ensures Distinct(q + [x])
  {
  }

  /** `Ban`: ignored while disabled. Otherwise `id` is added to the cache as
      its most recent key (a key already there is only refreshed); when the
      cache is full and `id` is new, the least recently added key is
      evicted to stay within capacity. */
  function Ban(f: Filter, id: NodeId): (r: Filter)
    ensures r.enabled == f.enabled
    ensures !f.enabled ==> r == f
    ensures f.enabled ==> id in r.dynamic
    ensures forall x | x in r.dynamic :: x in f.dynamic || x == id
    ensures f.enabled && (id in f.dynamic || |f.dynamic| < BanCapacity) ==>
      forall x :: x in r.dynamic <==> x in f.dynamic || x == id
    ensures forall x | x in f.dynamic && x !in r.dynamic :: id !in f.dynamic && |f.dynamic| == BanCapacity
    ensures |f.dynamic| <= |r.dynamic|
  {
    if !f.enabled then f
    else if id in f.dynamic then
      var kept := Without(f.dynamic, id);
      AppendFresh(kept, id);
      f.(dynamic := kept + [id])
    else if |f.dynamic| < BanCapacity then
      AppendFresh(f.dynamic, id);
      f.(dynamic := f.dynamic + [id])
    else
      var kept := f.dynamic[1..];
      assert forall y | y in kept :: y in f.dynamic;
      AppendFresh(kept, id);
      f.(dynamic := kept + [id])
  }

  /** `BannedDynamic`: false while disabled, else whether the cache holds `id`. */
  function BannedDynamic(f: Filter, id: NodeId): (r: bool)
    ensures r <==> f.enabled && id in f.dynamic
  {
    if !f.enabled then false else id in f.dynamic
  }

  /** `BannedStatic`: false while disabled, else whether the record has an
      "eth" or an "eth2" entry. */
  function BannedStatic(f: Filter, rec: Record): (r: bool)
    ensures r <==> f.enabled && ("eth" in rec.keys || "eth2" in rec.keys)
  {
    if !f.enabled then false else "eth" in rec.keys || "eth2" in rec.keys
  }

  /** `Banned`: false while disabled, else the static or the dynamic ban. */
  function Banned(f: Filter, id: NodeId, rec: Record): (r: bool)
    ensures !f.enabled ==> !r
    ensures r <==> f.enabled && ("eth" in rec.keys || "eth2" in rec.keys || id in f.dynamic)
  {
    if !f.enabled then false else BannedStatic(f, rec) || BannedDynamic(f, id)
  }

  /** `GetBanned`: the cache's keys, whatever the flag; each banned
      identifier once, never more than the capacity. */
  function GetBanned(f: Filter): (r: seq<NodeId>)
    ensures |r| <= BanCapacity
    ensures Distinct(r)
    ensures forall id :: id in r <==> id in f.dynamic
  {
    f.dynamic
  }

  /** The operations that change the filter. */
  datatype Op = EnableOp | BanOp(id: NodeId)

  function Apply(f: Filter, op: Op): Filter {
    match op
    case EnableOp => Enable(f)
    case BanOp(id) => Ban(f, id)
  }

  function ApplyAll(f: Filter, ops: seq<Op>): Filter
    decreases |ops|
  {
    if ops == [] then f else ApplyAll(Apply(f, ops[0]), ops[1..])
  }

  /** `Enable` is one-way: no sequence of operations switches the filter off. */
  lemma {:induction false} EnableIsOneWay(f: Filter, ops: seq<Op>)
    requires f.enabled
    ensures ApplyAll(f, ops).enabled
    decreases |ops|
  {
    if ops != [] {
      EnableIsOneWay(Apply(f, ops[0]), ops[1..]);
    }
  }

  /** Until `Enable` is called, bans are dropped and the filter does not
      change. */
  lemma {:induction false} BansIgnoredUntilEnabled(f: Filter, ops: seq<Op>)
    requires !f.enabled
    requires forall i | 0 <= i < |ops| :: ops[i].BanOp?
    ensures ApplyAll(f, ops) == f
    decreases |ops|
  {
    if ops != [] {
      assert Apply(f, ops[0]) == f;
      BansIgnoredUntilEnabled(f, ops[1..]);
    }
  }

  /** Once enabled, a node just banned is reported as banned, by the
      dynamic check and by the combined one, whatever its record holds. */
  lemma BanThenBanned(f: Filter, id: NodeId, rec: Record)
    requires f.enabled
    ensures BannedDynamic(Ban(f, id), id)
    ensures Banned(Ban(f, id), id, rec)
  {
  }

  /** While disabled nothing is banned, whatever was banned before. */
  lemma DisabledBansNothing(f: Filter, id: NodeId, rec: Record)
    requires !f.enabled
    ensures !BannedDynamic(f, id) && !BannedStatic(f, rec) && !Banned(f, id, rec)
  {
  }

  /** From the package's initial state, any number of bans before `Enable`
      leave the filter as it started, and no node is reported banned. */
  lemma InitialIgnoresBans(ops: seq<Op>, id: NodeId, rec: Record)
    requires forall i | 0 <= i < |ops| :: ops[i].BanOp?
    ensures ApplyAll(Initial, ops) == Initial
    ensures !Banned(ApplyAll(Initial, ops), id, rec) && GetBanned(ApplyAll(Initial, ops)) == []
  {
    BansIgnoredUntilEnabled(Initial, ops);
    DisabledBansNothing(Initial, id, rec);
  }
}
