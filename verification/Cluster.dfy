/**
 Proxies in front of nodes. A correctly configured cluster answers every request as one node holding
 everything would; and however the proxies are configured, as long as the nodes' ranges do not
 overlap, an acknowledged key is never reported missing.
 */
module Cluster {
  import opened Prelude
  import opened AtomicMap
  import opened Routing
  import opened Table
  import opened Node
  import opened NodeAnswers

  /** A routing table, and for each node id the position of the node it is thought to listen as. */
  datatype Proxy = Proxy(table: Table, addresses: map<string, nat>) {
    ghost predicate Usable() { table.partitionCount > 0 && |table.owner| == table.partitionCount }
  }

  /** How one forward goes: through, not at all, or through with the reply lost on the way back. */
  datatype Link = Up | Down | ReplyLost

  /** The node a key is routed to, if it exists. */
  function Route(proxy: Proxy, nodes: seq<Node>, key: Key): Option<nat>
    requires proxy.table.partitionCount > 0 && |proxy.table.owner| == proxy.table.partitionCount
  {
    var id := proxy.table.NodeFor(key);
    if id in proxy.addresses && proxy.addresses[id] < |nodes| then Some(proxy.addresses[id]) else None
  }

  /** Forward once, never retry; a failed forward is a 503, whatever the node may have done. */
  function Forward(env: Env, proxy: Proxy, nodes: seq<Node>, link: Link, req: Request): (seq<Node>, Response)
    requires proxy.table.partitionCount > 0 && |proxy.table.owner| == proxy.table.partitionCount
    requires forall n :: n in nodes ==> n.cfg.partitionCount > 0
  {
    match Route(proxy, nodes, req.key)
    case None => (nodes, Fail(UNAVAILABLE))
    case Some(i) =>
      if link == Down then (nodes, Fail(UNAVAILABLE)) else
        var (node, resp) := Handle(env, nodes[i], Declared(proxy.table.partitionCount), req);
        (nodes[i := node], if link == Up then resp else Fail(UNAVAILABLE))
  }

  // ---------------------------------------------------------------- a correct cluster is one node

  /** Node i has the slot the proxy's table gives position i, and all share their limits. */
  ghost predicate WellConfigured(proxy: Proxy, nodes: seq<Node>, limits: Limits) {
    var parts := proxy.table.partitionCount;
    && proxy.table.Valid() && Distinct(proxy.table.nodeIds)
    && |nodes| == |proxy.table.nodeIds|
    && forall i :: 0 <= i < |nodes| ==>
         && proxy.table.nodeIds[i] in proxy.addresses && proxy.addresses[proxy.table.nodeIds[i]] == i
         && nodes[i].cfg.partitionCount == parts && nodes[i].cfg.limits == limits
         && RangeFor(i, |nodes|, parts) == Ok(nodes[i].cfg.owned)
  }

  /** The one node that owns every partition. */
  ghost predicate OwnsAll(single: Node, limits: Limits) {
    && single.cfg.partitionCount > 0
    && single.cfg.owned == Range(0, single.cfg.partitionCount)
    && single.cfg.limits == limits
  }

  /** The position of the node that owns key k. */
  ghost function HomeOf(proxy: Proxy, k: Key): (i: nat)
    requires proxy.table.Valid()
    ensures i < |proxy.table.nodeIds|
  {
    Owner(PartitionOf(k, proxy.table.partitionCount), |proxy.table.nodeIds|, proxy.table.partitionCount)
  }

  /** The cluster's stores, put together, are the single node's store. */
  ghost predicate SameContents(proxy: Proxy, nodes: seq<Node>, single: Node)
    requires proxy.table.Valid() && |nodes| == |proxy.table.nodeIds|
  {
    && (forall k :: Lookup(single.store, k) == Lookup(nodes[HomeOf(proxy, k)].store, k))
    && forall i, k :: 0 <= i < |nodes| && k in nodes[i].store ==> i == HomeOf(proxy, k)
  }

  /** Routing finds the one node whose range has the key's partition. */
  lemma {:induction false} RouteToHome(proxy: Proxy, nodes: seq<Node>, limits: Limits, k: Key)
    requires WellConfigured(proxy, nodes, limits)
    ensures Route(proxy, nodes, k) == Some(HomeOf(proxy, k))
    ensures nodes[HomeOf(proxy, k)].cfg.owned.Contains(PartitionOf(k, proxy.table.partitionCount))
  {
    var i, parts := HomeOf(proxy, k), proxy.table.partitionCount;
    var p := PartitionOf(k, parts);
    assert proxy.table.owner[p] == proxy.table.nodeIds[i];
    RangesTile(|nodes|, parts, i, i, p);
  }

  /** The owner accepts the key exactly when the single node does. */
  lemma {:induction false} RouteIsHome(proxy: Proxy, nodes: seq<Node>, single: Node, limits: Limits, k: Key)
    requires WellConfigured(proxy, nodes, limits) && OwnsAll(single, limits)
    ensures Route(proxy, nodes, k) == Some(HomeOf(proxy, k))
    ensures CheckKey(nodes[HomeOf(proxy, k)].cfg, k) == CheckKey(single.cfg, k)
  {
    RouteToHome(proxy, nodes, limits, k);
  }

  /** Handling a request depends on the key's own slot, the key check and the value limit alone. */
  lemma {:induction false} SameSlotSameAnswer(env: Env, a: Node, b: Node, req: Request)
    requires a.cfg.partitionCount > 0 && b.cfg.partitionCount > 0
    requires a.cfg.limits == b.cfg.limits && CheckKey(a.cfg, req.key) == CheckKey(b.cfg, req.key)
    requires Lookup(a.store, req.key) == Lookup(b.store, req.key)
    ensures var (a', ra) := Handle(env, a, Declared(a.cfg.partitionCount), req);
            var (b', rb) := Handle(env, b, Silent, req);
            ra == rb && Lookup(a'.store, req.key) == Lookup(b'.store, req.key)
  {
  }

  lemma {:induction false} OneRequest(env: Env, proxy: Proxy, nodes: seq<Node>, single: Node, limits: Limits,
      req: Request)
    requires WellConfigured(proxy, nodes, limits) && OwnsAll(single, limits) && SameContents(proxy, nodes, single)
    ensures var (nodes', r) := Forward(env, proxy, nodes, Up, req);
            var (single', r') := Handle(env, single, Silent, req);
            && r == r'
            && WellConfigured(proxy, nodes', limits) && OwnsAll(single', limits)
            && SameContents(proxy, nodes', single')
  {
    var home := HomeOf(proxy, req.key);
    RouteIsHome(proxy, nodes, single, limits, req.key);
    SameSlotSameAnswer(env, nodes[home], single, req);
    var (nodes', r) := Forward(env, proxy, nodes, Up, req);
    var (single', r') := Handle(env, single, Silent, req);
    HandleSlots(env, single, Silent, req, req.key);
    HandleSlots(env, nodes[home], Declared(proxy.table.partitionCount), req, req.key);
    forall k ensures Lookup(single'.store, k) == Lookup(nodes'[HomeOf(proxy, k)].store, k) {
      HandleSlots(env, single, Silent, req, k);
      HandleSlots(env, nodes[home], Declared(proxy.table.partitionCount), req, k);
    }
    forall i, k | 0 <= i < |nodes'| && k in nodes'[i].store ensures i == HomeOf(proxy, k) {
      HandleSlots(env, nodes[home], Declared(proxy.table.partitionCount), req, k);
    }
  }

  /** All responses of a run of requests, through the proxy. */
  ghost function ClusterRun(env: Env, proxy: Proxy, nodes: seq<Node>, limits: Limits,
      reqs: seq<Request>): seq<Response>
    requires WellConfigured(proxy, nodes, limits)
    decreases |reqs|
  {
    if reqs == [] then [] else
      var (nodes', r) := Forward(env, proxy, nodes, Up, reqs[0]);
      ForwardKeepsConfig(env, proxy, nodes, limits, reqs[0]);
      [r] + ClusterRun(env, proxy, nodes', limits, reqs[1..])
  }

  /** All responses of the same run on one node. */
  function NodeRun(env: Env, node: Node, reqs: seq<Request>): seq<Response>
    requires node.cfg.partitionCount > 0
    decreases |reqs|
  {
    if reqs == [] then [] else
      var (node', r) := Handle(env, node, Silent, reqs[0]);
      [r] + NodeRun(env, node', reqs[1..])
  }

  lemma {:induction false} ForwardKeepsConfig(env: Env, proxy: Proxy, nodes: seq<Node>, limits: Limits, req: Request)
    requires WellConfigured(proxy, nodes, limits)
    ensures WellConfigured(proxy, Forward(env, proxy, nodes, Up, req).0, limits)
  {
  }

  /**
   Sharding is transparent: for every partition count, every number of nodes up to it and every
   sequence of single-key requests, the proxy and its nodes give the responses, status, value and
   version alike, that one node owning everything gives.
   */
  lemma {:induction false} ShardingIsTransparent(env: Env, proxy: Proxy, nodes: seq<Node>, single: Node,
      limits: Limits, reqs: seq<Request>)
    requires WellConfigured(proxy, nodes, limits) && OwnsAll(single, limits) && SameContents(proxy, nodes, single)
    ensures ClusterRun(env, proxy, nodes, limits, reqs) == NodeRun(env, single, reqs)
    decreases |reqs|
  {
    if reqs == [] {
    } else {
      OneRequest(env, proxy, nodes, single, limits, reqs[0]);
      ShardingIsTransparent(env, proxy, Forward(env, proxy, nodes, Up, reqs[0]).0,
                            Handle(env, single, Silent, reqs[0]).0, limits, reqs[1..]);
    }
  }

  /** A cluster of empty nodes matches an empty node, so the theorem covers every life from the start. */
  lemma {:induction false} EmptyClusterMatches(proxy: Proxy, nodes: seq<Node>, single: Node)
    requires proxy.table.Valid() && |nodes| == |proxy.table.nodeIds|
    requires single.store == map[] && forall n :: n in nodes ==> n.store == map[]
    ensures SameContents(proxy, nodes, single)
  {
  }

  // ---------------------------------------------------------------- disagreement is never silent

  /**
   A proxy that hashes with another partition count than the node it reaches is told so, or is not answered
   at all. Whatever it asks, nothing is stored and nothing is read.
   */
  lemma {:induction false} OtherCountNeverServes(env: Env, a: Attempt, nodes: seq<Node>, i: nat)
    requires a.proxy.Usable() && forall n :: n in nodes ==> n.cfg.partitionCount > 0
    requires Route(a.proxy, nodes, a.req.key) == Some(i)
    requires a.proxy.table.partitionCount != nodes[i].cfg.partitionCount
    ensures var (nodes', resp) := Forward(env, a.proxy, nodes, a.link, a.req);
            && nodes' == nodes
            && resp == Response(if a.link == Up then 421 else 503, None, None)
  {
    OtherCountIsRefused(env, nodes[i], Declared(a.proxy.table.partitionCount), a.req);
  }

  /** A key without a known node, or a node out of reach, is answered 503, and nothing happens. */
  lemma {:induction false} UnreachableIsSaid(env: Env, a: Attempt, nodes: seq<Node>)
    requires a.proxy.Usable() && forall n :: n in nodes ==> n.cfg.partitionCount > 0
    ensures Route(a.proxy, nodes, a.req.key).None? || a.link == Down ==>
              Forward(env, a.proxy, nodes, a.link, a.req) == (nodes, Response(503, None, None))
    ensures Route(a.proxy, nodes, a.req.key).None? <==>
              var id := a.proxy.table.NodeFor(a.req.key);
              id !in a.proxy.addresses || a.proxy.addresses[id] >= |nodes|
  {
  }

  // ---------------------------------------------------------------- no silent loss

  /** Nodes that agree on the partition count and share no partition, each holding only its own keys. */
  ghost predicate Separate(nodes: seq<Node>, parts: nat) {
    && parts > 0
    && (forall i :: 0 <= i < |nodes| ==> Sound(nodes[i]) && nodes[i].cfg.partitionCount == parts)
    && (forall i, j, p :: 0 <= i < j < |nodes| && nodes[i].cfg.owned.Contains(p) ==> !nodes[j].cfg.owned.Contains(p))
  }

  /** A request through some proxy, over some link. Proxies differ freely in tables, counts and addresses. */
  datatype Attempt = Attempt(proxy: Proxy, link: Link, req: Request)

  lemma {:induction false} ForwardKeepsSeparate(env: Env, a: Attempt, nodes: seq<Node>, parts: nat)
    requires Separate(nodes, parts) && a.proxy.Usable()
    ensures Separate(Forward(env, a.proxy, nodes, a.link, a.req).0, parts)
    ensures |Forward(env, a.proxy, nodes, a.link, a.req).0| == |nodes|
  {
    var route := Route(a.proxy, nodes, a.req.key);
    if route.Some? {
      HandleKeepsSound(env, nodes[route.value], Declared(a.proxy.table.partitionCount), a.req);
      HandleSlots(env, nodes[route.value], Declared(a.proxy.table.partitionCount), a.req, a.req.key);
    }
  }

  /** Each key is stored on at most one node. */
  lemma {:induction false} OneHomePerKey(nodes: seq<Node>, parts: nat, i: nat, j: nat, k: Key)
    requires Separate(nodes, parts) && i < |nodes| && j < |nodes|
    requires k in nodes[i].store && k in nodes[j].store
    ensures i == j
  {
    var p := PartitionOf(k, parts);
    assert CheckKey(nodes[i].cfg, k).None? && CheckKey(nodes[j].cfg, k).None?;
    assert nodes[i].cfg.owned.Contains(p) && nodes[j].cfg.owned.Contains(p);
  }

  /** The nodes after a run of attempts. */
  ghost function Attempted(env: Env, nodes: seq<Node>, parts: nat, attempts: seq<Attempt>): (nodes': seq<Node>)
    requires Separate(nodes, parts) && forall a :: a in attempts ==> a.proxy.Usable()
    ensures Separate(nodes', parts) && |nodes'| == |nodes|
    decreases |attempts|
  {
    if attempts == [] then nodes else
      ForwardKeepsSeparate(env, attempts[0], nodes, parts);
      assert attempts[0] in attempts;
      Attempted(env, Forward(env, attempts[0].proxy, nodes, attempts[0].link, attempts[0].req).0, parts, attempts[1..])
  }

  /** Node i holds k at version v or later. */
  ghost predicate Holds(nodes: seq<Node>, i: nat, k: Key, v: nat) {
    i < |nodes| && k in nodes[i].store && nodes[i].store[k].version >= v
  }

  lemma {:induction false} HeldStaysHeld(env: Env, nodes: seq<Node>, parts: nat, attempts: seq<Attempt>, i: nat,
      k: Key, v: nat)
    requires Separate(nodes, parts) && (forall a :: a in attempts ==> a.proxy.Usable())
    requires Holds(nodes, i, k, v)
    ensures Holds(Attempted(env, nodes, parts, attempts), i, k, v)
    ensures Attempted(env, nodes, parts, attempts)[i].cfg == nodes[i].cfg
    decreases |attempts|
  {
    if attempts == [] {
    } else {
      var a := attempts[0];
      assert a in attempts;
      ForwardKeepsSeparate(env, a, nodes, parts);
      HandleSlots(env, nodes[i], Declared(a.proxy.table.partitionCount), a.req, k);
      var nodes' := Forward(env, a.proxy, nodes, a.link, a.req).0;
      assert nodes'[i].cfg == nodes[i].cfg && Holds(nodes', i, k, v);
      HeldStaysHeld(env, nodes', parts, attempts[1..], i, k, v);
    }
  }

  /** A request answered with success reached a node, and that node holds the key at the version it named. */
  lemma {:induction false} AcknowledgedIsHeld(env: Env, a: Attempt, nodes: seq<Node>, parts: nat) returns (i: nat)
    requires Separate(nodes, parts) && a.proxy.Usable()
    requires Forward(env, a.proxy, nodes, a.link, a.req).1.status == OK
    ensures Forward(env, a.proxy, nodes, a.link, a.req).1.version.Some?
    ensures Holds(Forward(env, a.proxy, nodes, a.link, a.req).0, i, a.req.key,
                  Forward(env, a.proxy, nodes, a.link, a.req).1.version.value)
  {
    i := Route(a.proxy, nodes, a.req.key).value;
    HandleSlots(env, nodes[i], Declared(a.proxy.table.partitionCount), a.req, a.req.key);
  }

  /** What a read of k can be answered while node i holds k. */
  lemma {:induction false} ReadOfHeldKey(env: Env, read: Attempt, nodes: seq<Node>, parts: nat, i: nat, k: Key,
      v: nat)
    requires Separate(nodes, parts) && read.proxy.Usable() && read.req == Get(k) && Holds(nodes, i, k, v)
    ensures var resp := Forward(env, read.proxy, nodes, read.link, read.req).1;
            || (resp.status == OK && resp.version.Some? && resp.version.value >= v)
            || resp.status == MISDIRECTED
            || resp.status == UNAVAILABLE
            || (resp.status == URI_TOO_LONG && exists j :: 0 <= j < |nodes| && |k| > nodes[j].cfg.limits.maxKeyBytes)
  {
    assert CheckKey(nodes[i].cfg, k).None?;
    assert nodes[i].cfg.owned.Contains(PartitionOf(k, parts));
    var route := Route(read.proxy, nodes, k);
    assert route.Some? && route.value != i ==> CheckKey(nodes[route.value].cfg, k).Some?;
  }

  /**
   No silent loss. Nodes share a partition count and own ranges that do not overlap; proxies may be
   configured in any way. Once a request for a key has been answered with success, every later read of
   the key, through any proxy and after any further requests, finds it at that version or a later
   one, is refused as misdirected, or does not get through. It is never told that the key does
   not exist.
   */
  lemma {:induction false} NoSilentLoss(env: Env, nodes: seq<Node>, parts: nat, first: Attempt,
      between: seq<Attempt>, read: Attempt)
    requires Separate(nodes, parts)
    requires first.proxy.Usable() && read.proxy.Usable() && forall a :: a in between ==> a.proxy.Usable()
    requires read.req == Get(first.req.key)
    requires Forward(env, first.proxy, nodes, first.link, first.req).1.status == OK
    ensures var (nodes', ack) := Forward(env, first.proxy, nodes, first.link, first.req);
            && Separate(nodes', parts)
            && var later := Attempted(env, nodes', parts, between);
               var resp := Forward(env, read.proxy, later, read.link, read.req).1;
               && resp.status != NOT_FOUND
               && (resp.status == OK ==>
                     ack.version.Some? && resp.version.Some? && resp.version.value >= ack.version.value)
               && (resp.status in {OK, MISDIRECTED, UNAVAILABLE}
                   || (resp.status == URI_TOO_LONG
                       && exists j :: 0 <= j < |later| && |read.req.key| > later[j].cfg.limits.maxKeyBytes))
  {
    ForwardKeepsSeparate(env, first, nodes, parts);
    var (nodes', ack) := Forward(env, first.proxy, nodes, first.link, first.req);
    var i := AcknowledgedIsHeld(env, first, nodes, parts);
    HeldStaysHeld(env, nodes', parts, between, i, first.req.key, ack.version.value);
    ReadOfHeldKey(env, read, Attempted(env, nodes', parts, between), parts, i, first.req.key, ack.version.value);
  }
}
