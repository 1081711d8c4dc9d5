/**
 From configuration to a working cluster: nodes that were given their positions by NODE_INDEX and NODE_COUNT,
 a proxy that was given the list of them, and the promise that together they are one store.
 */
module Deployment {
  import opened Prelude
  import opened AtomicMap
  import opened Routing
  import opened RangeText
  import opened Decimal
  import opened Table
  import Text
  import opened Config
  import N = Node
  import C = Cluster

  /** The range a node takes when no override is given. */
  function SlotRange(index: int, count: int, parts: int): Result<Range, ConfigError> {
    ChooseOwned("", index, count, parts)
  }

  /**
   The slots of a cluster share out the partitions: a position is taken exactly if it is one of the cluster's,
   and every partition is then owned at one position and no other, that of its owner.
   */
  lemma {:induction false} SlotsShareOut(count: int, parts: int, i: int, p: nat)
    ensures SlotRange(i, count, parts).Ok? <==> 0 <= i < count && ValidPartitionCount(parts)
    ensures 0 <= i < count && ValidPartitionCount(parts) && p < parts ==>
              (SlotRange(i, count, parts).value.Contains(p) <==> i == Owner(p, count, parts))
    ensures 0 <= i < count && ValidPartitionCount(parts) && p >= parts ==> !SlotRange(i, count, parts).value.Contains(p)
  {
    if 0 <= i < count && ValidPartitionCount(parts) {
      RangeEnds(i, count, parts);
      if p < parts { RangesTile(count, parts, i, i, p); }
    }
  }

  /** Positions follow each other without gaps, from the first partition to the last. */
  lemma {:induction false} SlotsFollow(count: int, parts: int, i: int)
    requires 0 <= i < count && ValidPartitionCount(parts)
    ensures i == 0 ==> SlotRange(i, count, parts).value.lo == 0
    ensures i == count - 1 ==> SlotRange(i, count, parts).value.hi == parts
    ensures i + 1 < count ==> SlotRange(i, count, parts).value.hi == SlotRange(i + 1, count, parts).value.lo
  {
    RangesTile(count, parts, i, i, 0);
  }

  /** An override that names partitions there are is taken as it stands; one that ends past them is not. */
  lemma {:induction false} OverrideIsTaken(lo: nat, hi: nat, index: int, count: int, parts: int)
    requires ValidPartitionCount(parts) && lo < TWO_64 && hi < TWO_64 - 1
    ensures var r := ChooseOwned(Print(lo) + "-" + Print(hi), index, count, parts);
            && (r.Ok? <==> lo <= hi < parts)
            && (r.Ok? ==> r.value == Range(lo, hi + 1))
            && (lo <= hi && parts <= hi ==> r == Err(OverrideTooLarge(Range(lo, hi + 1))))
            && (hi < lo ==> r == Err(BadOverride(EndsBeforeStart)))
  {
    ParseShown(lo, hi);
    assert |Print(lo) + "-" + Print(hi)| > 0;
  }

  // ---------------------------------------------------------------- the cluster put together

  /** Where urls lead: the position of the node that listens there. */
  type Network = map<string, nat>

  /** The proxy with its list, on this network. */
  function ProxyOn(n: Nodes, t: Table, network: Network): C.Proxy {
    C.Proxy(t, map id | id in n.addresses && n.addresses[id] in network :: network[n.addresses[id]])
  }

  /** Node i was started at position i of as many as the list has, and listens where the list says. */
  ghost predicate Started(n: Nodes, t: Table, network: Network, nodes: seq<N.Node>, limits: N.Limits) {
    && |nodes| == |n.ids|
    && forall i :: 0 <= i < |nodes| ==>
         && SlotRange(i, |nodes|, t.partitionCount) == Ok(nodes[i].cfg.owned)
         && nodes[i].cfg.partitionCount == t.partitionCount
         && nodes[i].cfg.limits == limits
         && n.ids[i] in n.addresses && n.addresses[n.ids[i]] in network && network[n.addresses[n.ids[i]]] == i
  }

  /** Positions and list agree, so the cluster is well configured. */
  lemma {:induction false} StartedIsWellConfigured(n: Nodes, t: Table, network: Network, nodes: seq<N.Node>,
      limits: N.Limits)
    requires Serves(n, t) && Started(n, t, network, nodes, limits)
    ensures C.WellConfigured(ProxyOn(n, t, network), nodes, limits)
  {
  }

  /**
   A proxy that starts on a list, and nodes started at the list's positions with nothing stored, answer
   every run of requests as one node that owns everything would.
   */
  method StartCluster(raw: string, partitionCount: int, network: Network, ghost nodes: seq<N.Node>,
      ghost limits: N.Limits) returns (r: Result<C.Proxy, ConfigError>)
    ensures r.Ok? <==>
              var pairs := Entries(Text.Split(raw, ','));
              ValidPartitionCount(partitionCount) && 0 < |pairs| <= partitionCount && Usable(pairs)
    ensures r.Ok? ==> r.value.table.partitionCount == partitionCount
    ensures r.Ok? ==> exists n: Nodes ::
              && Records(n, Entries(Text.Split(raw, ','))) && r.value == ProxyOn(n, r.value.table, network)
              && (Started(n, r.value.table, network, nodes, limits) && (forall m :: m in nodes ==> m.store == map[]) ==>
                    IsOneStore(r.value, nodes, limits))
  {
    var started := StartProxy(raw, partitionCount);
    if started.Err? {
      return Err(started.error);
    }
    var (n, t) := started.value;
    r := Ok(ProxyOn(n, t, network));
    if Started(n, t, network, nodes, limits) && forall m :: m in nodes ==> m.store == map[] {
      StartedIsWellConfigured(n, t, network, nodes, limits);
      FreshIsOneStore(r.value, nodes, limits);
    }
  }

  /** The proxy and these nodes answer as any one empty node that owns everything. */
  ghost predicate IsOneStore(proxy: C.Proxy, nodes: seq<N.Node>, limits: N.Limits) {
    && C.WellConfigured(proxy, nodes, limits)
    && forall env: N.Env, single: N.Node, reqs: seq<N.Request> :: C.OwnsAll(single, limits) && single.store == map[] ==>
         C.ClusterRun(env, proxy, nodes, limits, reqs) == C.NodeRun(env, single, reqs)
  }

  lemma {:induction false} FreshIsOneStore(proxy: C.Proxy, nodes: seq<N.Node>, limits: N.Limits)
    requires C.WellConfigured(proxy, nodes, limits) && forall m :: m in nodes ==> m.store == map[]
    ensures IsOneStore(proxy, nodes, limits)
  {
    forall env: N.Env, single: N.Node, reqs: seq<N.Request> | C.OwnsAll(single, limits) && single.store == map[]
      ensures C.ClusterRun(env, proxy, nodes, limits, reqs) == C.NodeRun(env, single, reqs)
    {
      C.EmptyClusterMatches(proxy, nodes, single);
      C.ShardingIsTransparent(env, proxy, nodes, single, limits, reqs);
    }
  }
}
