/** The proxy's routing table: which node owns each partition. */
module Table {
  import opened Prelude
  import opened Routing

  datatype Table = Table(partitionCount: nat, owner: seq<string>, nodeIds: seq<string>) {

    /** What NewTable establishes: the owner slice agrees with RangeFor at every partition. */
    ghost predicate Valid() {
      && ValidPartitionCount(partitionCount)
      && 0 < |nodeIds| <= partitionCount
      && |owner| == partitionCount
      && forall p :: 0 <= p < partitionCount ==> owner[p] == nodeIds[Owner(p, |nodeIds|, partitionCount)]
    }

    function NodeFor(key: Key): string
      requires partitionCount > 0 && |owner| == partitionCount
    {
      owner[PartitionOf(key, partitionCount)]
    }
  }

  /** Fill the owner slice range by range, in cluster order. */
  method NewTable(nodeIds: seq<string>, partitionCount: int) returns (r: Result<Table, RoutingError>)
    ensures r.Ok? <==> 0 < |nodeIds| <= partitionCount && ValidPartitionCount(partitionCount)
    ensures r.Ok? ==> r.value.Valid() && r.value.nodeIds == nodeIds && r.value.partitionCount == partitionCount
    ensures match r
            case Err(NoNodes) => nodeIds == []
            case Err(BadPartitionCount(count)) => count == partitionCount && !ValidPartitionCount(partitionCount)
            case Err(TooManyNodes(count)) => count == |nodeIds| > partitionCount
            case Err(_) => false
            case Ok(_) => true
  {
    if |nodeIds| == 0 {
      return Err(NoNodes);
    }
    if !ValidPartitionCount(partitionCount) {
      return Err(BadPartitionCount(partitionCount));
    }
    if |nodeIds| > partitionCount {
      return Err(TooManyNodes(|nodeIds|));
    }
    var n := |nodeIds|;
    var owner := new string[partitionCount];
    LoEnds(n, partitionCount);
    for i := 0 to n
      invariant Lo(i, n, partitionCount) <= partitionCount
      invariant forall p :: 0 <= p < Lo(i, n, partitionCount) ==>
                  owner[p] == nodeIds[Owner(p, n, partitionCount)]
    {
      LoStep(i, n, partitionCount);
      LoMonotone(i + 1, n, n, partitionCount);
      var range := RangeFor(i, n, partitionCount).value;
      FillRange(owner, range, nodeIds[i]);
      forall p | range.lo <= p < range.hi ensures Owner(p, n, partitionCount) == i {
        OwnerUnique(p, i, n, partitionCount);
      }
    }
    return Ok(Table(partitionCount, owner[..], nodeIds));
  }

  method FillRange(owner: array<string>, range: Range, id: string)
    requires range.lo <= range.hi <= owner.Length
    modifies owner
    ensures forall p :: range.lo <= p < range.hi ==> owner[p] == id
    ensures forall p :: 0 <= p < owner.Length && !(range.lo <= p < range.hi) ==> owner[p] == old(owner[p])
  {
    for p := range.lo to range.hi
      invariant forall q :: range.lo <= q < p ==> owner[q] == id
      invariant forall q :: 0 <= q < owner.Length && !(range.lo <= q < p) ==> owner[q] == old(owner[q])
    {
      owner[p] := id;
    }
  }

  /** No position in (i, n) repeats the id at i. */
  ghost predicate LastAt(ids: seq<string>, i: nat, n: nat)
    requires i < n <= |ids|
  {
    forall j :: i < j < n ==> ids[j] != ids[i]
  }

  /** Each node's range, for the diagnostics endpoint. With a repeated id the last position wins. */
  method Ranges(t: Table) returns (out: map<string, Range>)
    requires t.Valid()
    ensures out.Keys == set i | 0 <= i < |t.nodeIds| :: t.nodeIds[i]
    ensures forall i :: 0 <= i < |t.nodeIds| && LastAt(t.nodeIds, i, |t.nodeIds|) ==>
              out[t.nodeIds[i]] == RangeFor(i, |t.nodeIds|, t.partitionCount).value
  {
    out := map[];
    var n := |t.nodeIds|;
    for i := 0 to n
      invariant out.Keys == set j | 0 <= j < i :: t.nodeIds[j]
      invariant forall j :: 0 <= j < i && LastAt(t.nodeIds, j, i) ==>
                  out[t.nodeIds[j]] == RangeFor(j, n, t.partitionCount).value
    {
      var range := RangeFor(i, n, t.partitionCount).value;
      out := out[t.nodeIds[i] := range];
    }
  }

  /**
   With distinct ids the table, RangeFor and Ranges tell the same story: the node a key is routed to
   is the one node whose range holds the key's partition, and every node is routed to.
   */
  lemma {:induction false} TableAgreesWithRanges(t: Table, key: Key, i: nat)
    requires t.Valid() && Distinct(t.nodeIds) && i < |t.nodeIds|
    ensures t.NodeFor(key) == t.nodeIds[i] <==>
              RangeFor(i, |t.nodeIds|, t.partitionCount).value.Contains(PartitionOf(key, t.partitionCount))
    ensures exists p :: 0 <= p < t.partitionCount && t.owner[p] == t.nodeIds[i]
  {
    var n, parts := |t.nodeIds|, t.partitionCount;
    var p := PartitionOf(key, parts);
    RangesTile(n, parts, i, i, p);
    NoIdleNode(n, parts);
    var first := Lo(i, n, parts);
    assert Size(i, n, parts) > 0;
    OwnerUniqueAtStart(i, n, parts);
    assert t.owner[first] == t.nodeIds[i];
  }

  lemma {:induction false} OwnerUniqueAtStart(i: nat, n: nat, parts: nat)
    requires i < n && Size(i, n, parts) > 0
    ensures Lo(i, n, parts) < parts && Owner(Lo(i, n, parts), n, parts) == i
  {
    LoStep(i, n, parts);
    LoEnds(n, parts);
    LoMonotone(i + 1, n, n, parts);
    OwnerUnique(Lo(i, n, parts), i, n, parts);
  }
}
