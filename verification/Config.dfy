/** Reading the cluster from the environment: the proxy's node list and a node's share of partitions. */
module Config {
  import opened Prelude
  import opened Routing
  import opened Table
  import opened Text
  import opened Decimal
  import opened RangeText

  datatype ConfigError =
    | NodesMissing
    | NotIdUrl(pair: string)
    | ListedTwice(id: string)
    | BadPartitions(count: int)
    | BadOverride(error: RangeError)
    | OverrideTooLarge(range: Range)
    | BadSlot(reason: RoutingError)

  /** The proxy's view of the cluster: ids in order, and where each one listens. */
  datatype Nodes = Nodes(ids: seq<string>, addresses: map<string, string>)

  /** One entry of the list: an id and a url without trailing slashes, or text that is neither. */
  datatype Pair = Pair(id: string, url: string) | Malformed(text: string)

  function ReadPair(text: string): Pair {
    var (left, right, found) := Cut(text, '=');
    var id, url := TrimSpace(left), TrimSpace(right);
    if !found || id == "" || url == "" then Malformed(text) else Pair(id, TrimSuffixes(url, '/'))
  }

  /** The entries of a comma-separated list, trimmed, blank ones dropped. */
  function Entries(parts: seq<string>): seq<Pair> {
    if parts == [] then [] else
      var last := |parts| - 1;
      var entry := TrimSpace(parts[last]);
      Entries(parts[..last]) + if entry == "" then [] else [ReadPair(entry)]
  }

  /** Entries the proxy can use: each an id and a url, no id twice. */
  ghost predicate Usable(pairs: seq<Pair>) {
    && (forall i :: 0 <= i < |pairs| ==> pairs[i].Pair?)
    && (forall i, j :: 0 <= i < j < |pairs| ==> pairs[i].id != pairs[j].id)
  }

  /** The ids in order, and addresses that name exactly those ids, each with its own url. */
  ghost predicate Records(n: Nodes, pairs: seq<Pair>)
    requires Usable(pairs)
  {
    && |n.ids| == |pairs|
    && (forall i :: 0 <= i < |pairs| ==>
          n.ids[i] == pairs[i].id && n.ids[i] in n.addresses && n.addresses[n.ids[i]] == pairs[i].url)
    && (forall id :: id in n.addresses ==> id in n.ids)
  }

  /** A rejection names a culprit among the entries. */
  ghost predicate Culprit(e: ConfigError, pairs: seq<Pair>) {
    match e
    case NotIdUrl(text) => Malformed(text) in pairs
    case ListedTwice(id) =>
      exists i, j :: 0 <= i < j < |pairs| && pairs[i].Pair? && pairs[j].Pair? && pairs[i].id == pairs[j].id == id
    case NodesMissing => pairs == []
    case _ => false
  }

  /**
   The NODES loop accepts a text exactly when it has at least one entry, every entry is an id and
   a url, and no id repeats; then the result records the entries in order.
   */
  method LoadNodes(raw: string) returns (r: Result<Nodes, ConfigError>)
    ensures var pairs := Entries(Split(raw, ','));
            && (r.Ok? <==> pairs != [] && Usable(pairs))
            && (r.Ok? ==> Records(r.value, pairs))
            && (r.Err? ==> Culprit(r.error, pairs))
  {
    var parts := Split(raw, ',');
    if TrimSpace(raw) == "" {
      BlankHasNoEntries(raw);
      return Err(NodesMissing);
    }
    var nodes := Nodes([], map[]);
    for i := 0 to |parts|
      invariant ReadSoFar(nodes, parts, i)
    {
      var added := AddPart(nodes, parts, i);
      if added.Err? {
        return added;
      }
      nodes := added.value;
    }
    assert parts[..|parts|] == parts;
    if |nodes.ids| == 0 {
      return Err(NodesMissing);
    }
    return Ok(nodes);
  }

  /** The nodes record the entries of the first i parts. */
  ghost predicate ReadSoFar(nodes: Nodes, parts: seq<string>, i: nat) {
    i <= |parts| && Usable(Entries(parts[..i])) && Records(nodes, Entries(parts[..i]))
  }

  /** One round of the loop: skip a blank part, add an entry, or fail with an error that fits the whole list. */
  method AddPart(nodes: Nodes, parts: seq<string>, i: nat) returns (r: Result<Nodes, ConfigError>)
    requires i < |parts| && ReadSoFar(nodes, parts, i)
    ensures r.Ok? ==> ReadSoFar(r.value, parts, i + 1)
    ensures r.Err? ==> Entries(parts) != [] && !Usable(Entries(parts)) && Culprit(r.error, Entries(parts))
  {
    NextEntry(parts, i);
    var pair := TrimSpace(parts[i]);
    if pair == "" {
      return Ok(nodes);
    }
    r := AddPair(nodes, ReadPair(pair), Entries(parts[..i]));
    if r.Err? {
      UnusableStays(Entries(parts[..i + 1]), Entries(parts), r.error);
    }
  }

  method AddPair(nodes: Nodes, pair: Pair, ghost before: seq<Pair>) returns (r: Result<Nodes, ConfigError>)
    requires Usable(before) && Records(nodes, before)
    ensures r.Ok? ==> Usable(before + [pair]) && Records(r.value, before + [pair])
    ensures r.Err? ==> !Usable(before + [pair]) && Culprit(r.error, before + [pair])
  {
    ghost var after := before + [pair];
    assert after[|before|] == pair;
    if pair.Malformed? {
      return Err(NotIdUrl(pair.text));
    }
    if pair.id in nodes.addresses {
      ghost var j :| 0 <= j < |before| && nodes.ids[j] == pair.id;
      assert after[j].id == after[|before|].id;
      return Err(ListedTwice(pair.id));
    }
    return Ok(Nodes(nodes.ids + [pair.id], nodes.addresses[pair.id := pair.url]));
  }

  lemma {:induction false} UnusableStays(some: seq<Pair>, all: seq<Pair>, e: ConfigError)
    requires some <= all && !Usable(some) && some != [] && Culprit(e, some)
    ensures !Usable(all) && Culprit(e, all)
  {
  }

  /** What one more part of the list adds, and that reading on never takes an entry back. */
  lemma {:induction false} NextEntry(parts: seq<string>, i: nat)
    requires i < |parts|
    ensures var entry := TrimSpace(parts[i]);
            Entries(parts[..i + 1]) == Entries(parts[..i]) + if entry == "" then [] else [ReadPair(entry)]
    ensures Entries(parts[..i + 1]) <= Entries(parts)
  {
    assert parts[..i + 1][..i] == parts[..i];
    EntriesGrow(parts, i + 1);
  }

  lemma {:induction false} EntriesGrow(parts: seq<string>, i: nat)
    requires i <= |parts|
    ensures Entries(parts[..i]) <= Entries(parts)
  {
    if i == |parts| {
      assert parts[..i] == parts;
    } else {
      var last := |parts| - 1;
      var entry := TrimSpace(parts[last]);
      EntriesGrow(parts[..last], i);
      assert parts[..last][..i] == parts[..i];
      assert Entries(parts) == Entries(parts[..last]) + if entry == "" then [] else [ReadPair(entry)];
    }
  }

  lemma {:induction false} BlankHasNoEntries(s: string)
    requires TrimSpace(s) == ""
    ensures Entries(Split(s, ',')) == []
  {
    var a, b := TrimTakes(s);
    assert s == a + b && AllSpace(s);
    assert ',' !in s;
    assert Split(s, ',') == [s] && [s][..0] == [];
  }

  /**
   Starting the proxy: read the list, build the table. It starts exactly when the partition count
   is a power of two and the list has between one and that many usable entries. Then ids are
   distinct, a key is routed to a node exactly when the node's range holds the key's partition,
   every node is routed to, and a routed node always has an address, so a forward never meets an
   unknown node.
   */
  method StartProxy(raw: string, partitionCount: int) returns (r: Result<(Nodes, Table), ConfigError>)
    ensures var pairs := Entries(Split(raw, ','));
            && (r.Ok? <==> ValidPartitionCount(partitionCount) && 0 < |pairs| <= partitionCount && Usable(pairs))
            && (r.Ok? ==> Records(r.value.0, pairs))
    ensures r.Ok? ==> Serves(r.value.0, r.value.1) && r.value.1.partitionCount == partitionCount
    ensures r.Err? ==>
              match r.error
              case BadPartitions(count) => count == partitionCount && !ValidPartitionCount(partitionCount)
              case BadSlot(reason) => reason == TooManyNodes(|Entries(Split(raw, ','))|)
              case e => Culprit(e, Entries(Split(raw, ',')))
  {
    if !ValidPartitionCount(partitionCount) {
      return Err(BadPartitions(partitionCount));
    }
    var loaded := LoadNodes(raw);
    if loaded.Err? {
      return Err(loaded.error);
    }
    var nodes := loaded.value;
    var built := NewTable(nodes.ids, partitionCount);
    if built.Err? {
      return Err(BadSlot(built.error));
    }
    TableServes(nodes, built.value, Entries(Split(raw, ',')));
    return Ok((nodes, built.value));
  }

  /**
   Ids are distinct, a key is routed to a node exactly when the node's range holds the key's partition,
   every node is routed to, and a routed node has an address.
   */
  ghost predicate Serves(n: Nodes, t: Table) {
    && t.Valid() && t.nodeIds == n.ids
    && Distinct(n.ids)
    && (forall key: Key :: t.NodeFor(key) in n.addresses)
    && (forall key: Key, i :: 0 <= i < |n.ids| ==>
          (t.NodeFor(key) == n.ids[i] <==>
           RangeFor(i, |n.ids|, t.partitionCount).value.Contains(PartitionOf(key, t.partitionCount))))
    && (forall i :: 0 <= i < |n.ids| ==> n.ids[i] in t.owner)
  }

  lemma {:induction false} TableServes(n: Nodes, t: Table, pairs: seq<Pair>)
    requires Usable(pairs) && Records(n, pairs) && t.Valid() && t.nodeIds == n.ids
    ensures Serves(n, t)
  {
    forall key: Key, i | 0 <= i < |n.ids|
      ensures t.NodeFor(key) == n.ids[i] <==>
              RangeFor(i, |n.ids|, t.partitionCount).value.Contains(PartitionOf(key, t.partitionCount))
    {
      TableAgreesWithRanges(t, key, i);
    }
    forall i | 0 <= i < |n.ids| ensures n.ids[i] in t.owner {
      TableAgreesWithRanges(t, [], i);
    }
  }

  // ---------------------------------------------------------------- a node's own range

  /** The override wins over the slot; a slot is an index into the cluster size. */
  function ChooseOwned(override: string, index: int, count: int, partitionCount: int): Result<Range, ConfigError> {
    if !ValidPartitionCount(partitionCount) then Err(BadPartitions(partitionCount))
    else if override != "" then
      match ParseRange(override)
      case Err(e) => Err(BadOverride(e))
      case Ok(r) => if r.hi > partitionCount then Err(OverrideTooLarge(r)) else Ok(r)
    else
      match RangeFor(index, count, partitionCount)
      case Err(e) => Err(BadSlot(e))
      case Ok(r) => Ok(r)
  }

  /**
   An accepted node never claims a partition that does not exist. An accepted override claims
   exactly the partitions it names if and only if its upper bound is not the largest 64-bit number;
   that one passes the size check and leaves the node owning nothing.
   */
  lemma {:induction false} OwnedIsWithinPartitions(override: string, index: int, count: int, partitionCount: int)
    requires ChooseOwned(override, index, count, partitionCount).Ok?
    ensures var r := ChooseOwned(override, index, count, partitionCount).value;
            && (forall p: nat :: r.Contains(p) ==> p < partitionCount)
            && (override != "" ==>
                  && ParseRange(override).Ok?
                  && var (lo, hi) := Named(override);
                     && ((forall p: nat :: r.Contains(p) <==> lo <= p <= hi) <==> hi < TWO_64 - 1)
                     && (hi < TWO_64 - 1 ==> hi < partitionCount))
  {
    if override != "" {
      AcceptedText(override);
      var (lo, hi) := Named(override);
      if hi < TWO_64 - 1 {
        var r := ChooseOwned(override, index, count, partitionCount).value;
        assert r.Contains(hi);
      }
    } else {
      RangeEnds(index, count, partitionCount);
    }
  }

  /** The override "0-18446744073709551615" is accepted and means no partition at all. */
  lemma {:induction false} LargestOverrideOwnsNothing(index: int, count: int, partitionCount: int)
    requires ValidPartitionCount(partitionCount)
    ensures ChooseOwned(Print(0) + "-" + Print(TWO_64 - 1), index, count, partitionCount) == Ok(Range(0, 0))
  {
    ParseShown(0, TWO_64 - 1);
  }
}
