/**
 Listing the keys of the whole cluster: every node lists its own store while writes go on, names itself
 on each line, and the proxy merges the streams.
 */
module ClusterListing {
  import opened Prelude
  import opened Routing
  import opened StoreInvariant
  import P = StoreProtocol
  import K = ConcurrentKeys
  import M = LineMerge

  // ---------------------------------------------------------------- what a node can hold

  ghost predicate Asks<V>(a: P.Action<V>, k: Key) {
    a.Arrive? && a.job.Point? && a.job.call.WriteCall? && a.job.call.op.key == k
  }

  /** Every write that was ever asked of this store was for a key that is ok. */
  ghost predicate WritesOnly<V>(actions: seq<P.Action<V>>, ok: Key -> bool) {
    forall i, k :: 0 <= i < |actions| && Asks(actions[i], k) ==> ok(k)
  }

  /** Calls write, and tables hold, only keys that are ok. */
  ghost predicate HoldsOnly<V>(s: P.State<V>, ok: Key -> bool) {
    && |s.parts| > 0
    && (forall c :: c in s.threads && s.threads[c].Writes() ==> ok(s.threads[c].job.call.op.key))
    && (forall k :: s.Present(k) ==> ok(k))
  }

  lemma {:induction false} StepHoldsOnly<V>(merge: (V, V) -> V, s: P.State<V>, a: P.Action<V>, ok: Key -> bool)
    requires P.Allowed(s, a) && HoldsOnly(s, ok) && forall k :: Asks(a, k) ==> ok(k)
    ensures HoldsOnly(P.Step(merge, s, a), ok)
  {
    var s' := P.Step(merge, s, a);
    if a.Move? {
      FireEffect(merge, s, a.c, a.pick);
      forall k | s'.Present(k) ensures ok(k) {
        CurrentAfter(s, s', a.c, k, s'.Pointer(k));
      }
    } else {
      forall k | s'.Present(k) ensures s.Present(k) {}
      assert a.job.Point? && a.job.call.WriteCall? ==> Asks(a, a.job.call.op.key);
    }
  }

  /** A store holds only keys it was asked to write: it invents none. */
  lemma {:induction false} HoldsOnlyWritten<V>(merge: (V, V) -> V, states: seq<P.State<V>>,
      actions: seq<P.Action<V>>, ok: Key -> bool, n: nat)
    requires P.IsRun(merge, states, actions) && n < |states| && WritesOnly(actions, ok)
    ensures HoldsOnly(states[n], ok)
  {
    if n == 0 {
    } else {
      HoldsOnlyWritten(merge, states, actions, ok, n - 1);
      StepHoldsOnly(merge, states[n - 1], actions[n - 1], ok);
    }
  }

  /** The keys of a range of partitions. */
  ghost function InRange(owned: Range, parts: nat): Key -> bool
    requires parts > 0
  {
    k => owned.Contains(PartitionOf(k, parts))
  }

  /** A store asked to write only keys of its range holds only those. */
  lemma {:induction false} HoldsOnlyItsRange<V>(merge: (V, V) -> V, states: seq<P.State<V>>,
      actions: seq<P.Action<V>>, owned: Range, parts: nat, n: nat)
    requires parts > 0 && P.IsRun(merge, states, actions) && n < |states|
    requires WritesOnly(actions, InRange(owned, parts))
    ensures |states[n].parts| > 0 && forall k :: states[n].Present(k) ==> owned.Contains(PartitionOf(k, parts))
  {
    HoldsOnlyWritten(merge, states, actions, InRange(owned, parts), n);
  }

  // ---------------------------------------------------------------- from lines back to keys

  /** A key in the listing, and the node that listed it. */
  datatype Item = Item(key: Key, node: nat)

  /** The keys one node contributed, in order. */
  function KeysAt(listing: seq<Item>, i: nat): seq<Key> {
    if listing == [] then [] else
      KeysAt(listing[..|listing| - 1], i) +
      if listing[|listing| - 1].node == i then [listing[|listing| - 1].key] else []
  }

  /** One line per key, made by the node's JSON encoder. */
  function Encoded(encode: (Key, string) -> Bytes, keys: seq<Key>, id: string): (lines: seq<Bytes>)
    ensures |lines| == |keys| && forall j :: 0 <= j < |keys| ==> lines[j] == encode(keys[j], id)
  {
    seq(|keys|, j requires 0 <= j < |keys| => encode(keys[j], id))
  }

  /** The stream a node sends when it lists these keys and nothing goes wrong. */
  function StreamOf(encode: (Key, string) -> Bytes, keys: seq<Key>, id: string): M.Source {
    M.Source(M.Render(Encoded(encode, keys, id)), None)
  }

  /** The line of each item. */
  function ItemLines(encode: (Key, string) -> Bytes, ids: seq<string>, listing: seq<Item>): seq<Bytes>
    requires forall j :: 0 <= j < |listing| ==> listing[j].node < |ids|
  {
    seq(|listing|, j requires 0 <= j < |listing| => encode(listing[j].key, ids[listing[j].node]))
  }

  /** An item that is its node's next key extends that node's keys and leaves the others'. */
  lemma {:induction false} AppendKey(listing: seq<Item>, item: Item, i: nat, keys: seq<Key>, r: nat)
    requires Taken(listing, i, keys, r)
    requires item.node == i ==> r < |keys| && item.key == keys[r]
    ensures Taken(listing + [item], i, keys, if item.node == i then r + 1 else r)
  {
    assert (listing + [item])[..|listing|] == listing;
  }

  /** Each node's lines are lines of its keys, from the first on. */
  ghost predicate Partial(encode: (Key, string) -> Bytes, ids: seq<string>, keys: seq<seq<Key>>, log: seq<M.Line>) {
    && |ids| == |keys|
    && (forall j :: 0 <= j < |log| ==> log[j].worker < |ids|)
    && (forall i :: 0 <= i < |ids| ==> M.From(log, i) <= Encoded(encode, keys[i], ids[i]))
  }

  /** Item by item, the listing says which key each line stands for. */
  ghost predicate Names(encode: (Key, string) -> Bytes, ids: seq<string>, log: seq<M.Line>, listing: seq<Item>) {
    && |listing| == |log|
    && forall j :: 0 <= j < |log| ==> Stands(encode, ids, log[j], listing[j])
  }

  ghost predicate Stands(encode: (Key, string) -> Bytes, ids: seq<string>, line: M.Line, item: Item) {
    item.node == line.worker < |ids| && line.text == encode(item.key, ids[item.node])
  }

  /** The listing has taken r of node i's keys, in order. */
  ghost predicate Taken(listing: seq<Item>, i: nat, keys: seq<Key>, r: nat) {
    r <= |keys| && KeysAt(listing, i) == keys[..r]
  }

  /** Which key each line of a merged response stands for. */
  lemma {:induction false} Attribute(encode: (Key, string) -> Bytes, ids: seq<string>, keys: seq<seq<Key>>,
      log: seq<M.Line>)
    returns (listing: seq<Item>)
    requires Partial(encode, ids, keys, log)
    ensures Names(encode, ids, log, listing)
    ensures forall i :: 0 <= i < |ids| ==> Taken(listing, i, keys[i], |M.From(log, i)|)
    decreases |log|
  {
    if log == [] {
      listing := [];
    } else {
      PartialBefore(encode, ids, keys, log);
      var init, last := log[..|log| - 1], log[|log| - 1];
      listing := Attribute(encode, ids, keys, init);
      NextKey(encode, keys[last.worker], ids[last.worker], M.From(init, last.worker), last.text);
      var item := Item(keys[last.worker][|M.From(init, last.worker)|], last.worker);
      NameLast(encode, ids, keys, log, listing, item);
      listing := listing + [item];
    }
  }

  lemma {:induction false} NameLast(encode: (Key, string) -> Bytes, ids: seq<string>, keys: seq<seq<Key>>,
      log: seq<M.Line>, listing: seq<Item>, item: Item)
    requires |ids| == |keys| && log != []
    requires var init := log[..|log| - 1];
             && Names(encode, ids, init, listing) && Stands(encode, ids, log[|log| - 1], item)
             && (forall i :: 0 <= i < |ids| ==> Taken(listing, i, keys[i], |M.From(init, i)|))
             && var r := |M.From(init, item.node)|; r < |keys[item.node]| && item.key == keys[item.node][r]
    ensures Names(encode, ids, log, listing + [item])
    ensures forall i :: 0 <= i < |ids| ==> Taken(listing + [item], i, keys[i], |M.From(log, i)|)
  {
    var init := log[..|log| - 1];
    forall i: nat | i < |ids| ensures Taken(listing + [item], i, keys[i], |M.From(log, i)|) {
      AppendKey(listing, item, i, keys[i], |M.From(init, i)|);
    }
  }

  lemma {:induction false} PartialBefore(encode: (Key, string) -> Bytes, ids: seq<string>, keys: seq<seq<Key>>,
      log: seq<M.Line>)
    requires Partial(encode, ids, keys, log) && log != []
    ensures var init, last := log[..|log| - 1], log[|log| - 1];
            && Partial(encode, ids, keys, init)
            && M.From(init, last.worker) + [last.text] <= Encoded(encode, keys[last.worker], ids[last.worker])
  {
    var init := log[..|log| - 1];
    forall i: nat | i < |ids| ensures M.From(init, i) <= Encoded(encode, keys[i], ids[i]) {
      assert M.From(init, i) <= M.From(log, i);
    }
  }

  /** A node's next line is the line of its next key. */
  lemma {:induction false} NextKey(encode: (Key, string) -> Bytes, keys: seq<Key>, id: string, lines: seq<Bytes>,
      line: Bytes)
    requires lines + [line] <= Encoded(encode, keys, id)
    ensures |lines| < |keys| && line == encode(keys[|lines|], id)
  {
    assert (lines + [line])[|lines|] == line;
  }

  /** The item at position a is its node's key number |KeysAt(listing[..a])|. */
  lemma {:induction false} KeysAtRank(listing: seq<Item>, a: nat, i: nat)
    requires a < |listing|
    ensures KeysAt(listing[..a], i) <= KeysAt(listing[..a + 1], i) <= KeysAt(listing, i)
    ensures listing[a].node == i ==>
              && |KeysAt(listing[..a], i)| < |KeysAt(listing, i)|
              && KeysAt(listing, i)[|KeysAt(listing[..a], i)|] == listing[a].key
    decreases |listing|
  {
    var n := |listing| - 1;
    assert listing[..n + 1] == listing && listing[..a + 1][..a] == listing[..a];
    if a == n {
    } else {
      assert listing[..n][..a] == listing[..a] && listing[..n][..a + 1] == listing[..a + 1];
      KeysAtRank(listing[..n], a, i);
    }
  }

  lemma {:induction false} KeysAtCovers(listing: seq<Item>, i: nat, k: Key)
    requires k in KeysAt(listing, i)
    ensures Item(k, i) in listing
    decreases |listing|
  {
    var n := |listing| - 1;
    if listing[n] == Item(k, i) {
    } else {
      KeysAtCovers(listing[..n], i, k);
    }
  }

  /** One node never lists a key twice in a merged listing if it does not in its own. */
  lemma {:induction false} NoRepeats(listing: seq<Item>, a: nat, b: nat)
    requires a < b < |listing| && listing[a].node == listing[b].node && Distinct(KeysAt(listing, listing[a].node))
    ensures listing[a].key != listing[b].key
  {
    var i := listing[a].node;
    KeysAtRank(listing, a, i);
    KeysAtRank(listing, b, i);
    assert listing[..b][..a] == listing[..a] && listing[..b][a] == listing[a];
    KeysAtRank(listing[..b], a, i);
  }

  // ---------------------------------------------------------------- the whole listing

  /** One node while it serves a listing: its store's execution, and the listing call within it. */
  datatype Served<V> = Served(id: string, owned: Range, states: seq<P.State<V>>, actions: seq<P.Action<V>>,
                              begin: nat, end: nat, call: P.CallId)

  /** The listing ran to its end, and every write the service let through was for an owned key. */
  ghost predicate Complete<V>(merge: (V, V) -> V, node: Served<V>, parts: nat)
    requires parts > 0
  {
    && P.IsRun(merge, node.states, node.actions)
    && node.begin < node.end < |node.states|
    && node.actions[node.begin] == P.Arrive(node.call, P.ListKeys)
    && node.call in node.states[node.end].threads
    && node.states[node.end].threads[node.call].pc == P.Listed(true)
    && WritesOnly(node.actions, InRange(node.owned, parts))
  }

  ghost function KeysListed<V>(node: Served<V>): seq<Key> {
    if node.end < |node.states| && node.call in node.states[node.end].threads
    then node.states[node.end].threads[node.call].yielded
    else []
  }

  /** The key was in the node's store when the node began to list. */
  ghost predicate WasThere<V>(node: Served<V>, k: Key) {
    node.begin < |node.states| && |node.states[node.begin].parts| > 0 && node.states[node.begin].Present(k)
  }

  /** The key was in the node's store when the node had listed everything. */
  ghost predicate IsThere<V>(node: Served<V>, k: Key) {
    node.end < |node.states| && |node.states[node.end].parts| > 0 && node.states[node.end].Present(k)
  }

  ghost predicate Owns<V>(node: Served<V>, k: Key, parts: nat)
    requires parts > 0
  {
    node.owned.Contains(PartitionOf(k, parts))
  }

  /** The nodes own ranges that do not overlap. */
  ghost predicate Disjoint<V>(nodes: seq<Served<V>>) {
    forall i, j, p :: 0 <= i < j < |nodes| && nodes[i].owned.Contains(p) ==> !nodes[j].owned.Contains(p)
  }

  lemma {:induction false} OneOwner<V>(nodes: seq<Served<V>>, parts: nat, i: nat, j: nat, k: Key)
    requires parts > 0 && Disjoint(nodes) && i < |nodes| && j < |nodes|
    requires Owns(nodes[i], k, parts) && Owns(nodes[j], k, parts)
    ensures i == j
  {
  }

  /** What a node lists: all that was there, each key once, and only keys that are there and its own. */
  ghost predicate ListsItsOwn<V>(node: Served<V>, parts: nat)
    requires parts > 0
  {
    && Distinct(KeysListed(node))
    && (forall k :: k in KeysListed(node) ==> IsThere(node, k) && Owns(node, k, parts))
    && (forall k :: WasThere(node, k) ==> k in KeysListed(node))
  }

  lemma {:induction false} NodeListing<V>(merge: (V, V) -> V, node: Served<V>, parts: nat)
    requires parts > 0 && Complete(merge, node, parts)
    ensures ListsItsOwn(node, parts)
  {
    K.KeysIsFaithful(merge, node.states, node.actions, node.begin, node.end, node.call);
    HoldsOnlyItsRange(merge, node.states, node.actions, node.owned, parts, node.end);
  }

  lemma {:induction false} NodeListings<V>(merge: (V, V) -> V, nodes: seq<Served<V>>, parts: nat)
    requires parts > 0 && AllComplete(merge, nodes, parts)
    ensures forall i :: 0 <= i < |nodes| ==> ListsItsOwn(nodes[i], parts)
  {
    forall i | 0 <= i < |nodes| ensures ListsItsOwn(nodes[i], parts) {
      NodeListing(merge, nodes[i], parts);
    }
  }

  ghost predicate AllComplete<V>(merge: (V, V) -> V, nodes: seq<Served<V>>, parts: nat)
    requires parts > 0
  {
    forall i :: 0 <= i < |nodes| ==> Complete(merge, nodes[i], parts)
  }

  /** Each source is the stream its node sends. */
  ghost predicate Streams<V>(encode: (Key, string) -> Bytes, nodes: seq<Served<V>>, sources: seq<M.Source>) {
    && |sources| == |nodes|
    && forall i :: 0 <= i < |nodes| ==> sources[i] == StreamOf(encode, KeysListed(nodes[i]), nodes[i].id)
  }

  ghost predicate AllFramed(encode: (Key, string) -> Bytes) { forall k, id :: M.Framed(encode(k, id)) }

  /** The merged response, when no stream fails, lists each node's keys in that node's order. */
  lemma {:induction false} MergedListing(encode: (Key, string) -> Bytes, ids: seq<string>, keys: seq<seq<Key>>,
      sources: seq<M.Source>, states: seq<M.State>, moves: seq<nat>) returns (listing: seq<Item>)
    requires |ids| == |keys| == |sources| && AllFramed(encode)
    requires forall i :: 0 <= i < |ids| ==> sources[i] == StreamOf(encode, keys[i], ids[i])
    requires M.IsRun(sources, states, moves) && states[|moves|].Finished()
    ensures forall j :: 0 <= j < |listing| ==> listing[j].node < |ids|
    ensures states[|moves|].out == M.Render(ItemLines(encode, ids, listing))
    ensures forall i :: 0 <= i < |ids| ==> KeysAt(listing, i) == keys[i]
  {
    M.WholeLinesInOrder(sources, states, moves, |moves|);
    var log :| M.Interleaves(sources, states[|moves|], log);
    forall i | 0 <= i < |ids| ensures M.From(log, i) == Encoded(encode, keys[i], ids[i]) {
      M.ScanRendered(Encoded(encode, keys[i], ids[i]));
    }
    listing := Attribute(encode, ids, keys, log);
    assert M.Texts(log) == ItemLines(encode, ids, listing);
  }

  ghost function Ids<V>(nodes: seq<Served<V>>): (ids: seq<string>)
    ensures |ids| == |nodes| && forall i :: 0 <= i < |nodes| ==> ids[i] == nodes[i].id
  {
    seq(|nodes|, i requires 0 <= i < |nodes| => nodes[i].id)
  }

  ghost function AllListed<V>(nodes: seq<Served<V>>): (keys: seq<seq<Key>>)
    ensures |keys| == |nodes| && forall i :: 0 <= i < |nodes| ==> keys[i] == KeysListed(nodes[i])
  {
    seq(|nodes|, i requires 0 <= i < |nodes| => KeysListed(nodes[i]))
  }

  /** The item's key is in the store of the node named, and no other node owns it. */
  ghost predicate Attributed<V>(nodes: seq<Served<V>>, parts: nat, item: Item)
    requires parts > 0
  {
    && item.node < |nodes|
    && IsThere(nodes[item.node], item.key)
    && forall i :: 0 <= i < |nodes| ==> (Owns(nodes[i], item.key, parts) <==> i == item.node)
  }

  /** Each node lists its own, so the items, in whatever order, name every key once, at its owner. */
  lemma {:induction false} OneItemPerKey<V>(nodes: seq<Served<V>>, parts: nat, listing: seq<Item>)
    requires parts > 0 && Disjoint(nodes)
    requires forall i :: 0 <= i < |nodes| ==> ListsItsOwn(nodes[i], parts) && KeysAt(listing, i) == KeysListed(nodes[i])
    requires forall j :: 0 <= j < |listing| ==> listing[j].node < |nodes|
    ensures forall j :: 0 <= j < |listing| ==> Attributed(nodes, parts, listing[j])
    ensures forall a, b :: 0 <= a < b < |listing| ==> listing[a].key != listing[b].key
    ensures forall i, k :: 0 <= i < |nodes| && WasThere(nodes[i], k) ==> Item(k, i) in listing
  {
    forall j | 0 <= j < |listing| ensures Attributed(nodes, parts, listing[j]) {
      var home := listing[j].node;
      KeysAtRank(listing, j, home);
      assert ListsItsOwn(nodes[home], parts) && listing[j].key in KeysListed(nodes[home]);
      forall i: nat | i < |nodes| && Owns(nodes[i], listing[j].key, parts) ensures i == home {
        OneOwner(nodes, parts, i, home, listing[j].key);
      }
    }
    forall a: nat, b: nat | a < b < |listing| ensures listing[a].key != listing[b].key {
      assert Attributed(nodes, parts, listing[a]) && Attributed(nodes, parts, listing[b]);
      if listing[a].node == listing[b].node { NoRepeats(listing, a, b); }
    }
    forall i: nat, k | i < |nodes| && WasThere(nodes[i], k) ensures Item(k, i) in listing {
      KeysAtCovers(listing, i, k);
    }
  }

  /**
   The response lists these items: a whole line for each, no key twice, each attributed to the node that
   holds it, each node's keys in the node's own order, and no key missing that was there when its
   node began to list.
   */
  ghost predicate Lists<V>(encode: (Key, string) -> Bytes, parts: nat, nodes: seq<Served<V>>, out: Bytes,
      listing: seq<Item>)
    requires parts > 0
  {
    && (forall j :: 0 <= j < |listing| ==> listing[j].node < |nodes|)
    && out == M.Render(ItemLines(encode, Ids(nodes), listing))
    && (forall j :: 0 <= j < |listing| ==> Attributed(nodes, parts, listing[j]))
    && (forall i :: 0 <= i < |nodes| ==> KeysAt(listing, i) == KeysListed(nodes[i]))
    && (forall a, b :: 0 <= a < b < |listing| ==> listing[a].key != listing[b].key)
    && (forall i, k :: 0 <= i < |nodes| && WasThere(nodes[i], k) ==> Item(k, i) in listing)
  }

  /**
   The cluster's listing. The nodes' stores run concurrently with any calls, the goroutines of the proxy
   are scheduled in any way, and no stream fails. Then the response lists every key exactly once, at
   its one owner.
   */
  lemma {:induction false} ClusterListing<V>(merge: (V, V) -> V, encode: (Key, string) -> Bytes, parts: nat,
      nodes: seq<Served<V>>, sources: seq<M.Source>, states: seq<M.State>, moves: seq<nat>)
    requires parts > 0 && Disjoint(nodes) && AllFramed(encode)
    requires AllComplete(merge, nodes, parts) && Streams(encode, nodes, sources)
    requires M.IsRun(sources, states, moves) && states[|moves|].Finished()
    ensures exists listing :: Lists(encode, parts, nodes, states[|moves|].out, listing)
  {
    NodeListings(merge, nodes, parts);
    var listing := MergedListing(encode, Ids(nodes), AllListed(nodes), sources, states, moves);
    OneItemPerKey(nodes, parts, listing);
    assert Lists(encode, parts, nodes, states[|moves|].out, listing);
  }
}
