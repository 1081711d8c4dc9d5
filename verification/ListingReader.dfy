/**
 The cluster's listing as its reader gets it: the lines of the response, and the key and node each line
 decodes to. A line names its key only as far as the JSON encoder does, and that encoder makes keys
 that are not well-formed UTF-8 look alike.
 */
module ListingReader {
  import opened Prelude
  import opened ClusterListing
  import M = LineMerge
  import Utf8

  type Encoder = (Key, string) -> Bytes

  // ---------------------------------------------------------------- the lines

  /** What each node lists, by position, and the ids the nodes give themselves. */
  datatype Roll = Roll(ids: seq<string>, keys: seq<seq<Key>>) {
    ghost predicate Lists(i: int, k: Key) { 0 <= i < |keys| == |ids| && k in keys[i] }

    /** A node called id lists key k. */
    ghost predicate Has(k: Key, id: string) { exists i :: Lists(i, k) && ids[i] == id }

    /** The line is the line of key k at node i. */
    ghost predicate Line(encode: Encoder, i: int, k: Key, line: Bytes) { Lists(i, k) && line == encode(k, ids[i]) }

    /** Two different keys that are listed have the same line. */
    ghost predicate Collide(encode: Encoder, i: int, k: Key, j: int, l: Key) {
      Lists(i, k) && Lists(j, l) && k != l && encode(k, ids[i]) == encode(l, ids[j])
    }

    ghost predicate WellFormed() { forall i, k :: Lists(i, k) ==> Utf8.Valid(k) }
  }

  ghost function RollOf<V>(nodes: seq<Served<V>>): Roll { Roll(Ids(nodes), AllListed(nodes)) }

  /** The items are what the nodes list, each key once. */
  ghost predicate Arranges(r: Roll, listing: seq<Item>) {
    && |r.ids| == |r.keys|
    && (forall j :: 0 <= j < |listing| ==> listing[j].node < |r.ids|)
    && (forall i :: 0 <= i < |r.ids| ==> KeysAt(listing, i) == r.keys[i])
    && (forall a, b :: 0 <= a < b < |listing| ==> listing[a].key != listing[b].key)
  }

  lemma {:induction false} ItemIsListed(r: Roll, listing: seq<Item>, j: nat)
    requires Arranges(r, listing) && j < |listing|
    ensures r.Lists(listing[j].node, listing[j].key)
  {
    KeysAtRank(listing, j, listing[j].node);
  }

  lemma {:induction false} ListedIsItem(r: Roll, listing: seq<Item>, i: int, k: Key) returns (j: nat)
    requires Arranges(r, listing) && r.Lists(i, k)
    ensures j < |listing| && listing[j] == Item(k, i)
  {
    KeysAtCovers(listing, i, k);
    j :| 0 <= j < |listing| && listing[j] == Item(k, i);
  }

  /** The lines are those of the listed keys; one repeats exactly when the encoder gives two of them the same line. */
  ghost predicate NamesKeys(encode: Encoder, r: Roll, lines: seq<Bytes>) {
    && (forall line :: line in lines <==> exists i, k :: r.Line(encode, i, k, line))
    && (Distinct(lines) <==> forall i, k, j, l :: !r.Collide(encode, i, k, j, l))
  }

  lemma {:induction false} LineComesFromKey(encode: Encoder, r: Roll, listing: seq<Item>, line: Bytes)
    requires Arranges(r, listing)
    ensures line in ItemLines(encode, r.ids, listing) <==> exists i, k :: r.Line(encode, i, k, line)
  {
    var lines := ItemLines(encode, r.ids, listing);
    if line in lines {
      var j :| 0 <= j < |lines| && lines[j] == line;
      ItemIsListed(r, listing, j);
      assert r.Line(encode, listing[j].node, listing[j].key, line);
    }
    forall i, k | r.Line(encode, i, k, line) ensures line in lines {
      var j := ListedIsItem(r, listing, i, k);
      assert lines[j] == line;
    }
  }

  lemma {:induction false} CollisionRepeats(encode: Encoder, r: Roll, listing: seq<Item>, i: int, k: Key, j: int,
      l: Key)
    requires Arranges(r, listing) && r.Collide(encode, i, k, j, l)
    ensures !Distinct(ItemLines(encode, r.ids, listing))
  {
    var a := ListedIsItem(r, listing, i, k);
    var b := ListedIsItem(r, listing, j, l);
    var lines := ItemLines(encode, r.ids, listing);
    assert lines[a] == lines[b];
  }

  lemma {:induction false} RepeatCollides(encode: Encoder, r: Roll, listing: seq<Item>)
    requires Arranges(r, listing) && !Distinct(ItemLines(encode, r.ids, listing))
    ensures exists i, k, j, l :: r.Collide(encode, i, k, j, l)
  {
    var lines := ItemLines(encode, r.ids, listing);
    var a, b :| 0 <= a < b < |lines| && lines[a] == lines[b];
    ItemIsListed(r, listing, a);
    ItemIsListed(r, listing, b);
    assert r.Collide(encode, listing[a].node, listing[a].key, listing[b].node, listing[b].key);
  }

  lemma {:induction false} ItemLinesNameKeys(encode: Encoder, r: Roll, listing: seq<Item>)
    requires Arranges(r, listing)
    ensures NamesKeys(encode, r, ItemLines(encode, r.ids, listing))
  {
    var lines := ItemLines(encode, r.ids, listing);
    forall line ensures line in lines <==> exists i, k :: r.Line(encode, i, k, line) {
      LineComesFromKey(encode, r, listing, line);
    }
    forall i, k, j, l | r.Collide(encode, i, k, j, l) ensures !Distinct(lines) {
      CollisionRepeats(encode, r, listing, i, k, j, l);
    }
    if !Distinct(lines) { RepeatCollides(encode, r, listing); }
  }

  /** The lines of the response to a listing, for any encoder: those of the keys the nodes list. */
  lemma {:induction false} ResponseNamesKeys<V>(merge: (V, V) -> V, encode: Encoder, parts: nat,
      nodes: seq<Served<V>>, sources: seq<M.Source>, states: seq<M.State>, moves: seq<nat>)
    requires parts > 0 && Disjoint(nodes) && AllFramed(encode)
    requires AllComplete(merge, nodes, parts) && Streams(encode, nodes, sources)
    requires M.IsRun(sources, states, moves) && states[|moves|].Finished()
    ensures NamesKeys(encode, RollOf(nodes), M.LinesIn(states[|moves|].out))
  {
    ClusterListing.ClusterListing(merge, encode, parts, nodes, sources, states, moves);
    var listing :| ClusterListing.Lists(encode, parts, nodes, states[|moves|].out, listing);
    ScannedLines(encode, parts, nodes, states[|moves|].out, listing);
    ItemLinesNameKeys(encode, RollOf(nodes), listing);
  }

  lemma {:induction false} ScannedLines<V>(encode: Encoder, parts: nat, nodes: seq<Served<V>>, out: Bytes,
      listing: seq<Item>)
    requires parts > 0 && AllFramed(encode) && ClusterListing.Lists(encode, parts, nodes, out, listing)
    ensures Arranges(RollOf(nodes), listing)
    ensures M.LinesIn(out) == ItemLines(encode, RollOf(nodes).ids, listing)
  {
    M.ScanRendered(ItemLines(encode, Ids(nodes), listing));
  }

  ghost predicate Injective(encode: Encoder) {
    forall k, id, l, jd :: encode(k, id) == encode(l, jd) ==> k == l && id == jd
  }

  /** If the encoder loses nothing and ids differ, no line repeats and a line is there exactly for what is listed. */
  lemma {:induction false} LosslessLines(encode: Encoder, r: Roll, lines: seq<Bytes>, i: int, k: Key)
    requires NamesKeys(encode, r, lines) && Injective(encode) && Distinct(r.ids)
    requires 0 <= i < |r.ids| == |r.keys|
    ensures Distinct(lines)
    ensures encode(k, r.ids[i]) in lines <==> r.Lists(i, k)
  {
    assert forall i, k, j, l :: !r.Collide(encode, i, k, j, l);
    var line := encode(k, r.ids[i]);
    if line in lines {
      var j, l :| r.Line(encode, j, l, line);
      assert l == k && j == i;
    }
    if r.Lists(i, k) { assert r.Line(encode, i, k, line); }
  }

  // ---------------------------------------------------------------- what the lines say

  /** What a line decodes to: a key and a node's id. */
  type Reader = Bytes -> Option<(Key, string)>

  /** The JSON library on both ends: a line gives back the id, and the key with its broken bytes replaced. */
  ghost predicate ReadsRepaired(encode: Encoder, read: Reader) {
    forall k, id :: read(encode(k, id)) == Some((Utf8.Repair(k), id))
  }

  /** The reader is told that the node called id has key k. */
  ghost predicate Told(read: Reader, lines: seq<Bytes>, k: Key, id: string) {
    exists line :: line in lines && read(line) == Some((k, id))
  }

  /** What the reader is told is the repaired form of a listed key, and it is told all of those. */
  lemma {:induction false} ToldIsRepaired(encode: Encoder, read: Reader, r: Roll, lines: seq<Bytes>, seen: Key,
      id: string)
    returns (k: Key)
    requires ReadsRepaired(encode, read) && NamesKeys(encode, r, lines) && Told(read, lines, seen, id)
    ensures r.Has(k, id) && Utf8.Repair(k) == seen
  {
    var line :| line in lines && read(line) == Some((seen, id));
    var i, l :| r.Line(encode, i, l, line);
    k := l;
  }

  lemma {:induction false} RepairedIsTold(encode: Encoder, read: Reader, r: Roll, lines: seq<Bytes>, k: Key,
      id: string)
    requires ReadsRepaired(encode, read) && NamesKeys(encode, r, lines) && r.Has(k, id)
    ensures Told(read, lines, Utf8.Repair(k), id)
  {
    var i :| r.Lists(i, k) && r.ids[i] == id;
    assert r.Line(encode, i, k, encode(k, id));
  }

  /** The reader has the keys of every node, exactly: each in a line of its own, none missing, none foreign. */
  ghost predicate ReadsExactly(read: Reader, r: Roll, lines: seq<Bytes>) {
    && Distinct(lines)
    && forall k, id :: Told(read, lines, k, id) <==> r.Has(k, id)
  }

  lemma {:induction false} WellFormedIsRead(encode: Encoder, read: Reader, r: Roll, lines: seq<Bytes>)
    requires ReadsRepaired(encode, read) && NamesKeys(encode, r, lines) && r.WellFormed()
    ensures ReadsExactly(read, r, lines)
  {
    forall i, k, j, l ensures !r.Collide(encode, i, k, j, l) {
      if r.Collide(encode, i, k, j, l) { WellFormedDiffer(encode, read, r, i, k, j, l); }
    }
    forall k, id ensures Told(read, lines, k, id) <==> r.Has(k, id) {
      if Told(read, lines, k, id) {
        var l := ToldIsRepaired(encode, read, r, lines, k, id);
        Utf8.SeenAsItIs(l);
      }
      if r.Has(k, id) {
        Utf8.SeenAsItIs(k);
        RepairedIsTold(encode, read, r, lines, k, id);
      }
    }
  }

  lemma {:induction false} WellFormedDiffer(encode: Encoder, read: Reader, r: Roll, i: int, k: Key, j: int, l: Key)
    requires ReadsRepaired(encode, read) && r.WellFormed() && r.Lists(i, k) && r.Lists(j, l)
    requires encode(k, r.ids[i]) == encode(l, r.ids[j])
    ensures k == l
  {
    Utf8.SeenAsItIs(k);
    Utf8.SeenAsItIs(l);
    assert read(encode(k, r.ids[i])) == Some((k, r.ids[i])) && read(encode(l, r.ids[j])) == Some((l, r.ids[j]));
  }

  /** A broken key is listed, but it is not the key the reader is told. */
  lemma {:induction false} BrokenIsMisread(encode: Encoder, read: Reader, r: Roll, lines: seq<Bytes>)
    requires ReadsRepaired(encode, read) && NamesKeys(encode, r, lines) && !r.WellFormed()
    ensures !ReadsExactly(read, r, lines)
  {
    var i, k :| r.Lists(i, k) && !Utf8.Valid(k);
    assert r.Has(k, r.ids[i]);
    if Told(read, lines, k, r.ids[i]) {
      var l := ToldIsRepaired(encode, read, r, lines, k, r.ids[i]);
      Utf8.RepairIsValid(l);
    }
  }

  /** Nothing that was there is left out, and nothing told is invented. */
  ghost predicate ToldWhatIsThere<V>(read: Reader, parts: nat, nodes: seq<Served<V>>, lines: seq<Bytes>)
    requires parts > 0
  {
    && (forall i, k :: 0 <= i < |nodes| && WasThere(nodes[i], k) ==> Told(read, lines, k, nodes[i].id))
    && (forall k, id :: Told(read, lines, k, id) ==>
          exists i :: 0 <= i < |nodes| && nodes[i].id == id && IsThere(nodes[i], k) && Owns(nodes[i], k, parts))
  }

  lemma {:induction false} ExactIsThere<V>(read: Reader, parts: nat, nodes: seq<Served<V>>, lines: seq<Bytes>)
    requires parts > 0 && ReadsExactly(read, RollOf(nodes), lines)
    requires forall i :: 0 <= i < |nodes| ==> ListsItsOwn(nodes[i], parts)
    ensures ToldWhatIsThere(read, parts, nodes, lines)
  {
    var r := RollOf(nodes);
    forall i, k | 0 <= i < |nodes| && WasThere(nodes[i], k) ensures Told(read, lines, k, nodes[i].id) {
      assert r.Lists(i, k);
      assert r.Has(k, nodes[i].id);
    }
    forall k, id | Told(read, lines, k, id)
      ensures exists i :: 0 <= i < |nodes| && nodes[i].id == id && IsThere(nodes[i], k) && Owns(nodes[i], k, parts)
    {
      var i :| r.Lists(i, k) && r.ids[i] == id;
      assert ListsItsOwn(nodes[i], parts);
    }
  }

  /**
   Reading the cluster's listing tells exactly which keys are on which node, one line for each, if and
   only if every key listed is well-formed UTF-8. Then every key that was there when its node began
   to list is told, with its owner, and nothing is told that is not there.
   */
  lemma {:induction false} ReaderLearnsKeys<V>(merge: (V, V) -> V, encode: Encoder, read: Reader, parts: nat,
      nodes: seq<Served<V>>, sources: seq<M.Source>, states: seq<M.State>, moves: seq<nat>)
    requires parts > 0 && Disjoint(nodes) && AllFramed(encode) && ReadsRepaired(encode, read)
    requires AllComplete(merge, nodes, parts) && Streams(encode, nodes, sources)
    requires M.IsRun(sources, states, moves) && states[|moves|].Finished()
    ensures var r, lines := RollOf(nodes), M.LinesIn(states[|moves|].out);
            && (ReadsExactly(read, r, lines) <==> r.WellFormed())
            && (r.WellFormed() ==> ToldWhatIsThere(read, parts, nodes, lines))
  {
    var r, lines := RollOf(nodes), M.LinesIn(states[|moves|].out);
    ResponseNamesKeys(merge, encode, parts, nodes, sources, states, moves);
    NodeListings(merge, nodes, parts);
    if r.WellFormed() {
      WellFormedIsRead(encode, read, r, lines);
      ExactIsThere(read, parts, nodes, lines);
    } else {
      BrokenIsMisread(encode, read, r, lines);
    }
  }

  /** No write was ever asked for a key that is not well-formed. */
  ghost predicate WellFormedWrites<V>(nodes: seq<Served<V>>) {
    forall i :: 0 <= i < |nodes| ==> WritesOnly(nodes[i].actions, ValidKeys())
  }

  ghost function ValidKeys(): Key -> bool { k => Utf8.Valid(k) }

  /** Every key in the stores when the nodes have listed everything is well-formed. */
  ghost predicate WellFormedAtEnd<V>(nodes: seq<Served<V>>) {
    forall i, k :: 0 <= i < |nodes| && IsThere(nodes[i], k) ==> Utf8.Valid(k)
  }

  /** Some key in the stores when the nodes begin to list is not. */
  ghost predicate BrokenAtBegin<V>(nodes: seq<Served<V>>) {
    exists i, k :: 0 <= i < |nodes| && WasThere(nodes[i], k) && !Utf8.Valid(k)
  }

  lemma {:induction false} WritesDecideStores<V>(merge: (V, V) -> V, parts: nat, nodes: seq<Served<V>>)
    requires parts > 0 && AllComplete(merge, nodes, parts) && WellFormedWrites(nodes)
    ensures WellFormedAtEnd(nodes)
  {
    forall i, k | 0 <= i < |nodes| && IsThere(nodes[i], k) ensures Utf8.Valid(k) {
      assert Complete(merge, nodes[i], parts);
      HoldsOnlyWritten(merge, nodes[i].states, nodes[i].actions, ValidKeys(), nodes[i].end);
      assert ValidKeys()(k);
    }
  }

  lemma {:induction false} StoresDecideRoll<V>(merge: (V, V) -> V, parts: nat, nodes: seq<Served<V>>)
    requires parts > 0 && AllComplete(merge, nodes, parts)
    ensures WellFormedAtEnd(nodes) ==> RollOf(nodes).WellFormed()
    ensures BrokenAtBegin(nodes) ==> !RollOf(nodes).WellFormed()
  {
    var r := RollOf(nodes);
    NodeListings(merge, nodes, parts);
    forall i, k | r.Lists(i, k) ensures 0 <= i < |nodes| && IsThere(nodes[i], k) {
      assert ListsItsOwn(nodes[i], parts);
    }
    forall i, k | 0 <= i < |nodes| && WasThere(nodes[i], k) ensures r.Lists(i, k) {
      assert ListsItsOwn(nodes[i], parts);
    }
  }

  /**
   The same, told from the stores. The listing is read exactly if every key there at its end is well-formed,
   and so in particular if no write ever asked for another; it is misread if some key that was there
   at its beginning is not well-formed.
   */
  lemma {:induction false} StoredKeysDecide<V>(merge: (V, V) -> V, encode: Encoder, read: Reader, parts: nat,
      nodes: seq<Served<V>>, sources: seq<M.Source>, states: seq<M.State>, moves: seq<nat>)
    requires parts > 0 && Disjoint(nodes) && AllFramed(encode) && ReadsRepaired(encode, read)
    requires AllComplete(merge, nodes, parts) && Streams(encode, nodes, sources)
    requires M.IsRun(sources, states, moves) && states[|moves|].Finished()
    ensures var r, lines := RollOf(nodes), M.LinesIn(states[|moves|].out);
            && (WellFormedWrites(nodes) ==> WellFormedAtEnd(nodes))
            && (WellFormedAtEnd(nodes) ==> ReadsExactly(read, r, lines) && ToldWhatIsThere(read, parts, nodes, lines))
            && (BrokenAtBegin(nodes) ==> !ReadsExactly(read, r, lines))
  {
    ReaderLearnsKeys(merge, encode, read, parts, nodes, sources, states, moves);
    StoresDecideRoll(merge, parts, nodes);
    if WellFormedWrites(nodes) { WritesDecideStores(merge, parts, nodes); }
  }

  /** Two keys that differ only in broken bytes, on one node: the reader is told of one key where there are two. */
  lemma {:induction false} BrokenKeysAreMerged(encode: Encoder, read: Reader, id: string)
    requires ReadsRepaired(encode, read)
    ensures read(encode([0xFF], id)) == read(encode([0xFE], id)) == Some((Utf8.REPLACEMENT, id))
  {
    Utf8.BrokenBytesLookAlike();
  }
}
