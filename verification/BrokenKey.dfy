/**
 An execution in which the listing misleads its reader: a store is asked to write the key FF, a byte that
 is no UTF-8, and then lists its keys.
 */
module BrokenKey {
  import opened Prelude
  import opened AtomicMap
  import opened Bits
  import opened Routing
  import opened StoreProtocol
  import opened StoreInvariant
  import opened Completion
  import opened ClusterListing
  import opened ListingReader
  import Linearizability
  import M = LineMerge
  import Utf8

  /** All writes are for key k. */
  ghost function Just(k: Key): Key -> bool { l => l == k }

  /** A store with one partition, and nothing in it. */
  function Fresh<V>(): State<V> { State([Part(UNLOCKED, map[])], [], map[]) }

  /** An execution that writes key k and is over. */
  lemma {:induction false} WriteAlone<V>(merge: (V, V) -> V, k: Key, body: V)
    returns (states: seq<State<V>>, actions: seq<Action<V>>)
    ensures IsRun(merge, states, actions) && WritesOnly(actions, Just(k))
    ensures var s := states[|actions|]; |s.parts| > 0 && s.Present(k) && 1 !in s.threads && Alone(s, 0)
    ensures states[|actions|].threads[0].Finished()
  {
    ValidIsPow2(1);
    assert Pow2(0) == 1;
    var write := Arrive(0, Point(WriteCall(WriteOp(k, body, Replace, None, false))));
    assert IsRun(merge, [Fresh()], []);
    Extend(merge, [Fresh()], [], write);
    var begun := [Fresh()] + [Step(merge, Fresh(), write)];
    states, actions := FinishAlone(merge, begun, [] + [write], 0);
    RunGrows(merge, states, actions, 1, |actions|);
    assert states[1] == begun[1];
    Linearizability.AcknowledgedIsPresent(merge, states, actions, |actions|, 0);
    SameCalls(merge, states, actions, 1, |actions|);
  }

  /** Moves bring no calls. */
  lemma {:induction false} SameCalls<V>(merge: (V, V) -> V, states: seq<State<V>>, actions: seq<Action<V>>, m: nat,
      n: nat)
    requires IsRun(merge, states, actions) && m <= n < |states| && forall i :: m <= i < n ==> actions[i].Move?
    ensures states[n].threads.Keys == states[m].threads.Keys
    decreases n
  {
    if m == n {
    } else {
      SameCalls(merge, states, actions, m, n - 1);
      FireEffect(merge, states[n - 1], actions[n - 1].c, actions[n - 1].pick);
    }
  }

  /** A node that was only ever asked to write key k, has it, and lists. */
  ghost predicate ListsJust<V>(merge: (V, V) -> V, node: Served<V>, k: Key) {
    Complete(merge, node, 1) && WritesOnly(node.actions, Just(k)) && WasThere(node, k)
  }

  /** There is such an execution, for every key. */
  lemma {:induction false} WriteThenList<V>(merge: (V, V) -> V, k: Key, body: V, id: string)
    ensures exists node: Served<V> :: ListsJust(merge, node, k) && node.id == id
  {
    var states, actions := WriteAlone(merge, k, body);
    var s, list := states[|actions|], Arrive(1, ListKeys);
    Extend(merge, states, actions, list);
    var begun, asked := states + [Step(merge, s, list)], actions + [list];
    var states', actions' := ListAlone(merge, begun, asked, 1);
    var node := Served(id, Range(0, 1), states', actions', |actions|, |actions'|, 1);
    assert states'[|actions|] == begun[|actions|] && actions'[|actions|] == asked[|actions|];
    forall i, l | 0 <= i < |actions'| && Asks(actions'[i], l) ensures l == k {
      assert i < |actions| && actions'[i] == asked[i] == actions[i];
      assert Just(k)(l);
    }
    assert ListsJust(merge, node, k);
  }

  /** The reader is told of a key that was never written, and not of the one that was. */
  ghost predicate Misled(read: Reader, lines: seq<Bytes>, id: string) {
    Told(read, lines, Utf8.REPLACEMENT, id) && !Told(read, lines, [0xFF], id)
  }

  /** Whenever a node that was asked to write nothing but the key FF lists it, the reader is misled. */
  lemma {:induction false} ReaderIsMisled<V>(merge: (V, V) -> V, encode: Encoder, read: Reader, node: Served<V>,
      sources: seq<M.Source>, states: seq<M.State>, moves: seq<nat>)
    requires ListsJust(merge, node, [0xFF])
    requires AllFramed(encode) && ReadsRepaired(encode, read) && Streams(encode, [node], sources)
    requires M.IsRun(sources, states, moves) && states[|moves|].Finished()
    ensures Misled(read, M.LinesIn(states[|moves|].out), node.id)
  {
    var r, lines := RollOf([node]), M.LinesIn(states[|moves|].out);
    ResponseNamesKeys(merge, encode, 1, [node], sources, states, moves);
    NodeListing(merge, node, 1);
    HoldsOnlyWritten(merge, node.states, node.actions, Just([0xFF]), node.end);
    assert r.keys[0] == KeysListed(node) && r.ids[0] == node.id;
    assert r.Lists(0, [0xFF]);
    OneBrokenKey(encode, read, r, lines, node.id);
  }

  lemma {:induction false} OneBrokenKey(encode: Encoder, read: Reader, r: Roll, lines: seq<Bytes>, id: string)
    requires ReadsRepaired(encode, read) && NamesKeys(encode, r, lines)
    requires r.Has([0xFF], id) && forall k :: r.Has(k, id) ==> k == [0xFF]
    ensures Misled(read, lines, id)
  {
    Utf8.BrokenBytesLookAlike();
    assert Utf8.REPLACEMENT != [0xFF];
    RepairedIsTold(encode, read, r, lines, [0xFF], id);
    if Told(read, lines, [0xFF], id) {
      var k := ToldIsRepaired(encode, read, r, lines, [0xFF], id);
    }
  }
}
