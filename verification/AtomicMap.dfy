/**
 The store as a client may think of it: a plain map from key to value and version on which
 every Get and every Write happens at one instant. The lock-level store, the heap store and the
 cluster are each proved against this map.
 */
module AtomicMap {
  import opened Prelude

  datatype Mode = Replace | Merge

  datatype Entry<+V> = Entry(value: V, version: nat)

  datatype WriteOp<+V> = WriteOp(key: Key, body: V, mode: Mode, ifVersion: Option<nat>, ifAbsent: bool)

  datatype WriteReply<+V> =
    | Written(entry: Entry<V>)
    | ConflictingGuards
    | VersionMismatch(key: Key, expected: nat, current: nat, requiredAbsent: bool)

  const FIRST_VERSION: nat := 1

  /** The JSON codec behind a merge is not part of the store: `merge` stands for it. */
  function Compute<V>(merge: (V, V) -> V, current: V, op: WriteOp<V>): V {
    if op.mode == Merge then merge(current, op.body) else op.body
  }

  /** One write against one key's slot, which is empty until the key's first accepted write. */
  function WriteSlot<V>(merge: (V, V) -> V, slot: Option<Entry<V>>, op: WriteOp<V>)
    : (r: (Option<Entry<V>>, WriteReply<V>))
    ensures !r.1.Written? ==> r.0 == slot
    ensures r.1.Written? ==> r.0 == Some(r.1.entry) && r.1.entry.version == SlotVersion(slot) + 1
  {
    if op.ifAbsent && op.ifVersion.Some? then
      (slot, ConflictingGuards)
    else
      match slot
      case Some(e) =>
        if op.ifAbsent then
          (slot, VersionMismatch(op.key, 0, e.version, true))
        else if op.ifVersion.Some? && op.ifVersion.value != e.version then
          (slot, VersionMismatch(op.key, op.ifVersion.value, e.version, false))
        else
          var e' := Entry(Compute(merge, e.value, op), e.version + 1);
          (Some(e'), Written(e'))
      case None =>
        if op.ifVersion.Some? then
          (slot, VersionMismatch(op.key, op.ifVersion.value, 0, false))
        else
          var e' := Entry(op.body, FIRST_VERSION);
          (Some(e'), Written(e'))
  }

  /** Version 0 is never stored, so it can stand for "absent". */
  function SlotVersion<V>(slot: Option<Entry<V>>): nat {
    match slot
    case None => 0
    case Some(e) => e.version
  }

  type Kv<V> = map<Key, Entry<V>>

  function Lookup<V>(m: Kv<V>, k: Key): Option<Entry<V>> {
    if k in m then Some(m[k]) else None
  }

  function Install<V>(m: Kv<V>, k: Key, slot: Option<Entry<V>>): Kv<V> {
    match slot
    case None => m - {k}
    case Some(e) => m[k := e]
  }

  datatype Call<+V> = GetCall(key: Key) | WriteCall(op: WriteOp<V>) {
    function Target(): Key {
      match this
      case GetCall(k) => k
      case WriteCall(op) => op.key
    }
  }

  datatype Reply<+V> = Found(entry: Entry<V>) | NotFound | Wrote(reply: WriteReply<V>)

  /** One atomic call. */
  function Apply<V>(merge: (V, V) -> V, m: Kv<V>, call: Call<V>): (Kv<V>, Reply<V>) {
    match call
    case GetCall(k) =>
      (m, if k in m then Found(m[k]) else NotFound)
    case WriteCall(op) =>
      var (slot, reply) := WriteSlot(merge, Lookup(m, op.key), op);
      (Install(m, op.key, slot), Wrote(reply))
  }

  /** The map after a run of calls on an empty store. */
  function After<V>(merge: (V, V) -> V, calls: seq<Call<V>>): Kv<V> {
    if calls == [] then map[] else
      var last := |calls| - 1;
      Apply(merge, After(merge, calls[..last]), calls[last]).0
  }

  /** The reply to the i-th call of a run. */
  function ReplyAt<V>(merge: (V, V) -> V, calls: seq<Call<V>>, i: nat): Reply<V>
    requires i < |calls|
  {
    Apply(merge, After(merge, calls[..i]), calls[i]).1
  }

  function VersionAfter<V>(merge: (V, V) -> V, calls: seq<Call<V>>, k: Key): nat {
    SlotVersion(Lookup(After(merge, calls), k))
  }

  /** The i-th call is a write to k, and it was accepted. */
  predicate AcceptedAt<V>(merge: (V, V) -> V, calls: seq<Call<V>>, i: nat, k: Key)
    requires i < |calls|
  {
    calls[i].WriteCall? && calls[i].op.key == k && ReplyAt(merge, calls, i).reply.Written?
  }

  /** The versions handed back by the accepted writes to k, in the order they took effect. */
  function AcceptedVersions<V>(merge: (V, V) -> V, calls: seq<Call<V>>, k: Key): seq<nat> {
    if calls == [] then [] else
      var last := |calls| - 1;
      var before := AcceptedVersions(merge, calls[..last], k);
      if AcceptedAt(merge, calls, last, k)
      then before + [ReplyAt(merge, calls, last).reply.entry.version]
      else before
  }

  // ---------------------------------------------------------------- one call

  /** A write only ever touches its own key, and a Get touches none. */
  lemma {:induction false} OtherKeysKept<V>(merge: (V, V) -> V, m: Kv<V>, call: Call<V>, k: Key)
    requires k != call.Target()
    ensures Lookup(Apply(merge, m, call).0, k) == Lookup(m, k)
  {
  }

  /** What a call does to the slot of the key it names, and to nothing else. */
  lemma {:induction false} TargetSlot<V>(merge: (V, V) -> V, m: Kv<V>, call: Call<V>)
    ensures call.GetCall? ==> Apply(merge, m, call).0 == m
    ensures call.WriteCall? ==>
              var (slot, reply) := WriteSlot(merge, Lookup(m, call.op.key), call.op);
              && Lookup(Apply(merge, m, call).0, call.op.key) == slot
              && Apply(merge, m, call).1 == Wrote(reply)
  {
  }

  /** A call that is not an accepted write leaves the whole map as it was. */
  lemma {:induction false} RejectedChangesNothing<V>(merge: (V, V) -> V, m: Kv<V>, call: Call<V>)
    ensures var (m', reply) := Apply(merge, m, call);
            !(reply.Wrote? && reply.reply.Written?) ==> m' == m
  {
  }

  // ---------------------------------------------------------------- whole runs

  lemma {:induction false} PrefixOfPrefix<T>(s: seq<T>, i: nat, j: nat)
    requires i <= j <= |s|
    ensures s[..j][..i] == s[..i]
  {
  }

  lemma {:induction false} ReplyInPrefix<V>(merge: (V, V) -> V, calls: seq<Call<V>>, n: nat, i: nat)
    requires i < n <= |calls|
    ensures ReplyAt(merge, calls[..n], i) == ReplyAt(merge, calls, i)
  {
    PrefixOfPrefix(calls, i, n);
  }

  /**
   A key's version is the number of its accepted writes, and those writes were answered with
   exactly the versions 1, 2, ..., n in that order. In particular a stored key never has version 0.
   */
  lemma {:induction false} VersionsAreConsecutive<V>(merge: (V, V) -> V, calls: seq<Call<V>>, k: Key)
    ensures var vs := AcceptedVersions(merge, calls, k);
            && VersionAfter(merge, calls, k) == |vs|
            && (k in After(merge, calls) <==> |vs| > 0)
            && forall i :: 0 <= i < |vs| ==> vs[i] == i + 1
  {
    if calls == [] {
    } else {
      var last := |calls| - 1;
      VersionsAreConsecutive(merge, calls[..last], k);
      var m := After(merge, calls[..last]);
      TargetSlot(merge, m, calls[last]);
      if calls[last].Target() != k {
        OtherKeysKept(merge, m, calls[last], k);
      }
    }
  }

  lemma {:induction false} VersionGrows<V>(merge: (V, V) -> V, calls: seq<Call<V>>, i: nat, k: Key)
    requires i <= |calls|
    ensures VersionAfter(merge, calls[..i], k) <= VersionAfter(merge, calls, k)
  {
    if i == |calls| {
      assert calls[..i] == calls;
    } else {
      var last := |calls| - 1;
      PrefixOfPrefix(calls, i, last);
      VersionGrows(merge, calls[..last], i, k);
      var m := After(merge, calls[..last]);
      TargetSlot(merge, m, calls[last]);
      if calls[last].Target() != k {
        OtherKeysKept(merge, m, calls[last], k);
      }
    }
  }

  /**
   An accepted write leaves its key one version above where it found it, and its guard held when
   it took effect. Guarding with version 0 therefore never succeeds.
   */
  lemma {:induction false} AcceptedBumps<V>(merge: (V, V) -> V, calls: seq<Call<V>>, i: nat, k: Key)
    requires i < |calls| && AcceptedAt(merge, calls, i, k)
    ensures VersionAfter(merge, calls[..i + 1], k) == VersionAfter(merge, calls[..i], k) + 1
    ensures calls[i].op.ifVersion.Some? ==> calls[i].op.ifVersion.value == VersionAfter(merge, calls[..i], k)
    ensures calls[i].op.ifVersion != Some(0)
    ensures calls[i].op.ifAbsent ==> VersionAfter(merge, calls[..i], k) == 0
  {
    PrefixOfPrefix(calls, i, i + 1);
    assert calls[..i + 1][i] == calls[i];
    VersionsAreConsecutive(merge, calls[..i], k);
    TargetSlot(merge, After(merge, calls[..i]), calls[i]);
  }

  /**
   At most one write guarded by a given version is ever accepted for a key, and at most one
   create-only write is: this is what makes a compare-and-set loop safe.
   */
  lemma {:induction false} GuardWinsOnce<V>(merge: (V, V) -> V, calls: seq<Call<V>>, i: nat, j: nat, k: Key)
    requires i < j < |calls|
    requires calls[i].WriteCall? && calls[j].WriteCall?
    requires calls[i].op.ifVersion == calls[j].op.ifVersion && calls[i].op.ifAbsent == calls[j].op.ifAbsent
    requires calls[i].op.ifVersion.Some? || calls[i].op.ifAbsent
    ensures !(AcceptedAt(merge, calls, i, k) && AcceptedAt(merge, calls, j, k))
  {
    if AcceptedAt(merge, calls, i, k) && AcceptedAt(merge, calls, j, k) {
      AcceptedBumps(merge, calls, i, k);
      AcceptedBumps(merge, calls, j, k);
      PrefixOfPrefix(calls, i + 1, j);
      VersionGrows(merge, calls[..j], i + 1, k);
    }
  }

  /**
   A conflict reports the version the key had when the guard failed, and reports 0 exactly when
   the key did not exist then. A create-only write can only lose to an existing key.
   */
  lemma {:induction false} ConflictReportsCurrent<V>(merge: (V, V) -> V, calls: seq<Call<V>>, i: nat)
    requires i < |calls| && calls[i].WriteCall?
    requires ReplyAt(merge, calls, i).reply.VersionMismatch?
    ensures var r := ReplyAt(merge, calls, i).reply;
            var k := calls[i].op.key;
            && r.key == k
            && r.current == VersionAfter(merge, calls[..i], k)
            && (r.current == 0 <==> k !in After(merge, calls[..i]))
            && (r.requiredAbsent <==> calls[i].op.ifAbsent)
            && (r.requiredAbsent ==> r.current > 0)
            && (!r.requiredAbsent ==>
                  calls[i].op.ifVersion == Some(r.expected) && (r.expected != r.current || r.current == 0))
            && VersionAfter(merge, calls[..i + 1], k) == r.current
  {
    VersionsAreConsecutive(merge, calls[..i], calls[i].op.key);
    TargetSlot(merge, After(merge, calls[..i]), calls[i]);
    PrefixOfPrefix(calls, i, i + 1);
  }
}
