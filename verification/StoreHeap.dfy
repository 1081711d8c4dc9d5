/**
 The store's objects: partitions holding maps from key to entry object, entries holding a byte
 slice and a version. One call at a time, the objects behave as the plain map; and since a write
 installs a new slice instead of editing the old one, a slice once handed out never changes.
 */
module StoreHeap {
  import opened Prelude
  import opened Routing
  import opened AtomicMap
  import opened Slices
  import opened JsonMerge
  import H = History

  /** One key's data. The ghost fields say which key, in which partition. */
  class EntryObject {
    ghost const key: Key
    ghost const home: nat
    var value: Slice
    var version: nat

    constructor (ghost key: Key, ghost home: nat, value: Slice, version: nat)
      ensures this.key == key && this.home == home && this.value == value && this.version == version
    {
      this.key, this.home := key, home;
      this.value, this.version := value, version;
    }
  }

  /** The same reply with the slice's bytes in place of the slice. */
  ghost function Seen(r: WriteReply<Slice>): WriteReply<Bytes>
    reads if r.Written? then {r.entry.value} else {}
  {
    match r
    case Written(e) => Written(Entry(e.value[..], e.version))
    case ConflictingGuards => ConflictingGuards
    case VersionMismatch(k, expected, current, required) => VersionMismatch(k, expected, current, required)
  }

  ghost function SeenOp(op: WriteOp<Slice>): WriteOp<Bytes>
    reads op.body
  {
    WriteOp(op.key, op.body[..], op.mode, op.ifVersion, op.ifAbsent)
  }

  /** The new value of a write, in a slice that neither the store nor the caller had before. */
  method ComputeSlice(codec: Codec, current: Slice, op: WriteOp<Slice>) returns (out: Slice)
    ensures fresh(out) && out[..] == Compute(Merger(codec), current[..], SeenOp(op))
  {
    if op.mode == Merge {
      out := ApplySlice(codec, current, op.body);
    } else {
      out := Clone(op.body);
    }
  }

  /** One stripe of the store: a map from key to entry object. */
  class PartitionObject {
    ghost const index: nat
    var m: map<Key, EntryObject>

    /** The plain map this partition stands for, and every slice its entries have held. */
    ghost var view: Kv<Bytes>
    ghost var slices: set<Slice>

    ghost predicate Valid()
      reads this, m.Values, slices
    {
      && view.Keys == m.Keys
      && forall k :: k in m ==> EntryOk(k)
    }

    ghost predicate EntryOk(k: Key)
      requires k in m && k in view
      reads this, m.Values, slices
    {
      && m[k].key == k && m[k].home == index
      && m[k].value in slices
      && view[k] == Entry(m[k].value[..], m[k].version)
    }

    constructor (ghost index: nat)
      ensures this.index == index && Valid() && m == map[] && view == map[] && slices == {}
    {
      this.index := index;
      m, view, slices := map[], map[], {};
    }

    lemma {:induction false} EntryHome(e: EntryObject)
      requires Valid() && e in m.Values
      ensures e.home == index
    {
    }

    /** A partition depends on its own map, its entries and their slices alone. */
    twostate lemma {:induction false} Unaffected()
      requires old(Valid()) && unchanged(this) && unchanged(m.Values) && unchanged(slices)
      ensures Valid()
    {
    }

    /** Put a new slice into an existing entry and bump its version. */
    method Replace(key: Key, value: Slice)
      requires Valid() && key in m
      modifies this`view, this`slices, m[key]
      ensures Valid()
      ensures view == old(view)[key := Entry(value[..], old(view)[key].version + 1)]
      ensures slices == old(slices) + {value}
    {
      var e := m[key];
      assert EntryOk(key);
      slices := slices + {value};
      view := view[key := Entry(value[..], e.version + 1)];
      e.value, e.version := value, e.version + 1;
      forall k | k in m ensures EntryOk(k) {
        assert m[k].value[..] == if k == key then old(value[..]) else old(m[k].value[..]) by {
          assert old(EntryOk(k));
        }
      }
    }

    /** Insert a finished entry under a key that has none. */
    method Insert(key: Key, value: Slice)
      requires Valid() && key !in m
      modifies this
      ensures Valid() && m.Keys == old(m.Keys) + {key}
      ensures fresh(m[key]) && m == old(m)[key := m[key]]
      ensures view == old(view)[key := Entry(value[..], FIRST_VERSION)]
      ensures slices == old(slices) + {value}
    {
      var created := new EntryObject(key, index, value, FIRST_VERSION);
      m := m[key := created];
      slices := slices + {value};
      view := view[key := Entry(value[..], FIRST_VERSION)];
    }

    /** Guard, computation and version bump on an existing entry, as one unit. */
    method WriteExisting(codec: Codec, op: WriteOp<Slice>) returns (r: WriteReply<Slice>)
      requires Valid() && op.key in m && !(op.ifAbsent && op.ifVersion.Some?)
      modifies this`view, this`slices, m[op.key]
      ensures Valid()
      ensures (view, Wrote(Seen(r))) == Apply(Merger(codec), old(view), WriteCall(old(SeenOp(op))))
      ensures r.Written? ==> fresh(r.entry.value)
      ensures fresh(slices - old(slices))
      ensures H.Right(Merger(codec), old(WriteCall(SeenOp(op))), old(Lookup(view, op.key)), Wrote(Seen(r)))
    {
      var e := m[op.key];
      assert EntryOk(op.key);
      RejectedChangesNothing(Merger(codec), view, WriteCall(SeenOp(op)));
      H.OneCallIsRight(Merger(codec), view, WriteCall(SeenOp(op)));
      if op.ifAbsent {
        return VersionMismatch(op.key, 0, e.version, true);
      }
      if op.ifVersion.Some? && op.ifVersion.value != e.version {
        return VersionMismatch(op.key, op.ifVersion.value, e.version, false);
      }
      var entry := Accept(codec, op);
      return Written(entry);
    }

    /** Compute the new value, install it and hand out the same slice. */
    method Accept(codec: Codec, op: WriteOp<Slice>) returns (entry: Entry<Slice>)
      requires Valid() && op.key in m
      modifies this`view, this`slices, m[op.key]
      ensures Valid() && view == old(view)[op.key := Entry(entry.value[..], entry.version)]
      ensures entry.value[..] == Compute(Merger(codec), old(view)[op.key].value, old(SeenOp(op)))
      ensures entry.version == old(view)[op.key].version + 1
      ensures fresh(entry.value) && fresh(slices - old(slices))
    {
      var e := m[op.key];
      assert EntryOk(op.key);
      var value := ComputeSlice(codec, e.value, op);
      var version := e.version + 1;
      Replace(op.key, value);
      return Entry(value, version);
    }

    /** The create path: a version guard cannot match a key that does not exist. */
    method Create(codec: Codec, op: WriteOp<Slice>) returns (r: WriteReply<Slice>)
      requires Valid() && op.key !in m && !(op.ifAbsent && op.ifVersion.Some?)
      modifies this
      ensures Valid() && old(m.Keys) <= m.Keys <= old(m.Keys) + {op.key}
      ensures forall k :: k in old(m) ==> m[k] == old(m)[k]
      ensures fresh(m.Values - old(m.Values))
      ensures (view, Wrote(Seen(r))) == Apply(Merger(codec), old(view), WriteCall(old(SeenOp(op))))
      ensures r.Written? ==> fresh(r.entry.value)
      ensures fresh(slices - old(slices))
    {
      RejectedChangesNothing(Merger(codec), view, WriteCall(SeenOp(op)));
      if op.ifVersion.Some? {
        return VersionMismatch(op.key, op.ifVersion.value, 0, false);
      }
      var value := Clone(op.body);
      Insert(op.key, value);
      return Written(Entry(value, FIRST_VERSION));
    }

    method Write(codec: Codec, op: WriteOp<Slice>) returns (r: WriteReply<Slice>)
      requires Valid() && !(op.ifAbsent && op.ifVersion.Some?)
      modifies this, m.Values
      ensures Valid() && m.Keys <= old(m.Keys) + {op.key}
      ensures fresh(m.Values - old(m.Values)) && fresh(slices - old(slices))
      ensures (view, Wrote(Seen(r))) == Apply(Merger(codec), old(view), WriteCall(old(SeenOp(op))))
      ensures r.Written? ==> fresh(r.entry.value)
    {
      if op.key in m {
        r := WriteExisting(codec, op);
      } else {
        r := Create(codec, op);
      }
    }
  }

  /** Maps that agree on a call's key agree on it afterwards, and keep every other key. */
  lemma {:induction false} SlotsFollow(merge: (Bytes, Bytes) -> Bytes, m: Kv<Bytes>, v: Kv<Bytes>, call: Call<Bytes>)
    requires Lookup(m, call.Target()) == Lookup(v, call.Target())
    ensures Apply(merge, m, call).1 == Apply(merge, v, call).1
    ensures Lookup(Apply(merge, m, call).0, call.Target()) == Lookup(Apply(merge, v, call).0, call.Target())
    ensures forall k :: k != call.Target() ==>
              Lookup(Apply(merge, m, call).0, k) == Lookup(m, k) && Lookup(Apply(merge, v, call).0, k) == Lookup(v, k)
  {
  }

  class Store {
    const partitionCount: nat
    const codec: Codec
    const parts: seq<PartitionObject>

    /** The plain map this store stands for. */
    ghost var contents: Kv<Bytes>

    /** The entry objects in the partitions. */
    ghost function Entries(): set<EntryObject>
      reads parts
    {
      set p: PartitionObject, e: EntryObject | p in parts && e in p.m.Values :: e
    }

    /** The slices the store may refer to. */
    ghost function Slices(): set<Slice>
      reads parts
    {
      set p: PartitionObject, a: Slice | p in parts && a in p.slices :: a
    }

    ghost predicate Valid()
      reads this, parts, Entries(), Slices()
    {
      PartsOk() && forall k :: SlotOk(k)
    }

    ghost predicate PartsOk()
      reads parts, Entries(), Slices()
    {
      && ValidPartitionCount(partitionCount)
      && |parts| == partitionCount
      && forall i :: 0 <= i < |parts| ==> PartOk(i)
    }

    /** Partition i is in its place, sound, and holds only keys that hash to it. */
    ghost predicate PartOk(i: nat)
      requires i < |parts| && partitionCount > 0
      reads parts, Entries(), Slices()
    {
      && parts[i].index == i
      && parts[i].Valid()
      && forall k :: k in parts[i].m ==> Home(k) == i
    }

    ghost predicate SlotOk(k: Key)
      requires |parts| == partitionCount > 0
      reads this`contents, parts
    {
      Lookup(contents, k) == Lookup(parts[Home(k)].view, k)
    }

    function Home(key: Key): (i: nat)
      requires partitionCount > 0
      ensures i < partitionCount
    {
      PartitionOf(key, partitionCount)
    }

    constructor (partitionCount: nat, codec: Codec)
      requires ValidPartitionCount(partitionCount)
      ensures Valid() && contents == map[] && Slices() == {} && Entries() == {}
      ensures this.codec == codec && this.partitionCount == partitionCount
      ensures forall p :: p in parts ==> fresh(p)
    {
      var slots: seq<PartitionObject> := [];
      for i := 0 to partitionCount
        invariant |slots| == i
        invariant forall j :: 0 <= j < i ==> fresh(slots[j]) && slots[j].index == j && slots[j].Valid()
        invariant forall j :: 0 <= j < i ==> slots[j].m == map[] && slots[j].view == map[] && slots[j].slices == {}
      {
        var p := new PartitionObject(i);
        slots := slots + [p];
      }
      this.partitionCount, this.codec, this.parts := partitionCount, codec, slots;
      this.contents := map[];
    }

    method Get(key: Key) returns (r: Option<Entry<Slice>>)
      requires Valid()
      ensures match r
              case None => key !in contents
              case Some(e) => key in contents && contents[key] == Entry(e.value[..], e.version) && e.value in Slices()
    {
      var p := parts[Home(key)];
      assert PartOk(Home(key)) && SlotOk(key);
      if key in p.m {
        var e := p.m[key];
        assert p.EntryOk(key);
        return Some(Entry(e.value, e.version));
      }
      return None;
    }

    /** The store stays sound when one partition changes soundly and nothing else does. */
    twostate lemma {:induction false} PartsKept(home: nat)
      requires old(PartsOk()) && home < |parts|
      requires forall i :: 0 <= i < |parts| && i != home ==>
                 unchanged(parts[i]) && unchanged(parts[i].m.Values) && unchanged(parts[i].slices)
      requires parts[home].Valid() && forall k :: k in parts[home].m ==> Home(k) == home
      ensures PartsOk()
    {
      forall i | 0 <= i < |parts| ensures PartOk(i) {
        assert old(PartOk(i));
        if i != home { parts[i].Unaffected(); }
      }
    }

    /** What one partition gained is all that the store gained. */
    twostate lemma {:induction false} OnlyFreshGained(p: PartitionObject)
      requires p in parts && forall q :: q in parts && q != p ==> unchanged(q)
      requires fresh(p.m.Values - old(p.m.Values)) && fresh(p.slices - old(p.slices))
      ensures fresh(Entries() - old(Entries())) && fresh(Slices() - old(Slices()))
    {
    }

    /** Hand a write to its key's partition; every other partition stays as it is. */
    method WriteAtHome(op: WriteOp<Slice>, home: nat) returns (r: WriteReply<Slice>)
      requires PartsOk() && home == Home(op.key) && !(op.ifAbsent && op.ifVersion.Some?)
      modifies parts, Entries()
      ensures PartsOk()
      ensures forall i :: 0 <= i < |parts| && i != home ==> parts[i].view == old(parts[i].view)
      ensures fresh(Entries() - old(Entries())) && fresh(Slices() - old(Slices()))
      ensures (parts[home].view, Wrote(Seen(r))) ==
              Apply(Merger(codec), old(parts[home].view), WriteCall(old(SeenOp(op))))
      ensures r.Written? ==> fresh(r.entry.value)
    {
      assert PartOk(home);
      OthersApart(home);
      r := parts[home].Write(codec, op);
      PartsKept(home);
      OnlyFreshGained(parts[home]);
    }

    /** A write is the plain map's write; the reply's slice is new, and so is any slice the store now holds. */
    method Write(op: WriteOp<Slice>) returns (r: WriteReply<Slice>)
      requires Valid()
      modifies this`contents, parts, Entries()
      ensures Valid()
      ensures fresh(Entries() - old(Entries())) && fresh(Slices() - old(Slices()))
      ensures (contents, Wrote(Seen(r))) == Apply(Merger(codec), old(contents), WriteCall(old(SeenOp(op))))
      ensures r.Written? ==> fresh(r.entry.value)
      ensures H.Right(Merger(codec), old(WriteCall(SeenOp(op))), old(Lookup(contents, op.key)), Wrote(Seen(r)))
    {
      ghost var call := WriteCall(SeenOp(op));
      RejectedChangesNothing(Merger(codec), contents, call);
      H.OneCallIsRight(Merger(codec), contents, call);
      if op.ifAbsent && op.ifVersion.Some? {
        return ConflictingGuards;
      }
      var home := Home(op.key);
      assert SlotOk(op.key);
      SlotsFollow(Merger(codec), contents, parts[home].view, call);
      r := WriteAtHome(op, home);
      contents := Apply(Merger(codec), contents, call).0;
      forall k ensures SlotOk(k) {
        assert old(SlotOk(k));
      }
    }

    /** Entries of different partitions are different objects. */
    lemma {:induction false} OthersApart(home: nat)
      requires PartsOk() && home < |parts|
      ensures forall i :: 0 <= i < |parts| && i != home ==>
                parts[i] != parts[home] && parts[i].m.Values !! parts[home].m.Values
    {
      assert PartOk(home);
      forall e | e in parts[home].m.Values ensures e.home == home {
        parts[home].EntryHome(e);
      }
      forall i | 0 <= i < |parts| && i != home
        ensures parts[i] != parts[home] && parts[i].m.Values !! parts[home].m.Values
      {
        assert PartOk(i);
        forall e | e in parts[i].m.Values ensures e.home == i {
          parts[i].EntryHome(e);
        }
      }
    }

    /** Which keys each partition holds. */
    lemma {:induction false} KeysByPartition()
      requires Valid()
      ensures forall i, k :: 0 <= i < |parts| ==> (k in parts[i].m <==> k in contents && Home(k) == i)
    {
      forall i, k | 0 <= i < |parts| ensures k in parts[i].m <==> k in contents && Home(k) == i {
        assert PartOk(i) && SlotOk(k);
      }
    }

    /** Every key once, partition by partition. */
    method Keys() returns (keys: seq<Key>)
      requires Valid()
      ensures Distinct(keys)
      ensures forall k :: k in keys <==> k in contents
    {
      keys := [];
      KeysByPartition();
      for i := 0 to |parts|
        invariant Distinct(keys)
        invariant forall k :: k in keys <==> k in contents && Home(k) < i
      {
        var left := parts[i].m.Keys;
        while left != {}
          invariant left <= parts[i].m.Keys
          invariant Distinct(keys)
          invariant forall k :: k in keys <==> k in contents && (Home(k) < i || (Home(k) == i && k !in left))
        {
          var k :| k in left;
          keys := keys + [k];
          left := left - {k};
        }
      }
    }

    /** The number of keys held. */
    method Len() returns (total: nat)
      requires Valid()
      ensures total == |contents|
    {
      total := 0;
      KeysByPartition();
      ghost var seen: set<Key> := {};
      for i := 0 to |parts|
        invariant total == |seen|
        invariant forall k :: k in seen <==> k in contents && Home(k) < i
      {
        ghost var here := parts[i].m.Keys;
        assert seen !! here;
        total := total + |parts[i].m|;
        seen := seen + here;
      }
      assert seen == contents.Keys;
    }
  }

  /** A store on empty ground, or the count that cannot be used. */
  method NewStore(partitionCount: int, codec: Codec) returns (r: Result<Store, int>)
    ensures r.Ok? <==> ValidPartitionCount(partitionCount)
    ensures r.Ok? ==> fresh(r.value) && r.value.Valid() && r.value.contents == map[] && r.value.codec == codec
    ensures r.Err? ==> r.error == partitionCount
  {
    if !ValidPartitionCount(partitionCount) {
      return Err(partitionCount);
    }
    var store := new Store(partitionCount, codec);
    return Ok(store);
  }

  /** The plain map after a run of writes. */
  function AfterWrites(merge: (Bytes, Bytes) -> Bytes, m: Kv<Bytes>, ops: seq<WriteOp<Bytes>>): Kv<Bytes>
    decreases |ops|
  {
    if ops == [] then m else AfterWrites(merge, Apply(merge, m, WriteCall(ops[0])).0, ops[1..])
  }

  /**
   Published slices are immutable: through any sequence of writes, every slice a caller holds, be
   it one that Get or Write returned earlier, keeps every byte, while the store follows the plain map.
   */
  method WritesLeaveSlicesAlone(store: Store, ops: seq<WriteOp<Slice>>, ghost seen: seq<WriteOp<Bytes>>, held: Slice)
    requires store.Valid()
    requires |seen| == |ops| && forall i :: 0 <= i < |ops| ==> SeenOp(ops[i]) == seen[i]
    modifies store`contents, store.parts, store.Entries()
    ensures store.Valid()
    ensures held[..] == old(held[..])
    ensures store.contents == AfterWrites(Merger(store.codec), old(store.contents), seen)
    decreases |ops|
  {
    if ops != [] {
      var _ := store.Write(ops[0]);
      WritesLeaveSlicesAlone(store, ops[1..], seen[1..], held);
    }
  }

  /**
   The store keeps no alias of a caller's body: after a write the caller may overwrite the whole
   buffer and the store still holds the bytes that were written.
   */
  method WriteThenReuseBuffer(store: Store, op: WriteOp<Slice>, junk: Byte) returns (r: WriteReply<Slice>)
    requires store.Valid() && op.body !in store.Slices()
    modifies store`contents, store.parts, store.Entries(), op.body
    ensures store.Valid()
    ensures (store.contents, Wrote(Seen(r))) ==
            Apply(Merger(store.codec), old(store.contents), WriteCall(old(SeenOp(op))))
    ensures forall i :: 0 <= i < op.body.Length ==> op.body[i] == junk
  {
    r := store.Write(op);
    ghost var mid, seen := store.contents, Seen(r);
    for i := 0 to op.body.Length
      modifies op.body
      invariant store.Valid() && store.contents == mid && op.body !in store.Slices()
      invariant Seen(r) == seen
      invariant forall j :: 0 <= j < i ==> op.body[j] == junk
    {
      op.body[i] := junk;
    }
  }
}
