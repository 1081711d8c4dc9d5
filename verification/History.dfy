/**
 What a store promises, told by what its callers see alone: the calls and their replies. A Get answers
 with the entry that the last accepted write to its key handed out; a write is accepted exactly when
 its guard fits that entry, and is told why when it does not. No map is mentioned.
 */
module History {
  import opened Prelude
  import opened AtomicMap

  /** A call, and the reply its caller saw. */
  datatype Exchange<+V> = Exchange(call: Call<V>, reply: Reply<V>)

  predicate Accepts<V>(x: Exchange<V>, k: Key) {
    x.call.WriteCall? && x.call.op.key == k && x.reply.Wrote? && x.reply.reply.Written?
  }

  /** The entry that the last accepted write to k handed out. */
  function Latest<V>(seen: seq<Exchange<V>>, k: Key): Option<Entry<V>> {
    if seen == [] then None else
      var last := |seen| - 1;
      if Accepts(seen[last], k) then Some(seen[last].reply.reply.entry) else Latest(seen[..last], k)
  }

  predicate Contradictory<V>(op: WriteOp<V>) { op.ifAbsent && op.ifVersion.Some? }

  /** What the write asks of the current entry holds of it. */
  predicate GuardHolds<V>(op: WriteOp<V>, current: Option<Entry<V>>) {
    && !Contradictory(op)
    && (op.ifVersion.Some? ==> current.Some? && current.value.version == op.ifVersion.value)
    && (op.ifAbsent ==> current.None?)
  }

  /** What an accepted write leaves: one version up, and the body, merged only into a value that is there. */
  ghost predicate Follows<V>(merge: (V, V) -> V, op: WriteOp<V>, current: Option<Entry<V>>, e: Entry<V>) {
    && e.version == SlotVersion(current) + 1
    && (op.mode == Replace || current.None? ==> e.value == op.body)
    && (op.mode == Merge && current.Some? ==> e.value == merge(current.value.value, op.body))
  }

  /** The mismatch names the key, what was asked of it and the version it has, 0 if it has none. */
  ghost predicate Explains<V>(op: WriteOp<V>, current: Option<Entry<V>>, r: WriteReply<V>)
    requires r.VersionMismatch?
  {
    && r.key == op.key
    && r.current == SlotVersion(current)
    && r.requiredAbsent == op.ifAbsent
    && (op.ifVersion.Some? ==> r.expected == op.ifVersion.value)
    && (op.ifVersion.None? ==> r.expected == 0)
  }

  /** The reply fits the call, given the entry its key has. */
  ghost predicate Right<V>(merge: (V, V) -> V, call: Call<V>, current: Option<Entry<V>>, reply: Reply<V>) {
    match call
    case GetCall(_) =>
      && (current.None? ==> reply == NotFound)
      && (current.Some? ==> reply == Found(current.value))
    case WriteCall(op) =>
      && reply.Wrote?
      && (reply.reply.Written? <==> GuardHolds(op, current))
      && (reply.reply.ConflictingGuards? <==> Contradictory(op))
      && (reply.reply.Written? ==> Follows(merge, op, current, reply.reply.entry))
      && (reply.reply.VersionMismatch? ==> Explains(op, current, reply.reply))
  }

  /** Every reply fits what the exchanges before it have left. */
  ghost predicate AllRight<V>(merge: (V, V) -> V, seen: seq<Exchange<V>>) {
    forall i :: 0 <= i < |seen| ==> Right(merge, seen[i].call, Latest(seen[..i], seen[i].call.Target()), seen[i].reply)
  }

  // ---------------------------------------------------------------- the plain map keeps the promise

  /** One atomic call answers rightly, and leaves its key with the entry it handed out, or as it was. */
  lemma {:induction false} OneCallIsRight<V>(merge: (V, V) -> V, m: Kv<V>, call: Call<V>)
    ensures var (m', reply) := Apply(merge, m, call);
            && Right(merge, call, Lookup(m, call.Target()), reply)
            && Lookup(m', call.Target()) ==
                 if Accepts(Exchange(call, reply), call.Target()) then Some(reply.reply.entry)
                 else Lookup(m, call.Target())
  {
  }

  function CallsOf<V>(seen: seq<Exchange<V>>): (calls: seq<Call<V>>)
    ensures |calls| == |seen| && forall i :: 0 <= i < |seen| ==> calls[i] == seen[i].call
  {
    if seen == [] then [] else CallsOf(seen[..|seen| - 1]) + [seen[|seen| - 1].call]
  }

  /** The replies are the plain map's. */
  ghost predicate FromMap<V>(merge: (V, V) -> V, seen: seq<Exchange<V>>) {
    forall i :: 0 <= i < |seen| ==> seen[i].reply == ReplyAt(merge, CallsOf(seen), i)
  }

  lemma {:induction false} FromMapBefore<V>(merge: (V, V) -> V, seen: seq<Exchange<V>>, n: nat)
    requires FromMap(merge, seen) && n <= |seen|
    ensures FromMap(merge, seen[..n]) && CallsOf(seen[..n]) == CallsOf(seen)[..n]
  {
    var calls := CallsOf(seen);
    assert CallsOf(seen[..n]) == calls[..n];
    forall i | 0 <= i < n ensures seen[..n][i].reply == ReplyAt(merge, calls[..n], i) {
      ReplyInPrefix(merge, calls, n, i);
    }
  }

  /** What the map holds is what the last accepted write handed out. */
  lemma {:induction false} MapHoldsLatest<V>(merge: (V, V) -> V, seen: seq<Exchange<V>>, k: Key)
    requires FromMap(merge, seen)
    ensures Lookup(After(merge, CallsOf(seen)), k) == Latest(seen, k)
    decreases |seen|
  {
    if seen == [] {
    } else {
      var last := |seen| - 1;
      FromMapBefore(merge, seen, last);
      MapHoldsLatest(merge, seen[..last], k);
      var m, call := After(merge, CallsOf(seen)[..last]), seen[last].call;
      OneCallIsRight(merge, m, call);
      if call.Target() != k { OtherKeysKept(merge, m, call, k); }
    }
  }

  /** The plain map answers every call of every run rightly. */
  lemma {:induction false} MapIsRight<V>(merge: (V, V) -> V, seen: seq<Exchange<V>>)
    requires FromMap(merge, seen)
    ensures AllRight(merge, seen)
  {
    forall i: nat | i < |seen|
      ensures Right(merge, seen[i].call, Latest(seen[..i], seen[i].call.Target()), seen[i].reply)
    {
      FromMapBefore(merge, seen, i);
      MapHoldsLatest(merge, seen[..i], seen[i].call.Target());
      OneCallIsRight(merge, After(merge, CallsOf(seen)[..i]), seen[i].call);
    }
  }

  /** Two replies that are both right are the same: the promise leaves no choice. */
  lemma {:induction false} RightIsUnique<V>(merge: (V, V) -> V, call: Call<V>, current: Option<Entry<V>>,
      a: Reply<V>, b: Reply<V>)
    requires Right(merge, call, current, a) && Right(merge, call, current, b)
    ensures a == b
  {
  }

  /** So the promise is the plain map: no other replies keep it. */
  lemma {:induction false} RightIsFromMap<V>(merge: (V, V) -> V, seen: seq<Exchange<V>>)
    ensures AllRight(merge, seen) <==> FromMap(merge, seen)
    decreases |seen|
  {
    if seen == [] {
    } else if FromMap(merge, seen) {
      MapIsRight(merge, seen);
    } else if AllRight(merge, seen) {
      var last := |seen| - 1;
      RightBefore(merge, seen, last);
      RightIsFromMap(merge, seen[..last]);
      LastReplyIsFromMap(merge, seen);
      assert false;
    }
  }

  lemma {:induction false} RightBefore<V>(merge: (V, V) -> V, seen: seq<Exchange<V>>, n: nat)
    requires AllRight(merge, seen) && n <= |seen|
    ensures AllRight(merge, seen[..n])
  {
    forall i | 0 <= i < n
      ensures Right(merge, seen[..n][i].call, Latest(seen[..n][..i], seen[..n][i].call.Target()), seen[..n][i].reply)
    {
      PrefixOfPrefix(seen, i, n);
    }
  }

  lemma {:induction false} LastReplyIsFromMap<V>(merge: (V, V) -> V, seen: seq<Exchange<V>>)
    requires seen != [] && AllRight(merge, seen) && FromMap(merge, seen[..|seen| - 1])
    ensures FromMap(merge, seen)
  {
    var last, calls := |seen| - 1, CallsOf(seen);
    assert CallsOf(seen[..last]) == calls[..last];
    var call, m := seen[last].call, After(merge, calls[..last]);
    MapHoldsLatest(merge, seen[..last], call.Target());
    OneCallIsRight(merge, m, call);
    RightIsUnique(merge, call, Latest(seen[..last], call.Target()), seen[last].reply, ReplyAt(merge, calls, last));
    forall i | 0 <= i < last ensures seen[i].reply == ReplyAt(merge, calls, i) {
      assert seen[..last][i] == seen[i];
      ReplyInPrefix(merge, calls, last, i);
    }
  }
}
