/**
 The store holds bytes, not JSON values. Here every run of the byte store is read as a run of JSON
 values: what is stored always decodes, and decodes to the document its accepted writes describe.
 */
module JsonStore {
  import opened Prelude
  import opened AtomicMap
  import opened JsonMerge
  import N = Node
  import C = Cluster

  // ---------------------------------------------------------------- a byte run is a run of values

  /** The service lets only bodies that decode reach the store. */
  ghost predicate BodiesDecode(codec: Codec, calls: seq<Call<Bytes>>) {
    forall i :: 0 <= i < |calls| ==> Decodes(codec, calls[i])
  }

  ghost predicate Decodes(codec: Codec, call: Call<Bytes>) {
    call.WriteCall? ==> codec.decode(call.op.body).Some?
  }

  ghost function OpValue(codec: Codec, op: WriteOp<Bytes>): WriteOp<Json>
    requires codec.decode(op.body).Some?
  {
    WriteOp(op.key, codec.decode(op.body).value, op.mode, op.ifVersion, op.ifAbsent)
  }

  ghost function CallValue(codec: Codec, call: Call<Bytes>): Call<Json>
    requires Decodes(codec, call)
  {
    match call
    case GetCall(k) => GetCall(k)
    case WriteCall(op) => WriteCall(OpValue(codec, op))
  }

  ghost function CallValues(codec: Codec, calls: seq<Call<Bytes>>): (values: seq<Call<Json>>)
    requires BodiesDecode(codec, calls)
    ensures |values| == |calls| && forall i :: 0 <= i < |calls| ==> values[i] == CallValue(codec, calls[i])
  {
    if calls == [] then [] else
      var last := |calls| - 1;
      CallValues(codec, calls[..last]) + [CallValue(codec, calls[last])]
  }

  /** The slot of bytes decodes to the slot of values: same version, same meaning. */
  ghost predicate SameSlot(codec: Codec, text: Option<Entry<Bytes>>, json: Option<Entry<Json>>) {
    match text
    case None => json.None?
    case Some(t) => json.Some? && json.value.version == t.version && codec.decode(t.value) == Some(json.value.value)
  }

  /** One write keeps the slots together and is accepted by both or by neither. */
  lemma {:induction false} WriteAlike(codec: Codec, text: Option<Entry<Bytes>>, json: Option<Entry<Json>>,
      op: WriteOp<Bytes>)
    requires codec.Lawful() && codec.decode(op.body).Some? && SameSlot(codec, text, json)
    ensures var (text', r) := WriteSlot(Merger(codec), text, op);
            var (json', v) := WriteSlot(Merged, json, OpValue(codec, op));
            SameSlot(codec, text', json') && (r.Written? <==> v.Written?)
  {
    if text.Some? {
      TextMergesAsValues(codec, text.value.value, op.body);
    }
  }

  /** Every key's slot, after every run. */
  lemma {:induction false} RunAlike(codec: Codec, calls: seq<Call<Bytes>>, k: Key)
    requires codec.Lawful() && BodiesDecode(codec, calls)
    ensures SameSlot(codec, Lookup(After(Merger(codec), calls), k), Lookup(After(Merged, CallValues(codec, calls)), k))
  {
    if calls == [] {
    } else {
      var last := |calls| - 1;
      var before, call := calls[..last], calls[last];
      RunAlike(codec, before, k);
      assert CallValues(codec, calls)[..last] == CallValues(codec, before);
      StepAlike(codec, After(Merger(codec), before), After(Merged, CallValues(codec, before)), call, k);
    }
  }

  lemma {:induction false} StepAlike(codec: Codec, m: Kv<Bytes>, v: Kv<Json>, call: Call<Bytes>, k: Key)
    requires codec.Lawful() && Decodes(codec, call) && SameSlot(codec, Lookup(m, k), Lookup(v, k))
    ensures SameSlot(codec, Lookup(Apply(Merger(codec), m, call).0, k),
                     Lookup(Apply(Merged, v, CallValue(codec, call)).0, k))
  {
    if call.WriteCall? && call.op.key == k {
      WriteAlike(codec, Lookup(m, k), Lookup(v, k), call.op);
    }
  }

  /** The accepted writes to k in a run of the byte store, oldest first, each with the value of its body. */
  ghost function AcceptedValues(codec: Codec, calls: seq<Call<Bytes>>, k: Key): seq<JsonWrite>
    requires BodiesDecode(codec, calls)
  {
    if calls == [] then [] else
      var last := |calls| - 1;
      AcceptedValues(codec, calls[..last], k) +
      if AcceptedAt(Merger(codec), calls, last, k)
      then [JsonWrite(calls[last].op.mode, codec.decode(calls[last].op.body).value)]
      else []
  }

  lemma {:induction false} AcceptedAlike(codec: Codec, calls: seq<Call<Bytes>>, k: Key)
    requires codec.Lawful() && BodiesDecode(codec, calls)
    ensures AcceptedValues(codec, calls, k) == AcceptedWrites(CallValues(codec, calls), k)
  {
    if calls == [] {
    } else {
      var last := |calls| - 1;
      var before, call := calls[..last], calls[last];
      AcceptedAlike(codec, before, k);
      assert CallValues(codec, calls)[..last] == CallValues(codec, before);
      if call.WriteCall? && call.op.key == k {
        RunAlike(codec, before, k);
        var m, v := After(Merger(codec), before), After(Merged, CallValues(codec, before));
        WriteAlike(codec, Lookup(m, k), Lookup(v, k), call.op);
      }
    }
  }

  /**
   What the byte store holds for a key, after any run of calls, decodes to the document that the
   accepted writes describe; it holds nothing exactly when none was accepted.
   */
  lemma {:induction false} StoredTextIsDocument(codec: Codec, calls: seq<Call<Bytes>>, k: Key)
    requires codec.Lawful() && BodiesDecode(codec, calls)
    ensures var m, writes := After(Merger(codec), calls), AcceptedValues(codec, calls, k);
            && (k in m <==> writes != [])
            && (k in m ==> codec.decode(m[k].value) == Some(Document(writes)))
  {
    RunAlike(codec, calls, k);
    AcceptedAlike(codec, calls, k);
    StoredDocument(CallValues(codec, calls), k);
  }

  // ---------------------------------------------------------------- no client is given text it cannot parse

  /** The JSON library as a node uses it. */
  function EnvOf(codec: Codec): N.Env { N.Env(raw => codec.decode(raw).Some?, Merger(codec)) }

  ghost predicate Parses(codec: Codec, value: Option<Bytes>) {
    value.Some? ==> codec.decode(value.value).Some?
  }

  ghost predicate AllParse(codec: Codec, node: N.Node) {
    forall k :: k in node.store ==> codec.decode(node.store[k].value).Some?
  }

  /** What a write leaves in its key's slot parses, if it parsed before. */
  lemma {:induction false} WriteKeepsParsing(codec: Codec, slot: Option<Entry<Bytes>>, op: WriteOp<Bytes>)
    requires codec.Lawful() && codec.decode(op.body).Some?
    requires slot.Some? ==> codec.decode(slot.value.value).Some?
    ensures var (slot', r) := WriteSlot(Merger(codec), slot, op);
            && (slot'.Some? ==> codec.decode(slot'.value.value).Some?)
            && (r.Written? ==> codec.decode(r.entry.value).Some?)
  {
    if slot.Some? { TextMergesAsValues(codec, slot.value.value, op.body); }
  }

  lemma {:induction false} PutKeepsParsing(codec: Codec, node: N.Node, req: N.Request)
    requires codec.Lawful() && node.cfg.partitionCount > 0 && AllParse(codec, node) && req.Put?
    ensures var (node', resp) := N.HandlePut(EnvOf(codec), node, req);
            AllParse(codec, node') && Parses(codec, resp.value)
  {
    if codec.decode(req.body).Some? && N.ParseGuards(req.ifVersion, req.ifAbsent).Some? {
      var (ifVersion, ifAbsent) := N.ParseGuards(req.ifVersion, req.ifAbsent).value;
      WriteKeepsParsing(codec, Lookup(node.store, req.key), WriteOp(req.key, req.body, req.mode, ifVersion, ifAbsent));
    }
  }

  /** A request, whatever its body, leaves only text that parses, and is answered with none other. */
  lemma {:induction false} HandleKeepsParsing(codec: Codec, node: N.Node, header: N.Header, req: N.Request)
    requires codec.Lawful() && node.cfg.partitionCount > 0 && AllParse(codec, node)
    ensures var (node', resp) := N.Handle(EnvOf(codec), node, header, req);
            AllParse(codec, node') && Parses(codec, resp.value)
  {
    if req.Put? { PutKeepsParsing(codec, node, req); }
  }

  /** So over every run of requests on a node, every value a client is given parses. */
  lemma {:induction false} EveryAnswerParses(codec: Codec, node: N.Node, reqs: seq<N.Request>)
    requires codec.Lawful() && node.cfg.partitionCount > 0 && AllParse(codec, node)
    ensures forall resp :: resp in C.NodeRun(EnvOf(codec), node, reqs) ==> Parses(codec, resp.value)
    decreases |reqs|
  {
    if reqs == [] {
    } else {
      HandleKeepsParsing(codec, node, N.Silent, reqs[0]);
      EveryAnswerParses(codec, N.Handle(EnvOf(codec), node, N.Silent, reqs[0]).0, reqs[1..]);
    }
  }
}
