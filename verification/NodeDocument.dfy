/**
 What a node holds after any run of requests: the document that the PUTs and PATCHes it answered with
 success describe, each in the mode of its own request.
 */
module NodeDocument {
  import opened Prelude
  import opened AtomicMap
  import opened JsonMerge
  import opened History
  import N = Node
  import A = NodeAnswers
  import S = JsonStore

  /** A request as it reaches the node, with the partition count its sender declares. */
  datatype Delivery = Delivery(header: N.Header, req: N.Request)

  ghost function Handled(codec: Codec, node: N.Node, deliveries: seq<Delivery>): (node': N.Node)
    requires node.cfg.partitionCount > 0
    ensures node'.cfg == node.cfg
  {
    if deliveries == [] then node else
      var last := |deliveries| - 1;
      var before := Handled(codec, node, deliveries[..last]);
      N.HandleSlots(S.EnvOf(codec), before, deliveries[last].header, deliveries[last].req, deliveries[last].req.key);
      N.Handle(S.EnvOf(codec), before, deliveries[last].header, deliveries[last].req).0
  }

  /** The response to the last request of a run. */
  ghost function LastResponse(codec: Codec, node: N.Node, deliveries: seq<Delivery>): N.Response
    requires node.cfg.partitionCount > 0 && deliveries != []
  {
    var last := |deliveries| - 1;
    N.Handle(S.EnvOf(codec), Handled(codec, node, deliveries[..last]), deliveries[last].header, deliveries[last].req).1
  }

  /** The last request is a PUT or PATCH of k that was answered with 200. */
  ghost predicate LastSucceeds(codec: Codec, node: N.Node, deliveries: seq<Delivery>, k: Key)
    requires node.cfg.partitionCount > 0 && deliveries != []
  {
    var d := deliveries[|deliveries| - 1];
    d.req.Put? && d.req.key == k && LastResponse(codec, node, deliveries).status == 200
  }

  /** The PUTs and PATCHes of k that were answered with 200, oldest first, with the values of their bodies. */
  ghost function Successes(codec: Codec, node: N.Node, deliveries: seq<Delivery>, k: Key): seq<JsonWrite>
    requires node.cfg.partitionCount > 0
  {
    if deliveries == [] then [] else
      var last := |deliveries| - 1;
      var req := deliveries[last].req;
      Successes(codec, node, deliveries[..last], k) +
      if LastSucceeds(codec, node, deliveries, k) && codec.decode(req.body).Some?
      then [JsonWrite(req.mode, codec.decode(req.body).value)]
      else []
  }

  /** The node holds what these writes describe. */
  ghost predicate Describes(codec: Codec, slot: Option<Entry<Bytes>>, writes: seq<JsonWrite>) {
    match slot
    case None => writes == []
    case Some(e) => writes != [] && e.version == |writes| && codec.decode(e.value) == Some(Document(writes))
  }

  /** One more success extends the description. */
  lemma {:induction false} SuccessDescribed(codec: Codec, op: WriteOp<Bytes>, slot: Option<Entry<Bytes>>,
      e: Entry<Bytes>, writes: seq<JsonWrite>)
    requires codec.Lawful() && codec.decode(op.body).Some?
    requires Describes(codec, slot, writes) && Follows(Merger(codec), op, slot, e)
    ensures Describes(codec, Some(e), writes + [JsonWrite(op.mode, codec.decode(op.body).value)])
  {
    var writes' := writes + [JsonWrite(op.mode, codec.decode(op.body).value)];
    assert writes'[..|writes|] == writes;
    if slot.Some? { TextMergesAsValues(codec, slot.value.value, op.body); }
  }

  /** What one request does to the slot of k: a success follows on, and anything else leaves it. */
  lemma {:induction false} SlotAfter(codec: Codec, node: N.Node, d: Delivery, k: Key)
    requires node.cfg.partitionCount > 0
    ensures var (node', resp) := N.Handle(S.EnvOf(codec), node, d.header, d.req);
            if d.req.Put? && d.req.key == k && resp.status == 200
            then
              && k in node'.store && codec.decode(d.req.body).Some?
              && A.GuardsReadable(d.req.ifVersion, d.req.ifAbsent)
              && Follows(Merger(codec), A.Asked(d.req), Lookup(node.store, k), node'.store[k])
            else Lookup(node'.store, k) == Lookup(node.store, k)
  {
    A.OtherCountIsRefused(S.EnvOf(codec), node, d.header, d.req);
    if d.req.Put? {
      A.PutAnswers(S.EnvOf(codec), node, N.Silent, d.req);
    }
  }

  /**
   After any run of requests on a node that starts empty, with whatever guards, bodies and declared partition
   counts, a key's value decodes to the document of its successful PUTs and PATCHes, its version is their
   number, and it is there exactly if there was one.
   */
  lemma {:induction false} NodeHoldsDocument(codec: Codec, node: N.Node, deliveries: seq<Delivery>, k: Key)
    requires codec.Lawful() && node.cfg.partitionCount > 0 && node.store == map[]
    ensures Describes(codec, Lookup(Handled(codec, node, deliveries).store, k), Successes(codec, node, deliveries, k))
    decreases |deliveries|
  {
    if deliveries == [] {
    } else {
      var last := |deliveries| - 1;
      NodeHoldsDocument(codec, node, deliveries[..last], k);
      OneMoreDelivery(codec, Handled(codec, node, deliveries[..last]), deliveries[last], k,
                      Successes(codec, node, deliveries[..last], k));
    }
  }

  /** One more request, and the writes it adds. */
  lemma {:induction false} OneMoreDelivery(codec: Codec, node: N.Node, d: Delivery, k: Key, writes: seq<JsonWrite>)
    requires codec.Lawful() && node.cfg.partitionCount > 0 && Describes(codec, Lookup(node.store, k), writes)
    ensures var (node', resp) := N.Handle(S.EnvOf(codec), node, d.header, d.req);
            Describes(codec, Lookup(node'.store, k),
                      writes +
                      if d.req.Put? && d.req.key == k && resp.status == 200 && codec.decode(d.req.body).Some?
                      then [JsonWrite(d.req.mode, codec.decode(d.req.body).value)]
                      else [])
  {
    var (node', resp) := N.Handle(S.EnvOf(codec), node, d.header, d.req);
    SlotAfter(codec, node, d, k);
    if d.req.Put? && d.req.key == k && resp.status == 200 {
      SuccessDescribed(codec, A.Asked(d.req), Lookup(node.store, k), node'.store[k], writes);
    } else {
      assert writes + [] == writes;
    }
  }

  /** In particular: a PATCH of a stored object by an object leaves their union, the PATCH winning. */
  lemma {:induction false} PatchMerges(codec: Codec, node: N.Node, d: Delivery)
    requires codec.Lawful() && node.cfg.partitionCount > 0 && d.req.Put? && d.req.mode == Merge
    requires N.Handle(S.EnvOf(codec), node, d.header, d.req).1.status == 200
    requires d.req.key in node.store && codec.decode(node.store[d.req.key].value).Some?
    ensures codec.decode(d.req.body).Some?
    ensures var node' := N.Handle(S.EnvOf(codec), node, d.header, d.req).0;
            && d.req.key in node'.store
            && codec.decode(node'.store[d.req.key].value) ==
                 Some(Merged(codec.decode(node.store[d.req.key].value).value, codec.decode(d.req.body).value))
  {
    SlotAfter(codec, node, d, d.req.key);
    TextMergesAsValues(codec, node.store[d.req.key].value, d.req.body);
  }
}
