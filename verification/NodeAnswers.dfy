/**
 What a node answers, request by request: which status for which fault, what a success shows, and what it
 leaves stored. Each status is told by the conditions a client can check, not by the order in which the
 handler looks at them.
 */
module NodeAnswers {
  import opened Prelude
  import opened AtomicMap
  import opened Routing
  import opened Decimal
  import opened Node
  import opened History

  // ---------------------------------------------------------------- before the key is looked at

  /** The caller hashed with this node's partition count, or does not say. */
  predicate SameCount(cfg: Config, header: Header) {
    header.Silent? || (header.Declared? && (header.count == 0 || header.count == cfg.partitionCount))
  }

  /** A caller with another partition count is misdirected, whatever it asks, and nothing happens. */
  lemma {:induction false} OtherCountIsRefused(env: Env, node: Node, header: Header, req: Request)
    requires node.cfg.partitionCount > 0
    ensures header.Declared? && header.count != 0 && header.count != node.cfg.partitionCount ==>
              Handle(env, node, header, req) == (node, Response(421, None, None))
    ensures header.Unreadable? ==> Handle(env, node, header, req) == (node, Response(400, None, None))
    ensures SameCount(node.cfg, header) ==> Handle(env, node, header, req) == Handle(env, node, Silent, req)
  {
  }

  /** The key is the node's business. */
  predicate Admits(cfg: Config, key: Key)
    requires cfg.partitionCount > 0
  {
    key != [] && |key| <= cfg.limits.maxKeyBytes && cfg.owned.Contains(PartitionOf(key, cfg.partitionCount))
  }

  /** A refused key: 404 if empty, 414 if too long, 421 if it is another node's. */
  ghost predicate KeyFault(cfg: Config, key: Key, status: nat)
    requires cfg.partitionCount > 0
  {
    && !Admits(cfg, key)
    && (status == 404 <==> key == [])
    && (status == 414 <==> key != [] && |key| > cfg.limits.maxKeyBytes)
    && (status == 421 <==> key != [] && |key| <= cfg.limits.maxKeyBytes)
    && status in {404, 414, 421}
  }

  lemma {:induction false} KeyCheckDecides(cfg: Config, key: Key)
    requires cfg.partitionCount > 0
    ensures CheckKey(cfg, key).None? <==> Admits(cfg, key)
    ensures CheckKey(cfg, key).Some? ==>
              KeyFault(cfg, key, CheckKey(cfg, key).value.status)
              && CheckKey(cfg, key).value == Fail(CheckKey(cfg, key).value.status)
  {
  }

  // ---------------------------------------------------------------- GET

  /** A read changes nothing, shows exactly what is stored, and is told apart from every kind of fault. */
  lemma {:induction false} GetAnswers(env: Env, node: Node, header: Header, k: Key)
    requires node.cfg.partitionCount > 0 && SameCount(node.cfg, header)
    ensures var (node', resp) := Handle(env, node, header, Get(k));
            && node' == node
            && (Admits(node.cfg, k) && k in node.store ==>
                  resp == Response(200, Some(node.store[k].value), Some(node.store[k].version)))
            && (Admits(node.cfg, k) && k !in node.store ==> resp == Response(404, None, None))
            && (!Admits(node.cfg, k) ==> KeyFault(node.cfg, k, resp.status) && resp == Fail(resp.status))
  {
  }

  // ---------------------------------------------------------------- guards

  /** Digits only, and small enough for the Go type. */
  predicate IsVersion(text: string) { text != [] && AllDigits(text) && Value(text) < TWO_64 }

  predicate IsYes(text: string) { text == "true" || text == "1" }

  predicate IsNo(text: string) { text == "false" || text == "0" }

  /** Each guard is given at most once and is readable, and they do not contradict each other. */
  predicate GuardsReadable(ifVersion: seq<string>, ifAbsent: seq<string>) {
    && |ifVersion| <= 1 && |ifAbsent| <= 1
    && (forall v :: v in ifVersion ==> IsVersion(v))
    && (forall a :: a in ifAbsent ==> IsYes(a) || IsNo(a))
    && !(|ifVersion| == 1 && |ifAbsent| == 1 && IsYes(ifAbsent[0]))
  }

  /** Readable guards mean what they say, and no others are taken. */
  lemma {:induction false} GuardsMean(ifVersion: seq<string>, ifAbsent: seq<string>)
    ensures ParseGuards(ifVersion, ifAbsent).Some? <==> GuardsReadable(ifVersion, ifAbsent)
    ensures GuardsReadable(ifVersion, ifAbsent) ==>
              var (version, absent) := ParseGuards(ifVersion, ifAbsent).value;
              && (ifVersion == [] ==> version == None)
              && (ifVersion != [] ==> version == Some(Value(ifVersion[0])))
              && (absent <==> ifAbsent != [] && IsYes(ifAbsent[0]))
  {
    assert |ifVersion| == 1 ==> ifVersion[0] in ifVersion && (forall v :: v in ifVersion ==> v == ifVersion[0]);
    assert |ifAbsent| == 1 ==> ifAbsent[0] in ifAbsent && (forall a :: a in ifAbsent ==> a == ifAbsent[0]);
  }

  // ---------------------------------------------------------------- PUT and PATCH

  /** A reply of the store as a response: 200 and what was stored, 409 and the version there is, or 400. */
  lemma {:induction false} StoreReplySaid(r: WriteReply<Bytes>)
    ensures match r
            case Written(e) => WriteResponse(r) == Response(200, Some(e.value), Some(e.version))
            case ConflictingGuards => WriteResponse(r) == Response(400, None, None)
            case VersionMismatch(_, _, current, _) =>
              && WriteResponse(r).status == 409 && WriteResponse(r).value == None
              && (WriteResponse(r).version == None <==> current == 0)
              && (current != 0 ==> WriteResponse(r).version == Some(current))
  {
  }

  /** The write that a readable request asks for. */
  function Asked(req: Request): WriteOp<Bytes>
    requires req.Put? && GuardsReadable(req.ifVersion, req.ifAbsent)
  {
    GuardsMean(req.ifVersion, req.ifAbsent);
    WriteOp(req.key, req.body, req.mode,
            if req.ifVersion == [] then None else Some(Value(req.ifVersion[0])),
            req.ifAbsent != [] && IsYes(req.ifAbsent[0]))
  }

  /** The request has no fault of its own; whether its guard holds is for the store to say. */
  ghost predicate Sayable(env: Env, cfg: Config, req: Request)
    requires cfg.partitionCount > 0 && req.Put?
  {
    && GuardsReadable(req.ifVersion, req.ifAbsent)
    && |req.body| <= cfg.limits.maxValueBytes
    && Admits(cfg, req.key)
    && env.valid(req.body)
  }

  /** What is wrong with a request that cannot be said, as its status tells. */
  ghost predicate PutFault(env: Env, cfg: Config, req: Request, status: nat)
    requires cfg.partitionCount > 0 && req.Put?
  {
    && status in {400, 404, 413, 414, 421}
    && (status == 400 ==> !GuardsReadable(req.ifVersion, req.ifAbsent) || !env.valid(req.body))
    && (status == 413 ==> |req.body| > cfg.limits.maxValueBytes)
    && (status in {404, 414, 421} ==> KeyFault(cfg, req.key, status))
    && (!GuardsReadable(req.ifVersion, req.ifAbsent) ==> status == 400)
    && (GuardsReadable(req.ifVersion, req.ifAbsent) && req.body != [] && |req.body| > cfg.limits.maxValueBytes ==>
          status == 413)
    && (GuardsReadable(req.ifVersion, req.ifAbsent) && |req.body| <= cfg.limits.maxValueBytes
        && !Admits(cfg, req.key) ==>
          status in {404, 414, 421})
  }

  /**
   A PUT or PATCH. It succeeds exactly when it has no fault and its guard holds of what is stored; then its
   key, and no other, has the next version and the body, merged into the old value if it is a PATCH
   of a key that was there, and the response shows that. It conflicts exactly when the guard fails, and
   names the version there is, if there is one. Otherwise its status names a fault it has.
   */
  lemma {:induction false} PutAnswers(env: Env, node: Node, header: Header, req: Request)
    requires node.cfg.partitionCount > 0 && SameCount(node.cfg, header) && req.Put?
    ensures var (node', resp) := Handle(env, node, header, req);
            var current := Lookup(node.store, req.key);
            && (Sayable(env, node.cfg, req) && GuardHolds(Asked(req), current) ==>
                  && resp.status == 200 && resp.value.Some? && resp.version.Some?
                  && Follows(env.merge, Asked(req), current, Entry(resp.value.value, resp.version.value))
                  && node' == node.(store := node.store[req.key := Entry(resp.value.value, resp.version.value)]))
            && (Sayable(env, node.cfg, req) && !GuardHolds(Asked(req), current) ==>
                  && node' == node && resp.status == 409 && resp.value == None
                  && (current.Some? && SlotVersion(current) > 0 ==> resp.version == Some(SlotVersion(current)))
                  && (current.None? ==> resp.version == None))
            && (!Sayable(env, node.cfg, req) ==>
                  && node' == node && resp == Fail(resp.status) && PutFault(env, node.cfg, req, resp.status))
  {
    OtherCountIsRefused(env, node, header, req);
    GuardsMean(req.ifVersion, req.ifAbsent);
    KeyCheckDecides(node.cfg, req.key);
    if Sayable(env, node.cfg, req) { OneCallIsRight(env.merge, node.store, WriteCall(Asked(req))); }
  }
}
