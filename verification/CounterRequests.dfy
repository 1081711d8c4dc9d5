/**
 The requests of the counter client as the cluster sees them, and the responses as the client reads
 them. The counter machine serves a request against one slot in one instant; here that is what a
 correctly configured proxy and its nodes do with the texts the client sends, over every kind of link,
 and what the client makes of the text it gets back is the machine's reply.
 */
module CounterRequests {
  import opened Prelude
  import opened AtomicMap
  import opened Decimal
  import N = Node
  import C = Cluster
  import CasCounter

  /** How a counter is written as JSON text, and how such a text is read. */
  type Numeral = int -> Bytes
  type Reader = Bytes -> Option<int>

  /** The client recovers every number that a 64-bit counter can reach from its text. */
  ghost predicate ReadsBack(numeral: Numeral, read: Reader) {
    forall n :: 0 <= n <= MAX_INT ==> read(numeral(n)) == Some(n)
  }

  /** The client can read the counter as it stands. */
  ghost predicate Legible(numeral: Numeral, read: Reader, slot: Option<Entry<int>>) {
    slot.Some? ==> read(numeral(slot.value.value)) == Some(slot.value.value)
  }

  // ---------------------------------------------------------------- sending

  /** The request with its guard spelled out as query parameters. */
  function Spelled(numeral: Numeral, key: Key, request: CasCounter.Request): N.Request {
    match request
    case Read => N.Get(key)
    case Create => N.Put(key, Replace, [], ["true"], numeral(1))
    case Swap(body, version) => N.Put(key, Replace, [Print(version)], [], numeral(body))
  }

  function SlotText(numeral: Numeral, slot: Option<Entry<int>>): Option<Entry<Bytes>> {
    match slot
    case None => None
    case Some(e) => Some(Entry(numeral(e.value), e.version))
  }

  // ---------------------------------------------------------------- hearing

  /** What the client can learn from a response. */
  datatype Heard = Missing | Counter(n: int, version: nat) | Stored | Beaten | Trouble

  /** A read is judged by its status and, if it succeeded, by its text; a write by its status. */
  function Hear(read: Reader, reading: bool, resp: N.Response): Heard {
    if reading then
      if resp.status == N.NOT_FOUND then Missing
      else if resp.status == N.OK && resp.value.Some? && resp.version.Some? && read(resp.value.value).Some?
      then Counter(read(resp.value.value).value, resp.version.value)
      else Trouble
    else if resp.status == N.OK then Stored
    else if resp.status == N.CONFLICT then Beaten
    else Trouble
  }

  /** What a reply of the counter machine says. */
  function Meant(reply: Reply<int>): Heard {
    match reply
    case Found(e) => Counter(e.value, e.version)
    case NotFound => Missing
    case Wrote(Written(_)) => Stored
    case Wrote(VersionMismatch(_, _, _, _)) => Beaten
    case Wrote(ConflictingGuards) => Trouble
  }

  // ---------------------------------------------------------------- one node, and one forward

  /** The node's own checks let the request through. */
  predicate LetThrough(env: N.Env, cfg: N.Config, key: Key, req: N.Request)
    requires cfg.partitionCount > 0
  {
    && N.CheckKey(cfg, key).None?
    && (req.Put? ==>
          && N.ParseGuards(req.ifVersion, req.ifAbsent).Some?
          && |req.body| <= cfg.limits.maxValueBytes && env.valid(req.body))
  }

  /** A guard is read back as it was printed, unless its version is too large for the Go type, which is refused. */
  lemma {:induction false} GuardsReadBack(numeral: Numeral, key: Key, request: CasCounter.Request)
    requires !request.Read?
    ensures var r := Spelled(numeral, key, request);
            N.ParseGuards(r.ifVersion, r.ifAbsent) ==
            match request
            case Swap(_, version) => if version < TWO_64 then Some((Some(version), false)) else None
            case _ => Some((None, true))
  {
    if request.Swap? { ValueOfPrint(request.version); }
  }

  /** What the client hears of a refused request: trouble, except that a read of the empty key is told "not found". */
  function Refusal(key: Key, request: CasCounter.Request): Heard {
    if request.Read? && key == [] then Missing else Trouble
  }

  /** One node serves the spelled request as the counter machine serves the request, or refuses it without effect. */
  lemma {:induction false} NodeServes(env: N.Env, node: N.Node, numeral: Numeral, read: Reader, key: Key,
      slot: Option<Entry<int>>, request: CasCounter.Request)
    requires node.cfg.partitionCount > 0 && Legible(numeral, read, slot)
    requires Lookup(node.store, key) == SlotText(numeral, slot)
    ensures var req := Spelled(numeral, key, request);
            var (node', resp) := N.Handle(env, node, N.Declared(node.cfg.partitionCount), req);
            var (slot', reply) := CasCounter.Serve(key, slot, request);
            if LetThrough(env, node.cfg, key, req)
            then Lookup(node'.store, key) == SlotText(numeral, slot') && Hear(read, request.Read?, resp) == Meant(reply)
            else node' == node && Hear(read, request.Read?, resp) == Refusal(key, request)
  {
    if !request.Read? { GuardsReadBack(numeral, key, request); }
  }

  /**
   What a forward does to the counter, and what the client hears of it. If it does not get through,
   nothing happens. If it does, the owner's slot moves as the counter machine says, even when the reply
   is lost; and the client hears the machine's reply, number and version included, exactly when it is
   not. A request the node's checks refuse changes nothing and is heard as neither success nor conflict.
   */
  lemma {:induction false} ForwardServesCounter(env: N.Env, proxy: C.Proxy, nodes: seq<N.Node>, limits: N.Limits,
      link: C.Link, numeral: Numeral, read: Reader, key: Key, slot: Option<Entry<int>>, request: CasCounter.Request)
    requires C.WellConfigured(proxy, nodes, limits) && Legible(numeral, read, slot)
    requires Lookup(nodes[C.HomeOf(proxy, key)].store, key) == SlotText(numeral, slot)
    ensures var home, req := C.HomeOf(proxy, key), Spelled(numeral, key, request);
            var (nodes', resp) := C.Forward(env, proxy, nodes, link, req);
            var (slot', reply) := CasCounter.Serve(key, slot, request);
            var heard := Hear(read, request.Read?, resp);
            && C.WellConfigured(proxy, nodes', limits)
            && (forall i :: 0 <= i < |nodes| && i != home ==> nodes'[i] == nodes[i])
            && (link != C.Up ==> heard == Trouble)
            && if link == C.Down then nodes' == nodes
               else if LetThrough(env, nodes[home].cfg, key, req)
               then
                 && Lookup(nodes'[home].store, key) == SlotText(numeral, slot')
                 && (link == C.Up ==> heard == Meant(reply))
               else nodes' == nodes && (link == C.Up ==> heard == Refusal(key, request))
  {
    C.RouteToHome(proxy, nodes, limits, key);
    NodeServes(env, nodes[C.HomeOf(proxy, key)], numeral, read, key, slot, request);
  }
}
