/** A store node: the checks around the store, in the order the handler and the service make them. */
module Node {
  import opened Prelude
  import opened AtomicMap
  import opened Routing
  import opened Decimal

  const OK: nat := 200
  const BAD_REQUEST: nat := 400
  const NOT_FOUND: nat := 404
  const CONFLICT: nat := 409
  const TOO_LARGE: nat := 413
  const URI_TOO_LONG: nat := 414
  const MISDIRECTED: nat := 421
  const UNAVAILABLE: nat := 503

  /** The JSON library, as far as a node can tell: which texts are valid, and how two of them merge. */
  datatype Env = Env(valid: Bytes -> bool, merge: (Bytes, Bytes) -> Bytes)

  datatype Limits = Limits(maxValueBytes: int, maxKeyBytes: int)

  datatype Config = Config(partitionCount: nat, owned: Range, limits: Limits)

  datatype Node = Node(cfg: Config, store: Kv<Bytes>)

  /** A single-key request; the two guards are the raw values of their query parameters. */
  datatype Request =
    | Get(key: Key)
    | Put(key: Key, mode: Mode, ifVersion: seq<string>, ifAbsent: seq<string>, body: Bytes)

  datatype Response = Response(status: nat, value: Option<Bytes>, version: Option<nat>)

  function Fail(status: nat): Response { Response(status, None, None) }

  /** The partition count the caller says it hashed with; a direct client says nothing. */
  datatype Header = Silent | Unreadable | Declared(count: int)

  /** 400 for a header that is no number, 421 for another count; zero passes like silence. */
  function CheckHeader(cfg: Config, header: Header): Option<Response> {
    match header
    case Silent => None
    case Unreadable => Some(Fail(BAD_REQUEST))
    case Declared(theirs) =>
      if theirs != 0 && theirs != cfg.partitionCount then Some(Fail(MISDIRECTED)) else None
  }

  function CheckKey(cfg: Config, key: Key): Option<Response>
    requires cfg.partitionCount > 0
  {
    if key == [] then Some(Fail(NOT_FOUND))
    else if |key| > cfg.limits.maxKeyBytes then Some(Fail(URI_TOO_LONG))
    else if !cfg.owned.Contains(PartitionOf(key, cfg.partitionCount)) then Some(Fail(MISDIRECTED))
    else None
  }

  /** The two guards, or None when a parameter is repeated, unreadable, or both ask for something. */
  function ParseGuards(ifVersion: seq<string>, ifAbsent: seq<string>): Option<(Option<nat>, bool)> {
    if |ifVersion| > 1 || (|ifVersion| == 1 && ParseUint(ifVersion[0]).Err?) then None
    else if |ifAbsent| > 1 || (|ifAbsent| == 1 && ifAbsent[0] !in ["true", "1", "false", "0"]) then None
    else
      var version := if |ifVersion| == 1 then Some(ParseUint(ifVersion[0]).value) else None;
      var absent := |ifAbsent| == 1 && ifAbsent[0] in ["true", "1"];
      if absent && version.Some? then None else Some((version, absent))
  }

  /** The reply of a write as a response: a conflict carries the current version unless there is none. */
  function WriteResponse(r: WriteReply<Bytes>): Response {
    match r
    case Written(e) => Response(OK, Some(e.value), Some(e.version))
    case ConflictingGuards => Fail(BAD_REQUEST)
    case VersionMismatch(_, _, current, _) =>
      Response(CONFLICT, None, if current != 0 then Some(current) else None)
  }

  function HandleGet(node: Node, key: Key): Response
    requires node.cfg.partitionCount > 0
  {
    match CheckKey(node.cfg, key)
    case Some(failure) => failure
    case None =>
      if key in node.store then Response(OK, Some(node.store[key].value), Some(node.store[key].version))
      else Fail(NOT_FOUND)
  }

  /** Guards, then the body size, then the key, then the JSON; a negative limit still lets an empty body be read. */
  function HandlePut(env: Env, node: Node, req: Request): (Node, Response)
    requires node.cfg.partitionCount > 0 && req.Put?
  {
    match ParseGuards(req.ifVersion, req.ifAbsent)
    case None => (node, Fail(BAD_REQUEST))
    case Some((ifVersion, ifAbsent)) =>
      var max := node.cfg.limits.maxValueBytes;
      if |req.body| > max && req.body != [] then (node, Fail(TOO_LARGE)) else
        match CheckKey(node.cfg, req.key)
        case Some(failure) => (node, failure)
        case None =>
          if |req.body| > max then (node, Fail(TOO_LARGE))
          else if !env.valid(req.body) then (node, Fail(BAD_REQUEST)) else
            var op := WriteOp(req.key, req.body, req.mode, ifVersion, ifAbsent);
            var (store, reply) := AtomicMap.Apply(env.merge, node.store, WriteCall(op));
            (node.(store := store), WriteResponse(reply.reply))
  }

  function Handle(env: Env, node: Node, header: Header, req: Request): (Node, Response)
    requires node.cfg.partitionCount > 0
  {
    match CheckHeader(node.cfg, header)
    case Some(failure) => (node, failure)
    case None => if req.Get? then (node, HandleGet(node, req.key)) else HandlePut(env, node, req)
  }

  // ---------------------------------------------------------------- what a node keeps

  /** Versions start at one, and every key held belongs here and was short enough to be accepted. */
  ghost predicate Sound(node: Node) {
    && node.cfg.partitionCount > 0
    && forall k :: k in node.store ==>
         && node.store[k].version > 0
         && CheckKey(node.cfg, k).None?
  }

  /** The slot of key k after a request for some key. */
  lemma {:induction false} HandleSlots(env: Env, node: Node, header: Header, req: Request, k: Key)
    requires node.cfg.partitionCount > 0
    ensures var (node', resp) := Handle(env, node, header, req);
            && node'.cfg == node.cfg
            && (k != req.key || resp.status != OK || req.Get? ==> Lookup(node'.store, k) == Lookup(node.store, k))
            && (k == req.key && req.Put? && resp.status == OK ==>
                  && CheckKey(node.cfg, k).None?
                  && k in node'.store && node'.store[k].version == SlotVersion(Lookup(node.store, k)) + 1
                  && resp == Response(OK, Some(node'.store[k].value), Some(node'.store[k].version)))
  {
  }

  lemma {:induction false} HandleKeepsSound(env: Env, node: Node, header: Header, req: Request)
    requires Sound(node)
    ensures Sound(Handle(env, node, header, req).0)
  {
  }

  /**
   A refused request changes nothing; and a conflict names the version the key has, exactly when the
   key exists, so a client can tell "changed" from "missing" without another read.
   */
  lemma {:induction false} ConflictNamesCurrentVersion(env: Env, node: Node, header: Header, req: Request)
    requires Sound(node)
    ensures var (node', resp) := Handle(env, node, header, req);
            && (resp.status != OK ==> node' == node)
            && (resp.status == CONFLICT ==>
                  req.Put? && resp.version == if req.key in node.store then Some(node.store[req.key].version) else None)
            && (resp.status == OK ==> resp.value.Some? && resp.version.Some? && resp.version.value > 0)
  {
  }
}
