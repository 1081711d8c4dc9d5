/**
 The counter on a real cluster. Clients send texts through well configured proxies, over links that
 lose requests or replies; the nodes check, parse, store and answer; meanwhile other keys are written,
 and anything is read, through proxies configured in any way. Every such execution is an execution
 of the counter machine, so the cluster's counter counts the increments.
 */
module CounterCluster {
  import opened Prelude
  import opened AtomicMap
  import opened CounterRequests
  import opened Decimal
  import N = Node
  import C = Cluster
  import CasCounter

  // ---------------------------------------------------------------- clients, proxies and nodes

  /** One increment call: the request text it has in the network, and the response on its way back. */
  datatype Call = Call(phase: CasCounter.Phase, attempts: nat, sent: Option<N.Request>, response: Option<N.Response>)

  datatype System = System(nodes: seq<N.Node>, calls: map<nat, Call>)

  datatype Action =
    | Begin(c: nat)
    | Ask(c: nat)
    | Deliver(c: nat, proxy: C.Proxy, link: C.Link)   // some proxy forwards the request, and answers 503 if that fails
    | LoseRequest(c: nat)
    | LoseReply(c: nat)
    | GiveUp(c: nat)
    | Receive(c: nat)
    | Traffic(other: C.Attempt)                       // a request of somebody else

  /** What stays the same throughout: libraries, limits, how counters are written and read, and the counter's key. */
  datatype Setting = Setting(env: N.Env, proxy: C.Proxy, limits: N.Limits, numeral: Numeral, read: Reader, key: Key) {
    ghost predicate Placed(nodes: seq<N.Node>) { C.WellConfigured(proxy, nodes, limits) }

    /** The counter's slot, on the node that owns its key. */
    ghost function Slot(nodes: seq<N.Node>): Option<Entry<Bytes>>
      requires Placed(nodes)
    {
      Lookup(nodes[C.HomeOf(proxy, key)].store, key)
    }

    function Send(request: CasCounter.Request): N.Request { Spelled(numeral, key, request) }
  }

  ghost predicate Allowed(x: Setting, s: System, a: Action) {
    match a
    case Begin(c) => c !in s.calls
    case Ask(c) => c in s.calls && s.calls[c].phase == CasCounter.Asking
    case Deliver(c, proxy, _) => c in s.calls && s.calls[c].sent.Some? && C.WellConfigured(proxy, s.nodes, x.limits)
    case LoseRequest(c) => c in s.calls && s.calls[c].sent.Some?
    case LoseReply(c) => c in s.calls && s.calls[c].response.Some?
    case GiveUp(c) => c in s.calls && Awaits(s.calls[c].phase)
    case Receive(c) => c in s.calls && s.calls[c].response.Some? && Awaits(s.calls[c].phase)
    case Traffic(other) =>
      && other.proxy.Usable() && (other.req.key != x.key || other.req.Get?)
      && forall n :: n in s.nodes ==> n.cfg.partitionCount > 0
  }

  predicate Awaits(phase: CasCounter.Phase) { phase == CasCounter.AwaitRead || phase == CasCounter.AwaitWrite }

  /** What the client does with a response. */
  function Act(x: Setting, call: Call): Call
    requires call.response.Some? && Awaits(call.phase)
  {
    var idle := call.(response := None);
    match Hear(x.read, call.phase == CasCounter.AwaitRead, call.response.value)
    case Missing => idle.(phase := CasCounter.AwaitWrite, sent := Some(x.Send(CasCounter.Create)))
    case Counter(n, version) =>
      idle.(phase := CasCounter.AwaitWrite, sent := Some(x.Send(CasCounter.Swap(n + 1, version))))
    case Stored => idle.(phase := CasCounter.Acked)
    case Beaten =>
      idle.(attempts := call.attempts + 1,
            phase := if call.attempts + 1 < CasCounter.MAX_ATTEMPTS then CasCounter.Asking else CasCounter.Failed)
    case Trouble => idle.(phase := CasCounter.Failed)
  }

  ghost function Step(x: Setting, s: System, a: Action): System
    requires Allowed(x, s, a)
  {
    match a
    case Begin(c) => s.(calls := s.calls[c := Call(CasCounter.Asking, 0, None, None)])
    case Ask(c) =>
      var asked := s.calls[c].(phase := CasCounter.AwaitRead, sent := Some(x.Send(CasCounter.Read)), response := None);
      s.(calls := s.calls[c := asked])
    case Deliver(c, proxy, link) =>
      var (nodes, resp) := C.Forward(x.env, proxy, s.nodes, link, s.calls[c].sent.value);
      System(nodes, s.calls[c := s.calls[c].(sent := None, response := Some(resp))])
    case LoseRequest(c) => s.(calls := s.calls[c := s.calls[c].(sent := None)])
    case LoseReply(c) => s.(calls := s.calls[c := s.calls[c].(response := None)])
    case GiveUp(c) => s.(calls := s.calls[c := s.calls[c].(phase := CasCounter.Failed)])
    case Receive(c) => s.(calls := s.calls[c := Act(x, s.calls[c])])
    case Traffic(other) => s.(nodes := C.Forward(x.env, other.proxy, s.nodes, other.link, other.req).0)
  }

  /** An execution on a cluster that holds anything but the counter, with no more calls than 64 bits can count. */
  ghost predicate IsRun(x: Setting, states: seq<System>, actions: seq<Action>) {
    && ReadsBack(x.numeral, x.read)
    && |states| == |actions| + 1
    && (forall i :: 0 <= i < |states| ==> |states[i].calls| < MAX_INT)
    && x.Placed(states[0].nodes) && x.Slot(states[0].nodes) == None && states[0].calls == map[]
    && forall i :: 0 <= i < |actions| ==>
         Allowed(x, states[i], actions[i]) && states[i + 1] == Step(x, states[i], actions[i])
  }

  // ---------------------------------------------------------------- the counter machine behind it

  /** The call and the machine's increment are at the same point; a response the machine has no reply for is trouble. */
  ghost predicate SameCall(x: Setting, i: CasCounter.Increment, call: Call) {
    && call.phase == i.phase && call.attempts == i.attempts
    && call.sent == (if i.request.Some? then Some(x.Send(i.request.value)) else None)
    && (i.reply.Some? ==>
          call.response.Some? && Hear(x.read, !i.reply.value.Wrote?, call.response.value) == Meant(i.reply.value))
    && (i.reply.None? && call.response.Some? && Awaits(i.phase) ==>
          Hear(x.read, i.phase == CasCounter.AwaitRead, call.response.value) == Trouble)
  }

  ghost predicate SameCalls(x: Setting, increments: map<nat, CasCounter.Increment>, calls: map<nat, Call>) {
    && increments.Keys == calls.Keys
    && forall c :: c in calls ==> SameCall(x, increments[c], calls[c])
  }

  /** The owner's slot is the text of the machine's; no node accepts the empty key, so nothing is ever under it. */
  ghost predicate SameCounter(x: Setting, slot: Option<Entry<int>>, nodes: seq<N.Node>) {
    && x.Placed(nodes)
    && x.Slot(nodes) == SlotText(x.numeral, slot)
    && (x.key == [] ==> slot == None)
  }

  ghost predicate Same(x: Setting, a: CasCounter.System, s: System) {
    SameCounter(x, a.slot, s.nodes) && SameCalls(x, a.calls, s.calls)
  }

  /** An execution of the counter machine that ends where the cluster stands. */
  ghost predicate Refines(x: Setting, trace: seq<CasCounter.System>, acts: seq<CasCounter.Action>, s: System) {
    CasCounter.IsRun(x.key, trace, acts) && Same(x, trace[|acts|], s)
  }

  /** The machine takes one more step. */
  lemma {:induction false} Extend(key: Key, trace: seq<CasCounter.System>, acts: seq<CasCounter.Action>,
      act: CasCounter.Action)
    requires CasCounter.IsRun(key, trace, acts) && CasCounter.Allowed(trace[|acts|], act)
    ensures CasCounter.IsRun(key, trace + [CasCounter.Step(key, trace[|acts|], act)], acts + [act])
  {
    var trace', acts' := trace + [CasCounter.Step(key, trace[|acts|], act)], acts + [act];
    forall i | 0 <= i < |acts'|
      ensures CasCounter.Allowed(trace'[i], acts'[i]) && trace'[i + 1] == CasCounter.Step(key, trace'[i], acts'[i])
    {
      if i < |acts| { assert trace'[i] == trace[i] && trace'[i + 1] == trace[i + 1] && acts'[i] == acts[i]; }
    }
  }

  /** Only call c has moved, on both sides alike. */
  lemma {:induction false} OneCallMoves(x: Setting, increments: map<nat, CasCounter.Increment>,
      calls: map<nat, Call>, c: nat, i: CasCounter.Increment, call: Call)
    requires SameCalls(x, increments, calls) && SameCall(x, i, call)
    ensures SameCalls(x, increments[c := i], calls[c := call])
  {
  }

  /** Well configured proxies agree on where a key lives. */
  lemma {:induction false} OneHome(x: Setting, nodes: seq<N.Node>, proxy: C.Proxy)
    requires x.Placed(nodes) && C.WellConfigured(proxy, nodes, x.limits)
    ensures C.HomeOf(proxy, x.key) == C.HomeOf(x.proxy, x.key)
  {
    assert nodes[0].cfg.partitionCount == proxy.table.partitionCount == x.proxy.table.partitionCount;
  }

  /** Somebody else's request moves no node and leaves the counter alone. */
  lemma {:induction false} TrafficPasses(x: Setting, s: System, other: C.Attempt)
    requires x.Placed(s.nodes) && Allowed(x, s, Traffic(other))
    ensures var nodes' := Step(x, s, Traffic(other)).nodes; x.Placed(nodes') && x.Slot(nodes') == x.Slot(s.nodes)
  {
    PlacedAfter(x, s.nodes, other.proxy, other.link, other.req);
    var route := C.Route(other.proxy, s.nodes, other.req.key);
    if route.Some? {
      N.HandleSlots(x.env, s.nodes[route.value], N.Declared(other.proxy.table.partitionCount), other.req, x.key);
    }
  }

  /** What the machine does when the cluster delivers a request. */
  datatype Served = Untouched | Answered | AnswerLost

  /** A delivery is the machine's delivery, with or without its reply, or no delivery at all. */
  lemma {:induction false} DeliverServes(x: Setting, slot: Option<Entry<int>>, request: CasCounter.Request,
      nodes: seq<N.Node>, proxy: C.Proxy, link: C.Link)
    returns (served: Served)
    requires Legible(x.numeral, x.read, slot) && SameCounter(x, slot, nodes) && C.WellConfigured(proxy, nodes, x.limits)
    ensures var (nodes', resp) := C.Forward(x.env, proxy, nodes, link, x.Send(request));
            var (slot', reply) := CasCounter.Serve(x.key, slot, request);
            && SameCounter(x, if served == Untouched then slot else slot', nodes')
            && Hear(x.read, request.Read?, resp) == if served == Answered then Meant(reply) else Trouble
  {
    OneHome(x, nodes, proxy);
    ForwardServesCounter(x.env, proxy, nodes, x.limits, link, x.numeral, x.read, x.key, slot, request);
    PlacedAfter(x, nodes, proxy, link, x.Send(request));
    var through := LetThrough(x.env, nodes[C.HomeOf(x.proxy, x.key)].cfg, x.key, x.Send(request));
    var toldMissing := link == C.Up && request.Read? && x.key == [];
    served := if link == C.Down || !(through || toldMissing) then Untouched
              else if link == C.Up then Answered
              else AnswerLost;
  }

  /** No request changes how the nodes are configured. */
  lemma {:induction false} PlacedAfter(x: Setting, nodes: seq<N.Node>, proxy: C.Proxy, link: C.Link, req: N.Request)
    requires x.Placed(nodes) && proxy.Usable() && forall n :: n in nodes ==> n.cfg.partitionCount > 0
    ensures x.Placed(C.Forward(x.env, proxy, nodes, link, req).0)
  {
    var route := C.Route(proxy, nodes, req.key);
    if route.Some? {
      N.HandleSlots(x.env, nodes[route.value], N.Declared(proxy.table.partitionCount), req, req.key);
    }
  }

  /** No call is applied twice, so the counter never exceeds the number of calls. */
  lemma {:induction false} CounterFits(a: CasCounter.System, s: System)
    requires CasCounter.Inv(a) && a.calls.Keys == s.calls.Keys
    ensures a.slot.Some? ==> 0 <= a.slot.value.value <= |s.calls|
  {
    CasCounter.SubsetSize(CasCounter.Appliers(a), s.calls.Keys);
    assert |s.calls| == |s.calls.Keys|;
  }

  lemma {:induction false} DeliverRefines(x: Setting, trace: seq<CasCounter.System>, acts: seq<CasCounter.Action>,
      s: System, c: nat, proxy: C.Proxy, link: C.Link)
    returns (trace': seq<CasCounter.System>, acts': seq<CasCounter.Action>)
    requires ReadsBack(x.numeral, x.read) && |s.calls| < MAX_INT
    requires Refines(x, trace, acts, s) && Allowed(x, s, Deliver(c, proxy, link))
    ensures Refines(x, trace', acts', Step(x, s, Deliver(c, proxy, link)))
  {
    var a, s' := trace[|acts|], Step(x, s, Deliver(c, proxy, link));
    CasCounter.RunKeepsInv(x.key, trace, acts, |acts|);
    assert CasCounter.CallOk(a.calls[c]) && SameCall(x, a.calls[c], s.calls[c]);
    CounterFits(a, s);
    var served := DeliverServes(x, a.slot, a.calls[c].request.value, s.nodes, proxy, link);
    var b := AfterDelivery(x.key, a, c, served);
    DeliveredCallSame(x, a, s.calls[c], s'.calls[c], c, served);
    OneCallMoves(x, a.calls, s.calls, c, b.calls[c], s'.calls[c]);
    trace', acts' := DeliveryTrace(x.key, trace, acts, c, served);
  }

  /** The machine takes the steps of a delivery. */
  lemma {:induction false} DeliveryTrace(key: Key, trace: seq<CasCounter.System>, acts: seq<CasCounter.Action>,
      c: nat, served: Served)
    returns (trace': seq<CasCounter.System>, acts': seq<CasCounter.Action>)
    requires CasCounter.IsRun(key, trace, acts)
    requires c in trace[|acts|].calls && trace[|acts|].calls[c].request.Some?
    ensures CasCounter.IsRun(key, trace', acts') && trace'[|acts'|] == AfterDelivery(key, trace[|acts|], c, served)
  {
    var a := trace[|acts|];
    var act := if served == Untouched then CasCounter.LoseRequest(c) else CasCounter.Deliver(c);
    Extend(key, trace, acts, act);
    trace', acts' := trace + [CasCounter.Step(key, a, act)], acts + [act];
    if served == AnswerLost {
      var lost := CasCounter.LoseReply(c);
      Extend(key, trace', acts', lost);
      trace', acts' := trace' + [CasCounter.Step(key, trace'[|acts'|], lost)], acts' + [lost];
    }
  }

  /** The machine after a delivery. */
  ghost function AfterDelivery(key: Key, a: CasCounter.System, c: nat, served: Served): (a': CasCounter.System)
    requires c in a.calls && a.calls[c].request.Some?
    ensures c in a'.calls && a'.calls == a.calls[c := a'.calls[c]]
    ensures a'.slot == if served == Untouched then a.slot else CasCounter.Serve(key, a.slot, a.calls[c].request.value).0
  {
    match served
    case Untouched => CasCounter.Step(key, a, CasCounter.LoseRequest(c))
    case Answered => CasCounter.Step(key, a, CasCounter.Deliver(c))
    case AnswerLost => CasCounter.Step(key, CasCounter.Step(key, a, CasCounter.Deliver(c)), CasCounter.LoseReply(c))
  }

  lemma {:induction false} DeliveredCallSame(x: Setting, a: CasCounter.System, call: Call, call': Call, c: nat,
      served: Served)
    requires c in a.calls && CasCounter.CallOk(a.calls[c]) && SameCall(x, a.calls[c], call) && a.calls[c].request.Some?
    requires call'.response.Some? && call' == call.(sent := None, response := call'.response)
    requires var request := a.calls[c].request.value;
             Hear(x.read, request.Read?, call'.response.value) ==
             if served == Answered then Meant(CasCounter.Serve(x.key, a.slot, request).1) else Trouble
    ensures SameCall(x, AfterDelivery(x.key, a, c, served).calls[c], call')
  {
  }

  /** What the client makes of a response is what the machine's client makes of the reply, or giving up. */
  lemma {:induction false} ActsAlike(x: Setting, i: CasCounter.Increment, call: Call)
    requires SameCall(x, i, call) && CasCounter.CallOk(i) && call.response.Some? && Awaits(call.phase)
    ensures if i.reply.Some?
            then SameCall(x, CasCounter.React(i), Act(x, call))
            else SameCall(x, i.(phase := CasCounter.Failed), Act(x, call))
  {
  }

  /** The machine's counterpart of a step that moves no node. */
  function Counterpart(s: CasCounter.System, a: Action): Option<CasCounter.Action> {
    match a
    case Begin(c) => Some(CasCounter.Begin(c))
    case Ask(c) => Some(CasCounter.Ask(c))
    case LoseRequest(c) => Some(CasCounter.LoseRequest(c))
    case LoseReply(c) => if c in s.calls && s.calls[c].reply.Some? then Some(CasCounter.LoseReply(c)) else None
    case GiveUp(c) => Some(CasCounter.GiveUp(c))
    case Receive(c) =>
      if c in s.calls && s.calls[c].reply.Some? then Some(CasCounter.Receive(c)) else Some(CasCounter.GiveUp(c))
    case Deliver(_, _, _) => None
    case Traffic(_) => None
  }

  lemma {:induction false} ClientCallSame(x: Setting, a: CasCounter.System, s: System, action: Action)
    requires a.calls.Keys == s.calls.Keys && Allowed(x, s, action) && !action.Deliver? && !action.Traffic?
    requires action.c in s.calls ==>
               CasCounter.CallOk(a.calls[action.c]) && SameCall(x, a.calls[action.c], s.calls[action.c])
    ensures var act := Counterpart(a, action);
            && (act.Some? ==> CasCounter.Allowed(a, act.value))
            && var a' := if act.Some? then CasCounter.Step(x.key, a, act.value) else a;
               action.c in a'.calls && SameCall(x, a'.calls[action.c], Step(x, s, action).calls[action.c])
  {
    if action.Receive? { ActsAlike(x, a.calls[action.c], s.calls[action.c]); }
  }

  lemma {:induction false} ClientStepSame(x: Setting, a: CasCounter.System, s: System, action: Action)
    requires SameCalls(x, a.calls, s.calls) && CasCounter.Inv(a)
    requires Allowed(x, s, action) && !action.Deliver? && !action.Traffic?
    ensures var act := Counterpart(a, action);
            && (act.Some? ==> CasCounter.Allowed(a, act.value))
            && var a', s' := if act.Some? then CasCounter.Step(x.key, a, act.value) else a, Step(x, s, action);
               SameCalls(x, a'.calls, s'.calls) && a'.slot == a.slot && s'.nodes == s.nodes
  {
    ClientCallSame(x, a, s, action);
    var act, s' := Counterpart(a, action), Step(x, s, action);
    var a' := if act.Some? then CasCounter.Step(x.key, a, act.value) else a;
    OneCallMoves(x, a.calls, s.calls, action.c, a'.calls[action.c], s'.calls[action.c]);
    assert a'.calls == a.calls[action.c := a'.calls[action.c]] && s'.calls == s.calls[action.c := s'.calls[action.c]];
  }

  lemma {:induction false} StepRefines(x: Setting, trace: seq<CasCounter.System>, acts: seq<CasCounter.Action>,
      s: System, action: Action)
    returns (trace': seq<CasCounter.System>, acts': seq<CasCounter.Action>)
    requires ReadsBack(x.numeral, x.read) && |s.calls| < MAX_INT
    requires Refines(x, trace, acts, s) && Allowed(x, s, action)
    ensures Refines(x, trace', acts', Step(x, s, action))
  {
    var a := trace[|acts|];
    CasCounter.RunKeepsInv(x.key, trace, acts, |acts|);
    match action
    case Deliver(c, proxy, link) =>
      trace', acts' := DeliverRefines(x, trace, acts, s, c, proxy, link);
    case Traffic(other) =>
      TrafficPasses(x, s, other);
      trace', acts' := trace, acts;
    case _ =>
      ClientStepSame(x, a, s, action);
      trace', acts' := trace, acts;
      var act := Counterpart(a, action);
      if act.Some? {
        Extend(x.key, trace, acts, act.value);
        trace', acts' := trace + [CasCounter.Step(x.key, a, act.value)], acts + [act.value];
      }
  }

  /** Every execution of the cluster is one of the counter machine, from the start. */
  lemma {:induction false} ClusterRefinesCounter(x: Setting, states: seq<System>, actions: seq<Action>, n: nat)
    requires IsRun(x, states, actions) && n < |states|
    ensures exists trace, acts :: Refines(x, trace, acts, states[n])
  {
    var trace, acts := RefiningRun(x, states, actions, n);
  }

  lemma {:induction false} RefiningRun(x: Setting, states: seq<System>, actions: seq<Action>, n: nat)
    returns (trace: seq<CasCounter.System>, acts: seq<CasCounter.Action>)
    requires IsRun(x, states, actions) && n < |states|
    ensures Refines(x, trace, acts, states[n])
  {
    if n == 0 {
      trace, acts := [CasCounter.System(None, map[])], [];
    } else {
      trace, acts := RefiningRun(x, states, actions, n - 1);
      trace, acts := StepRefines(x, trace, acts, states[n - 1], actions[n - 1]);
    }
  }

  // ---------------------------------------------------------------- the promises, on the cluster

  ghost function InPhase(s: System, p: CasCounter.Phase): set<nat> { set c | c in s.calls && s.calls[c].phase == p }

  ghost function Unfinished(s: System): set<nat> {
    set c | c in s.calls && s.calls[c].phase != CasCounter.Acked && s.calls[c].phase != CasCounter.Failed
  }

  /**
   The counter on the cluster, in every reachable state of every execution: what the owner holds is the
   text of its own version number; it lies between the acknowledged increments and those plus the
   failed and pending ones; and when all are acknowledged it is their number. In an execution of up to
   MAX_ATTEMPTS increments no call ever runs out of attempts.
   */
  lemma {:induction false} ClusterCountsIncrements(x: Setting, states: seq<System>, actions: seq<Action>, n: nat)
    requires IsRun(x, states, actions) && n < |states|
    ensures var s := states[n];
            && x.Placed(s.nodes)
            && var slot := x.Slot(s.nodes);
               && (slot.Some? ==> slot.value.value == x.numeral(slot.value.version))
               && |InPhase(s, CasCounter.Acked)| <= SlotVersion(slot)
               && SlotVersion(slot) <=
                    |InPhase(s, CasCounter.Acked)| + |InPhase(s, CasCounter.Failed)| + |Unfinished(s)|
               && (s.calls != map[] && (forall c :: c in s.calls ==> s.calls[c].phase == CasCounter.Acked) ==>
                     slot == Some(Entry(x.numeral(|s.calls|), |s.calls|)))
               && (|s.calls| <= CasCounter.MAX_ATTEMPTS ==>
                     forall c :: c in s.calls ==> s.calls[c].attempts < CasCounter.MAX_ATTEMPTS)
  {
    var trace, acts := RefiningRun(x, states, actions, n);
    var a, s := trace[|acts|], states[n];
    CasCounter.CounterCountsIncrements(x.key, trace, acts, |acts|);
    assert InPhase(s, CasCounter.Acked) == CasCounter.InPhase(a, CasCounter.Acked);
    assert InPhase(s, CasCounter.Failed) == CasCounter.InPhase(a, CasCounter.Failed);
    assert Unfinished(s) == CasCounter.Unfinished(a);
    assert |a.calls| == |a.calls.Keys| == |s.calls.Keys| == |s.calls|;
    forall c | c in s.calls && |s.calls| <= CasCounter.MAX_ATTEMPTS
      ensures s.calls[c].attempts < CasCounter.MAX_ATTEMPTS
    {
      CasCounter.LosingTakesRivals(x.key, trace, acts, |acts|, c);
    }
    if s.calls != map[] && forall c :: c in s.calls ==> s.calls[c].phase == CasCounter.Acked {
      CasCounter.AllAcknowledgedNoneLost(x.key, trace, acts, |acts|);
    }
  }

  // ---------------------------------------------------------------- an increment alone succeeds

  /** The owner's checks let these requests through. */
  ghost predicate LetsThrough(x: Setting, nodes: seq<N.Node>, request: CasCounter.Request)
    requires x.Placed(nodes)
  {
    LetThrough(x.env, nodes[C.HomeOf(x.proxy, x.key)].cfg, x.key, x.Send(request))
  }

  /** One exchange over a good link: the slot moves and the client hears the reply. */
  lemma {:induction false} GoodExchange(x: Setting, nodes: seq<N.Node>, slot: Option<Entry<int>>,
      request: CasCounter.Request)
    requires x.Placed(nodes) && x.Slot(nodes) == SlotText(x.numeral, slot) && Legible(x.numeral, x.read, slot)
    requires LetsThrough(x, nodes, request)
    ensures var (nodes', resp) := C.Forward(x.env, x.proxy, nodes, C.Up, x.Send(request));
            var (slot', reply) := CasCounter.Serve(x.key, slot, request);
            && x.Placed(nodes') && x.Slot(nodes') == SlotText(x.numeral, slot')
            && nodes'[C.HomeOf(x.proxy, x.key)].cfg == nodes[C.HomeOf(x.proxy, x.key)].cfg
            && Hear(x.read, request.Read?, resp) == Meant(reply)
  {
    ForwardServesCounter(x.env, x.proxy, nodes, x.limits, C.Up, x.numeral, x.read, x.key, slot, request);
    C.RouteToHome(x.proxy, nodes, x.limits, x.key);
    var home := nodes[C.HomeOf(x.proxy, x.key)];
    N.HandleSlots(x.env, home, N.Declared(x.proxy.table.partitionCount), x.Send(request), x.key);
  }

  /** The write that follows a reading. */
  function Answer(slot: Option<Entry<int>>): CasCounter.Request {
    match slot
    case None => CasCounter.Create
    case Some(e) => CasCounter.Swap(e.value + 1, e.version)
  }

  /** A request goes out and its response comes back: delivered by the proxy over a good link, and received. */
  ghost function Exchanged(x: Setting, s: System, c: nat): System
    requires x.Placed(s.nodes) && c in s.calls && s.calls[c].sent.Some? && Awaits(s.calls[c].phase)
  {
    var delivered := Step(x, s, Deliver(c, x.proxy, C.Up));
    assert Allowed(x, delivered, Receive(c));
    Step(x, delivered, Receive(c))
  }

  /** The client has the counter before it, as it stands. */
  ghost predicate Sees(x: Setting, s: System, slot: Option<Entry<int>>) {
    && x.Placed(s.nodes) && x.Slot(s.nodes) == SlotText(x.numeral, slot) && Legible(x.numeral, x.read, slot)
  }

  lemma {:induction false} ReadAlone(x: Setting, s: System, c: nat, slot: Option<Entry<int>>)
    requires Sees(x, s, slot) && LetsThrough(x, s.nodes, CasCounter.Read) && LetsThrough(x, s.nodes, Answer(slot))
    requires c in s.calls && s.calls[c].phase == CasCounter.AwaitRead
    requires s.calls[c].sent == Some(x.Send(CasCounter.Read))
    ensures var s' := Exchanged(x, s, c);
            && Sees(x, s', slot) && LetsThrough(x, s'.nodes, Answer(slot))
            && c in s'.calls && s'.calls[c].attempts == s.calls[c].attempts
            && s'.calls[c].phase == CasCounter.AwaitWrite && s'.calls[c].sent == Some(x.Send(Answer(slot)))
  {
    GoodExchange(x, s.nodes, slot, CasCounter.Read);
  }

  lemma {:induction false} WriteAlone(x: Setting, s: System, c: nat, slot: Option<Entry<int>>)
    requires Sees(x, s, slot) && LetsThrough(x, s.nodes, Answer(slot))
    requires slot.Some? ==> slot.value.value == slot.value.version
    requires c in s.calls && s.calls[c].phase == CasCounter.AwaitWrite && s.calls[c].sent == Some(x.Send(Answer(slot)))
    ensures var v, s' := SlotVersion(slot) + 1, Exchanged(x, s, c);
            && c in s'.calls && s'.calls[c].attempts == s.calls[c].attempts && s'.calls[c].phase == CasCounter.Acked
            && x.Placed(s'.nodes) && x.Slot(s'.nodes) == Some(Entry(x.numeral(v), v))
  {
    GoodExchange(x, s.nodes, slot, Answer(slot));
  }

  /**
   On the cluster: an increment that asks, and then exchanges its read and its write over good links with
   nobody in between, is acknowledged at its first attempt, and the owner's slot holds the next number
   at the next version.
   */
  lemma {:induction false} AloneIsAcknowledged(x: Setting, s: System, c: nat, slot: Option<Entry<int>>)
    requires Sees(x, s, slot) && LetsThrough(x, s.nodes, CasCounter.Read) && LetsThrough(x, s.nodes, Answer(slot))
    requires slot.Some? ==> slot.value.value == slot.value.version
    requires c in s.calls && s.calls[c].phase == CasCounter.Asking
    ensures Allowed(x, s, Ask(c))
    ensures var asked := Step(x, s, Ask(c));
            && x.Placed(asked.nodes) && asked.calls[c].sent.Some? && Awaits(asked.calls[c].phase)
            && var read := Exchanged(x, asked, c);
               && x.Placed(read.nodes) && c in read.calls && read.calls[c].sent.Some? && Awaits(read.calls[c].phase)
               && var v, done := SlotVersion(slot) + 1, Exchanged(x, read, c);
                  && c in done.calls && done.calls[c].phase == CasCounter.Acked
                  && done.calls[c].attempts == s.calls[c].attempts
                  && x.Placed(done.nodes) && x.Slot(done.nodes) == Some(Entry(x.numeral(v), v))
  {
    var asked := Step(x, s, Ask(c));
    ReadAlone(x, asked, c, slot);
    WriteAlone(x, Exchanged(x, asked, c), c, slot);
  }
}
