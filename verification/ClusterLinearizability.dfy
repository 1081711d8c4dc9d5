/**
 The whole cluster is one atomic store. Every node runs the lock-level store, all of them at once and
 each with any number of calls; a node is asked only for keys of its own partitions, and the nodes'
 ranges do not overlap. Then one order of atomic calls on one plain map explains all nodes together,
 and it respects time across nodes as well as within them.
 */
module ClusterLinearizability {
  import opened Prelude
  import opened AtomicMap
  import opened Routing
  import opened StoreProtocol
  import opened StoreInvariant
  import L = Linearizability
  import H = History

  // ---------------------------------------------------------------- executions of a cluster

  /** Which partitions each node owns. */
  datatype Shards = Shards(owned: seq<Range>, parts: nat) {
    ghost predicate Owns(i: nat, k: Key) {
      i < |owned| && parts > 0 && owned[i].Contains(PartitionOf(k, parts))
    }

    ghost predicate Disjoint() { forall i, j, k :: Owns(i, k) && Owns(j, k) ==> i == j }
  }

  /** One step of one node, on a clock common to all. */
  datatype Tick<+V> = Tick(node: nat, action: Action<V>)

  /** The service lets only calls for owned keys reach the store. */
  ghost predicate Admitted<V>(x: Shards, tick: Tick<V>) {
    tick.action.Arrive? && tick.action.job.Point? ==> x.Owns(tick.node, tick.action.job.call.Target())
  }

  ghost predicate Ticks<V>(merge: (V, V) -> V, x: Shards, s: seq<State<V>>, tick: Tick<V>, s': seq<State<V>>) {
    && tick.node < |s| && Allowed(s[tick.node], tick.action) && Admitted(x, tick)
    && s' == s[tick.node := Step(merge, s[tick.node], tick.action)]
  }

  /** Fresh stores, one per node, and their steps in the order in which they happen. */
  ghost predicate IsClusterRun<V>(merge: (V, V) -> V, x: Shards, states: seq<seq<State<V>>>, ticks: seq<Tick<V>>) {
    && |states| == |ticks| + 1
    && |states[0]| == |x.owned|
    && (forall i :: 0 <= i < |states[0]| ==> Initial(states[0][i]))
    && forall t :: 0 <= t < |ticks| ==> Ticks(merge, x, states[t], ticks[t], states[t + 1])
  }

  // ---------------------------------------------------------------- the order

  /** A call taking effect at some node, at the step where it does. */
  datatype Event<+V> = Event(step: nat, node: nat, call: CallId, request: Call<V>, reply: Reply<V>)

  function Requests<V>(log: seq<Event<V>>): (calls: seq<Call<V>>)
    ensures |calls| == |log| && forall i :: 0 <= i < |log| ==> calls[i] == log[i].request
  {
    if log == [] then [] else Requests(log[..|log| - 1]) + [log[|log| - 1].request]
  }

  /** Node i has call c. */
  ghost predicate Has<V>(s: seq<State<V>>, i: nat, c: CallId) { i < |s| && c in s[i].threads }

  /** Each reply is what one plain map answers after the events before it. */
  ghost predicate Legal<V>(merge: (V, V) -> V, log: seq<Event<V>>) {
    forall i :: 0 <= i < |log| ==> log[i].reply == ReplyAt(merge, Requests(log), i)
  }

  /** The event is a step of its own call, taken after the call arrived and before it returned. */
  ghost predicate OwnStep<V>(states: seq<seq<State<V>>>, ticks: seq<Tick<V>>, n: nat, e: Event<V>)
    requires |states| == |ticks| + 1 && n <= |ticks|
  {
    && e.step < n
    && ticks[e.step].node == e.node && ticks[e.step].action.Move? && ticks[e.step].action.c == e.call
    && Has(states[e.step], e.node, e.call)
    && states[e.step][e.node].threads[e.call].job == Point(e.request)
    && !states[e.step][e.node].threads[e.call].Finished()
  }

  ghost predicate Timely<V>(states: seq<seq<State<V>>>, ticks: seq<Tick<V>>, n: nat, log: seq<Event<V>>)
    requires |states| == |ticks| + 1 && n <= |ticks|
  {
    && (forall i :: 0 <= i < |log| ==> OwnStep(states, ticks, n, log[i]))
    && (forall i, j :: 0 <= i < j < |log| ==> log[i].step < log[j].step)
  }

  ghost predicate Logged<V>(log: seq<Event<V>>, i: nat, c: CallId, reply: Reply<V>) {
    exists j :: 0 <= j < |log| && log[j].node == i && log[j].call == c && log[j].reply == reply
  }

  ghost predicate AllSensible<V>(s: seq<State<V>>) {
    forall i: nat, c: CallId :: Has(s, i, c) ==> Sensible(s[i], s[i].threads[c])
  }

  /** Exactly the calls that have taken effect are in the log, once each, with the reply they give. */
  ghost predicate Complete<V>(s: seq<State<V>>, log: seq<Event<V>>) {
    && AllSensible(s)
    && (forall j :: 0 <= j < |log| ==>
          Has(s, log[j].node, log[j].call) && L.Decided(s[log[j].node], log[j].call) == Some(log[j].reply))
    && (forall i: nat, c: CallId :: Has(s, i, c) && L.Decided(s[i], c).Some? ==>
          Logged(log, i, c, L.Decided(s[i], c).value))
    && (forall j, l :: 0 <= j < l < |log| ==> log[j].node != log[l].node || log[j].call != log[l].call)
  }

  // ---------------------------------------------------------------- one map, split among the nodes

  /** The part of the plain map that node i owns. */
  ghost function Share<V>(x: Shards, i: nat, m: Kv<V>): Kv<V> { map k | k in m && x.Owns(i, k) :: m[k] }

  /** A call on an owned key sees and changes only the owner's share. */
  lemma {:induction false} CallInShare<V>(merge: (V, V) -> V, x: Shards, i: nat, m: Kv<V>, call: Call<V>)
    requires x.Owns(i, call.Target())
    ensures Apply(merge, Share(x, i, m), call).1 == Apply(merge, m, call).1
    ensures Share(x, i, Apply(merge, m, call).0) == Apply(merge, Share(x, i, m), call).0
  {
  }

  lemma {:induction false} CallElsewhere<V>(merge: (V, V) -> V, x: Shards, i: nat, m: Kv<V>, call: Call<V>)
    requires !x.Owns(i, call.Target())
    ensures Share(x, i, Apply(merge, m, call).0) == Share(x, i, m)
  {
  }

  /** Node i satisfies the store's invariant and works only on keys it owns. */
  ghost predicate NodeOk<V>(x: Shards, i: nat, s: State<V>) {
    && Inv(s)
    && forall c :: c in s.threads && s.threads[c].job.Point? ==> x.Owns(i, s.threads[c].job.call.Target())
  }

  ghost predicate NodesOk<V>(x: Shards, s: seq<State<V>>) {
    |s| == |x.owned| && forall i :: 0 <= i < |s| ==> NodeOk(x, i, s[i])
  }

  /** Every node stands for its share of one plain map. */
  ghost predicate Agree<V>(x: Shards, s: seq<State<V>>, m: Kv<V>)
    requires NodesOk(x, s)
  {
    forall i :: 0 <= i < |s| ==> L.Agrees(s[i], Share(x, i, m))
  }

  /** The log accounts for where the nodes stand. */
  ghost predicate Fits<V>(merge: (V, V) -> V, x: Shards, s: seq<State<V>>, log: seq<Event<V>>) {
    NodesOk(x, s) && Legal(merge, log) && Complete(s, log) && Agree(x, s, After(merge, Requests(log)))
  }

  ghost predicate Explains<V>(merge: (V, V) -> V, x: Shards, states: seq<seq<State<V>>>, ticks: seq<Tick<V>>,
      n: nat, log: seq<Event<V>>)
    requires |states| == |ticks| + 1 && n <= |ticks|
  {
    Fits(merge, x, states[n], log) && Timely(states, ticks, n, log)
  }

  // ---------------------------------------------------------------- one step

  /** The step of one node keeps its invariant and the keys of its calls. */
  lemma {:induction false} StepKeepsNode<V>(merge: (V, V) -> V, x: Shards, i: nat, s: State<V>, a: Action<V>)
    requires NodeOk(x, i, s) && Allowed(s, a) && Admitted(x, Tick(i, a))
    ensures NodeOk(x, i, Step(merge, s, a))
  {
    match a
    case Arrive(c, job) => InvokeKeepsInv(s, c, job);
    case Move(c, pick) =>
      FireKeepsInv(merge, s, c, pick);
      FireEffect(merge, s, c, pick);
  }

  lemma {:induction false} NodeSensible<V>(x: Shards, s: seq<State<V>>)
    requires NodesOk(x, s)
    ensures AllSensible(s)
  {
    forall i: nat, c: CallId | Has(s, i, c) ensures Sensible(s[i], s[i].threads[c]) {
      assert NodeOk(x, i, s[i]);
      assert ThreadOk(s[i], s[i].threads[c]);
    }
  }

  /** Decisions of all calls but one are as they were; new calls have none. */
  ghost predicate DecisionsKept<V>(s: seq<State<V>>, s': seq<State<V>>, i: nat, c: CallId)
    requires AllSensible(s) && AllSensible(s')
  {
    && |s'| == |s|
    && (forall j: nat, d: CallId :: Has(s, j, d) ==> Has(s', j, d))
    && (forall j: nat, d: CallId :: Has(s, j, d) && (j != i || d != c) ==> L.Decided(s'[j], d) == L.Decided(s[j], d))
    && (forall j: nat, d: CallId :: Has(s', j, d) && !Has(s, j, d) ==> L.Decided(s'[j], d).None?)
  }

  /** A step that decides nothing leaves the log as it is. */
  lemma {:induction false} CompleteKept<V>(s: seq<State<V>>, s': seq<State<V>>, i: nat, c: CallId, log: seq<Event<V>>)
    requires Complete(s, log) && AllSensible(s') && DecisionsKept(s, s', i, c)
    requires Has(s, i, c) ==> L.Decided(s'[i], c) == L.Decided(s[i], c)
    ensures Complete(s', log)
  {
  }

  lemma {:induction false} CompleteGrows<V>(s: seq<State<V>>, s': seq<State<V>>, log: seq<Event<V>>, e: Event<V>)
    requires Complete(s, log) && AllSensible(s') && DecisionsKept(s, s', e.node, e.call)
    requires Has(s, e.node, e.call) && L.Decided(s[e.node], e.call).None?
    requires L.Decided(s'[e.node], e.call) == Some(e.reply)
    ensures Complete(s', log + [e])
  {
    var log' := log + [e];
    forall i: nat, c: CallId | Has(s', i, c) && L.Decided(s'[i], c).Some?
      ensures Logged(log', i, c, L.Decided(s'[i], c).value)
    {
      if i == e.node && c == e.call {
        assert log'[|log|] == e;
      } else {
        assert Logged(log, i, c, L.Decided(s[i], c).value);
        var j :| 0 <= j < |log| && log[j].node == i && log[j].call == c && log[j].reply == L.Decided(s[i], c).value;
        assert log'[j] == log[j];
      }
    }
  }

  lemma {:induction false} AppendLegal<V>(merge: (V, V) -> V, log: seq<Event<V>>, e: Event<V>)
    requires Legal(merge, log) && e.reply == Apply(merge, After(merge, Requests(log)), e.request).1
    ensures Legal(merge, log + [e])
    ensures After(merge, Requests(log + [e])) == Apply(merge, After(merge, Requests(log)), e.request).0
  {
    var log', calls := log + [e], Requests(log);
    assert log'[..|log|] == log;
    var calls' := Requests(log');
    assert calls' == calls + [e.request] && calls'[..|calls|] == calls;
    forall i: nat | i < |log'| ensures log'[i].reply == ReplyAt(merge, calls', i) {
      if i < |log| { ReplyInPrefix(merge, calls', |calls|, i); }
    }
  }

  /** A move of call c at node i leaves the decisions of all other calls, at every node. */
  lemma {:induction false} MoveKeepsDecisions<V>(s: seq<State<V>>, s': seq<State<V>>, i: nat, t: State<V>, c: CallId)
    requires i < |s| && s' == s[i := t] && Inv(s[i]) && Inv(t) && Effect(s[i], t, c)
    requires AllSensible(s) && AllSensible(s')
    ensures DecisionsKept(s, s', i, c) && Has(s, i, c)
  {
    L.DecisionsKept(s[i], t, c);
    forall j: nat, d: CallId | Has(s, j, d) && (j != i || d != c) ensures L.Decided(s'[j], d) == L.Decided(s[j], d) {}
  }

  lemma {:induction false} ArrivalKeepsDecisions<V>(s: seq<State<V>>, s': seq<State<V>>, i: nat, c: CallId, job: Job<V>)
    requires i < |s| && c !in s[i].threads && s' == s[i := Invoke(s[i], c, job)]
    requires AllSensible(s) && AllSensible(s')
    ensures DecisionsKept(s, s', i, c) && !Has(s, i, c)
  {
    var t := Invoke(s[i], c, job);
    forall d | d in s[i].threads ensures L.Decided(t, d) == L.Decided(s[i], d) {
      assert Has(s, i, d) && Has(s', i, d);
    }
    assert Has(s', i, c) && L.Decided(t, c).None?;
  }

  /** Nodes agree with the map after a call of node i, if node i does. */
  lemma {:induction false} AgreeAfter<V>(merge: (V, V) -> V, x: Shards, s: seq<State<V>>, s': seq<State<V>>, i: nat,
      m: Kv<V>, call: Call<V>)
    requires x.Disjoint() && NodesOk(x, s) && NodesOk(x, s') && Agree(x, s, m) && i < |s| && s' == s[i := s'[i]]
    requires x.Owns(i, call.Target()) && L.Agrees(s'[i], Apply(merge, Share(x, i, m), call).0)
    ensures Agree(x, s', Apply(merge, m, call).0)
  {
    forall j: nat | j < |s'| ensures L.Agrees(s'[j], Share(x, j, Apply(merge, m, call).0)) {
      if j == i {
        CallInShare(merge, x, i, m, call);
      } else {
        assert L.Agrees(s[j], Share(x, j, m));
        CallElsewhere(merge, x, j, m, call);
      }
    }
  }

  lemma {:induction false} AgreeStill<V>(x: Shards, s: seq<State<V>>, s': seq<State<V>>, i: nat, m: Kv<V>)
    requires NodesOk(x, s) && NodesOk(x, s') && Agree(x, s, m) && i < |s| && s' == s[i := s'[i]]
    requires L.Agrees(s'[i], Share(x, i, m))
    ensures Agree(x, s', m)
  {
    forall j: nat | j < |s'| ensures L.Agrees(s'[j], Share(x, j, m)) {
      if j != i { assert L.Agrees(s[j], Share(x, j, m)); }
    }
  }

  lemma {:induction false} NodesStep<V>(merge: (V, V) -> V, x: Shards, s: seq<State<V>>, tick: Tick<V>,
      s': seq<State<V>>)
    requires NodesOk(x, s) && Ticks(merge, x, s, tick, s')
    ensures NodesOk(x, s') && AllSensible(s')
  {
    StepKeepsNode(merge, x, tick.node, s[tick.node], tick.action);
    NodeSensible(x, s');
  }

  /** The log gains the call that a move decides, if it decides one. */
  ghost predicate Gains<V>(log: seq<Event<V>>, log': seq<Event<V>>, n: nat, s: seq<State<V>>, i: nat, c: CallId) {
    || log' == log
    || (&& |log'| == |log| + 1 && log'[..|log|] == log
        && var e := log'[|log|];
           e.step == n && e.node == i && e.call == c && Has(s, i, c) && Point(e.request) == s[i].threads[c].job)
  }

  lemma {:induction false} MoveLogged<V>(merge: (V, V) -> V, x: Shards, s: seq<State<V>>, s': seq<State<V>>, i: nat,
      c: CallId, pick: Pick, n: nat, log: seq<Event<V>>) returns (log': seq<Event<V>>)
    requires x.Disjoint() && Fits(merge, x, s, log) && Ticks(merge, x, s, Tick(i, Move(c, pick)), s') && NodesOk(x, s')
    ensures Fits(merge, x, s', log') && Gains(log, log', n, s, i, c)
  {
    var m, t := After(merge, Requests(log)), s'[i];
    assert NodeOk(x, i, s[i]) && L.Agrees(s[i], Share(x, i, m));
    L.FireSimulates(merge, s[i], c, pick, Share(x, i, m));
    NodeSensible(x, s');
    MoveKeepsDecisions(s, s', i, t, c);
    var job := s[i].threads[c].job;
    if job.Point? && L.Decided(s[i], c).None? && L.Decided(t, c).Some? {
      var e := Event(n, i, c, job.call, L.Decided(t, c).value);
      CallInShare(merge, x, i, m, job.call);
      AppendLegal(merge, log, e);
      CompleteGrows(s, s', log, e);
      AgreeAfter(merge, x, s, s', i, m, job.call);
      log' := log + [e];
    } else {
      CompleteKept(s, s', i, c, log);
      AgreeStill(x, s, s', i, m);
      log' := log;
    }
  }

  lemma {:induction false} TimelyGrows<V>(states: seq<seq<State<V>>>, ticks: seq<Tick<V>>, n: nat,
      log: seq<Event<V>>, log': seq<Event<V>>)
    requires |states| == |ticks| + 1 && 0 < n <= |ticks| && Timely(states, ticks, n - 1, log)
    requires Advances(states[n - 1], ticks[n - 1], n - 1, log, log')
    ensures Timely(states, ticks, n, log')
  {
    assert forall j :: 0 <= j < |log| ==> OwnStep(states, ticks, n - 1, log[j]);
    if log' != log {
      assert forall j :: 0 <= j < |log| ==> log'[j] == log'[..|log|][j] == log[j];
    }
  }

  /** An arrival leaves the log, and a move of a call that has not returned adds at most that call. */
  ghost predicate Advances<V>(s: seq<State<V>>, tick: Tick<V>, n: nat, log: seq<Event<V>>, log': seq<Event<V>>) {
    || log' == log
    || (&& tick.action.Move? && Has(s, tick.node, tick.action.c)
        && !s[tick.node].threads[tick.action.c].Finished()
        && Gains(log, log', n, s, tick.node, tick.action.c))
  }

  lemma {:induction false} ArrivalLogged<V>(merge: (V, V) -> V, x: Shards, s: seq<State<V>>, s': seq<State<V>>,
      i: nat, c: CallId, job: Job<V>, log: seq<Event<V>>)
    requires Fits(merge, x, s, log) && Ticks(merge, x, s, Tick(i, Arrive(c, job)), s') && NodesOk(x, s')
    ensures Fits(merge, x, s', log)
  {
    var m := After(merge, Requests(log));
    assert NodeOk(x, i, s[i]) && NodeOk(x, i, s'[i]) && L.Agrees(s[i], Share(x, i, m));
    NodeSensible(x, s');
    ArrivalKeepsDecisions(s, s', i, c, job);
    CompleteKept(s, s', i, c, log);
    L.ArrivalAgrees(s[i], c, job, Share(x, i, m));
    AgreeStill(x, s, s', i, m);
  }

  lemma {:induction false} TickExplained<V>(merge: (V, V) -> V, x: Shards, states: seq<seq<State<V>>>,
      ticks: seq<Tick<V>>, n: nat, log: seq<Event<V>>) returns (log': seq<Event<V>>)
    requires x.Disjoint() && |states| == |ticks| + 1 && 0 < n <= |ticks|
    requires Ticks(merge, x, states[n - 1], ticks[n - 1], states[n]) && Explains(merge, x, states, ticks, n - 1, log)
    ensures Explains(merge, x, states, ticks, n, log')
  {
    log' := FitsAfterTick(merge, x, states[n - 1], ticks[n - 1], states[n], n - 1, log);
    TimelyGrows(states, ticks, n, log, log');
  }

  lemma {:induction false} FitsAfterTick<V>(merge: (V, V) -> V, x: Shards, s: seq<State<V>>, tick: Tick<V>,
      s': seq<State<V>>, n: nat, log: seq<Event<V>>) returns (log': seq<Event<V>>)
    requires x.Disjoint() && Ticks(merge, x, s, tick, s') && Fits(merge, x, s, log)
    ensures Fits(merge, x, s', log')
    ensures Advances(s, tick, n, log, log')
  {
    NodesStep(merge, x, s, tick, s');
    match tick.action
    case Arrive(c, job) =>
      ArrivalLogged(merge, x, s, s', tick.node, c, job, log);
      log' := log;
    case Move(c, pick) =>
      log' := MoveLogged(merge, x, s, s', tick.node, c, pick, n, log);
  }

  lemma {:induction false} FreshExplained<V>(merge: (V, V) -> V, x: Shards, states: seq<seq<State<V>>>,
      ticks: seq<Tick<V>>)
    requires IsClusterRun(merge, x, states, ticks)
    ensures Explains(merge, x, states, ticks, 0, [])
  {
    var s := states[0];
    forall i: nat | i < |s| ensures NodeOk(x, i, s[i]) && L.Agrees(s[i], Share(x, i, map[])) {
      InitialInv(s[i]);
      forall k ensures L.SlotAgrees(s[i], Share(x, i, map[]), k) {}
    }
    NodeSensible(x, s);
  }

  /** Every prefix of every execution has a log that explains it. */
  lemma {:induction false} RunExplained<V>(merge: (V, V) -> V, x: Shards, states: seq<seq<State<V>>>,
      ticks: seq<Tick<V>>, n: nat)
    returns (log: seq<Event<V>>)
    requires x.Disjoint() && IsClusterRun(merge, x, states, ticks) && n <= |ticks|
    ensures Explains(merge, x, states, ticks, n, log)
  {
    if n == 0 {
      log := [];
      FreshExplained(merge, x, states, ticks);
    } else {
      var before := RunExplained(merge, x, states, ticks, n - 1);
      assert Ticks(merge, x, states[n - 1], ticks[n - 1], states[n]);
      log := TickExplained(merge, x, states, ticks, n, before);
    }
  }

  // ---------------------------------------------------------------- time

  ghost predicate ReturnedBy<V>(s: seq<State<V>>, i: nat, c: CallId) { Has(s, i, c) && s[i].threads[c].Finished() }

  lemma {:induction false} RunKeepsNodes<V>(merge: (V, V) -> V, x: Shards, states: seq<seq<State<V>>>,
      ticks: seq<Tick<V>>, n: nat)
    requires IsClusterRun(merge, x, states, ticks) && n <= |ticks|
    ensures NodesOk(x, states[n])
  {
    if n == 0 {
      FreshExplained(merge, x, states, ticks);
    } else {
      RunKeepsNodes(merge, x, states, ticks, n - 1);
      NodesStep(merge, x, states[n - 1], ticks[n - 1], states[n]);
    }
  }

  /** The call is there on both occasions with the same job, and if it had returned, unchanged. */
  ghost predicate Stays<V>(s: seq<State<V>>, s': seq<State<V>>, i: nat, c: CallId) {
    && Has(s, i, c) && Has(s', i, c)
    && s'[i].threads[c].job == s[i].threads[c].job
    && (s[i].threads[c].Finished() ==> s'[i].threads[c] == s[i].threads[c])
  }

  lemma {:induction false} CallStaysOnTick<V>(merge: (V, V) -> V, x: Shards, s: seq<State<V>>, tick: Tick<V>,
      s': seq<State<V>>, i: nat, c: CallId)
    requires NodesOk(x, s) && Ticks(merge, x, s, tick, s') && Has(s, i, c)
    ensures Stays(s, s', i, c)
  {
    if tick.node == i {
      assert NodeOk(x, i, s[i]);
      StepGrows(merge, s[i], tick.action);
      if s[i].threads[c].Finished() { FinishedKept(merge, s[i], tick.action, c); }
    }
  }

  /** Calls stay, with their job; and one that has returned stays as it is. */
  lemma {:induction false} CallsStay<V>(merge: (V, V) -> V, x: Shards, states: seq<seq<State<V>>>,
      ticks: seq<Tick<V>>, m: nat, n: nat, i: nat, c: CallId)
    requires IsClusterRun(merge, x, states, ticks) && m <= n <= |ticks| && Has(states[m], i, c)
    ensures Stays(states[m], states[n], i, c)
    decreases n
  {
    if m == n {
    } else {
      CallsStay(merge, x, states, ticks, m, n - 1, i, c);
      RunKeepsNodes(merge, x, states, ticks, n - 1);
      CallStaysOnTick(merge, x, states[n - 1], ticks[n - 1], states[n], i, c);
    }
  }

  /** A call that had returned, at whatever node, before another arrived comes first. */
  lemma {:induction false} OrderRespectsTime<V>(merge: (V, V) -> V, x: Shards, states: seq<seq<State<V>>>,
      ticks: seq<Tick<V>>, n: nat, log: seq<Event<V>>, moment: nat, a: nat, b: nat)
    requires x.Disjoint() && IsClusterRun(merge, x, states, ticks) && n <= |ticks| && Timely(states, ticks, n, log)
    requires moment <= n && a < |log| && b < |log|
    requires ReturnedBy(states[moment], log[a].node, log[a].call) && !Has(states[moment], log[b].node, log[b].call)
    ensures a < b
  {
    var e, f := log[a], log[b];
    assert OwnStep(states, ticks, n, e) && OwnStep(states, ticks, n, f);
    if moment <= e.step { CallsStay(merge, x, states, ticks, moment, e.step, e.node, e.call); }
    if f.step < moment { CallsStay(merge, x, states, ticks, f.step, moment, f.node, f.call); }
    assert e.step < f.step;
  }

  // ---------------------------------------------------------------- the theorem

  /** The one call has returned and the other has not arrived. */
  ghost predicate Between<V>(s: seq<State<V>>, e: Event<V>, f: Event<V>) {
    ReturnedBy(s, e.node, e.call) && !Has(s, f.node, f.call)
  }

  ghost predicate Before<V>(states: seq<seq<State<V>>>, n: nat, e: Event<V>, f: Event<V>)
    requires n < |states|
  {
    exists moment :: 0 <= moment <= n && Between(states[moment], e, f)
  }

  /** The event answers the call as its caller saw it answered. */
  ghost predicate Answers<V>(e: Event<V>, i: nat, c: CallId, t: Thread<V>) {
    e.node == i && e.call == c && Point(e.request) == t.job && t.pc == Done(e.reply)
  }

  ghost predicate Answered<V>(log: seq<Event<V>>, i: nat, c: CallId, t: Thread<V>) {
    exists j :: 0 <= j < |log| && Answers(log[j], i, c, t)
  }

  /** One order of atomic calls on one plain map, for the whole cluster, as Linearizability has it for one store. */
  ghost predicate LinearOrder<V>(merge: (V, V) -> V, states: seq<seq<State<V>>>, ticks: seq<Tick<V>>, n: nat,
      log: seq<Event<V>>)
    requires |states| == |ticks| + 1 && n <= |ticks|
  {
    && Legal(merge, log)
    && (forall i: nat, c: CallId :: Has(states[n], i, c) && states[n][i].threads[c].pc.Done? ==>
          Answered(log, i, c, states[n][i].threads[c]))
    && (forall j, l :: 0 <= j < l < |log| ==> log[j].node != log[l].node || log[j].call != log[l].call)
    && Timely(states, ticks, n, log)
    && (forall a, b :: 0 <= a < |log| && 0 <= b < |log| && Before(states, n, log[a], log[b]) ==> a < b)
  }

  lemma {:induction false} ReturnedIsAnswered<V>(merge: (V, V) -> V, x: Shards, states: seq<seq<State<V>>>,
      ticks: seq<Tick<V>>, n: nat, log: seq<Event<V>>, i: nat, c: CallId)
    requires x.Disjoint() && IsClusterRun(merge, x, states, ticks) && n <= |ticks|
    requires Timely(states, ticks, n, log) && Complete(states[n], log)
    requires Has(states[n], i, c) && states[n][i].threads[c].pc.Done?
    ensures Answered(log, i, c, states[n][i].threads[c])
  {
    var t := states[n][i].threads[c];
    assert Sensible(states[n][i], t) && L.Decided(states[n][i], c) == Some(t.pc.answer);
    assert Logged(log, i, c, t.pc.answer);
    var j :| 0 <= j < |log| && log[j].node == i && log[j].call == c && log[j].reply == t.pc.answer;
    assert OwnStep(states, ticks, n, log[j]);
    CallsStay(merge, x, states, ticks, log[j].step, n, i, c);
    assert Answers(log[j], i, c, t);
  }

  /**
   The cluster is linearizable: every execution of its nodes, each with any number of concurrent calls,
   has one order of atomic calls on one plain map that gives every returned call the reply it got,
   places it within its own duration and respects real time across nodes.
   */
  lemma {:induction false} ClusterLinearizable<V>(merge: (V, V) -> V, x: Shards, states: seq<seq<State<V>>>,
      ticks: seq<Tick<V>>, n: nat)
    requires x.Disjoint() && IsClusterRun(merge, x, states, ticks) && n <= |ticks|
    ensures exists log :: LinearOrder(merge, states, ticks, n, log)
  {
    var log := RunExplained(merge, x, states, ticks, n);
    forall i: nat, c: CallId | Has(states[n], i, c) && states[n][i].threads[c].pc.Done?
      ensures Answered(log, i, c, states[n][i].threads[c])
    {
      ReturnedIsAnswered(merge, x, states, ticks, n, log, i, c);
    }
    forall a: nat, b: nat | a < |log| && b < |log| && Before(states, n, log[a], log[b]) ensures a < b {
      var moment: nat :| moment <= n && Between(states[moment], log[a], log[b]);
      OrderRespectsTime(merge, x, states, ticks, n, log, moment, a, b);
    }
    assert LinearOrder(merge, states, ticks, n, log);
  }

  /** The calls of an order with their replies, as their callers saw them. */
  function SeenIn<V>(log: seq<Event<V>>): (seen: seq<H.Exchange<V>>)
    ensures |seen| == |log| && forall i :: 0 <= i < |log| ==> seen[i] == H.Exchange(log[i].request, log[i].reply)
  {
    seq(|log|, i requires 0 <= i < |log| => H.Exchange(log[i].request, log[i].reply))
  }

  /** The replies of the whole cluster, too, are those of guards and last accepted writes. */
  lemma {:induction false} OrderFollowsGuards<V>(merge: (V, V) -> V, states: seq<seq<State<V>>>,
      ticks: seq<Tick<V>>, n: nat, log: seq<Event<V>>)
    requires |states| == |ticks| + 1 && n <= |ticks| && LinearOrder(merge, states, ticks, n, log)
    ensures H.AllRight(merge, SeenIn(log))
  {
    assert H.CallsOf(SeenIn(log)) == Requests(log);
    H.MapIsRight(merge, SeenIn(log));
  }
}
