/**
 Many clients increment one counter through a network that may lose replies, lose requests or deliver
 them late, even after the client has given up. Each increment reads the counter and writes back
 one more, guarded by the version it read or, when there is no counter yet, by its absence; it
 starts over only on a conflict it has actually received. The proxy forwards each request once.
 */
module CasCounter {
  import opened Prelude
  import opened AtomicMap

  const MAX_ATTEMPTS: nat := 500

  datatype Request = Read | Create | Swap(body: int, version: nat)

  /** What the cluster does with a request that reaches the counter's node. */
  function Serve(key: Key, slot: Option<Entry<int>>, request: Request): (Option<Entry<int>>, Reply<int>) {
    match request
    case Read =>
      (slot, match slot case Some(e) => Found(e) case None => NotFound)
    case Create =>
      var (slot', reply) := WriteSlot(KeepNew, slot, WriteOp(key, 1, Replace, None, true));
      (slot', Wrote(reply))
    case Swap(body, version) =>
      var (slot', reply) := WriteSlot(KeepNew, slot, WriteOp(key, body, Replace, Some(version), false));
      (slot', Wrote(reply))
  }

  /** Counters are numbers, never merged. */
  function KeepNew(current: int, delta: int): int { delta }

  datatype Phase = Asking | AwaitRead | AwaitWrite | Acked | Failed

  /**
   One increment call: the request it has in the network, the reply on its way back, and how many of
   its writes the cluster has applied, which the client itself may never learn.
   */
  datatype Increment =
    Increment(phase: Phase, attempts: nat, request: Option<Request>, reply: Option<Reply<int>>, applied: nat)

  datatype System = System(slot: Option<Entry<int>>, calls: map<nat, Increment>)

  datatype Action =
    | Begin(c: nat)         // a client starts an increment
    | Ask(c: nat)           // it sends its read
    | Deliver(c: nat)       // its request reaches the node, however late
    | LoseRequest(c: nat)   // its request never arrives
    | LoseReply(c: nat)     // the reply never arrives
    | GiveUp(c: nat)        // it stops waiting: a timeout, or an answer that is neither success nor conflict
    | Receive(c: nat)       // the reply arrives and it acts on it

  predicate Allowed(s: System, a: Action) {
    if a.Begin? then a.c !in s.calls else
      && a.c in s.calls
      && var i := s.calls[a.c];
         match a
         case Begin(_) => false
         case Ask(_) => i.phase == Asking
         case Deliver(_) => i.request.Some?
         case LoseRequest(_) => i.request.Some?
         case LoseReply(_) => i.reply.Some?
         case GiveUp(_) => i.phase == AwaitRead || i.phase == AwaitWrite
         case Receive(_) =>
           && i.reply.Some?
           && ((i.phase == AwaitRead && !i.reply.value.Wrote?) || (i.phase == AwaitWrite && i.reply.value.Wrote?))
  }

  /** What the client does with a reply. */
  function React(i: Increment): Increment
    requires i.reply.Some?
    requires (i.phase == AwaitRead && !i.reply.value.Wrote?) || (i.phase == AwaitWrite && i.reply.value.Wrote?)
  {
    match i.reply.value
    case NotFound => i.(phase := AwaitWrite, request := Some(Create), reply := None)
    case Found(e) => i.(phase := AwaitWrite, request := Some(Swap(e.value + 1, e.version)), reply := None)
    case Wrote(Written(_)) => i.(phase := Acked, reply := None)
    case Wrote(VersionMismatch(_, _, _, _)) =>
      if i.attempts + 1 < MAX_ATTEMPTS then i.(phase := Asking, attempts := i.attempts + 1, reply := None)
      else i.(phase := Failed, attempts := i.attempts + 1, reply := None)
    case Wrote(ConflictingGuards) => i.(phase := Failed, reply := None)
  }

  function Step(key: Key, s: System, a: Action): System
    requires Allowed(s, a)
  {
    match a
    case Begin(c) => s.(calls := s.calls[c := Increment(Asking, 0, None, None, 0)])
    case Ask(c) => s.(calls := s.calls[c := s.calls[c].(phase := AwaitRead, request := Some(Read), reply := None)])
    case Deliver(c) =>
      var i := s.calls[c];
      var (slot, reply) := Serve(key, s.slot, i.request.value);
      var applied := i.applied + if reply.Wrote? && reply.reply.Written? then 1 else 0;
      System(slot, s.calls[c := i.(request := None, reply := Some(reply), applied := applied)])
    case LoseRequest(c) => s.(calls := s.calls[c := s.calls[c].(request := None)])
    case LoseReply(c) => s.(calls := s.calls[c := s.calls[c].(reply := None)])
    case GiveUp(c) => s.(calls := s.calls[c := s.calls[c].(phase := Failed)])
    case Receive(c) => s.(calls := s.calls[c := React(s.calls[c])])
  }

  ghost predicate IsRun(key: Key, states: seq<System>, actions: seq<Action>) {
    && |states| == |actions| + 1
    && states[0] == System(None, map[])
    && forall i :: 0 <= i < |actions| ==>
         Allowed(states[i], actions[i]) && states[i + 1] == Step(key, states[i], actions[i])
  }

  // ---------------------------------------------------------------- the invariant

  /** The counter's value is its version, and there is no counter at version 0. */
  ghost predicate SlotOk(slot: Option<Entry<int>>) {
    slot.Some? ==> slot.value.value == slot.value.version && slot.value.version > 0
  }

  /** What a call in each phase can have in the network, and what it can have applied. */
  ghost predicate CallOk(i: Increment) {
    && (i.request.Some? ==> i.reply.None? && i.applied == 0)
    && (i.request.Some? && i.request.value.Swap? ==> i.request.value.body == i.request.value.version + 1)
    && (i.reply.Some? && i.reply.value.Found? ==> SlotOk(Some(i.reply.value.entry)))
    && (i.reply.Some? ==> (i.applied == 1 <==> i.reply.value.Wrote? && i.reply.value.reply.Written?))
    && i.applied <= 1
    && match i.phase
       case Asking => i.request.None? && i.reply.None? && i.applied == 0
       case AwaitRead =>
         && (i.request.Some? ==> i.request.value.Read?)
         && (i.reply.Some? ==> !i.reply.value.Wrote?)
         && i.applied == 0
       case AwaitWrite =>
         && (i.request.Some? ==> !i.request.value.Read?)
         && (i.reply.Some? ==> i.reply.value.Wrote?)
       case Acked => i.applied == 1 && i.request.None? && i.reply.None?
       case Failed => true
  }

  ghost function Appliers(s: System): set<nat> { set c | c in s.calls && s.calls[c].applied == 1 }

  ghost predicate Inv(s: System) {
    && SlotOk(s.slot)
    && (forall c :: c in s.calls ==> CallOk(s.calls[c]))
    && SlotVersion(s.slot) == |Appliers(s)|
  }

  /** A guarded write that is accepted moves the counter from v to v + 1 in value and version alike. */
  lemma {:induction false} ServeKeepsCounter(key: Key, slot: Option<Entry<int>>, request: Request)
    requires SlotOk(slot) && (request.Swap? ==> request.body == request.version + 1)
    ensures var (slot', reply) := Serve(key, slot, request);
            && SlotOk(slot')
            && (reply.Found? ==> SlotOk(Some(reply.entry)))
            && (reply.Wrote? <==> !request.Read?)
            && SlotVersion(slot') == SlotVersion(slot) + if reply.Wrote? && reply.reply.Written? then 1 else 0
  {
  }

  lemma {:induction false} AppliersKept(s: System, s': System, c: nat)
    requires s'.calls.Keys == s.calls.Keys + {c}
    requires forall d :: d in s.calls && d != c ==> s'.calls[d] == s.calls[d]
    requires s'.calls[c].applied == if c in s.calls then s.calls[c].applied else 0
    ensures Appliers(s') == Appliers(s)
  {
  }

  lemma {:induction false} DeliverKeepsInv(key: Key, s: System, c: nat)
    requires Inv(s) && Allowed(s, Deliver(c))
    ensures Inv(Step(key, s, Deliver(c)))
  {
    var s' := Step(key, s, Deliver(c));
    var i := s.calls[c];
    ServeKeepsCounter(key, s.slot, i.request.value);
    assert CallOk(i);
    if s'.calls[c].applied == 0 {
      AppliersKept(s, s', c);
    } else {
      assert Appliers(s') == Appliers(s) + {c};
    }
  }

  lemma {:induction false} StepKeepsInv(key: Key, s: System, a: Action)
    requires Inv(s) && Allowed(s, a)
    ensures Inv(Step(key, s, a))
  {
    if a.Deliver? {
      DeliverKeepsInv(key, s, a.c);
    } else {
      if a.c in s.calls { assert CallOk(s.calls[a.c]); }
      AppliersKept(s, Step(key, s, a), a.c);
    }
  }

  lemma {:induction false} RunKeepsInv(key: Key, states: seq<System>, actions: seq<Action>, n: nat)
    requires IsRun(key, states, actions) && n < |states|
    ensures Inv(states[n])
  {
    if n > 0 {
      RunKeepsInv(key, states, actions, n - 1);
      StepKeepsInv(key, states[n - 1], actions[n - 1]);
    } else {
      assert Appliers(states[0]) == {};
    }
  }

  // ---------------------------------------------------------------- the promises

  ghost function InPhase(s: System, p: Phase): set<nat> { set c | c in s.calls && s.calls[c].phase == p }

  ghost function Unfinished(s: System): set<nat> {
    set c | c in s.calls && s.calls[c].phase != Acked && s.calls[c].phase != Failed
  }

  /**
   In every reachable state of every run, whatever the network does: the counter's value equals its
   version; no increment is ever applied twice and an acknowledged one is applied exactly once; and
   the counter lies between the acknowledged increments and those plus the failed and pending ones.
   */
  lemma {:induction false} CounterCountsIncrements(key: Key, states: seq<System>, actions: seq<Action>, n: nat)
    requires IsRun(key, states, actions) && n < |states|
    ensures var s := states[n];
            var version := SlotVersion(s.slot);
            && (s.slot.Some? ==> s.slot.value.value == version)
            && (forall c :: c in s.calls ==> s.calls[c].applied <= 1)
            && (forall c :: c in s.calls && s.calls[c].phase == Acked ==> s.calls[c].applied == 1)
            && |InPhase(s, Acked)| <= version <= |InPhase(s, Acked)| + |InPhase(s, Failed)| + |Unfinished(s)|
  {
    var s := states[n];
    RunKeepsInv(key, states, actions, n);
    var acked, failed, open := InPhase(s, Acked), InPhase(s, Failed), Unfinished(s);
    forall c | c in s.calls ensures CallOk(s.calls[c]) {}
    assert acked <= Appliers(s);
    SubsetSize(acked, Appliers(s));
    assert Appliers(s) <= acked + failed + open;
    SubsetSize(Appliers(s), acked + failed + open);
    assert |acked + failed + open| <= |acked| + |failed| + |open| by {
      assert |acked + failed| <= |acked| + |failed|;
    }
  }

  lemma {:induction false} SubsetSize(a: set<nat>, b: set<nat>)
    requires a <= b
    ensures |a| <= |b|
  {
    if a == {} {
    } else {
      var x :| x in a;
      SubsetSize(a - {x}, b - {x});
    }
  }

  /** The promise of the counter test, for any number of increments: when all are acknowledged, none is lost. */
  lemma {:induction false} AllAcknowledgedNoneLost(key: Key, states: seq<System>, actions: seq<Action>, n: nat)
    requires IsRun(key, states, actions) && n < |states|
    requires forall c :: c in states[n].calls ==> states[n].calls[c].phase == Acked
    ensures var s := states[n];
            if s.calls == map[] then s.slot == None else s.slot == Some(Entry(|s.calls|, |s.calls|))
  {
    var s := states[n];
    RunKeepsInv(key, states, actions, n);
    forall c | c in s.calls ensures CallOk(s.calls[c]) {}
    assert Appliers(s) == s.calls.Keys;
    assert |s.calls| == |s.calls.Keys|;
    if s.calls != map[] {
      var c :| c in s.calls;
      assert c in s.calls.Keys;
    }
  }

  // ---------------------------------------------------------------- how often a call can lose

  /**
   Every conflict a call has met was the success of another, and is behind it: its attempts are at most
   the version it has seen, which is at most the counter's version v.
   */
  ghost predicate LossesOk(v: nat, i: Increment) {
    && i.attempts <= v
    && i.attempts <= MAX_ATTEMPTS
    && (i.phase != Failed ==> i.attempts < MAX_ATTEMPTS)
    && (i.attempts == MAX_ATTEMPTS ==> i.request.None? && i.reply.None? && i.applied == 0)
    && (match i.request
        case Some(Create) => i.attempts == 0
        case Some(Swap(_, seen)) => i.attempts <= seen <= v && 0 < seen
        case _ => true)
    && (match i.reply
        case Some(NotFound) => i.attempts == 0
        case Some(Found(e)) => i.attempts <= e.version <= v && 0 < e.version
        case Some(Wrote(VersionMismatch(_, _, _, _))) => i.attempts + 1 <= v
        case Some(Wrote(ConflictingGuards)) => false
        case _ => true)
  }

  /** A mismatch means that the version has moved past the one the call had seen. */
  lemma {:induction false} DeliverKeepsLosses(key: Key, s: System, c: nat)
    requires SlotOk(s.slot) && Allowed(s, Deliver(c)) && CallOk(s.calls[c]) && LossesOk(SlotVersion(s.slot), s.calls[c])
    ensures var s' := Step(key, s, Deliver(c));
            SlotVersion(s.slot) <= SlotVersion(s'.slot) && LossesOk(SlotVersion(s'.slot), s'.calls[c])
  {
  }

  lemma {:induction false} StepKeepsLosses(key: Key, s: System, a: Action)
    requires Inv(s) && Allowed(s, a) && forall c :: c in s.calls ==> LossesOk(SlotVersion(s.slot), s.calls[c])
    ensures var s' := Step(key, s, a); forall c :: c in s'.calls ==> LossesOk(SlotVersion(s'.slot), s'.calls[c])
  {
    var s' := Step(key, s, a);
    if a.c in s.calls {
      assert CallOk(s.calls[a.c]) && LossesOk(SlotVersion(s.slot), s.calls[a.c]);
      if a.Deliver? { DeliverKeepsLosses(key, s, a.c); }
    }
    forall c | c in s'.calls ensures LossesOk(SlotVersion(s'.slot), s'.calls[c]) {
      if c != a.c { assert LossesOk(SlotVersion(s.slot), s.calls[c]); }
    }
  }

  lemma {:induction false} RunKeepsLosses(key: Key, states: seq<System>, actions: seq<Action>, n: nat)
    requires IsRun(key, states, actions) && n < |states|
    ensures forall c :: c in states[n].calls ==> LossesOk(SlotVersion(states[n].slot), states[n].calls[c])
  {
    if n == 0 {
    } else {
      RunKeepsLosses(key, states, actions, n - 1);
      RunKeepsInv(key, states, actions, n - 1);
      StepKeepsLosses(key, states[n - 1], actions[n - 1]);
    }
  }

  /**
   The bound on retries is never met without enough rivals: a call has lost at most as often as the counter
   has been incremented, so it can run out of attempts only in a run of more than MAX_ATTEMPTS
   increments, after that many were applied.
   */
  lemma {:induction false} LosingTakesRivals(key: Key, states: seq<System>, actions: seq<Action>, n: nat, c: nat)
    requires IsRun(key, states, actions) && n < |states| && c in states[n].calls
    ensures var s := states[n];
            && s.calls[c].attempts <= SlotVersion(s.slot)
            && s.calls[c].attempts <= MAX_ATTEMPTS
            && (s.calls[c].attempts == MAX_ATTEMPTS ==>
                  s.calls[c].phase == Failed && SlotVersion(s.slot) >= MAX_ATTEMPTS && |s.calls| > MAX_ATTEMPTS)
  {
    var s := states[n];
    RunKeepsInv(key, states, actions, n);
    RunKeepsLosses(key, states, actions, n);
    assert LossesOk(SlotVersion(s.slot), s.calls[c]);
    if s.calls[c].attempts == MAX_ATTEMPTS {
      assert Appliers(s) <= s.calls.Keys - {c};
      SubsetSize(Appliers(s), s.calls.Keys - {c});
      assert |s.calls.Keys - {c}| == |s.calls.Keys| - 1 == |s.calls| - 1;
    }
  }

  // ---------------------------------------------------------------- increments succeed

  /**
   An increment that runs alone over a network that loses nothing: it reads, writes once and is
   acknowledged, and the counter has gone up by one.
   */
  lemma {:induction false} AloneIsAcknowledged(key: Key, s: System, c: nat)
    requires Inv(s) && c in s.calls && s.calls[c].phase == Asking
    ensures Allowed(s, Ask(c))
    ensures var asked := Step(key, s, Ask(c));
            && Allowed(asked, Deliver(c))
            && var read := Step(key, asked, Deliver(c));
               && Allowed(read, Receive(c))
               && var told := Step(key, read, Receive(c));
                  && Allowed(told, Deliver(c))
                  && var written := Step(key, told, Deliver(c));
                     && Allowed(written, Receive(c))
                     && var done := Step(key, written, Receive(c));
                        && done.calls[c].phase == Acked
                        && done.calls[c].attempts == s.calls[c].attempts
                        && done.slot == Some(Entry(SlotVersion(s.slot) + 1, SlotVersion(s.slot) + 1))
  {
    assert CallOk(s.calls[c]);
  }

  /** A call whose client never gives up fails only by running out of attempts: a conflict alone never ends it. */
  lemma {:induction false} OnlyExhaustionFails(key: Key, states: seq<System>, actions: seq<Action>, n: nat, c: nat)
    requires IsRun(key, states, actions) && n < |states| && c in states[n].calls
    requires forall i :: 0 <= i < n ==> actions[i] != GiveUp(c)
    ensures states[n].calls[c].phase == Failed ==> states[n].calls[c].attempts == MAX_ATTEMPTS
  {
    if n == 0 {
    } else {
      var s, a := states[n - 1], actions[n - 1];
      if c in s.calls {
        OnlyExhaustionFails(key, states, actions, n - 1, c);
        RunKeepsLosses(key, states, actions, n - 1);
        assert LossesOk(SlotVersion(s.slot), s.calls[c]);
      }
    }
  }

  /**
   The counter test's promise with nothing left open: up to MAX_ATTEMPTS increments, none given up, all
   finished. Then all are acknowledged, and the counter is their number.
   */
  lemma {:induction false} FinishedMeansCounted(key: Key, states: seq<System>, actions: seq<Action>, n: nat)
    requires IsRun(key, states, actions) && n < |states| && 0 < |states[n].calls| <= MAX_ATTEMPTS
    requires forall i :: 0 <= i < n ==> !actions[i].GiveUp?
    requires Unfinished(states[n]) == {}
    ensures states[n].slot == Some(Entry(|states[n].calls|, |states[n].calls|))
  {
    var s := states[n];
    forall c | c in s.calls ensures s.calls[c].phase == Acked {
      OnlyExhaustionFails(key, states, actions, n, c);
      LosingTakesRivals(key, states, actions, n, c);
      assert c !in Unfinished(s);
    }
    AllAcknowledgedNoneLost(key, states, actions, n);
  }

  /** The ambiguity of a timeout: a write that arrives after its client has given up is applied all the same. */
  lemma {:induction false} LateWriteApplies(key: Key) returns (states: seq<System>, actions: seq<Action>)
    ensures IsRun(key, states, actions)
    ensures var s := states[|actions|]; s.slot == Some(Entry(1, 1)) && s.calls.Keys == {0} && s.calls[0].phase == Failed
  {
    states, actions := GivenUp(key);
    var s := states[5];
    states, actions := states + [Step(key, s, Deliver(0))], actions + [Deliver(0)];
  }

  lemma {:induction false} GivenUp(key: Key) returns (states: seq<System>, actions: seq<Action>)
    ensures IsRun(key, states, actions) && |actions| == 5
    ensures states[5] == System(None, map[0 := Increment(Failed, 0, Some(Create), None, 0)])
  {
    var s0 := System(None, map[]);
    var s1 := Step(key, s0, Begin(0));
    var s2 := Step(key, s1, Ask(0));
    var s3 := Step(key, s2, Deliver(0));
    var s4 := Step(key, s3, Receive(0));
    var s5 := Step(key, s4, GiveUp(0));
    states := [s0, s1, s2, s3, s4, s5];
    actions := [Begin(0), Ask(0), Deliver(0), Receive(0), GiveUp(0)];
  }
}
