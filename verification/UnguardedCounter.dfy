/**
 Increments without a version guard, as a contrast to CasCounter. Nothing ties a client's write to the
 reading it was computed from, so the machine remembers that reading on the side. The version counts
 the writes; the value equals it exactly as long as no write arrived after its reading went stale.
 */
module UnguardedCounter {
  import opened Prelude
  import opened AtomicMap
  import CasCounter

  datatype Request = Read | Overwrite(body: int, base: nat)

  /** What a read can come back with: an entry, its absence, or some other status, taken as zero. */
  datatype Answer = Present(e: Entry<int>) | Absent | Refused

  datatype Phase = Asking | AwaitRead | AwaitWrite | Over

  /** `base` of an overwrite remembers the version that was read; the cluster never sees it. */
  datatype Increment = Increment(phase: Phase, request: Option<Request>, answer: Option<Answer>)

  /** `stale` records whether a write based on an outdated reading has been applied. */
  datatype System = System(slot: Option<Entry<int>>, calls: map<nat, Increment>, stale: bool)

  datatype Action =
    | Begin(c: nat)
    | Ask(c: nat)
    | Deliver(c: nat, refused: bool)
    | Lose(c: nat)
    | GiveUp(c: nat)
    | Receive(c: nat)

  function Value(slot: Option<Entry<int>>): int {
    match slot case None => 0 case Some(e) => e.value
  }

  predicate Allowed(s: System, a: Action) {
    if a.Begin? then a.c !in s.calls else
      && a.c in s.calls
      && var i := s.calls[a.c];
         match a
         case Begin(_) => false
         case Ask(_) => i.phase == Asking
         case Deliver(_, refused) => i.request.Some? && (refused ==> i.request.value.Read?)
         case Lose(_) => true
         case GiveUp(_) => i.phase == AwaitRead || i.phase == AwaitWrite
         case Receive(_) => i.phase == AwaitRead && i.answer.Some?
  }

  /** An unconditional write replaces the value and bumps the version. */
  function Overwritten(key: Key, slot: Option<Entry<int>>, body: int): Option<Entry<int>> {
    WriteSlot(CasCounter.KeepNew, slot, WriteOp(key, body, Replace, None, false)).0
  }

  function Step(key: Key, s: System, a: Action): System
    requires Allowed(s, a)
  {
    match a
    case Begin(c) => s.(calls := s.calls[c := Increment(Asking, None, None)])
    case Ask(c) => s.(calls := s.calls[c := Increment(AwaitRead, Some(Read), None)])
    case Deliver(c, refused) =>
      var i := s.calls[c];
      (match i.request.value
       case Read =>
         var answer := if refused then Refused else match s.slot case None => Absent case Some(e) => Present(e);
         s.(calls := s.calls[c := i.(request := None, answer := Some(answer))])
       case Overwrite(body, base) =>
         System(Overwritten(key, s.slot, body), s.calls[c := i.(request := None)],
                s.stale || base != SlotVersion(s.slot)))
    case Lose(c) => s.(calls := s.calls[c := s.calls[c].(request := None, answer := None)])
    case GiveUp(c) => s.(calls := s.calls[c := s.calls[c].(phase := Over)])
    case Receive(c) =>
      var request := match s.calls[c].answer.value
        case Present(e) => Overwrite(e.value + 1, e.version)
        case Absent => Overwrite(1, 0)
        case Refused => Overwrite(1, 0);
      s.(calls := s.calls[c := Increment(AwaitWrite, Some(request), None)])
  }

  ghost predicate IsRun(key: Key, states: seq<System>, actions: seq<Action>) {
    && |states| == |actions| + 1
    && states[0] == System(None, map[], false)
    && forall i :: 0 <= i < |actions| ==>
         Allowed(states[i], actions[i]) && states[i + 1] == Step(key, states[i], actions[i])
  }

  /** A reading in someone's hands is from the past: no newer than now, and right if nothing changed since. */
  ghost predicate Reading(slot: Option<Entry<int>>, n: int, v: nat) {
    && n <= v <= SlotVersion(slot)
    && (v == SlotVersion(slot) ==> n == Value(slot))
  }

  ghost predicate CallOk(slot: Option<Entry<int>>, i: Increment) {
    && (i.request.Some? && i.request.value.Overwrite? ==> Reading(slot, i.request.value.body - 1, i.request.value.base))
    && (i.answer.Some? && i.answer.value.Present? ==> Reading(slot, i.answer.value.e.value, i.answer.value.e.version))
  }

  ghost predicate Inv(s: System) {
    && (s.slot.Some? ==> s.slot.value.version > 0)
    && Value(s.slot) <= SlotVersion(s.slot)
    && (Value(s.slot) == SlotVersion(s.slot) <==> !s.stale)
    && forall c :: c in s.calls ==> CallOk(s.slot, s.calls[c])
  }

  lemma {:induction false} StepKeepsInv(key: Key, s: System, a: Action)
    requires Inv(s) && Allowed(s, a)
    ensures Inv(Step(key, s, a))
  {
  }

  lemma {:induction false} RunKeepsInv(key: Key, states: seq<System>, actions: seq<Action>, n: nat)
    requires IsRun(key, states, actions) && n < |states|
    ensures Inv(states[n])
  {
    if n == 0 {
    } else {
      RunKeepsInv(key, states, actions, n - 1);
      StepKeepsInv(key, states[n - 1], actions[n - 1]);
    }
  }

  /**
   Without the guard the value never exceeds the version, and equals it exactly as long as no
   outdated write has been applied; once behind, it never catches up.
   */
  lemma {:induction false} ValueFallsBehindWhenStale(key: Key, states: seq<System>, actions: seq<Action>, m: nat,
      n: nat)
    requires IsRun(key, states, actions) && m <= n < |states|
    ensures Value(states[n].slot) <= SlotVersion(states[n].slot)
    ensures Value(states[n].slot) == SlotVersion(states[n].slot) <==> !states[n].stale
    ensures states[m].stale ==> Value(states[n].slot) < SlotVersion(states[n].slot)
  {
    RunKeepsInv(key, states, actions, n);
    StaleStays(key, states, actions, m, n);
  }

  lemma {:induction false} StaleStays(key: Key, states: seq<System>, actions: seq<Action>, m: nat, n: nat)
    requires IsRun(key, states, actions) && m <= n < |states|
    ensures states[m].stale ==> states[n].stale
    decreases n
  {
    if m < n { StaleStays(key, states, actions, m, n - 1); }
  }

  /** Two increments that both read before either writes: both succeed, one is lost. */
  lemma {:induction false} TwoWritersLoseOne(key: Key) returns (states: seq<System>, actions: seq<Action>)
    ensures IsRun(key, states, actions)
    ensures states[|actions|].slot == Some(Entry(1, 2))
  {
    states, actions := BothHaveRead(key);
    var s8 := states[8];
    var s9 := Step(key, s8, Deliver(0, false));
    var s10 := Step(key, s9, Deliver(1, false));
    states, actions := states + [s9, s10], actions + [Deliver(0, false), Deliver(1, false)];
  }

  lemma {:induction false} BothHaveRead(key: Key) returns (states: seq<System>, actions: seq<Action>)
    ensures IsRun(key, states, actions) && |actions| == 8
    ensures states[8].slot == None && states[8].calls.Keys == {0, 1}
    ensures states[8].calls[0].request == states[8].calls[1].request == Some(Overwrite(1, 0))
  {
    var s0 := System(None, map[], false);
    var s1 := Step(key, s0, Begin(0));
    var s2 := Step(key, s1, Begin(1));
    var s3 := Step(key, s2, Ask(0));
    var s4 := Step(key, s3, Ask(1));
    var s5 := Step(key, s4, Deliver(0, false));
    var s6 := Step(key, s5, Deliver(1, false));
    var s7 := Step(key, s6, Receive(0));
    var s8 := Step(key, s7, Receive(1));
    actions := [Begin(0), Begin(1), Ask(0), Ask(1), Deliver(0, false), Deliver(1, false), Receive(0), Receive(1)];
    states := [s0, s1, s2, s3, s4, s5, s6, s7, s8];
  }
}
