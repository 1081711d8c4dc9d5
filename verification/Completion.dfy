/**
 Every call that is left alone comes to its end: from every reachable state in which all other calls have
 returned, a Get or a Write can run until it returns, and a listing until it has listed everything.
 */
module Completion {
  import opened StoreProtocol
  import opened StoreInvariant

  /** A later execution that begins as this one and in which only calls already there move. */
  ghost predicate Continues<V>(states: seq<State<V>>, actions: seq<Action<V>>, states': seq<State<V>>,
      actions': seq<Action<V>>)
  {
    && states <= states' && actions <= actions'
    && forall i :: |actions| <= i < |actions'| ==> actions'[i].Move?
  }

  /** All other calls have returned. */
  ghost predicate Alone<V>(s: State<V>, c: CallId) {
    c in s.threads && forall d :: d in s.threads && d != c ==> s.threads[d].Finished()
  }

  /** One more step. */
  lemma {:induction false} Extend<V>(merge: (V, V) -> V, states: seq<State<V>>, actions: seq<Action<V>>, a: Action<V>)
    requires IsRun(merge, states, actions) && Allowed(states[|actions|], a)
    ensures IsRun(merge, states + [Step(merge, states[|actions|], a)], actions + [a])
  {
    var states', actions' := states + [Step(merge, states[|actions|], a)], actions + [a];
    forall i | 0 <= i < |actions'|
      ensures Allowed(states'[i], actions'[i]) && states'[i + 1] == Step(merge, states'[i], actions'[i])
    {
      if i < |actions| {
        assert states'[i] == states[i] && states'[i + 1] == states[i + 1] && actions'[i] == actions[i];
      }
    }
  }

  /** A call that is alone waits for nobody and can move. */
  lemma {:induction false} AloneCanMove<V>(merge: (V, V) -> V, states: seq<State<V>>, actions: seq<Action<V>>,
      c: CallId)
    returns (pick: Pick)
    requires IsRun(merge, states, actions) && Alone(states[|actions|], c) && !states[|actions|].threads[c].Finished()
    ensures Enabled(states[|actions|], c, pick) && pick.more
  {
    var s := states[|actions|];
    RunKeepsInv(merge, states, actions, |actions|);
    assert ThreadOk(s, s.threads[c]);
    if Waits(s, s.threads[c]) {
      var d := WaitsForAHolder(s, c);
      assert false;
    }
    pick := UnblockedCanMove(s, c);
  }

  lemma {:induction false} StillAlone<V>(merge: (V, V) -> V, s: State<V>, c: CallId, pick: Pick)
    requires Alone(s, c) && Enabled(s, c, pick)
    ensures var s' := Fire(merge, s, c, pick); Alone(s', c) && s'.threads[c].job == s.threads[c].job
  {
    FireEffect(merge, s, c, pick);
  }

  /** A Get or a Write that is alone returns. */
  lemma {:induction false} FinishAlone<V>(merge: (V, V) -> V, states: seq<State<V>>, actions: seq<Action<V>>, c: CallId)
    returns (states': seq<State<V>>, actions': seq<Action<V>>)
    requires IsRun(merge, states, actions)
    requires Alone(states[|actions|], c) && states[|actions|].threads[c].job.Point?
    ensures IsRun(merge, states', actions') && Continues(states, actions, states', actions')
    ensures Alone(states'[|actions'|], c) && states'[|actions'|].threads[c].pc.Done?
    decreases Rank(states[|actions|].threads[c])
  {
    var s := states[|actions|];
    RunKeepsInv(merge, states, actions, |actions|);
    assert ThreadOk(s, s.threads[c]);
    if s.threads[c].Finished() {
      states', actions' := states, actions;
    } else {
      var pick := AloneCanMove(merge, states, actions, c);
      StillAlone(merge, s, c, pick);
      RankDrops(merge, s, c, pick);
      Extend(merge, states, actions, Move(c, pick));
      states', actions' := FinishAlone(merge, states + [Fire(merge, s, c, pick)], actions + [Move(c, pick)], c);
    }
  }

  /** How far a listing has come: tables to go, then stages of the table at hand, then keys to hand over. */
  function TablesLeft<V>(s: State<V>, pc: Pc<V>): int {
    if pc.Visiting? || pc.Copying? || pc.Copied? || pc.Yielding? then |s.parts| - pc.i else -1
  }

  function Stage<V>(pc: Pc<V>): nat {
    match pc
    case Visiting(_) => 3
    case Copying(_) => 2
    case Copied(_, _) => 1
    case _ => 0
  }

  function KeysLeft<V>(pc: Pc<V>): nat { if pc.Yielding? then |pc.batch| else 0 }

  ghost predicate Nearer<V>(s: State<V>, pc: Pc<V>, s': State<V>, pc': Pc<V>) {
    || TablesLeft(s', pc') < TablesLeft(s, pc)
    || (TablesLeft(s', pc') == TablesLeft(s, pc) && Stage(pc') < Stage(pc))
    || (TablesLeft(s', pc') == TablesLeft(s, pc) && Stage(pc') == Stage(pc) && KeysLeft(pc') < KeysLeft(pc))
  }

  lemma {:induction false} ListingComesNearer<V>(merge: (V, V) -> V, s: State<V>, c: CallId, pick: Pick)
    requires Enabled(s, c, pick) && s.threads[c].job.ListKeys? && pick.more
    ensures var s' := Fire(merge, s, c, pick);
            && c in s'.threads
            && TablesLeft(s, s.threads[c].pc) >= 0
            && (s'.threads[c].pc == Listed(true)
                || (!s'.threads[c].Finished() && Nearer(s, s.threads[c].pc, s', s'.threads[c].pc)))
  {
  }

  /** A listing that is alone, and whose consumer goes on, lists everything. */
  lemma {:induction false} ListAlone<V>(merge: (V, V) -> V, states: seq<State<V>>, actions: seq<Action<V>>, c: CallId)
    returns (states': seq<State<V>>, actions': seq<Action<V>>)
    requires IsRun(merge, states, actions)
    requires var s := states[|actions|];
             Alone(s, c) && s.threads[c].job.ListKeys? && (s.threads[c].Finished() ==> s.threads[c].pc == Listed(true))
    ensures IsRun(merge, states', actions') && Continues(states, actions, states', actions')
    ensures Alone(states'[|actions'|], c) && states'[|actions'|].threads[c].pc == Listed(true)
    decreases var s := states[|actions|]; TablesLeft(s, s.threads[c].pc) + 1,
              Stage(states[|actions|].threads[c].pc), KeysLeft(states[|actions|].threads[c].pc)
  {
    var s := states[|actions|];
    if s.threads[c].Finished() {
      states', actions' := states, actions;
    } else {
      var pick := AloneCanMove(merge, states, actions, c);
      StillAlone(merge, s, c, pick);
      ListingComesNearer(merge, s, c, pick);
      Extend(merge, states, actions, Move(c, pick));
      states', actions' := ListAlone(merge, states + [Fire(merge, s, c, pick)], actions + [Move(c, pick)], c);
    }
  }
}
