/**
 Listing keys while other calls write. The listing is no snapshot, but it misses no key that was
 there when it began, repeats none and invents none, because a key never leaves its table.
 */
module ConcurrentKeys {
  import opened Prelude
  import opened StoreProtocol
  import opened StoreInvariant

  /** The keys copied out of a table and not yet handed over. */
  function Pending<V>(pc: Pc<V>): seq<Key> {
    match pc
    case Copied(_, batch) => batch
    case Yielding(_, batch) => batch
    case _ => []
  }

  /** The number of tables that have been copied. */
  function Frontier<V>(s: State<V>, pc: Pc<V>): nat {
    match pc
    case Visiting(i) => i
    case Copying(i) => i
    case Copied(i, _) => i + 1
    case Yielding(i, _) => i + 1
    case _ => |s.parts|
  }

  /** Everything listed is listed once and exists, and comes from a table already copied. */
  ghost predicate Sound<V>(s: State<V>, t: Thread<V>)
    requires |s.parts| > 0
  {
    var out := t.yielded + Pending(t.pc);
    && Distinct(out)
    && forall i :: 0 <= i < |out| ==> s.Present(out[i]) && s.Home(out[i]) < Frontier(s, t.pc)
  }

  /** Every key of `start` whose table has been copied is listed, unless the consumer stopped. */
  ghost predicate Covers<V>(start: set<Key>, s: State<V>, t: Thread<V>)
    requires |s.parts| > 0
  {
    t.pc == Listed(false)
    || forall k :: k in start && s.Home(k) < Frontier(s, t.pc) ==> k in t.yielded + Pending(t.pc)
  }

  ghost predicate Listing<V>(start: set<Key>, s: State<V>, t: Thread<V>) {
    && |s.parts| > 0
    && t.job.ListKeys? && Sensible(s, t)
    && (forall k :: k in start ==> s.Present(k))
    && Sound(s, t)
    && Covers(start, s, t)
  }

  /** What one step does to the list and the frontier; only copying a table moves the frontier. */
  lemma {:induction false} KeysStep<V>(s: State<V>, c: CallId, pick: Pick)
    requires Enabled(s, c, pick) && s.threads[c].job.ListKeys?
    ensures var t, s' := s.threads[c], FireKeys(s, c, pick);
            var t' := s'.threads[c];
            var out, out' := t.yielded + Pending(t.pc), t'.yielded + Pending(t'.pc);
            && t'.job == t.job && Sensible(s', t')
            && (t.pc.Copying? ==> out' == t.yielded + pick.order && Frontier(s', t'.pc) == t.pc.i + 1)
            && (!t.pc.Copying? ==>
                  && out' <= out && Frontier(s, t.pc) <= Frontier(s', t'.pc)
                  && (t'.pc == Listed(false) || (out' == out && Frontier(s', t'.pc) == Frontier(s, t.pc))))
  {
  }

  lemma {:induction false} ListingStep<V>(start: set<Key>, s: State<V>, c: CallId, pick: Pick)
    requires Enabled(s, c, pick) && |s.parts| > 0 && TablesOk(s) && Listing(start, s, s.threads[c])
    requires Effect(s, FireKeys(s, c, pick), c)
    ensures var s' := FireKeys(s, c, pick); c in s'.threads && Listing(start, s', s'.threads[c])
  {
    var t, s' := s.threads[c], FireKeys(s, c, pick);
    var t' := s'.threads[c];
    KeysStep(s, c, pick);
    EffectGrows(s, s', c);
    forall k | s.Present(k) ensures s'.Present(k) { assert Current(s', k, s.Pointer(k)); }
    forall k: Key ensures s'.Home(k) == s.Home(k) {}
    if t.pc.Copying? {
      CopyTable(start, s, t, pick.order);
    } else {
      var out, out' := t.yielded + Pending(t.pc), t'.yielded + Pending(t'.pc);
      assert forall i :: 0 <= i < |out'| ==> out'[i] == out[i];
    }
  }

  /** The copied batch holds just the keys of one table, so it repeats nothing listed before. */
  lemma {:induction false} CopyTable<V>(start: set<Key>, s: State<V>, t: Thread<V>, order: seq<Key>)
    requires |s.parts| > 0 && TablesOk(s) && Listing(start, s, t) && t.pc.Copying?
    requires Enumerates(order, s.parts[t.pc.i].table.Keys)
    ensures var i, out := t.pc.i, t.yielded + order;
            && Distinct(out)
            && (forall j :: 0 <= j < |out| ==> s.Present(out[j]) && s.Home(out[j]) < i + 1)
            && (forall k :: k in start && s.Home(k) < i + 1 ==> k in out)
  {
    var i, out := t.pc.i, t.yielded + order;
    assert t.yielded + [] == t.yielded;
    forall j | 0 <= j < |out| ensures s.Present(out[j]) && s.Home(out[j]) < i + 1 {
      if j >= |t.yielded| { assert out[j] == order[j - |t.yielded|]; }
    }
    forall k | k in start && s.Home(k) < i + 1 ensures k in out {
      if s.Home(k) == i {
        AllEnumerated(order, s.parts[i].table.Keys, k);
      }
    }
    forall j, l | 0 <= j < l < |out| ensures out[j] != out[l] {
      if j < |t.yielded| <= l {
        assert out[l] == order[l - |t.yielded|] && out[l] in s.parts[i].table;
      }
    }
  }

  /** A list of |keys| different keys misses none. */
  lemma {:induction false} AllEnumerated(order: seq<Key>, keys: set<Key>, k: Key)
    requires Enumerates(order, keys) && k in keys
    ensures k in order
  {
    if k !in order {
      DistinctFits(order, keys - {k});
    }
  }

  lemma {:induction false} DistinctFits(order: seq<Key>, keys: set<Key>)
    requires forall i :: 0 <= i < |order| ==> order[i] in keys
    requires forall i, j :: 0 <= i < j < |order| ==> order[i] != order[j]
    ensures |order| <= |keys|
  {
    if order == [] {
    } else {
      DistinctFits(order[1..], keys - {order[0]});
    }
  }

  /** Other calls only add keys, which disturbs nothing. */
  lemma {:induction false} OthersKeepListing<V>(start: set<Key>, s: State<V>, s': State<V>, t: Thread<V>)
    requires Listing(start, s, t) && Grows(s, s')
    ensures Listing(start, s', t)
  {
  }

  ghost function KeysOf<V>(s: State<V>): set<Key>
    requires |s.parts| > 0
  {
    set i, k | 0 <= i < |s.parts| && k in s.parts[i].table :: k
  }

  lemma {:induction false} ListingThroughout<V>(merge: (V, V) -> V, states: seq<State<V>>, actions: seq<Action<V>>,
      a: nat, n: nat, c: CallId)
    requires IsRun(merge, states, actions) && a < n < |states|
    requires actions[a] == Arrive(c, ListKeys)
    ensures |states[a].parts| > 0 && c in states[n].threads
    ensures Listing(KeysOf(states[a]), states[n], states[n].threads[c])
    decreases n
  {
    RunKeepsInv(merge, states, actions, a);
    RunKeepsInv(merge, states, actions, n - 1);
    var start := KeysOf(states[a]);
    if n == a + 1 {
      ListingBegins(states[a], c);
    } else {
      ListingThroughout(merge, states, actions, a, n - 1, c);
      StepKeepsListing(merge, start, states[n - 1], actions[n - 1], c);
    }
  }

  lemma {:induction false} ListingBegins<V>(s: State<V>, c: CallId)
    requires Inv(s) && c !in s.threads
    ensures var s' := Invoke(s, c, ListKeys); Listing(KeysOf(s), s', s'.threads[c])
  {
    var s' := Invoke(s, c, ListKeys);
    forall k | k in KeysOf(s) ensures s'.Present(k) {
      assert s'.Home(k) == s.Home(k);
    }
  }

  lemma {:induction false} StepKeepsListing<V>(merge: (V, V) -> V, start: set<Key>, s: State<V>, action: Action<V>,
      c: CallId)
    requires Inv(s) && Allowed(s, action) && c in s.threads && Listing(start, s, s.threads[c])
    ensures var s' := Step(merge, s, action); c in s'.threads && Listing(start, s', s'.threads[c])
  {
    StepGrows(merge, s, action);
    var s' := Step(merge, s, action);
    if action.Move? && action.c == c {
      FireEffect(merge, s, c, action.pick);
      ListingStep(start, s, c, action.pick);
    } else {
      if action.Move? { FireEffect(merge, s, action.c, action.pick); }
      OthersKeepListing(start, s, s', s.threads[c]);
    }
  }

  /**
   Keys under concurrent writes, in every interleaving. At every moment what has been handed out has
   no repeats and exists; and once the listing is complete it contains every key that was stored when
   it began.
   */
  lemma {:induction false} KeysIsFaithful<V>(merge: (V, V) -> V, states: seq<State<V>>, actions: seq<Action<V>>,
      a: nat, n: nat, c: CallId)
    requires IsRun(merge, states, actions) && a < n < |states|
    requires actions[a] == Arrive(c, ListKeys)
    ensures |states[a].parts| > 0 && |states[n].parts| > 0 && c in states[n].threads
    ensures var s, t := states[n], states[n].threads[c];
            && Distinct(t.yielded)
            && (forall k :: k in t.yielded ==> s.Present(k))
            && (t.pc == Listed(true) ==> forall k :: states[a].Present(k) ==> k in t.yielded)
  {
    ListingThroughout(merge, states, actions, a, n, c);
    RunGrows(merge, states, actions, a, n);
    var s, t := states[n], states[n].threads[c];
    var out := t.yielded + Pending(t.pc);
    assert forall i :: 0 <= i < |t.yielded| ==> t.yielded[i] == out[i];
    if t.pc == Listed(true) {
      assert out == t.yielded;
    }
  }

  /** What has been handed out is never taken back: later lists extend earlier ones. */
  lemma {:induction false} YieldsOnlyGrow<V>(merge: (V, V) -> V, states: seq<State<V>>, actions: seq<Action<V>>,
      m: nat, n: nat, c: CallId)
    requires IsRun(merge, states, actions) && m <= n < |states| && c in states[m].threads
    ensures c in states[n].threads && states[m].threads[c].yielded <= states[n].threads[c].yielded
    decreases n
  {
    if m == n {
    } else {
      YieldsOnlyGrow(merge, states, actions, m, n - 1, c);
      YieldStep(merge, states[n - 1], actions[n - 1], c);
      PrefixesChain(states[m].threads[c].yielded, states[n - 1].threads[c].yielded, states[n].threads[c].yielded);
    }
  }

  lemma {:induction false} PrefixesChain<T>(a: seq<T>, b: seq<T>, c: seq<T>)
    requires a <= b <= c
    ensures a <= c
  {
  }

  lemma {:induction false} YieldStep<V>(merge: (V, V) -> V, s: State<V>, action: Action<V>, c: CallId)
    requires Allowed(s, action) && c in s.threads
    ensures var s' := Step(merge, s, action);
            c in s'.threads && s.threads[c].yielded <= s'.threads[c].yielded
  {
    if action.Move? { FireEffect(merge, s, action.c, action.pick); }
  }

  /**
   Stopping early loses nothing but what was to come. Take an execution in which the consumer stops at
   step m, and any execution that is the same up to there but in which the consumer goes on: the step
   that goes on is open to it, and whatever the first execution does afterwards, the stopped list is a
   prefix of the list the other has at every later moment.
   */
  lemma {:induction false} StoppedIsPrefix<V>(merge: (V, V) -> V, states: seq<State<V>>, actions: seq<Action<V>>,
      m: nat, n: nat, states': seq<State<V>>, actions': seq<Action<V>>, n': nat, c: CallId, pick: Pick)
    requires IsRun(merge, states, actions) && IsRun(merge, states', actions')
    requires m < |actions| && m < |actions'| && m < n < |states| && m < n' < |states'|
    requires states[m] == states'[m] && actions[m] == Move(c, pick) && states[m].threads[c].job.ListKeys?
    requires states[m + 1].threads[c].pc == Listed(false)
    requires actions'[m] == Move(c, pick.(more := true))
    ensures Allowed(states[m], Move(c, pick.(more := true)))
    ensures c in states[n].threads && c in states'[n'].threads
    ensures states[n].threads[c].yielded <= states'[n'].threads[c].yielded
    ensures states[n].threads[c].pc == Listed(false)
  {
    assert states[m].threads[c].pc.Yielding?;
    assert c in states[m + 1].threads && c in states'[m + 1].threads;
    assert states[m + 1].threads[c].yielded == states'[m + 1].threads[c].yielded;
    FinishedStays(merge, states, actions, m + 1, n, c);
    YieldsOnlyGrow(merge, states', actions', m + 1, n', c);
  }
}
