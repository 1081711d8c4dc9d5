/**
 Every execution of the concurrent store is explained by one order of atomic calls on a plain map:
 each Get and Write takes effect at one of its own steps, between its arrival and its return, and
 is answered as the plain map would answer it there.
 */
module Linearizability {
  import opened Prelude
  import opened AtomicMap
  import opened StoreProtocol
  import opened StoreInvariant
  import H = History

  /** The answer a call is already bound to give, once it has taken effect. */
  function Decided<V>(s: State<V>, c: CallId): Option<Reply<V>>
    requires c in s.threads && Sensible(s, s.threads[c])
  {
    var t := s.threads[c];
    match t.pc
    case Sought(None) => if t.Gets() then Some(NotFound) else None
    case HalfRead(e, value) => Some(Found(Entry(value, s.cells[e].version)))
    case Installed(e) => Some(Wrote(Written(Entry(s.cells[e].value, s.cells[e].version + 1))))
    case LeavingEntry(_, reply) => Some(reply)
    case LeavingTable(verdict) => verdict
    case Done(reply) => Some(reply)
    case _ => None
  }

  /** An entry whose value is new and whose version is about to be bumped counts as bumped. */
  ghost predicate MidWrite<V>(s: State<V>, e: nat)
    requires e < |s.cells|
  {
    var w := s.cells[e].lock.writer;
    w.Some? && w.value in s.threads && s.threads[w.value].pc == Installed(e)
  }

  ghost function Committed<V>(s: State<V>, e: nat): Entry<V>
    requires e < |s.cells|
  {
    Entry(s.cells[e].value, s.cells[e].version + if MidWrite(s, e) then 1 else 0)
  }

  /** The plain map the store stands for. */
  ghost predicate Agrees<V>(s: State<V>, m: Kv<V>)
    requires |s.parts| > 0 && TablesOk(s)
  {
    forall k :: SlotAgrees(s, m, k)
  }

  ghost predicate SlotAgrees<V>(s: State<V>, m: Kv<V>, k: Key)
    requires |s.parts| > 0 && TablesOk(s)
  {
    Lookup(m, k) == if s.Present(k) then Some(Committed(s, s.Pointer(k))) else None
  }

  /** The plain map after a step of call c: changed exactly when the step decides the call. */
  ghost function Next<V>(merge: (V, V) -> V, s: State<V>, s': State<V>, c: CallId, m: Kv<V>): Kv<V>
    requires c in s.threads && Sensible(s, s.threads[c]) && c in s'.threads && Sensible(s', s'.threads[c])
    requires s.threads[c].job.Point?
  {
    if Decided(s, c).None? && Decided(s', c).Some? then Apply(merge, m, s.threads[c].job.call).0 else m
  }

  /** The step agrees with the plain map: a decision is the plain map's answer, and is final. */
  ghost predicate Faithful<V>(merge: (V, V) -> V, s: State<V>, s': State<V>, c: CallId, m: Kv<V>)
    requires c in s.threads && Sensible(s, s.threads[c]) && c in s'.threads && Sensible(s', s'.threads[c])
    requires s.threads[c].job.Point?
  {
    && (Decided(s, c).Some? ==> Decided(s', c) == Decided(s, c))
    && (Decided(s, c).None? && Decided(s', c).Some? ==>
          Decided(s', c).value == Apply(merge, m, s.threads[c].job.call).1)
  }

  // ---------------------------------------------------------------- one step

  /** Committed entries other than the one call c writes are not affected by its step. */
  lemma {:induction false} CommittedKept<V>(s: State<V>, s': State<V>, c: CallId, e: nat)
    requires Inv(s) && Effect(s, s', c) && e < |s.cells|
    requires !HoldsEntryWrite(s, c, e) && !HoldsEntryWrite(s', c, e)
    ensures Committed(s', e) == Committed(s, e)
  {
    assert EntryEffect(s, s', c, e);
    assert EntryLockOk(s, e);
  }

  /** The plain map still fits key k when the step neither inserts nor writes k's entry. */
  lemma {:induction false} SlotKept<V>(s: State<V>, s': State<V>, c: CallId, m: Kv<V>, k: Key)
    requires Inv(s) && Effect(s, s', c) && TablesOk(s') && SlotAgrees(s, m, k)
    requires !(Inserts(s, c) && k == s.threads[c].job.call.op.key)
    requires s.Present(k) ==> Committed(s', s.Pointer(k)) == Committed(s, s.Pointer(k))
    ensures SlotAgrees(s', m, k)
  {
    if s.Present(k) {
      CurrentAfter(s, s', c, k, s.Pointer(k));
    } else if s'.Present(k) {
      CurrentAfter(s, s', c, k, s'.Pointer(k));
    }
  }

  ghost predicate InEntry<V>(pc: Pc<V>) { pc.Deciding? || pc.Installed? || pc.LeavingEntry? }

  /** A step that writes no entry leaves the plain map as it was, but for a key it inserts. */
  lemma {:induction false} QuietStep<V>(s: State<V>, s': State<V>, c: CallId, m: Kv<V>, k: Key)
    requires Inv(s) && Effect(s, s', c) && TablesOk(s') && Agrees(s, m)
    requires !InEntry(s.threads[c].pc) && !InEntry(s'.threads[c].pc)
    requires !(Inserts(s, c) && k == s.threads[c].job.call.op.key)
    ensures SlotAgrees(s', m, k)
  {
    assert SlotAgrees(s, m, k);
    if s.Present(k) { CommittedKept(s, s', c, s.Pointer(k)); }
    SlotKept(s, s', c, m, k);
  }

  lemma {:induction false} SeekFaithful<V>(merge: (V, V) -> V, s: State<V>, c: CallId, m: Kv<V>)
    requires |s.parts| > 0 && TablesOk(s) && Ready(s, c) && SeekPc(s.threads[c].pc)
    requires SlotAgrees(s, m, s.threads[c].job.call.Target())
    requires c in FireSeek(s, c).threads && Sensible(FireSeek(s, c), FireSeek(s, c).threads[c])
    ensures !InEntry(FireSeek(s, c).threads[c].pc)
    ensures Faithful(merge, s, FireSeek(s, c), c, m)
    ensures Next(merge, s, FireSeek(s, c), c, m) == m
  {
  }

  lemma {:induction false} SeekSimulates<V>(merge: (V, V) -> V, s: State<V>, c: CallId, m: Kv<V>)
    requires Inv(s) && Ready(s, c) && SeekPc(s.threads[c].pc) && Agrees(s, m)
    requires var s' := FireSeek(s, c); Effect(s, s', c) && Inv(s')
    ensures var s' := FireSeek(s, c);
            Faithful(merge, s, s', c, m) && Agrees(s', Next(merge, s, s', c, m))
  {
    var s' := FireSeek(s, c);
    assert SlotAgrees(s, m, s.threads[c].job.call.Target());
    assert ThreadOk(s', s'.threads[c]);
    SeekFaithful(merge, s, c, m);
    forall k ensures SlotAgrees(s', m, k) {
      QuietStep(s, s', c, m, k);
    }
  }

  lemma {:induction false} CreateFaithful<V>(merge: (V, V) -> V, s: State<V>, c: CallId, m: Kv<V>)
    requires |s.parts| > 0 && TablesOk(s) && Ready(s, c) && CreatePc(s.threads[c].pc)
    requires SlotAgrees(s, m, s.threads[c].job.call.Target())
    requires ThreadOk(s, s.threads[c])
    requires c in FireCreate(s, c).threads && Sensible(FireCreate(s, c), FireCreate(s, c).threads[c])
    ensures !InEntry(FireCreate(s, c).threads[c].pc)
    ensures Faithful(merge, s, FireCreate(s, c), c, m)
    ensures Next(merge, s, FireCreate(s, c), c, m) ==
            if Inserts(s, c)
            then m[s.threads[c].job.call.op.key := Entry(s.threads[c].job.call.op.body, FIRST_VERSION)]
            else m
  {
  }

  lemma {:induction false} CreateSimulates<V>(merge: (V, V) -> V, s: State<V>, c: CallId, m: Kv<V>)
    requires Inv(s) && Ready(s, c) && CreatePc(s.threads[c].pc) && Agrees(s, m)
    requires var s' := FireCreate(s, c); Effect(s, s', c) && Inv(s')
    ensures var s' := FireCreate(s, c);
            Faithful(merge, s, s', c, m) && Agrees(s', Next(merge, s, s', c, m))
  {
    var s' := FireCreate(s, c);
    var op := s.threads[c].job.call.op;
    assert SlotAgrees(s, m, op.key);
    assert ThreadOk(s, s.threads[c]) && ThreadOk(s', s'.threads[c]);
    CreateFaithful(merge, s, c, m);
    var m' := Next(merge, s, s', c, m);
    forall k ensures SlotAgrees(s', m', k) {
      if Inserts(s, c) && k == op.key {
        CurrentAfter(s, s', c, k, |s.cells|);
      } else {
        QuietStep(s, s', c, m, k);
        assert Lookup(m', k) == Lookup(m, k);
      }
    }
  }

  /** The step installs a new value: the guard held and the write takes effect now. */
  ghost predicate Installs<V>(merge: (V, V) -> V, s: State<V>, c: CallId)
    requires Ready(s, c) && EntryPc(s.threads[c].pc)
  {
    s.threads[c].pc.Deciding? && FireEntry(merge, s, c).threads[c].pc.Installed?
  }

  lemma {:induction false} EntryCommitted<V>(merge: (V, V) -> V, s: State<V>, c: CallId)
    requires Ready(s, c) && EntryPc(s.threads[c].pc) && EntryLockOk(s, s.threads[c].pc.e)
    ensures var t, s' := s.threads[c], FireEntry(merge, s, c);
            && |s'.cells| == |s.cells|
            && Committed(s', t.pc.e) ==
                 if Installs(merge, s, c)
                 then Entry(Compute(merge, s.cells[t.pc.e].value, t.job.call.op), s.cells[t.pc.e].version + 1)
                 else Committed(s, t.pc.e)
  {
    var e := s.threads[c].pc.e;
    assert s.cells[e].lock.writer == Some(c) <==> HoldsEntryWrite(s, c, e);
    assert c in s.cells[e].lock.readers <==> HoldsEntryRead(s, c, e);
  }

  lemma {:induction false} EntryFaithful<V>(merge: (V, V) -> V, s: State<V>, c: CallId, m: Kv<V>)
    requires |s.parts| > 0 && TablesOk(s) && Ready(s, c) && EntryPc(s.threads[c].pc)
    requires ThreadOk(s, s.threads[c]) && EntryLockOk(s, s.threads[c].pc.e)
    requires SlotAgrees(s, m, s.threads[c].job.call.Target())
    requires c in FireEntry(merge, s, c).threads && Sensible(FireEntry(merge, s, c), FireEntry(merge, s, c).threads[c])
    ensures Faithful(merge, s, FireEntry(merge, s, c), c, m)
    ensures var t := s.threads[c];
            Next(merge, s, FireEntry(merge, s, c), c, m) ==
            if Installs(merge, s, c)
            then m[t.job.call.op.key :=
                   Entry(Compute(merge, s.cells[t.pc.e].value, t.job.call.op), s.cells[t.pc.e].version + 1)]
            else m
  {
    var t := s.threads[c];
    assert s.cells[t.pc.e].lock.writer == Some(c) <==> HoldsEntryWrite(s, c, t.pc.e);
    assert c in s.cells[t.pc.e].lock.readers <==> HoldsEntryRead(s, c, t.pc.e);
    RejectedChangesNothing(merge, m, t.job.call);
  }

  lemma {:induction false} EntrySimulates<V>(merge: (V, V) -> V, s: State<V>, c: CallId, m: Kv<V>)
    requires Inv(s) && Ready(s, c) && EntryPc(s.threads[c].pc) && Agrees(s, m)
    requires var s' := FireEntry(merge, s, c); Effect(s, s', c) && Inv(s')
    ensures var s' := FireEntry(merge, s, c);
            Faithful(merge, s, s', c, m) && Agrees(s', Next(merge, s, s', c, m))
  {
    var t, s' := s.threads[c], FireEntry(merge, s, c);
    var key, e := t.job.call.Target(), t.pc.e;
    assert ThreadOk(s, t) && ThreadOk(s', s'.threads[c]) && EntryLockOk(s, e);
    assert SlotAgrees(s, m, key);
    EntryFaithful(merge, s, c, m);
    EntryCommitted(merge, s, c);
    EntryKeepsPointer(merge, s, c);
    var m' := Next(merge, s, s', c, m);
    forall k ensures SlotAgrees(s', m', k) {
      assert SlotAgrees(s, m, k);
      if k == key {
        CurrentAfter(s, s', c, k, e);
      } else {
        if s.Present(k) {
          assert Current(s, k, s.Pointer(k)) && Current(s, key, e);
          CommittedKept(s, s', c, s.Pointer(k));
        }
        SlotKept(s, s', c, m, k);
        assert Lookup(m', k) == Lookup(m, k);
      }
    }
  }

  lemma {:induction false} KeysSimulates<V>(s: State<V>, c: CallId, pick: Pick, m: Kv<V>)
    requires Inv(s) && Ready(s, c) && s.threads[c].job.ListKeys? && !s.threads[c].Finished() && Agrees(s, m)
    requires var s' := FireKeys(s, c, pick); Effect(s, s', c) && Inv(s')
    ensures Agrees(FireKeys(s, c, pick), m)
  {
    var s' := FireKeys(s, c, pick);
    forall k ensures SlotAgrees(s', m, k) {
      QuietStep(s, s', c, m, k);
    }
  }

  /** A decision once taken is not touched by the steps of other calls: the locks see to that. */
  lemma {:induction false} OthersKeepDecision<V>(s: State<V>, s': State<V>, c: CallId, d: CallId)
    requires Inv(s) && Inv(s') && Effect(s, s', c) && d in s.threads && d != c
    requires ThreadOk(s, s.threads[d]) && ThreadOk(s', s'.threads[d])
    ensures Decided(s', d) == Decided(s, d)
  {
    var pc := s.threads[d].pc;
    if pc.HalfRead? || pc.Installed? {
      assert EntryEffect(s, s', c, pc.e) && EntryLockOk(s, pc.e);
      assert HoldsEntryRead(s, d, pc.e) || HoldsEntryWrite(s, d, pc.e);
    }
  }

  // ---------------------------------------------------------------- whole executions

  /** A call taking effect, at the execution step where it does. */
  datatype Event<+V> = Event(step: nat, call: CallId, request: Call<V>, reply: Reply<V>)

  function Requests<V>(log: seq<Event<V>>): (calls: seq<Call<V>>)
    ensures |calls| == |log|
    ensures forall i :: 0 <= i < |log| ==> calls[i] == log[i].request
  {
    if log == [] then [] else Requests(log[..|log| - 1]) + [log[|log| - 1].request]
  }

  /** Each event's reply is what the plain map answers after the events before it. */
  ghost predicate Legal<V>(merge: (V, V) -> V, log: seq<Event<V>>) {
    forall i :: 0 <= i < |log| ==> log[i].reply == ReplyAt(merge, Requests(log), i)
  }

  /** Each event is a step of its own call, taken after the call arrived and before it returned. */
  ghost predicate Timely<V>(states: seq<State<V>>, actions: seq<Action<V>>, n: nat, log: seq<Event<V>>)
    requires |states| == |actions| + 1 && n <= |actions|
  {
    && (forall i :: 0 <= i < |log| ==>
          && log[i].step < n
          && actions[log[i].step].Move? && actions[log[i].step].c == log[i].call
          && log[i].call in states[log[i].step].threads
          && states[log[i].step].threads[log[i].call].job == Point(log[i].request)
          && !states[log[i].step].threads[log[i].call].Finished())
    && (forall i, j :: 0 <= i < j < |log| ==> log[i].step < log[j].step)
  }

  /** The log has call c with this reply. */
  ghost predicate Logged<V>(log: seq<Event<V>>, c: CallId, reply: Reply<V>) {
    exists i :: 0 <= i < |log| && log[i].call == c && log[i].reply == reply
  }

  /** Exactly the calls that have taken effect are in the log, once each, with the reply they give. */
  ghost predicate Complete<V>(s: State<V>, log: seq<Event<V>>) {
    && (forall c :: c in s.threads ==> Sensible(s, s.threads[c]))
    && (forall i :: 0 <= i < |log| ==>
          log[i].call in s.threads && Decided(s, log[i].call) == Some(log[i].reply))
    && (forall c :: c in s.threads && Decided(s, c).Some? ==> Logged(log, c, Decided(s, c).value))
    && (forall i, j :: 0 <= i < j < |log| ==> log[i].call != log[j].call)
  }

  /** The log explains the first n steps of an execution. */
  ghost predicate Explains<V>(merge: (V, V) -> V, states: seq<State<V>>, actions: seq<Action<V>>, n: nat,
      log: seq<Event<V>>)
    requires |states| == |actions| + 1 && n <= |actions|
  {
    && Inv(states[n])
    && Legal(merge, log)
    && Timely(states, actions, n, log)
    && Complete(states[n], log)
    && Agrees(states[n], After(merge, Requests(log)))
  }

  lemma {:induction false} FireSimulates<V>(merge: (V, V) -> V, s: State<V>, c: CallId, pick: Pick, m: Kv<V>)
    requires Inv(s) && Enabled(s, c, pick) && Agrees(s, m)
    ensures var s' := Fire(merge, s, c, pick);
            && Inv(s') && Effect(s, s', c)
            && c in s'.threads && Sensible(s', s'.threads[c])
            && (if s.threads[c].job.Point?
                then Faithful(merge, s, s', c, m) && Agrees(s', Next(merge, s, s', c, m))
                else Agrees(s', m))
  {
    FireEffect(merge, s, c, pick);
    FireKeepsInv(merge, s, c, pick);
    var s', t := Fire(merge, s, c, pick), s.threads[c];
    assert ThreadOk(s', s'.threads[c]);
    if t.job.ListKeys? {
      KeysSimulates(s, c, pick, m);
    } else if SeekPc(t.pc) {
      SeekSimulates(merge, s, c, m);
    } else if EntryPc(t.pc) {
      EntrySimulates(merge, s, c, m);
    } else {
      CreateSimulates(merge, s, c, m);
    }
  }

  lemma {:induction false} AppendLegal<V>(merge: (V, V) -> V, log: seq<Event<V>>, event: Event<V>)
    requires Legal(merge, log)
    requires event.reply == Apply(merge, After(merge, Requests(log)), event.request).1
    ensures Legal(merge, log + [event])
    ensures After(merge, Requests(log + [event])) == Apply(merge, After(merge, Requests(log)), event.request).0
  {
    var log', calls := log + [event], Requests(log);
    assert log'[..|log|] == log;
    var calls' := Requests(log');
    assert calls' == calls + [event.request];
    assert calls'[..|calls|] == calls;
    forall i: nat | i < |log'| ensures log'[i].reply == ReplyAt(merge, calls', i) {
      if i < |log| { ReplyInPrefix(merge, calls', |calls|, i); }
    }
  }

  lemma {:induction false} UndecidedUnlogged<V>(s: State<V>, log: seq<Event<V>>, c: CallId)
    requires Complete(s, log) && c in s.threads && Decided(s, c).None?
    ensures forall i :: 0 <= i < |log| ==> log[i].call != c
  {
  }

  /** A step that decides nothing leaves the log as it is. */
  lemma {:induction false} CompleteKept<V>(s: State<V>, s': State<V>, log: seq<Event<V>>)
    requires Complete(s, log) && s.threads.Keys <= s'.threads.Keys
    requires forall c :: c in s'.threads ==> Sensible(s', s'.threads[c])
    requires forall c :: c in s.threads ==> Decided(s', c) == Decided(s, c)
    requires forall c :: c in s'.threads && c !in s.threads ==> Decided(s', c).None?
    ensures Complete(s', log)
  {
  }

  lemma {:induction false} CompleteGrows<V>(s: State<V>, s': State<V>, log: seq<Event<V>>, event: Event<V>)
    requires Complete(s, log) && s.threads.Keys == s'.threads.Keys
    requires forall c :: c in s'.threads ==> Sensible(s', s'.threads[c])
    requires event.call in s.threads && Decided(s, event.call).None? && Decided(s', event.call) == Some(event.reply)
    requires forall c :: c in s.threads && c != event.call ==> Decided(s', c) == Decided(s, c)
    ensures Complete(s', log + [event])
  {
    var log' := log + [event];
    UndecidedUnlogged(s, log, event.call);
    forall c | c in s'.threads && Decided(s', c).Some? ensures Logged(log', c, Decided(s', c).value) {
      if c == event.call {
        assert log'[|log|] == event;
      } else {
        assert Logged(log, c, Decided(s, c).value);
        var i :| 0 <= i < |log| && log[i].call == c && log[i].reply == Decided(s, c).value;
        assert log'[i] == log[i];
      }
    }
  }

  lemma {:induction false} AllSensible<V>(s: State<V>)
    requires Inv(s)
    ensures forall c :: c in s.threads ==> Sensible(s, s.threads[c])
  {
  }

  lemma {:induction false} DecisionsKept<V>(s: State<V>, s': State<V>, c: CallId)
    requires Inv(s) && Inv(s') && Effect(s, s', c)
    ensures forall d :: d in s.threads ==> Sensible(s, s.threads[d]) && Sensible(s', s'.threads[d])
    ensures forall d :: d in s.threads && d != c ==> Decided(s', d) == Decided(s, d)
  {
    AllSensible(s);
    AllSensible(s');
    forall d | d in s.threads && d != c ensures Decided(s', d) == Decided(s, d) {
      assert ThreadOk(s, s.threads[d]) && ThreadOk(s', s'.threads[d]);
      OthersKeepDecision(s, s', c, d);
    }
  }

  lemma {:induction false} ArrivalAgrees<V>(s: State<V>, c: CallId, job: Job<V>, m: Kv<V>)
    requires Inv(s) && c !in s.threads && Agrees(s, m) && Inv(Invoke(s, c, job))
    ensures Agrees(Invoke(s, c, job), m)
  {
    var s' := Invoke(s, c, job);
    forall k ensures SlotAgrees(s', m, k) {
      assert SlotAgrees(s, m, k);
      if s.Present(k) {
        var e := s.Pointer(k);
        assert EntryLockOk(s, e) && !HoldsEntryWrite(s, c, e);
        assert MidWrite(s', e) <==> MidWrite(s, e);
      }
    }
  }

  lemma {:induction false} ArrivalComplete<V>(s: State<V>, c: CallId, job: Job<V>, log: seq<Event<V>>)
    requires c !in s.threads && Complete(s, log)
    requires var s' := Invoke(s, c, job); forall d :: d in s'.threads ==> Sensible(s', s'.threads[d])
    ensures Complete(Invoke(s, c, job), log)
  {
    CompleteKept(s, Invoke(s, c, job), log);
  }

  lemma {:induction false} ArrivalExplained<V>(merge: (V, V) -> V, states: seq<State<V>>, actions: seq<Action<V>>,
      n: nat, log: seq<Event<V>>)
    requires |states| == |actions| + 1 && n < |actions| && actions[n].Arrive?
    requires Allowed(states[n], actions[n]) && states[n + 1] == Step(merge, states[n], actions[n])
    requires Explains(merge, states, actions, n, log)
    ensures Explains(merge, states, actions, n + 1, log)
  {
    InvokeKeepsInv(states[n], actions[n].c, actions[n].job);
    AllSensible(states[n + 1]);
    ArrivalComplete(states[n], actions[n].c, actions[n].job, log);
    ArrivalAgrees(states[n], actions[n].c, actions[n].job, After(merge, Requests(log)));
  }

  lemma {:induction false} QuietLogged<V>(s: State<V>, s': State<V>, c: CallId, log: seq<Event<V>>)
    requires Inv(s) && Inv(s') && Effect(s, s', c) && Complete(s, log)
    requires Sensible(s, s.threads[c]) && Sensible(s', s'.threads[c])
    requires Decided(s', c) == Decided(s, c)
    ensures Complete(s', log)
  {
    DecisionsKept(s, s', c);
    CompleteKept(s, s', log);
  }

  lemma {:induction false} DecisionLogged<V>(merge: (V, V) -> V, s: State<V>, s': State<V>, c: CallId,
      log: seq<Event<V>>, event: Event<V>)
    requires Inv(s) && Inv(s') && Effect(s, s', c) && Legal(merge, log) && Complete(s, log)
    requires Sensible(s, s.threads[c]) && Sensible(s', s'.threads[c])
    requires event.call == c && Decided(s, c).None? && Decided(s', c) == Some(event.reply)
    requires Apply(merge, After(merge, Requests(log)), event.request).1 == event.reply
    requires Agrees(s', Apply(merge, After(merge, Requests(log)), event.request).0)
    ensures var log' := log + [event];
            Legal(merge, log') && Complete(s', log') && Agrees(s', After(merge, Requests(log')))
  {
    DecisionsKept(s, s', c);
    AppendLegal(merge, log, event);
    CompleteGrows(s, s', log, event);
  }

  ghost predicate LongerByOne<V>(log: seq<Event<V>>, log': seq<Event<V>>, n: nat, c: CallId, job: Job<V>) {
    && |log'| == |log| + 1
    && log'[..|log|] == log
    && var last := log'[|log|]; last.step == n && last.call == c && Point(last.request) == job
  }

  /** The log gains the call that a step of c decides, if it decides one. */
  lemma {:induction false} StepLogged<V>(merge: (V, V) -> V, s: State<V>, s': State<V>, c: CallId, n: nat,
      log: seq<Event<V>>)
    returns (log': seq<Event<V>>)
    requires Inv(s) && Inv(s') && Effect(s, s', c) && Legal(merge, log) && Complete(s, log)
    requires Sensible(s, s.threads[c]) && Sensible(s', s'.threads[c])
    requires if s.threads[c].job.Point?
             then Faithful(merge, s, s', c, After(merge, Requests(log)))
                  && Agrees(s', Next(merge, s, s', c, After(merge, Requests(log))))
             else Agrees(s', After(merge, Requests(log)))
    ensures Legal(merge, log') && Complete(s', log') && Agrees(s', After(merge, Requests(log')))
    ensures log' == log || LongerByOne(log, log', n, c, s.threads[c].job)
  {
    var t := s.threads[c];
    if t.job.Point? && Decided(s, c).None? && Decided(s', c).Some? {
      var event := Event(n, c, t.job.call, Decided(s', c).value);
      DecisionLogged(merge, s, s', c, log, event);
      log' := log + [event];
    } else {
      QuietLogged(s, s', c, log);
      log' := log;
    }
  }

  lemma {:induction false} TimelyGrows<V>(states: seq<State<V>>, actions: seq<Action<V>>, n: nat,
      log: seq<Event<V>>, log': seq<Event<V>>)
    requires |states| == |actions| + 1 && n < |actions| && Timely(states, actions, n, log)
    requires actions[n].Move? && actions[n].c in states[n].threads && !states[n].threads[actions[n].c].Finished()
    requires log' == log || LongerByOne(log, log', n, actions[n].c, states[n].threads[actions[n].c].job)
    ensures Timely(states, actions, n + 1, log')
  {
  }

  lemma {:induction false} MoveExplained<V>(merge: (V, V) -> V, states: seq<State<V>>, actions: seq<Action<V>>,
      n: nat, log: seq<Event<V>>)
    returns (log': seq<Event<V>>)
    requires |states| == |actions| + 1 && n < |actions| && actions[n].Move?
    requires Allowed(states[n], actions[n]) && states[n + 1] == Step(merge, states[n], actions[n])
    requires Explains(merge, states, actions, n, log)
    ensures Explains(merge, states, actions, n + 1, log')
  {
    FireSimulates(merge, states[n], actions[n].c, actions[n].pick, After(merge, Requests(log)));
    log' := StepLogged(merge, states[n], states[n + 1], actions[n].c, n, log);
    TimelyGrows(states, actions, n, log, log');
  }

  lemma {:induction false} StepExplained<V>(merge: (V, V) -> V, states: seq<State<V>>, actions: seq<Action<V>>,
      n: nat, log: seq<Event<V>>)
    returns (log': seq<Event<V>>)
    requires |states| == |actions| + 1 && n < |actions|
    requires Allowed(states[n], actions[n]) && states[n + 1] == Step(merge, states[n], actions[n])
    requires Explains(merge, states, actions, n, log)
    ensures Explains(merge, states, actions, n + 1, log')
  {
    if actions[n].Arrive? {
      ArrivalExplained(merge, states, actions, n, log);
      log' := log;
    } else {
      log' := MoveExplained(merge, states, actions, n, log);
    }
  }

  lemma {:induction false} FreshExplained<V>(merge: (V, V) -> V, states: seq<State<V>>, actions: seq<Action<V>>)
    requires |states| == |actions| + 1 && Initial(states[0])
    ensures Explains(merge, states, actions, 0, [])
  {
  }

  /** Every prefix of every execution has a log that explains it. */
  lemma {:induction false} RunExplained<V>(merge: (V, V) -> V, states: seq<State<V>>, actions: seq<Action<V>>, n: nat)
    returns (log: seq<Event<V>>)
    requires IsRun(merge, states, actions) && n <= |actions|
    ensures Explains(merge, states, actions, n, log)
  {
    if n == 0 {
      log := [];
      FreshExplained(merge, states, actions);
    } else {
      var before := RunExplained(merge, states, actions, n - 1);
      log := StepExplained(merge, states, actions, n - 1, before);
    }
  }

  /** The order respects time: a call that returned before another arrived comes first. */
  lemma {:induction false} OrderRespectsTime<V>(merge: (V, V) -> V, states: seq<State<V>>, actions: seq<Action<V>>,
      n: nat, log: seq<Event<V>>, moment: nat, i: nat, j: nat)
    requires IsRun(merge, states, actions) && n <= |actions| && Explains(merge, states, actions, n, log)
    requires moment <= n && i < |log| && j < |log|
    requires log[i].call in states[moment].threads && states[moment].threads[log[i].call].Finished()
    requires log[j].call !in states[moment].threads
    ensures log[i].step < moment <= log[j].step
    ensures i < j
  {
    var a, b := log[i], log[j];
    if moment <= a.step {
      FinishedStays(merge, states, actions, moment, a.step, a.call);
    }
    if b.step < moment {
      RunGrows(merge, states, actions, b.step, moment);
    }
    assert a.step < b.step;
  }

  /** A returned call's reply is in the order. */
  lemma {:induction false} ReturnedIsLogged<V>(s: State<V>, log: seq<Event<V>>, c: CallId) returns (i: nat)
    requires Complete(s, log) && c in s.threads && s.threads[c].pc.Done?
    ensures i < |log| && log[i].call == c && log[i].reply == s.threads[c].pc.answer
  {
    assert Decided(s, c).Some?;
    assert Logged(log, c, s.threads[c].pc.answer);
    i :| 0 <= i < |log| && log[i].call == c && log[i].reply == s.threads[c].pc.answer;
  }

  /** Call a had returned at some moment when call b had not yet arrived. */
  ghost predicate Before<V>(states: seq<State<V>>, n: nat, a: CallId, b: CallId)
    requires n < |states|
  {
    exists moment :: 0 <= moment <= n && ReturnedBy(states[moment], a) && b !in states[moment].threads
  }

  ghost predicate ReturnedBy<V>(s: State<V>, c: CallId) { c in s.threads && s.threads[c].Finished() }

  /** The event answers the call as its caller saw it answered. */
  ghost predicate Answers<V>(event: Event<V>, c: CallId, t: Thread<V>) {
    event.call == c && Point(event.request) == t.job && t.pc == Done(event.reply)
  }

  lemma {:induction false} ReturnedIsAnswered<V>(merge: (V, V) -> V, states: seq<State<V>>, actions: seq<Action<V>>,
      n: nat, log: seq<Event<V>>, c: CallId)
    requires IsRun(merge, states, actions) && n <= |actions| && Explains(merge, states, actions, n, log)
    requires c in states[n].threads && states[n].threads[c].pc.Done?
    ensures exists i :: 0 <= i < |log| && Answers(log[i], c, states[n].threads[c])
  {
    var i := ReturnedIsLogged(states[n], log, c);
    RunGrows(merge, states, actions, log[i].step, n);
    assert Answers(log[i], c, states[n].threads[c]);
  }

  /**
   An order of atomic calls on a plain map that explains the first n steps of an execution:
   - running the order on the plain map gives each call the reply it has in the order;
   - every call that has returned is in it with the request it made and the reply it got, and no
     call is in it twice;
   - each call takes effect at one of its own steps, after it arrived and before it returned;
   - a call that returned before another arrived precedes it.
   */
  ghost predicate LinearOrder<V>(merge: (V, V) -> V, states: seq<State<V>>, actions: seq<Action<V>>, n: nat,
      log: seq<Event<V>>)
    requires |states| == |actions| + 1 && n <= |actions|
  {
    && (forall i :: 0 <= i < |log| ==> log[i].reply == ReplyAt(merge, Requests(log), i))
    && (forall c :: c in states[n].threads && states[n].threads[c].pc.Done? ==>
          exists i :: 0 <= i < |log| && Answers(log[i], c, states[n].threads[c]))
    && (forall i, j :: 0 <= i < j < |log| ==> log[i].call != log[j].call)
    && Timely(states, actions, n, log)
    && (forall i, j :: 0 <= i < |log| && 0 <= j < |log| && Before(states, n, log[i].call, log[j].call) ==> i < j)
  }

  lemma {:induction false} ExplanationIsLinear<V>(merge: (V, V) -> V, states: seq<State<V>>,
      actions: seq<Action<V>>, n: nat, log: seq<Event<V>>)
    requires IsRun(merge, states, actions) && n <= |actions| && Explains(merge, states, actions, n, log)
    ensures LinearOrder(merge, states, actions, n, log)
  {
    forall c | c in states[n].threads && states[n].threads[c].pc.Done?
      ensures exists i :: 0 <= i < |log| && Answers(log[i], c, states[n].threads[c])
    {
      ReturnedIsAnswered(merge, states, actions, n, log, c);
    }
    forall i: nat, j: nat | i < |log| && j < |log| && Before(states, n, log[i].call, log[j].call) ensures i < j {
      var moment: nat :|
        moment <= n && ReturnedBy(states[moment], log[i].call) && log[j].call !in states[moment].threads;
      OrderRespectsTime(merge, states, actions, n, log, moment, i, j);
    }
  }

  /** Linearizability: every execution of the lock-level store, with any number of calls at once, has such an order. */
  lemma {:induction false} Linearizable<V>(merge: (V, V) -> V, states: seq<State<V>>, actions: seq<Action<V>>, n: nat)
    requires IsRun(merge, states, actions) && n <= |actions|
    ensures exists log :: LinearOrder(merge, states, actions, n, log)
  {
    var log := RunExplained(merge, states, actions, n);
    ExplanationIsLinear(merge, states, actions, n, log);
  }

  /**
   The guarantee a compare-and-set client relies on, for every interleaving: of all calls that ever
   guard a key with the same version, or that ever ask to create it, at most one succeeds.
   */
  lemma {:induction false} GuardWinsOnceConcurrently<V>(merge: (V, V) -> V, states: seq<State<V>>,
      actions: seq<Action<V>>, n: nat, a: CallId, b: CallId)
    requires IsRun(merge, states, actions) && n <= |actions| && a != b
    requires a in states[n].threads && b in states[n].threads
    requires states[n].threads[a].Writes() && states[n].threads[b].Writes()
    requires states[n].threads[a].pc.Done? && states[n].threads[b].pc.Done?
    requires var p, q := states[n].threads[a].job.call.op, states[n].threads[b].job.call.op;
             && p.key == q.key && p.ifVersion == q.ifVersion && p.ifAbsent == q.ifAbsent
             && (p.ifVersion.Some? || p.ifAbsent)
    requires states[n].threads[a].pc.answer.Wrote? && states[n].threads[a].pc.answer.reply.Written?
    ensures states[n].threads[b].pc.answer.Wrote? ==> !states[n].threads[b].pc.answer.reply.Written?
  {
    var log := RunExplained(merge, states, actions, n);
    var i := ReturnedIsLogged(states[n], log, a);
    var j := ReturnedIsLogged(states[n], log, b);
    RunGrows(merge, states, actions, log[i].step, n);
    RunGrows(merge, states, actions, log[j].step, n);
    var calls := Requests(log);
    assert calls[i] == states[n].threads[a].job.call && ReplyAt(merge, calls, i) == states[n].threads[a].pc.answer;
    assert calls[j] == states[n].threads[b].job.call && ReplyAt(merge, calls, j) == states[n].threads[b].pc.answer;
    SameGuardExcludes(merge, calls, i, j);
  }

  lemma {:induction false} SameGuardExcludes<V>(merge: (V, V) -> V, calls: seq<Call<V>>, i: nat, j: nat)
    requires i < |calls| && j < |calls| && i != j && calls[i].WriteCall? && calls[j].WriteCall?
    requires var p, q := calls[i].op, calls[j].op;
             && p.key == q.key && p.ifVersion == q.ifVersion && p.ifAbsent == q.ifAbsent
             && (p.ifVersion.Some? || p.ifAbsent)
    ensures var r, t := ReplyAt(merge, calls, i), ReplyAt(merge, calls, j);
            r.Wrote? && t.Wrote? && !(r.reply.Written? && t.reply.Written?)
  {
    GuardWinsOnce(merge, calls, if i < j then i else j, if i < j then j else i, calls[i].op.key);
  }

  /** The key's committed version is its number of accepted writes, whose replies were 1, 2, 3 and so on. */
  ghost predicate CountsWrites<V>(s: State<V>, k: Key, accepted: seq<nat>) {
    && |s.parts| > 0
    && (s.Present(k) <==> accepted != [])
    && (s.Present(k) ==> s.Pointer(k) < |s.cells| && Committed(s, s.Pointer(k)).version == |accepted|)
    && forall i :: 0 <= i < |accepted| ==> accepted[i] == i + 1
  }

  /** Under concurrency too, what the store holds for a key counts the writes to it that have been accepted. */
  lemma {:induction false} StoredVersionCountsWrites<V>(merge: (V, V) -> V, states: seq<State<V>>,
      actions: seq<Action<V>>, n: nat, k: Key)
    requires IsRun(merge, states, actions) && n <= |actions|
    ensures exists log :: LinearOrder(merge, states, actions, n, log)
              && CountsWrites(states[n], k, AcceptedVersions(merge, Requests(log), k))
  {
    var log := RunExplained(merge, states, actions, n);
    ExplanationIsLinear(merge, states, actions, n, log);
    AgreedVersionCounts(merge, states[n], Requests(log), k);
  }

  lemma {:induction false} AgreedVersionCounts<V>(merge: (V, V) -> V, s: State<V>, calls: seq<Call<V>>, k: Key)
    requires |s.parts| > 0 && TablesOk(s) && Agrees(s, After(merge, calls))
    ensures CountsWrites(s, k, AcceptedVersions(merge, calls, k))
  {
    assert SlotAgrees(s, After(merge, calls), k);
    VersionsAreConsecutive(merge, calls, k);
  }

  /** A write that returned with success has its key in the store, and one without a guard always succeeds. */
  lemma {:induction false} AcknowledgedIsPresent<V>(merge: (V, V) -> V, states: seq<State<V>>,
      actions: seq<Action<V>>, n: nat, c: CallId)
    requires IsRun(merge, states, actions) && n <= |actions| && c in states[n].threads
    requires states[n].threads[c].Writes() && states[n].threads[c].pc.Done?
    ensures |states[n].parts| > 0
    ensures var op, answer := states[n].threads[c].job.call.op, states[n].threads[c].pc.answer;
            && answer.Wrote?
            && (op.ifVersion.None? && !op.ifAbsent ==> answer.reply.Written?)
            && (answer.reply.Written? ==> states[n].Present(op.key))
  {
    var log := RunExplained(merge, states, actions, n);
    var i := ReturnedIsLogged(states[n], log, c);
    RunGrows(merge, states, actions, log[i].step, n);
    var calls, k := Requests(log), states[n].threads[c].job.call.op.key;
    assert calls[i] == states[n].threads[c].job.call && ReplyAt(merge, calls, i) == states[n].threads[c].pc.answer;
    WriteAnswered(merge, calls, i);
    AgreedPresence(states[n], After(merge, calls), k);
  }

  lemma {:induction false} AgreedPresence<V>(s: State<V>, m: Kv<V>, k: Key)
    requires |s.parts| > 0 && TablesOk(s) && Agrees(s, m)
    ensures s.Present(k) <==> k in m
  {
    assert SlotAgrees(s, m, k);
  }

  /** A write without a guard succeeds, and the key of a write that succeeded is there from then on. */
  lemma {:induction false} WriteAnswered<V>(merge: (V, V) -> V, calls: seq<Call<V>>, i: nat)
    requires i < |calls| && calls[i].WriteCall?
    ensures var op, answer := calls[i].op, ReplyAt(merge, calls, i);
            && answer.Wrote?
            && (op.ifVersion.None? && !op.ifAbsent ==> answer.reply.Written?)
            && (answer.reply.Written? ==> op.key in After(merge, calls))
  {
    var k := calls[i].op.key;
    if AcceptedAt(merge, calls, i, k) {
      AcceptedBumps(merge, calls, i, k);
      VersionGrows(merge, calls, i + 1, k);
    }
  }

  /** The calls of an order with their replies, as their callers saw them. */
  function SeenIn<V>(log: seq<Event<V>>): (seen: seq<H.Exchange<V>>)
    ensures |seen| == |log| && forall i :: 0 <= i < |log| ==> seen[i] == H.Exchange(log[i].request, log[i].reply)
  {
    seq(|log|, i requires 0 <= i < |log| => H.Exchange(log[i].request, log[i].reply))
  }

  lemma {:induction false} LegalIsRight<V>(merge: (V, V) -> V, log: seq<Event<V>>)
    requires Legal(merge, log)
    ensures H.AllRight(merge, SeenIn(log))
  {
    assert H.CallsOf(SeenIn(log)) == Requests(log);
    H.MapIsRight(merge, SeenIn(log));
  }

  /**
   The concurrent store by its replies alone. Every execution has an order of its calls, as above, in which
   a Get is answered with what the last accepted write to its key handed out, a write is accepted exactly
   when its guard fits that, and a refusal says why.
   */
  lemma {:induction false} RepliesFollowGuards<V>(merge: (V, V) -> V, states: seq<State<V>>,
      actions: seq<Action<V>>, n: nat)
    requires IsRun(merge, states, actions) && n <= |actions|
    ensures exists log :: LinearOrder(merge, states, actions, n, log) && H.AllRight(merge, SeenIn(log))
  {
    var log := RunExplained(merge, states, actions, n);
    ExplanationIsLinear(merge, states, actions, n, log);
    LegalIsRight(merge, log);
  }
}
