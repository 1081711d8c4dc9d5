/** What every step of the concurrent store keeps, and why no call can be stuck or run on. */
module StoreInvariant {
  import opened Prelude
  import opened AtomicMap
  import opened StoreProtocol

  // ---------------------------------------------------------------- who holds which lock

  ghost predicate HoldsTableRead<V>(s: State<V>, c: CallId, i: nat)
    requires |s.parts| > 0
  {
    && c in s.threads
    && var t := s.threads[c];
       || (t.job.Point? && (t.pc.InTable? || t.pc.Sought?) && s.Home(t.job.call.Target()) == i)
       || ((t.pc.Copying? || t.pc.Copied?) && t.pc.i == i)
  }

  ghost predicate HoldsTableWrite<V>(s: State<V>, c: CallId, i: nat)
    requires |s.parts| > 0
  {
    && c in s.threads
    && var t := s.threads[c];
       t.job.Point? && (t.pc.Creating? || t.pc.LeavingTable?) && s.Home(t.job.call.Target()) == i
  }

  ghost predicate HoldsEntryRead<V>(s: State<V>, c: CallId, e: nat) {
    && c in s.threads
    && var t := s.threads[c];
       t.Gets() && (t.pc.Reading? || t.pc.HalfRead? || t.pc.LeavingEntry?) && t.pc.e == e
  }

  ghost predicate HoldsEntryWrite<V>(s: State<V>, c: CallId, e: nat) {
    && c in s.threads
    && var t := s.threads[c];
       t.Writes() && (t.pc.Deciding? || t.pc.Installed? || t.pc.LeavingEntry?) && t.pc.e == e
  }

  /** The lock of table i is held by exactly the calls whose position says so, never by both kinds. */
  ghost predicate TableLockOk<V>(s: State<V>, i: nat)
    requires i < |s.parts|
  {
    var lock := s.parts[i].lock;
    && (forall c: CallId :: c in lock.readers <==> HoldsTableRead(s, c, i))
    && (forall c: CallId :: lock.writer == Some(c) <==> HoldsTableWrite(s, c, i))
    && (lock.writer.Some? ==> lock.readers == {})
  }

  ghost predicate EntryLockOk<V>(s: State<V>, e: nat)
    requires e < |s.cells|
  {
    var lock := s.cells[e].lock;
    && (forall c: CallId :: c in lock.readers <==> HoldsEntryRead(s, c, e))
    && (forall c: CallId :: lock.writer == Some(c) <==> HoldsEntryWrite(s, c, e))
    && (lock.writer.Some? ==> lock.readers == {})
  }

  // ---------------------------------------------------------------- the invariant

  /** A key is only ever in the table its hash names, and entries in tables exist. */
  ghost predicate TablesOk<V>(s: State<V>)
    requires |s.parts| > 0
  {
    forall i, k :: 0 <= i < |s.parts| && k in s.parts[i].table ==>
      s.Home(k) == i && s.parts[i].table[k] < |s.cells|
  }

  /** The entry pointer e is the one the table has for k. */
  ghost predicate Current<V>(s: State<V>, k: Key, e: nat)
    requires |s.parts| > 0
  {
    s.Present(k) && s.Pointer(k) == e
  }

  ghost predicate HasKey<V>(s: State<V>, e: nat)
    requires |s.parts| > 0
  {
    exists k :: Current(s, k, e)
  }

  /** Different keys have different entries, and every entry ever made belongs to some key. */
  ghost predicate EntriesMatchKeys<V>(s: State<V>)
    requires |s.parts| > 0
  {
    && (forall j, k, e :: Current(s, j, e) && Current(s, k, e) ==> j == k)
    && (forall e :: 0 <= e < |s.cells| ==> HasKey(s, e))
  }

  ghost predicate ThreadOk<V>(s: State<V>, t: Thread<V>)
  {
    && Sensible(s, t)
    && (t.job.Point? ==>
          var k := t.job.call.Target();
          && (EntryPc(t.pc) ==> Current(s, k, t.pc.e))
          && (t.pc.Sought? && t.pc.found.Some? ==> Current(s, k, t.pc.found.value))
          && (t.pc.HalfRead? ==> s.cells[t.pc.e].value == t.pc.value)
          && (t.Writes() && t.job.call.op.ifAbsent && t.job.call.op.ifVersion.Some? ==> t.pc.Start? || t.pc.Done?)
          && t.lookups <= 2
          && (t.pc.Start? ==> t.lookups == 0)
          && (t.pc.Seek? || t.pc.InTable? ==> t.lookups == 0 || (t.lookups == 1 && t.Writes() && s.Present(k)))
          && (t.pc.Sought? ==> t.lookups == 1 || (t.lookups == 2 && t.pc.found.Some?))
          && (t.pc.AtCreate? || t.pc.Creating? || t.pc.LeavingTable? ==> t.lookups == 1)
          && (t.pc.LeavingTable? && t.pc.verdict.None? ==> s.Present(k)))
  }

  ghost predicate Inv<V>(s: State<V>) {
    && |s.parts| > 0
    && TablesOk(s)
    && EntriesMatchKeys(s)
    && (forall i :: 0 <= i < |s.parts| ==> TableLockOk(s, i))
    && (forall e :: 0 <= e < |s.cells| ==> EntryLockOk(s, e))
    && (forall c :: c in s.threads ==> ThreadOk(s, s.threads[c]))
  }

  /** Nothing that exists is ever taken away: this is what a DELETE would break. */
  ghost predicate Grows<V>(s: State<V>, s': State<V>) {
    && |s'.parts| == |s.parts| > 0
    && |s.cells| <= |s'.cells|
    && (forall k :: s.Present(k) ==> Current(s', k, s.Pointer(k)))
    && (forall c :: c in s.threads ==> c in s'.threads && s'.threads[c].job == s.threads[c].job)
  }

  // ---------------------------------------------------------------- one step

  /** What one step of call c can do to one lock, given what c held of it before and holds after. */
  ghost predicate LockMove(l: RwLock, l': RwLock, c: CallId, hadRead: bool, hasRead: bool, hadWrite: bool,
      hasWrite: bool) {
    || (l' == l && hasRead == hadRead && hasWrite == hadWrite)
    || (l' == l.RLock(c) && l.MayRead() && hasRead && !hadWrite && !hasWrite)
    || (l' == l.RUnlock(c) && !hasRead && hasWrite == hadWrite)
    || (l' == l.Lock(c) && l.MayWrite() && !hadRead && !hasRead && hasWrite)
    || (l' == l.Unlock() && hadWrite && !hasWrite && hasRead == hadRead)
  }

  /** Call c holds a table's write lock and is about to add its missing key. */
  ghost predicate Inserts<V>(s: State<V>, c: CallId)
  {
    && c in s.threads
    && var t := s.threads[c];
       && Sensible(s, t) && t.pc.Creating?
       && !s.Present(t.job.call.op.key) && t.job.call.op.ifVersion.None?
  }

  /**
   Everything a step of call c may do to the shared state: move one lock by the rules, change an
   entry whose write lock it holds, or insert one new entry under its key.
   */
  ghost predicate Effect<V>(s: State<V>, s': State<V>, c: CallId) {
    && |s'.parts| == |s.parts| > 0
    && c in s.threads
    && s'.threads.Keys == s.threads.Keys
    && s'.threads[c].job == s.threads[c].job
    && s.threads[c].yielded <= s'.threads[c].yielded
    && (forall d :: d in s.threads && d != c ==> s'.threads[d] == s.threads[d])
    && |s'.cells| == |s.cells| + (if Inserts(s, c) then 1 else 0)
    && (forall i :: 0 <= i < |s.parts| ==> TableEffect(s, s', c, i))
    && (forall e :: 0 <= e < |s.cells| ==> EntryEffect(s, s', c, e))
    && (Inserts(s, c) ==> s'.cells[|s.cells|] == Cell(UNLOCKED, s.threads[c].job.call.op.body, FIRST_VERSION))
  }

  ghost predicate TableEffect<V>(s: State<V>, s': State<V>, c: CallId, i: nat)
    requires i < |s.parts| == |s'.parts|
  {
    && LockMove(s.parts[i].lock, s'.parts[i].lock, c,
                HoldsTableRead(s, c, i), HoldsTableRead(s', c, i),
                HoldsTableWrite(s, c, i), HoldsTableWrite(s', c, i))
    && s'.parts[i].table ==
         if Inserts(s, c) && i == s.Home(s.threads[c].job.call.op.key)
         then s.parts[i].table[s.threads[c].job.call.op.key := |s.cells|]
         else s.parts[i].table
  }

  ghost predicate EntryEffect<V>(s: State<V>, s': State<V>, c: CallId, e: nat)
    requires e < |s.cells| <= |s'.cells|
  {
    && LockMove(s.cells[e].lock, s'.cells[e].lock, c,
                HoldsEntryRead(s, c, e), HoldsEntryRead(s', c, e),
                HoldsEntryWrite(s, c, e), HoldsEntryWrite(s', c, e))
    && (HoldsEntryWrite(s, c, e)
        || (s'.cells[e].value == s.cells[e].value && s'.cells[e].version == s.cells[e].version))
  }

  lemma {:induction false} SeekTableEffect<V>(s: State<V>, c: CallId, i: nat)
    requires Ready(s, c) && SeekPc(s.threads[c].pc) && i < |s.parts|
    ensures |FireSeek(s, c).parts| == |s.parts| && TableEffect(s, FireSeek(s, c), c, i)
  {
  }

  lemma {:induction false} SeekEffect<V>(s: State<V>, c: CallId)
    requires Ready(s, c) && SeekPc(s.threads[c].pc)
    ensures Effect(s, FireSeek(s, c), c)
  {
    var s' := FireSeek(s, c);
    assert s'.cells == s.cells && !Inserts(s, c);
    forall i: nat | i < |s.parts| ensures |s'.parts| == |s.parts| && TableEffect(s, s', c, i) {
      SeekTableEffect(s, c, i);
    }
    forall e: nat | e < |s.cells| ensures EntryEffect(s, s', c, e) {
      assert !HoldsEntryRead(s', c, e) && !HoldsEntryWrite(s', c, e);
    }
  }

  lemma {:induction false} EntryStepAt<V>(merge: (V, V) -> V, s: State<V>, c: CallId, e: nat)
    requires Ready(s, c) && EntryPc(s.threads[c].pc) && e < |s.cells|
    ensures |FireEntry(merge, s, c).cells| == |s.cells| && EntryEffect(s, FireEntry(merge, s, c), c, e)
  {
  }

  lemma {:induction false} EntryStepEffect<V>(merge: (V, V) -> V, s: State<V>, c: CallId)
    requires Ready(s, c) && EntryPc(s.threads[c].pc)
    ensures Effect(s, FireEntry(merge, s, c), c)
  {
    var s' := FireEntry(merge, s, c);
    assert s'.parts == s.parts && !Inserts(s, c);
    forall e: nat | e < |s.cells| ensures |s'.cells| == |s.cells| && EntryEffect(s, s', c, e) {
      EntryStepAt(merge, s, c, e);
    }
    forall i: nat | i < |s.parts| ensures TableEffect(s, s', c, i) {
      assert !HoldsTableRead(s', c, i) && !HoldsTableWrite(s', c, i);
    }
  }

  lemma {:induction false} CreateEffect<V>(s: State<V>, c: CallId)
    requires Ready(s, c) && CreatePc(s.threads[c].pc)
    ensures Effect(s, FireCreate(s, c), c)
  {
    var s' := FireCreate(s, c);
    forall e: nat | e < |s.cells| ensures e < |s'.cells| && EntryEffect(s, s', c, e) {
      assert s'.cells[e] == s.cells[e];
    }
    forall i: nat | i < |s.parts| ensures |s'.parts| == |s.parts| && TableEffect(s, s', c, i) {
      CreateTableEffect(s, c, i);
    }
  }

  lemma {:induction false} CreateTableEffect<V>(s: State<V>, c: CallId, i: nat)
    requires Ready(s, c) && CreatePc(s.threads[c].pc) && i < |s.parts|
    ensures |FireCreate(s, c).parts| == |s.parts| && TableEffect(s, FireCreate(s, c), c, i)
  {
  }

  lemma {:induction false} KeysEffect<V>(s: State<V>, c: CallId, pick: Pick)
    requires Ready(s, c) && s.threads[c].job.ListKeys? && !s.threads[c].Finished()
    ensures Effect(s, FireKeys(s, c, pick), c)
  {
  }

  lemma {:induction false} FireEffect<V>(merge: (V, V) -> V, s: State<V>, c: CallId, pick: Pick)
    requires Enabled(s, c, pick)
    ensures Effect(s, Fire(merge, s, c, pick), c)
  {
    var t := s.threads[c];
    if t.job.ListKeys? {
      KeysEffect(s, c, pick);
    } else if SeekPc(t.pc) {
      SeekEffect(s, c);
    } else if EntryPc(t.pc) {
      EntryStepEffect(merge, s, c);
    } else {
      CreateEffect(s, c);
    }
  }

  /** Where each key's entry is after a step. */
  lemma {:induction false} CurrentAfter<V>(s: State<V>, s': State<V>, c: CallId, k: Key, e: nat)
    requires Effect(s, s', c)
    ensures s'.Home(k) == s.Home(k)
    ensures Current(s', k, e) <==>
            if Inserts(s, c) && k == s.threads[c].job.call.op.key then e == |s.cells| else Current(s, k, e)
  {
    assert TableEffect(s, s', c, s.Home(k));
  }

  lemma {:induction false} EffectGrows<V>(s: State<V>, s': State<V>, c: CallId)
    requires Effect(s, s', c)
    ensures Grows(s, s')
  {
    forall k | s.Present(k) ensures Current(s', k, s.Pointer(k)) {
      CurrentAfter(s, s', c, k, s.Pointer(k));
    }
  }

  lemma {:induction false} EffectKeepsTables<V>(s: State<V>, s': State<V>, c: CallId)
    requires Effect(s, s', c) && TablesOk(s) && EntriesMatchKeys(s)
    ensures TablesOk(s') && EntriesMatchKeys(s')
  {
    forall i, k | 0 <= i < |s'.parts| && k in s'.parts[i].table
      ensures s'.Home(k) == i && s'.parts[i].table[k] < |s'.cells|
    {
      assert TableEffect(s, s', c, i);
      CurrentAfter(s, s', c, k, 0);
    }
    forall j, k, e: nat | Current(s', j, e) && Current(s', k, e) ensures j == k {
      CurrentAfter(s, s', c, j, e);
      CurrentAfter(s, s', c, k, e);
    }
    forall e: nat | e < |s'.cells| ensures HasKey(s', e) {
      if e < |s.cells| {
        assert HasKey(s, e);
        var k :| Current(s, k, e);
        CurrentAfter(s, s', c, k, e);
      } else {
        CurrentAfter(s, s', c, s.threads[c].job.call.op.key, e);
      }
    }
  }

  lemma {:induction false} EffectKeepsTableLock<V>(s: State<V>, s': State<V>, c: CallId, i: nat)
    requires Effect(s, s', c) && i < |s.parts| && TableLockOk(s, i)
    ensures TableLockOk(s', i)
  {
    assert TableEffect(s, s', c, i);
    var lock' := s'.parts[i].lock;
    forall d: CallId
      ensures d in lock'.readers <==> HoldsTableRead(s', d, i)
      ensures lock'.writer == Some(d) <==> HoldsTableWrite(s', d, i)
    {
      if d != c {
        assert HoldsTableRead(s', d, i) <==> HoldsTableRead(s, d, i);
        assert HoldsTableWrite(s', d, i) <==> HoldsTableWrite(s, d, i);
      }
    }
  }

  lemma {:induction false} EffectKeepsEntryLock<V>(s: State<V>, s': State<V>, c: CallId, e: nat)
    requires Effect(s, s', c) && e < |s.cells| && EntryLockOk(s, e)
    ensures EntryLockOk(s', e)
  {
    assert EntryEffect(s, s', c, e);
    var lock' := s'.cells[e].lock;
    forall d: CallId
      ensures d in lock'.readers <==> HoldsEntryRead(s', d, e)
      ensures lock'.writer == Some(d) <==> HoldsEntryWrite(s', d, e)
    {
      if d != c {
        assert HoldsEntryRead(s', d, e) <==> HoldsEntryRead(s, d, e);
        assert HoldsEntryWrite(s', d, e) <==> HoldsEntryWrite(s, d, e);
      }
    }
  }

  lemma {:induction false} NewEntryUnlocked<V>(s: State<V>, s': State<V>, c: CallId)
    requires Inv(s) && Effect(s, s', c) && Inserts(s, c) && s'.threads[c].pc.LeavingTable?
    ensures EntryLockOk(s', |s.cells|)
  {
  }

  lemma {:induction false} SeekKeepsThread<V>(s: State<V>, c: CallId)
    requires Ready(s, c) && ThreadOk(s, s.threads[c]) && SeekPc(s.threads[c].pc) && TablesOk(s)
    requires Grows(s, FireSeek(s, c))
    ensures ThreadOk(FireSeek(s, c), FireSeek(s, c).threads[c])
  {
  }

  lemma {:induction false} EntryKeepsPointer<V>(merge: (V, V) -> V, s: State<V>, c: CallId)
    requires Ready(s, c) && EntryPc(s.threads[c].pc)
    ensures var t, s' := s.threads[c], FireEntry(merge, s, c);
            var t' := s'.threads[c];
            && Sensible(s', t') && t'.job == t.job && t'.lookups == t.lookups
            && (t'.pc.Done? || (EntryPc(t'.pc) && t'.pc.e == t.pc.e))
            && (t'.pc.HalfRead? ==> s'.cells[t'.pc.e].value == t'.pc.value)
  {
  }

  lemma {:induction false} EntryKeepsThread<V>(merge: (V, V) -> V, s: State<V>, c: CallId)
    requires Ready(s, c) && ThreadOk(s, s.threads[c]) && EntryPc(s.threads[c].pc)
    requires Grows(s, FireEntry(merge, s, c))
    ensures ThreadOk(FireEntry(merge, s, c), FireEntry(merge, s, c).threads[c])
  {
    EntryKeepsPointer(merge, s, c);
    var t, s' := s.threads[c], FireEntry(merge, s, c);
    assert Current(s', t.job.call.Target(), t.pc.e);
  }

  lemma {:induction false} CreateKeepsThread<V>(s: State<V>, c: CallId)
    requires Ready(s, c) && ThreadOk(s, s.threads[c]) && CreatePc(s.threads[c].pc)
    requires Grows(s, FireCreate(s, c))
    ensures ThreadOk(FireCreate(s, c), FireCreate(s, c).threads[c])
    ensures Inserts(s, c) ==> FireCreate(s, c).threads[c].pc.LeavingTable?
  {
  }

  lemma {:induction false} KeysKeepsThread<V>(s: State<V>, c: CallId, pick: Pick)
    requires Ready(s, c) && ThreadOk(s, s.threads[c])
    requires s.threads[c].job.ListKeys? && !s.threads[c].Finished()
    ensures ThreadOk(FireKeys(s, c, pick), FireKeys(s, c, pick).threads[c])
  {
  }

  lemma {:induction false} FireKeepsOwnThread<V>(merge: (V, V) -> V, s: State<V>, c: CallId, pick: Pick)
    requires Inv(s) && Enabled(s, c, pick) && Grows(s, Fire(merge, s, c, pick))
    ensures ThreadOk(Fire(merge, s, c, pick), Fire(merge, s, c, pick).threads[c])
    ensures Inserts(s, c) ==> Fire(merge, s, c, pick).threads[c].pc.LeavingTable?
  {
    var t := s.threads[c];
    assert ThreadOk(s, t);
    if t.job.ListKeys? {
      KeysKeepsThread(s, c, pick);
    } else if SeekPc(t.pc) {
      SeekKeepsThread(s, c);
    } else if EntryPc(t.pc) {
      EntryKeepsThread(merge, s, c);
    } else {
      CreateKeepsThread(s, c);
    }
  }

  /** A call's own knowledge survives the steps of every other call. */
  lemma {:induction false} EffectKeepsOtherThread<V>(s: State<V>, s': State<V>, c: CallId, d: CallId)
    requires Effect(s, s', c) && Grows(s, s') && d in s.threads && d != c
    requires ThreadOk(s, s.threads[d])
    requires EntryPc(s.threads[d].pc) ==> EntryLockOk(s, s.threads[d].pc.e)
    ensures ThreadOk(s', s.threads[d])
  {
    var t := s.threads[d];
    if t.pc.HalfRead? {
      assert EntryEffect(s, s', c, t.pc.e);
      assert HoldsEntryRead(s, d, t.pc.e);
    }
  }

  lemma {:induction false} FireKeepsInv<V>(merge: (V, V) -> V, s: State<V>, c: CallId, pick: Pick)
    requires Inv(s) && Enabled(s, c, pick)
    ensures Inv(Fire(merge, s, c, pick))
  {
    var s' := Fire(merge, s, c, pick);
    FireEffect(merge, s, c, pick);
    EffectGrows(s, s', c);
    EffectKeepsTables(s, s', c);
    FireKeepsOwnThread(merge, s, c, pick);
    forall i: nat | i < |s'.parts| ensures TableLockOk(s', i) {
      EffectKeepsTableLock(s, s', c, i);
    }
    forall e: nat | e < |s'.cells| ensures EntryLockOk(s', e) {
      if e < |s.cells| {
        EffectKeepsEntryLock(s, s', c, e);
      } else {
        NewEntryUnlocked(s, s', c);
      }
    }
    forall d | d in s'.threads && d != c ensures ThreadOk(s', s'.threads[d]) {
      EffectKeepsOtherThread(s, s', c, d);
    }
  }

  lemma {:induction false} InvokeKeepsInv<V>(s: State<V>, c: CallId, job: Job<V>)
    requires Inv(s) && c !in s.threads
    ensures Inv(Invoke(s, c, job))
  {
    var s' := Invoke(s, c, job);
    forall i: nat | i < |s'.parts| ensures TableLockOk(s', i) {
      assert TableLockOk(s, i);
      forall d: CallId
        ensures HoldsTableRead(s', d, i) <==> HoldsTableRead(s, d, i)
        ensures HoldsTableWrite(s', d, i) <==> HoldsTableWrite(s, d, i)
      {
      }
    }
    forall e: nat | e < |s'.cells| ensures EntryLockOk(s', e) {
      assert EntryLockOk(s, e);
      forall d: CallId
        ensures HoldsEntryRead(s', d, e) <==> HoldsEntryRead(s, d, e)
        ensures HoldsEntryWrite(s', d, e) <==> HoldsEntryWrite(s, d, e)
      {
      }
    }
    forall k: Key ensures s'.Home(k) == s.Home(k) {}
    forall k, e: nat ensures Current(s', k, e) <==> Current(s, k, e) {}
    forall e: nat | e < |s'.cells| ensures HasKey(s', e) {
      assert HasKey(s, e);
    }
    forall d | d in s.threads ensures ThreadOk(s', s.threads[d]) {
      assert ThreadOk(s, s.threads[d]);
    }
  }

  lemma {:induction false} InitialInv<V>(s: State<V>)
    requires Initial(s)
    ensures Inv(s)
  {
  }

  /** Every state of every execution satisfies the invariant. */
  lemma {:induction false} RunKeepsInv<V>(merge: (V, V) -> V, states: seq<State<V>>, actions: seq<Action<V>>, n: nat)
    requires IsRun(merge, states, actions) && n < |states|
    ensures Inv(states[n])
  {
    if n == 0 {
      InitialInv(states[0]);
    } else {
      RunKeepsInv(merge, states, actions, n - 1);
      match actions[n - 1]
      case Arrive(c, job) => InvokeKeepsInv(states[n - 1], c, job);
      case Move(c, pick) => FireKeepsInv(merge, states[n - 1], c, pick);
    }
  }

  /** The whole state only ever grows, in every execution. */
  lemma {:induction false} RunGrows<V>(merge: (V, V) -> V, states: seq<State<V>>, actions: seq<Action<V>>, m: nat,
      n: nat)
    requires IsRun(merge, states, actions) && m <= n < |states|
    ensures Grows(states[m], states[n])
    decreases n
  {
    if m == n {
      RunKeepsInv(merge, states, actions, n);
    } else {
      RunGrows(merge, states, actions, m, n - 1);
      StepGrows(merge, states[n - 1], actions[n - 1]);
      GrowsOn(states[m], states[n - 1], states[n]);
    }
  }

  lemma {:induction false} GrowsOn<V>(r: State<V>, s: State<V>, t: State<V>)
    requires Grows(r, s) && Grows(s, t)
    ensures Grows(r, t)
  {
  }

  lemma {:induction false} StepGrows<V>(merge: (V, V) -> V, s: State<V>, a: Action<V>)
    requires |s.parts| > 0 && Allowed(s, a)
    ensures Grows(s, Step(merge, s, a))
  {
    match a
    case Arrive(c, job) =>
      var s' := Invoke(s, c, job);
      forall k | s.Present(k) ensures Current(s', k, s.Pointer(k)) {}
    case Move(c, pick) =>
      FireEffect(merge, s, c, pick);
      EffectGrows(s, Fire(merge, s, c, pick), c);
  }

  /** A call that has returned takes no further part. */
  lemma {:induction false} FinishedKept<V>(merge: (V, V) -> V, s: State<V>, a: Action<V>, c: CallId)
    requires Allowed(s, a) && c in s.threads && s.threads[c].Finished()
    ensures var s' := Step(merge, s, a); c in s'.threads && s'.threads[c] == s.threads[c]
  {
  }

  lemma {:induction false} FinishedStays<V>(merge: (V, V) -> V, states: seq<State<V>>, actions: seq<Action<V>>,
      m: nat, n: nat, c: CallId)
    requires IsRun(merge, states, actions) && m <= n < |states|
    requires c in states[m].threads && states[m].threads[c].Finished()
    ensures c in states[n].threads && states[n].threads[c] == states[m].threads[c]
    decreases n
  {
    if m == n {
    } else {
      FinishedStays(merge, states, actions, m, n - 1, c);
      FinishedKept(merge, states[n - 1], actions[n - 1], c);
    }
  }

  // ---------------------------------------------------------------- what the invariant buys

  /** Call c is at a point where it asks for a lock. */
  ghost predicate Wants<V>(t: Thread<V>) { t.pc.Seek? || t.pc.AtEntry? || t.pc.AtCreate? || t.pc.Visiting? }

  ghost predicate InLock(l: RwLock, c: CallId) { c in l.readers || l.writer == Some(c) }

  /**
   In every reachable state: a pointer in a call's hand is the one in the table for its key; no call
   has read its table more than twice; and a call that asks for a lock has no other lock.
   */
  lemma {:induction false} EveryStateIsSafe<V>(merge: (V, V) -> V, states: seq<State<V>>, actions: seq<Action<V>>,
      n: nat, c: CallId)
    requires IsRun(merge, states, actions) && n < |states| && c in states[n].threads
    ensures var s := states[n];
            var t := s.threads[c];
            && |s.parts| > 0
            && (EntryPc(t.pc) ==> t.job.Point? && Current(s, t.job.call.Target(), t.pc.e))
            && (t.job.Point? ==> t.lookups <= 2)
            && (Wants(t) ==>
                  && (forall i :: 0 <= i < |s.parts| ==> !InLock(s.parts[i].lock, c))
                  && (forall e :: 0 <= e < |s.cells| ==> !InLock(s.cells[e].lock, c)))
  {
    var s := states[n];
    RunKeepsInv(merge, states, actions, n);
    assert ThreadOk(s, s.threads[c]);
    if Wants(s.threads[c]) {
      forall i: nat | i < |s.parts| ensures !InLock(s.parts[i].lock, c) {
        assert TableLockOk(s, i) && !HoldsTableRead(s, c, i) && !HoldsTableWrite(s, c, i);
      }
      forall e: nat | e < |s.cells| ensures !InLock(s.cells[e].lock, c) {
        assert EntryLockOk(s, e) && !HoldsEntryRead(s, c, e) && !HoldsEntryWrite(s, c, e);
      }
    }
  }

  /** While one call may change a table or an entry, no other call is inside it at all. */
  lemma {:induction false} NoRaces<V>(s: State<V>, c: CallId, d: CallId)
    requires Inv(s) && c != d
    ensures forall i :: 0 <= i < |s.parts| && HoldsTableWrite(s, c, i) ==>
              !HoldsTableRead(s, d, i) && !HoldsTableWrite(s, d, i)
    ensures forall e :: 0 <= e < |s.cells| && HoldsEntryWrite(s, c, e) ==>
              !HoldsEntryRead(s, d, e) && !HoldsEntryWrite(s, d, e)
  {
    forall i: nat | i < |s.parts| && HoldsTableWrite(s, c, i)
      ensures !HoldsTableRead(s, d, i) && !HoldsTableWrite(s, d, i)
    {
      assert TableLockOk(s, i);
    }
    forall e: nat | e < |s.cells| && HoldsEntryWrite(s, c, e)
      ensures !HoldsEntryRead(s, d, e) && !HoldsEntryWrite(s, d, e)
    {
      assert EntryLockOk(s, e);
    }
  }

  lemma {:induction false} Enumeration(keys: set<Key>) returns (order: seq<Key>)
    ensures Enumerates(order, keys)
  {
    if keys == {} {
      order := [];
    } else {
      var k :| k in keys;
      var rest := Enumeration(keys - {k});
      order := [k] + rest;
    }
  }

  /** A call that waits for no lock can move, and a listing can go on. */
  lemma {:induction false} UnblockedCanMove<V>(s: State<V>, c: CallId) returns (pick: Pick)
    requires Inv(s) && c in s.threads && !s.threads[c].Finished()
    requires ThreadOk(s, s.threads[c]) && !Waits(s, s.threads[c])
    ensures Enabled(s, c, pick) && pick.more
  {
    var t := s.threads[c];
    pick := Pick([], true);
    if t.pc.Copying? {
      var order := Enumeration(s.parts[t.pc.i].table.Keys);
      pick := Pick(order, true);
    }
  }

  /** A waiting call waits for a call that can move. */
  lemma {:induction false} WaitsForAHolder<V>(s: State<V>, c: CallId) returns (d: CallId)
    requires Inv(s) && c in s.threads && ThreadOk(s, s.threads[c]) && Waits(s, s.threads[c])
    ensures d in s.threads && !s.threads[d].Finished() && ThreadOk(s, s.threads[d]) && !Waits(s, s.threads[d])
  {
    var t := s.threads[c];
    if t.pc.AtEntry? {
      assert EntryLockOk(s, t.pc.e);
      var lock := s.cells[t.pc.e].lock;
      if lock.writer.Some? { d := lock.writer.value; } else { d :| d in lock.readers; }
      assert HoldsEntryRead(s, d, t.pc.e) || HoldsEntryWrite(s, d, t.pc.e);
    } else {
      var i := if t.pc.Visiting? then t.pc.i else s.Home(t.job.call.Target());
      assert TableLockOk(s, i);
      var lock := s.parts[i].lock;
      if lock.writer.Some? { d := lock.writer.value; } else { d :| d in lock.readers; }
      assert HoldsTableRead(s, d, i) || HoldsTableWrite(s, d, i);
    }
  }

  /** No deadlock: whenever some call is unfinished, some call can take a step. */
  lemma {:induction false} NeverStuck<V>(merge: (V, V) -> V, states: seq<State<V>>, actions: seq<Action<V>>, n: nat,
      c: CallId)
    returns (d: CallId, pick: Pick)
    requires IsRun(merge, states, actions) && n < |states|
    requires c in states[n].threads && !states[n].threads[c].Finished()
    ensures Allowed(states[n], Move(d, pick))
  {
    RunKeepsInv(merge, states, actions, n);
    var s := states[n];
    assert ThreadOk(s, s.threads[c]);
    d := c;
    if Waits(s, s.threads[c]) {
      d := WaitsForAHolder(s, c);
    }
    pick := UnblockedCanMove(s, d);
  }

  /** How many of its own steps a Get or a Write can still take. */
  function Rank<V>(t: Thread<V>): nat {
    match t.pc
    case Start => 14
    case Seek => if t.lookups == 0 then 13 else 7
    case InTable => if t.lookups == 0 then 12 else 6
    case Sought(_) => if t.lookups == 1 then 11 else 5
    case AtCreate => 10
    case Creating => 9
    case LeavingTable(_) => 8
    case AtEntry(_) => 4
    case Reading(_) => 3
    case Deciding(_) => 3
    case HalfRead(_, _) => 2
    case Installed(_) => 2
    case LeavingEntry(_, _) => 1
    case _ => 0
  }

  lemma {:induction false} SeekRankDrops<V>(s: State<V>, c: CallId)
    requires Ready(s, c) && SeekPc(s.threads[c].pc) && ThreadOk(s, s.threads[c])
    ensures Rank(FireSeek(s, c).threads[c]) < Rank(s.threads[c])
  {
  }

  lemma {:induction false} EntryRankDrops<V>(merge: (V, V) -> V, s: State<V>, c: CallId)
    requires Ready(s, c) && EntryPc(s.threads[c].pc)
    ensures Rank(FireEntry(merge, s, c).threads[c]) < Rank(s.threads[c])
  {
  }

  lemma {:induction false} CreateRankDrops<V>(s: State<V>, c: CallId)
    requires Ready(s, c) && CreatePc(s.threads[c].pc) && ThreadOk(s, s.threads[c])
    ensures Rank(FireCreate(s, c).threads[c]) < Rank(s.threads[c])
  {
  }

  lemma {:induction false} RankDrops<V>(merge: (V, V) -> V, s: State<V>, c: CallId, pick: Pick)
    requires Enabled(s, c, pick) && s.threads[c].job.Point? && ThreadOk(s, s.threads[c])
    ensures c in Fire(merge, s, c, pick).threads
    ensures Rank(Fire(merge, s, c, pick).threads[c]) < Rank(s.threads[c])
  {
    if SeekPc(s.threads[c].pc) {
      SeekRankDrops(s, c);
    } else if EntryPc(s.threads[c].pc) {
      EntryRankDrops(merge, s, c);
    } else {
      CreateRankDrops(s, c);
    }
  }

  /** How many of the first n steps were steps of call c. */
  function MovesOf<V>(actions: seq<Action<V>>, n: nat, c: CallId): nat
    requires n <= |actions|
  {
    if n == 0 then 0 else MovesOf(actions, n - 1, c) + if actions[n - 1].Move? && actions[n - 1].c == c then 1 else 0
  }

  /** A step of call c lowers its rank; a step of another call leaves it; and an absent call has taken none. */
  lemma {:induction false} RankStep<V>(merge: (V, V) -> V, s: State<V>, a: Action<V>, c: CallId)
    requires Inv(s) && Allowed(s, a)
    requires c in Step(merge, s, a).threads ==> Step(merge, s, a).threads[c].job.Point?
    ensures var s', own := Step(merge, s, a), a.Move? && a.c == c;
            && (c in s.threads ==> c in s'.threads && s.threads[c].job == s'.threads[c].job)
            && (c in s.threads ==> Rank(s'.threads[c]) + (if own then 1 else 0) <= Rank(s.threads[c]))
            && (c !in s.threads && c in s'.threads ==> Rank(s'.threads[c]) <= 14)
            && (own ==> c in s.threads)
  {
    if a.Move? {
      FireEffect(merge, s, a.c, a.pick);
      if a.c == c {
        assert ThreadOk(s, s.threads[c]);
        RankDrops(merge, s, c, a.pick);
      }
    }
  }

  /** Every Get and every Write is over after at most 14 steps of its own, whatever the others do. */
  lemma {:induction false} CallsAreShort<V>(merge: (V, V) -> V, states: seq<State<V>>, actions: seq<Action<V>>,
      n: nat, c: CallId)
    requires IsRun(merge, states, actions) && n < |states|
    requires c in states[n].threads ==> states[n].threads[c].job.Point?
    ensures c in states[n].threads ==> MovesOf(actions, n, c) + Rank(states[n].threads[c]) <= 14
    ensures c !in states[n].threads ==> MovesOf(actions, n, c) == 0
  {
    if n == 0 {
    } else {
      RunKeepsInv(merge, states, actions, n - 1);
      RankStep(merge, states[n - 1], actions[n - 1], c);
      CallsAreShort(merge, states, actions, n - 1, c);
    }
  }
}
