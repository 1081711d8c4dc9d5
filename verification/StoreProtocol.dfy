/**
 The concurrent store, one lock operation or memory access at a time. Any number of calls are in
 progress at once; each holds a program counter and takes its own steps, and a step of any call may
 follow a step of any other. A partition lock guards the shape of one table, an entry lock guards
 one key's value and version, and neither is ever held while waiting for another.
 */
module StoreProtocol {
  import opened Prelude
  import opened AtomicMap
  import opened Routing

  /** Every call of the store gets its own number. */
  type CallId = nat

  /** A readers-or-one-writer lock, and who holds it. */
  datatype RwLock = RwLock(readers: set<CallId>, writer: Option<CallId>) {
    predicate MayRead() { writer.None? }
    predicate MayWrite() { writer.None? && readers == {} }
    function RLock(c: CallId): RwLock { RwLock(readers + {c}, writer) }
    function RUnlock(c: CallId): RwLock { RwLock(readers - {c}, writer) }
    function Lock(c: CallId): RwLock { RwLock(readers, Some(c)) }
    function Unlock(): RwLock { RwLock(readers, None) }
  }

  const UNLOCKED := RwLock({}, None)

  /** An entry object. Pointers to entries are positions in the heap of cells. */
  datatype Cell<+V> = Cell(lock: RwLock, value: V, version: nat)

  /** One lock stripe: a table from key to entry pointer. */
  datatype Part = Part(lock: RwLock, table: map<Key, nat>)

  /** What a call was asked to do. */
  datatype Job<+V> = Point(call: Call<V>) | ListKeys

  /** Where a call stands. "Holds" names the lock it has at that point; all others hold none. */
  datatype Pc<+V> =
    | Start                                   // about to check for contradictory guards
    | Seek                                    // wants the table read lock
    | InTable                                 // holds the table read lock, about to look the key up
    | Sought(found: Option<nat>)              // holds the table read lock, about to release it
    | AtEntry(e: nat)                         // wants the entry lock: to read for Get, to write for Write
    | Reading(e: nat)                         // Get, holds the entry read lock, about to copy the value
    | HalfRead(e: nat, value: V)              // Get, holds the entry read lock, about to copy the version
    | Deciding(e: nat)                        // Write, holds the entry write lock, about to test the guard
    | Installed(e: nat)                       // Write, holds the entry write lock, about to bump the version
    | LeavingEntry(e: nat, reply: Reply<V>)   // holds the entry lock, about to release it
    | AtCreate                                // Write, wants the table write lock
    | Creating                                // Write, holds the table write lock, about to look again
    | LeavingTable(verdict: Option<Reply<V>>) // Write, holds the table write lock, about to release it
    | Done(answer: Reply<V>)
    | Visiting(i: nat)                        // Keys, wants the read lock of table i
    | Copying(i: nat)                         // Keys, holds the read lock of table i, about to copy its keys
    | Copied(i: nat, batch: seq<Key>)         // Keys, holds the read lock of table i, about to release it
    | Yielding(i: nat, batch: seq<Key>)       // Keys, hands the copied keys to its consumer
    | Listed(complete: bool)

  /** `lookups` counts the times the call has read its table; `yielded` is what Keys handed out. */
  datatype Thread<+V> = Thread(job: Job<V>, pc: Pc<V>, lookups: nat, yielded: seq<Key>) {
    predicate Gets() { job.Point? && job.call.GetCall? }
    predicate Writes() { job.Point? && job.call.WriteCall? }
    predicate Finished() { pc.Done? || pc.Listed? }
  }

  datatype State<+V> = State(parts: seq<Part>, cells: seq<Cell<V>>, threads: map<CallId, Thread<V>>) {

    function Home(k: Key): (i: nat)
      requires |parts| > 0
      ensures i < |parts|
    {
      PartitionOf(k, |parts|)
    }

    predicate Present(k: Key)
      requires |parts| > 0
    {
      k in parts[Home(k)].table
    }

    function Pointer(k: Key): nat
      requires |parts| > 0 && Present(k)
    {
      parts[Home(k)].table[k]
    }

    function To(c: CallId, t: Thread<V>): State<V> { this.(threads := threads[c := t]) }

    function SetPart(i: nat, p: Part): State<V>
      requires i < |parts|
    {
      this.(parts := parts[i := p])
    }

    function SetCell(e: nat, cell: Cell<V>): State<V>
      requires e < |cells|
    {
      this.(cells := cells[e := cell])
    }
  }

  /** A freshly made store: empty tables, nothing allocated, nobody calling. */
  predicate Initial<V>(s: State<V>) {
    && ValidPartitionCount(|s.parts|)
    && (forall i :: 0 <= i < |s.parts| ==> s.parts[i] == Part(UNLOCKED, map[]))
    && s.cells == []
    && s.threads == map[]
  }

  /** The choices left to the Go runtime and to the consumer of Keys. */
  datatype Pick = Pick(order: seq<Key>, more: bool)

  predicate PointPc<V>(pc: Pc<V>) { SeekPc(pc) || EntryPc(pc) || CreatePc(pc) || pc.Done? }

  predicate SeekPc<V>(pc: Pc<V>) { pc.Start? || pc.Seek? || pc.InTable? || pc.Sought? }

  predicate EntryPc<V>(pc: Pc<V>) {
    pc.AtEntry? || pc.Reading? || pc.HalfRead? || pc.Deciding? || pc.Installed? || pc.LeavingEntry?
  }

  predicate CreatePc<V>(pc: Pc<V>) { pc.AtCreate? || pc.Creating? || pc.LeavingTable? }

  predicate GetPc<V>(pc: Pc<V>) { pc.Reading? || pc.HalfRead? }

  predicate WritePc<V>(pc: Pc<V>) { pc.Deciding? || pc.Installed? || CreatePc(pc) }

  /** The program counter fits the job, and every pointer and index in it exists. */
  predicate Sensible<V>(s: State<V>, t: Thread<V>) {
    && |s.parts| > 0
    && (t.job.Point? <==> PointPc(t.pc))
    && (GetPc(t.pc) ==> t.Gets())
    && (WritePc(t.pc) ==> t.Writes())
    && (EntryPc(t.pc) ==> t.pc.e < |s.cells|)
    && (t.pc.Visiting? ==> t.pc.i <= |s.parts|)
    && (t.pc.Copying? || t.pc.Copied? || t.pc.Yielding? ==> t.pc.i < |s.parts|)
  }

  /** The call wants a lock it cannot have now. */
  predicate Waits<V>(s: State<V>, t: Thread<V>)
    requires Sensible(s, t)
  {
    match t.pc
    case Seek => !s.parts[s.Home(t.job.call.Target())].lock.MayRead()
    case AtEntry(e) => if t.Gets() then !s.cells[e].lock.MayRead() else !s.cells[e].lock.MayWrite()
    case AtCreate => !s.parts[s.Home(t.job.call.Target())].lock.MayWrite()
    case Visiting(i) => i < |s.parts| && !s.parts[i].lock.MayRead()
    case _ => false
  }

  predicate Enabled<V>(s: State<V>, c: CallId, pick: Pick) {
    && c in s.threads
    && var t := s.threads[c];
       && Sensible(s, t)
       && !t.Finished()
       && !Waits(s, t)
       && (t.pc.Copying? ==> Enumerates(pick.order, s.parts[t.pc.i].table.Keys))
  }

  /** A list of all elements of a set, each once, in any order. */
  predicate Enumerates(order: seq<Key>, keys: set<Key>) {
    && |order| == |keys|
    && (forall i :: 0 <= i < |order| ==> order[i] in keys)
    && (forall i, j :: 0 <= i < j < |order| ==> order[i] != order[j])
  }

  /** A new call arrives. */
  function Invoke<V>(s: State<V>, c: CallId, job: Job<V>): State<V>
    requires c !in s.threads
  {
    s.To(c, Thread(job, if job.Point? then Start else Visiting(0), 0, []))
  }

  /** Call c takes its next step. */
  function Fire<V>(merge: (V, V) -> V, s: State<V>, c: CallId, pick: Pick): State<V>
    requires Enabled(s, c, pick)
  {
    var t := s.threads[c];
    if t.job.ListKeys? then FireKeys(s, c, pick)
    else if SeekPc(t.pc) then FireSeek(s, c)
    else if EntryPc(t.pc) then FireEntry(merge, s, c)
    else FireCreate(s, c)
  }

  /** Call c exists, has a sound position and waits for nothing. */
  predicate Ready<V>(s: State<V>, c: CallId) {
    c in s.threads && Sensible(s, s.threads[c]) && !Waits(s, s.threads[c])
  }

  /** Find the key's entry under the table read lock. */
  function FireSeek<V>(s: State<V>, c: CallId): State<V>
    requires Ready(s, c) && SeekPc(s.threads[c].pc)
  {
    var t := s.threads[c];
    var k := t.job.call.Target();
    var home := s.Home(k);
    var part := s.parts[home];
    match t.pc
    case Start =>
      if t.Writes() && t.job.call.op.ifAbsent && t.job.call.op.ifVersion.Some?
      then s.To(c, t.(pc := Done(Wrote(ConflictingGuards))))
      else s.To(c, t.(pc := Seek))
    case Seek =>
      s.SetPart(home, part.(lock := part.lock.RLock(c))).To(c, t.(pc := InTable))
    case InTable =>
      var found := if k in part.table then Some(part.table[k]) else None;
      s.To(c, t.(pc := Sought(found), lookups := t.lookups + 1))
    case Sought(found) =>
      var next := match found
        case Some(e) => AtEntry(e)
        case None => if t.Gets() then Done(NotFound) else AtCreate;
      s.SetPart(home, part.(lock := part.lock.RUnlock(c))).To(c, t.(pc := next))
  }

  /** Work on an existing entry under its own lock. */
  function FireEntry<V>(merge: (V, V) -> V, s: State<V>, c: CallId): State<V>
    requires Ready(s, c) && EntryPc(s.threads[c].pc)
  {
    var t := s.threads[c];
    var cell := s.cells[t.pc.e];
    match t.pc
    case AtEntry(e) =>
      if t.Gets()
      then s.SetCell(e, cell.(lock := cell.lock.RLock(c))).To(c, t.(pc := Reading(e)))
      else s.SetCell(e, cell.(lock := cell.lock.Lock(c))).To(c, t.(pc := Deciding(e)))
    case Reading(e) =>
      s.To(c, t.(pc := HalfRead(e, cell.value)))
    case HalfRead(e, value) =>
      s.To(c, t.(pc := LeavingEntry(e, Found(Entry(value, cell.version)))))
    case Deciding(e) =>
      var op := t.job.call.op;
      if op.ifAbsent then
        s.To(c, t.(pc := LeavingEntry(e, Wrote(VersionMismatch(op.key, 0, cell.version, true)))))
      else if op.ifVersion.Some? && op.ifVersion.value != cell.version then
        s.To(c, t.(pc := LeavingEntry(e, Wrote(VersionMismatch(op.key, op.ifVersion.value, cell.version, false)))))
      else
        s.SetCell(e, cell.(value := Compute(merge, cell.value, op))).To(c, t.(pc := Installed(e)))
    case Installed(e) =>
      var snapshot := Entry(cell.value, cell.version + 1);
      s.SetCell(e, cell.(version := cell.version + 1)).To(c, t.(pc := LeavingEntry(e, Wrote(Written(snapshot)))))
    case LeavingEntry(e, reply) =>
      var lock := if t.Gets() then cell.lock.RUnlock(c) else cell.lock.Unlock();
      s.SetCell(e, cell.(lock := lock)).To(c, t.(pc := Done(reply)))
  }

  /** Look again under the table write lock and create the entry complete, or go back. */
  function FireCreate<V>(s: State<V>, c: CallId): State<V>
    requires Ready(s, c) && CreatePc(s.threads[c].pc)
  {
    var t := s.threads[c];
    var k := t.job.call.op.key;
    var home := s.Home(k);
    var part := s.parts[home];
    match t.pc
    case AtCreate =>
      s.SetPart(home, part.(lock := part.lock.Lock(c))).To(c, t.(pc := Creating))
    case Creating =>
      var op := t.job.call.op;
      if k in part.table then
        s.To(c, t.(pc := LeavingTable(None)))
      else if op.ifVersion.Some? then
        s.To(c, t.(pc := LeavingTable(Some(Wrote(VersionMismatch(k, op.ifVersion.value, 0, false))))))
      else
        var created := Cell(UNLOCKED, op.body, FIRST_VERSION);
        State(s.parts[home := part.(table := part.table[k := |s.cells|])], s.cells + [created], s.threads)
          .To(c, t.(pc := LeavingTable(Some(Wrote(Written(Entry(op.body, FIRST_VERSION)))))))
    case LeavingTable(verdict) =>
      var next := match verdict case None => Seek case Some(reply) => Done(reply);
      s.SetPart(home, part.(lock := part.lock.Unlock())).To(c, t.(pc := next))
  }

  /** List keys: one table at a time, yielding only while no lock is held. */
  function FireKeys<V>(s: State<V>, c: CallId, pick: Pick): State<V>
    requires Ready(s, c) && s.threads[c].job.ListKeys? && !s.threads[c].Finished()
  {
    var t := s.threads[c];
    match t.pc
    case Visiting(i) =>
      if i == |s.parts| then s.To(c, t.(pc := Listed(true))) else
        s.SetPart(i, s.parts[i].(lock := s.parts[i].lock.RLock(c))).To(c, t.(pc := Copying(i)))
    case Copying(i) =>
      s.To(c, t.(pc := Copied(i, pick.order)))
    case Copied(i, batch) =>
      s.SetPart(i, s.parts[i].(lock := s.parts[i].lock.RUnlock(c))).To(c, t.(pc := Yielding(i, batch)))
    case Yielding(i, batch) =>
      if batch == [] then s.To(c, t.(pc := Visiting(i + 1))) else
        s.To(c, t.(yielded := t.yielded + [batch[0]],
                   pc := if pick.more then Yielding(i, batch[1..]) else Listed(false)))
  }

  /** One step of the whole system: a call arrives, or a call in progress moves. */
  datatype Action<+V> = Arrive(c: CallId, job: Job<V>) | Move(c: CallId, pick: Pick)

  predicate Allowed<V>(s: State<V>, a: Action<V>) {
    match a
    case Arrive(c, job) => c !in s.threads
    case Move(c, pick) => Enabled(s, c, pick)
  }

  function Step<V>(merge: (V, V) -> V, s: State<V>, a: Action<V>): State<V>
    requires Allowed(s, a)
  {
    match a
    case Arrive(c, job) => Invoke(s, c, job)
    case Move(c, pick) => Fire(merge, s, c, pick)
  }

  /** An execution: actions and the states they pass through, from a fresh store. */
  ghost predicate IsRun<V>(merge: (V, V) -> V, states: seq<State<V>>, actions: seq<Action<V>>) {
    && |states| == |actions| + 1
    && Initial(states[0])
    && forall i :: 0 <= i < |actions| ==>
         Allowed(states[i], actions[i]) && states[i + 1] == Step(merge, states[i], actions[i])
  }
}
