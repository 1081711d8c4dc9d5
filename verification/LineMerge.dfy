/**
 The proxy's listing: one goroutine per node scans that node's stream for lines and writes each to the
 shared response under a mutex, the text first and the line feed after it. The goroutines run in any
 order, and yet whole lines come out, each node's in the order the node sent them.
 */
module LineMerge {
  import opened Prelude

  const LF: Byte := 10
  const CR: Byte := 13

  // ---------------------------------------------------------------- lines in a stream

  /** The position of the first line feed, or the length of the text when there is none. */
  function LineEnd(body: Bytes): (i: nat)
    ensures i <= |body|
    ensures i < |body| ==> body[i] == LF
    ensures forall j :: 0 <= j < i ==> body[j] != LF
  {
    if body == [] || body[0] == LF then 0 else 1 + LineEnd(body[1..])
  }

  function DropCr(line: Bytes): Bytes {
    if line != [] && line[|line| - 1] == CR then line[..|line| - 1] else line
  }

  /** What one Scan takes from a stream: a line, and what is left. An unfinished last line is a line. */
  function ScanOne(body: Bytes): (r: (Bytes, Bytes))
    requires body != []
    ensures |r.1| < |body|
  {
    var i := LineEnd(body);
    (DropCr(body[..i]), if i < |body| then body[i + 1..] else [])
  }

  /** The lines a goroutine forwards from a stream: all but the empty ones. */
  function LinesIn(body: Bytes): seq<Bytes>
    decreases |body|
  {
    if body == [] then [] else
      var (line, rest) := ScanOne(body);
      (if line == [] then [] else [line]) + LinesIn(rest)
  }

  /** Each line followed by a line feed. */
  function Render(lines: seq<Bytes>): Bytes {
    if lines == [] then [] else Render(lines[..|lines| - 1]) + lines[|lines| - 1] + [LF]
  }

  /** A text that survives being sent as a line. */
  predicate Framed(line: Bytes) { line != [] && LF !in line && line[|line| - 1] != CR }

  lemma {:induction false} RenderHead(lines: seq<Bytes>)
    requires lines != []
    ensures Render(lines) == lines[0] + [LF] + Render(lines[1..])
    decreases |lines|
  {
    var n := |lines| - 1;
    if n == 0 {
      assert Render(lines[..0]) == [] && Render(lines[1..]) == [];
      assert [] + lines[0] + [LF] == lines[0] + [LF] + [];
    } else {
      var init, tail, last := lines[..n], lines[1..], lines[n];
      RenderHead(init);
      assert tail[..n - 1] == init[1..];
      assert Render(tail) == Render(init[1..]) + last + [LF];
      Regroup(lines[0] + [LF], Render(init[1..]), last, [LF]);
    }
  }

  lemma {:induction false} Regroup(a: Bytes, b: Bytes, c: Bytes, d: Bytes)
    ensures a + b + c + d == a + (b + c + d)
  {
  }

  /** A scan stops at the first line feed and takes a carriage return before it away. */
  lemma {:induction false} ScanLine(line: Bytes, rest: Bytes)
    requires LF !in line
    ensures ScanOne(line + [LF] + rest) == (DropCr(line), rest)
  {
    var body := line + [LF] + rest;
    assert body[|line|] == LF;
    assert forall j :: 0 <= j < |line| ==> body[j] == line[j];
    assert LineEnd(body) == |line|;
    assert body[..|line|] == line && body[|line| + 1..] == rest;
  }

  /** Scanning a rendered list of lines finds just those lines. */
  lemma {:induction false} ScanRendered(lines: seq<Bytes>)
    requires forall l :: l in lines ==> Framed(l)
    ensures LinesIn(Render(lines)) == lines
    decreases |lines|
  {
    if lines == [] {
    } else {
      RenderHead(lines);
      assert lines[0] in lines;
      ScanLine(lines[0], Render(lines[1..]));
      ScanRendered(lines[1..]);
    }
  }

  /** A line as it travels, with or without a carriage return before its line feed. */
  datatype Sent = Sent(text: Bytes, cr: bool)

  predicate Clean(text: Bytes) { LF !in text && (text == [] || text[|text| - 1] != CR) }

  /** The lines as they travel, and what comes after the last line feed. */
  function Raw(sent: seq<Sent>, tail: Bytes): Bytes {
    if sent == [] then tail else Body(sent[0]) + [LF] + Raw(sent[1..], tail)
  }

  function NonEmpty(sent: seq<Sent>, tail: Bytes): seq<Bytes> {
    if sent == [] then OneIf(tail) else OneIf(sent[0].text) + NonEmpty(sent[1..], tail)
  }

  /** The line up to its line feed. */
  function Body(s: Sent): Bytes { s.text + if s.cr then [CR] else [] }

  lemma {:induction false} BodyRead(s: Sent)
    requires Clean(s.text)
    ensures LF !in Body(s) && DropCr(Body(s)) == s.text
  {
    assert s.cr ==> Body(s)[..|Body(s)| - 1] == s.text;
    assert !s.cr ==> Body(s) == s.text;
  }

  function OneIf(line: Bytes): seq<Bytes> { if line == [] then [] else [line] }

  lemma {:induction false} UnfinishedRead(tail: Bytes)
    requires Clean(tail)
    ensures LinesIn(tail) == OneIf(tail)
  {
    if tail != [] {
      assert LineEnd(tail) == |tail| && tail[..|tail|] == tail;
      assert ScanOne(tail) == (tail, []);
    }
  }

  lemma {:induction false} LineThenRest(line: Bytes, rest: Bytes)
    requires LF !in line
    ensures LinesIn(line + [LF] + rest) == OneIf(DropCr(line)) + LinesIn(rest)
  {
    ScanLine(line, rest);
  }

  /** Of any text the scanner takes the lines without their ends, but for empty ones, and an unfinished last one. */
  lemma {:induction false} ScanSent(sent: seq<Sent>, tail: Bytes)
    requires (forall s :: s in sent ==> Clean(s.text)) && Clean(tail)
    ensures LinesIn(Raw(sent, tail)) == NonEmpty(sent, tail)
    decreases |sent|
  {
    if sent == [] {
      UnfinishedRead(tail);
    } else {
      assert sent[0] in sent;
      BodyRead(sent[0]);
      LineThenRest(Body(sent[0]), Raw(sent[1..], tail));
      ScanSent(sent[1..], tail);
    }
  }

  // ---------------------------------------------------------------- the goroutines

  /** What a node's stream will deliver: its bytes, and the error line if it then breaks off. */
  datatype Source = Source(body: Bytes, failure: Option<Bytes>)

  function Failure(failure: Option<Bytes>): seq<Bytes> {
    if failure.Some? then [failure.value] else []
  }

  function LinesOf(source: Source): seq<Bytes> { LinesIn(source.body) + Failure(source.failure) }

  datatype Pc =
    | Scanning              // about to scan for the next line
    | Queued(line: Bytes)   // wants the mutex
    | Writing(line: Bytes)  // holds the mutex, about to write the text
    | Ending(line: Bytes)   // holds the mutex, about to write the line feed
    | Leaving               // holds the mutex, about to release it
    | Exited

  datatype Goroutine = Goroutine(pc: Pc, rest: Source) {
    predicate Holds() { pc.Writing? || pc.Ending? || pc.Leaving? }
  }

  datatype State = State(workers: seq<Goroutine>, mutex: Option<nat>, out: Bytes) {
    /** wg.Wait returns. */
    predicate Finished() { forall i :: 0 <= i < |workers| ==> workers[i].pc.Exited? }

    function To(i: nat, pc: Pc): State
      requires i < |workers|
    {
      this.(workers := workers[i := workers[i].(pc := pc)])
    }
  }

  predicate Enabled(s: State, i: nat) {
    && i < |s.workers|
    && !s.workers[i].pc.Exited?
    && (s.workers[i].pc.Queued? ==> s.mutex.None?)
  }

  /** One scan of a stream, with the error line when the stream has failed. */
  function Scan(g: Goroutine): Goroutine {
    if g.rest.body == [] then
      match g.rest.failure
      case Some(line) => Goroutine(Queued(line), Source([], None))
      case None => g.(pc := Exited)
    else
      var (line, rest) := ScanOne(g.rest.body);
      Goroutine(if line == [] then Scanning else Queued(line), Source(rest, g.rest.failure))
  }

  function Step(s: State, i: nat): State
    requires Enabled(s, i)
  {
    match s.workers[i].pc
    case Scanning => s.(workers := s.workers[i := Scan(s.workers[i])])
    case Queued(line) => s.(mutex := Some(i)).To(i, Writing(line))
    case Writing(line) => s.(out := s.out + line).To(i, Ending(line))
    case Ending(_) => s.(out := s.out + [LF]).To(i, Leaving)
    case Leaving => s.(mutex := None).To(i, Scanning)
  }

  predicate Initial(sources: seq<Source>, s: State) {
    && |s.workers| == |sources|
    && (forall i :: 0 <= i < |sources| ==> s.workers[i] == Goroutine(Scanning, sources[i]))
    && s.mutex == None
    && s.out == []
  }

  /** An execution: which goroutine moved at each step, and the states passed through. */
  ghost predicate IsRun(sources: seq<Source>, states: seq<State>, moves: seq<nat>) {
    && |states| == |moves| + 1
    && Initial(sources, states[0])
    && forall n :: 0 <= n < |moves| ==> Enabled(states[n], moves[n]) && states[n + 1] == Step(states[n], moves[n])
  }

  // ---------------------------------------------------------------- whole lines come out

  /** A line in the response, and the goroutine that wrote it. */
  datatype Line = Line(worker: nat, text: Bytes)

  function Texts(log: seq<Line>): (texts: seq<Bytes>)
    ensures |texts| == |log| && forall j :: 0 <= j < |log| ==> texts[j] == log[j].text
  {
    seq(|log|, j requires 0 <= j < |log| => log[j].text)
  }

  /** The lines of one goroutine, in order. */
  function From(log: seq<Line>, i: nat): seq<Bytes> {
    if log == [] then [] else
      From(log[..|log| - 1], i) + if log[|log| - 1].worker == i then [log[|log| - 1].text] else []
  }

  /** The line a goroutine has scanned and not yet ended. */
  function Carried(g: Goroutine): seq<Bytes> {
    if g.pc.Queued? || g.pc.Writing? || g.pc.Ending? then [g.pc.line] else []
  }

  /** What a goroutine has yet to write a line feed after. */
  function Pending(g: Goroutine): seq<Bytes> {
    if g.pc.Exited? then [] else Carried(g) + LinesOf(g.rest)
  }

  /** The text of a line whose line feed is still to come. */
  function Half(s: State): Bytes {
    if s.mutex.Some? && s.mutex.value < |s.workers| && s.workers[s.mutex.value].pc.Ending?
    then s.workers[s.mutex.value].pc.line
    else []
  }

  ghost predicate MutexOk(s: State) {
    && (s.mutex.Some? ==> s.mutex.value < |s.workers|)
    && forall i :: 0 <= i < |s.workers| ==> (s.mutex == Some(i) <==> s.workers[i].Holds())
  }

  /** The log is what has been written: whole lines, and for each goroutine all but what is pending. */
  ghost predicate Explains(sources: seq<Source>, s: State, log: seq<Line>) {
    && |s.workers| == |sources|
    && MutexOk(s)
    && (forall j :: 0 <= j < |log| ==> log[j].worker < |sources|)
    && s.out == Render(Texts(log)) + Half(s)
    && forall i :: 0 <= i < |sources| ==> From(log, i) + Pending(s.workers[i]) == LinesOf(sources[i])
  }

  lemma {:induction false} ScanKeepsPending(g: Goroutine)
    requires g.pc.Scanning?
    ensures Pending(Scan(g)) == Pending(g) && !Scan(g).Holds()
  {
    if g.rest.body == [] {
      assert Pending(g) == [] + ([] + Failure(g.rest.failure)) == Failure(g.rest.failure);
      assert LinesOf(Source([], None)) == [] + [] == [];
    } else {
      var (line, rest) := ScanOne(g.rest.body);
      var first := if line == [] then [] else [line];
      assert Carried(Scan(g)) == first && Carried(g) == [];
      Associates(first, LinesIn(rest), Failure(g.rest.failure));
      assert [] + LinesOf(g.rest) == LinesOf(g.rest) == first + LinesIn(rest) + Failure(g.rest.failure);
    }
  }

  lemma {:induction false} StepKeepsMutex(s: State, i: nat)
    requires Enabled(s, i) && MutexOk(s)
    ensures MutexOk(Step(s, i))
  {
  }

  lemma {:induction false} AppendLine(log: seq<Line>, line: Line)
    ensures Render(Texts(log + [line])) == Render(Texts(log)) + line.text + [LF]
    ensures forall i :: From(log + [line], i) == From(log, i) + if line.worker == i then [line.text] else []
  {
    var log' := log + [line];
    assert log'[..|log|] == log;
    assert Texts(log')[..|log|] == Texts(log);
  }

  lemma {:induction false} StepExplained(sources: seq<Source>, s: State, i: nat,
      log: seq<Line>) returns (log': seq<Line>)
    requires Enabled(s, i) && Explains(sources, s, log)
    ensures Explains(sources, Step(s, i), log')
  {
    var s', g := Step(s, i), s.workers[i];
    StepKeepsMutex(s, i);
    log' := if g.pc.Ending? then log + [Line(i, g.pc.line)] else log;
    OutExplained(s, i, log, log');
    forall j | 0 <= j < |sources| ensures From(log', j) + Pending(s'.workers[j]) == LinesOf(sources[j]) {
      if j == i { PendingExplained(s, i, log, log'); }
      else if g.pc.Ending? { AppendLine(log, Line(i, g.pc.line)); }
    }
  }

  lemma {:induction false} OutExplained(s: State, i: nat, log: seq<Line>, log': seq<Line>)
    requires Enabled(s, i) && MutexOk(s) && s.out == Render(Texts(log)) + Half(s)
    requires log' == if s.workers[i].pc.Ending? then log + [Line(i, s.workers[i].pc.line)] else log
    ensures Step(s, i).out == Render(Texts(log')) + Half(Step(s, i))
  {
    var pc := s.workers[i].pc;
    assert s.mutex == Some(i) <==> s.workers[i].Holds();
    if pc.Ending? { AppendLine(log, Line(i, pc.line)); }
    if s.mutex.Some? && s.mutex.value != i {
      assert Step(s, i).workers[s.mutex.value] == s.workers[s.mutex.value];
    }
  }

  lemma {:induction false} PendingExplained(s: State, i: nat, log: seq<Line>, log': seq<Line>)
    requires Enabled(s, i)
    requires log' == if s.workers[i].pc.Ending? then log + [Line(i, s.workers[i].pc.line)] else log
    ensures From(log', i) + Pending(Step(s, i).workers[i]) == From(log, i) + Pending(s.workers[i])
  {
    var done := if s.workers[i].pc.Ending? then [s.workers[i].pc.line] else [];
    assert From(log', i) == From(log, i) + done by {
      if s.workers[i].pc.Ending? { AppendLine(log, Line(i, s.workers[i].pc.line)); }
    }
    assert Pending(s.workers[i]) == done + Pending(Step(s, i).workers[i]) by { StepPending(s, i); }
    Associates(From(log, i), done, Pending(Step(s, i).workers[i]));
  }

  lemma {:induction false} Associates(a: seq<Bytes>, b: seq<Bytes>, c: seq<Bytes>)
    ensures (a + b) + c == a + (b + c)
  {
  }

  /** Only writing the line feed takes a line off what is pending. */
  lemma {:induction false} StepPending(s: State, i: nat)
    requires Enabled(s, i)
    ensures var g := s.workers[i];
            Pending(g) == (if g.pc.Ending? then [g.pc.line] else []) + Pending(Step(s, i).workers[i])
  {
    var g, g' := s.workers[i], Step(s, i).workers[i];
    if g.pc.Ending? {
      assert Pending(g') == [] + LinesOf(g.rest) == LinesOf(g.rest);
    } else {
      if g.pc.Scanning? {
        ScanKeepsPending(g);
      } else {
        assert g'.rest == g.rest && Carried(g') == Carried(g);
      }
      assert [] + Pending(g') == Pending(g');
    }
  }

  lemma {:induction false} RunExplained(sources: seq<Source>, states: seq<State>, moves: seq<nat>,
      n: nat) returns (log: seq<Line>)
    requires IsRun(sources, states, moves) && n < |states|
    ensures Explains(sources, states[n], log)
  {
    if n == 0 {
      log := [];
    } else {
      log := RunExplained(sources, states, moves, n - 1);
      log := StepExplained(sources, states[n - 1], moves[n - 1], log);
    }
  }

  /** The response is these whole lines plus the text of one being written, each goroutine's in its stream's order. */
  ghost predicate Interleaves(sources: seq<Source>, s: State, log: seq<Line>) {
    && (forall j :: 0 <= j < |log| ==> log[j].worker < |sources|)
    && s.out == Render(Texts(log)) + Half(s)
    && (forall i :: 0 <= i < |sources| ==> From(log, i) <= LinesOf(sources[i]))
    && (s.Finished() ==>
          && s.out == Render(Texts(log))
          && forall i :: 0 <= i < |sources| ==> From(log, i) == LinesOf(sources[i]))
  }

  /**
   Under every scheduling, and whether or not streams fail: at every moment the response is a list
   of whole lines plus at most the text of the one being written, and each node's lines so far are
   the first ones of its stream. When all goroutines have returned the response is whole lines
   only, an interleaving of the complete streams.
   */
  lemma {:induction false} WholeLinesInOrder(sources: seq<Source>, states: seq<State>, moves: seq<nat>, n: nat)
    requires IsRun(sources, states, moves) && n < |states|
    ensures exists log :: Interleaves(sources, states[n], log)
  {
    var log := RunExplained(sources, states, moves, n);
    ExplainedInterleaves(sources, states[n], log);
  }

  lemma {:induction false} ExplainedInterleaves(sources: seq<Source>, s: State, log: seq<Line>)
    requires Explains(sources, s, log)
    ensures Interleaves(sources, s, log)
  {
    if s.Finished() {
      assert Half(s) == [];
      forall i | 0 <= i < |sources| ensures From(log, i) == LinesOf(sources[i]) {
        assert Pending(s.workers[i]) == [];
      }
    }
  }

  // ---------------------------------------------------------------- the listing ends

  /** Some goroutine can move until all have returned. */
  lemma {:induction false} NeverStuck(sources: seq<Source>, states: seq<State>, moves: seq<nat>, n: nat)
    requires IsRun(sources, states, moves) && n < |states| && !states[n].Finished()
    ensures exists i :: Enabled(states[n], i)
  {
    var log := RunExplained(sources, states, moves, n);
    HolderOrAnyCanMove(states[n]);
  }

  lemma {:induction false} HolderOrAnyCanMove(s: State)
    requires MutexOk(s) && !s.Finished()
    ensures exists i :: Enabled(s, i)
  {
    var i :| 0 <= i < |s.workers| && !s.workers[i].pc.Exited?;
    if s.mutex.Some? {
      assert s.workers[s.mutex.value].Holds();
      assert Enabled(s, s.mutex.value);
    } else {
      assert Enabled(s, i);
    }
  }

  /** An upper bound on the steps a goroutine has left. */
  function StepsLeft(g: Goroutine): nat {
    5 * (|g.rest.body| + |Failure(g.rest.failure)|) +
    match g.pc
    case Exited => 0
    case Scanning => 1
    case Leaving => 2
    case Ending(_) => 3
    case Writing(_) => 4
    case Queued(_) => 5
  }

  function TotalLeft(workers: seq<Goroutine>): nat {
    if workers == [] then 0 else StepsLeft(workers[0]) + TotalLeft(workers[1..])
  }

  lemma {:induction false} TotalFalls(workers: seq<Goroutine>, i: nat, g: Goroutine)
    requires i < |workers| && StepsLeft(g) < StepsLeft(workers[i])
    ensures TotalLeft(workers[i := g]) < TotalLeft(workers)
    decreases i
  {
    if i == 0 {
      assert workers[0 := g][1..] == workers[1..];
    } else {
      assert workers[i := g][1..] == workers[1..][i - 1 := g];
      TotalFalls(workers[1..], i - 1, g);
    }
  }

  /** No scheduling goes on for ever: a listing is over within a number of steps its streams fix. */
  lemma {:induction false} EveryScheduleEnds(sources: seq<Source>, states: seq<State>, moves: seq<nat>, n: nat)
    requires IsRun(sources, states, moves) && n < |states|
    ensures n + TotalLeft(states[n].workers) <= TotalLeft(states[0].workers)
  {
    if n == 0 {
    } else {
      EveryScheduleEnds(sources, states, moves, n - 1);
      var s, i := states[n - 1], moves[n - 1];
      var s' := Step(s, i);
      assert s'.workers == s.workers[i := s'.workers[i]];
      TotalFalls(s.workers, i, s'.workers[i]);
    }
  }
}
