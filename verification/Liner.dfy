/** A batched file load: the liner goroutine that scans lines and offers them on an unbuffered
    channel, transact that receives them, and loadFile that closes the file when transact is back
    (db.go, liner, loadFile, transact). Any interleaving of their steps is a run. */
module Liner {
  import opened Text
  import opened Sql
  import opened Batch
  import opened Semantics
  import opened Committed
  import opened Dump
  import opened Transact

  /** A file as the scanner gets to read it: its lines, how many of them come whole, and what
      follows. Behind the whole lines is the end of the file, a line too long for the scanner, which
      ends the scan, or a read error; a read error inside a line makes the scanner hand over the
      piece of the line read so far, and `torn` is that piece. */
  datatype Reading = Reading(content: seq<string>, whole: nat, torn: Option<string>)

  type File = f: Reading |
      && f.whole <= |f.content|
      && (f.torn.Some? ==> f.whole < |f.content| && f.torn.value <= f.content[f.whole])
    witness Reading([], 0, None)

  // What goes over the channel, if transact takes it all.
  function Delivered(f: File): seq<string> {
    f.content[..f.whole] + ListOf(f.torn)
  }

  // The last thing delivered is a piece of a line and not the line.
  predicate Tears(f: File) {
    f.torn.Some? && f.torn.value != f.content[f.whole]
  }

  // The goroutine: about to scan, blocked on its send, or done with the channel closed.
  datatype Producer = Scanning | Offering(line: string) | Closed

  // transact: before Begin, at the head of its range loop, in tx.Exec, or back.
  datatype Consumer = Starting | Receiving | Running(line: string) | Returned(ok: bool)

  // next counts the lines scanned so far; fileClosed is loadFile's deferred Close.
  datatype State<S> = State(next: nat, producer: Producer, consumer: Consumer, fileClosed: bool, world: World<S>)

  // ScanPiece is a scan that fails on the closed file with a piece of a line in its buffer.
  datatype Step = Scan | ScanEnds | ScanPiece(piece: string) | Start | HandOver | Work | Finish | CloseFile

  function Initial<S>(w: World<S>): State<S> {
    State(0, Scanning, Starting, false, w)
  }

  /** A step, where it can be taken. The channel has no buffer: a line changes hands only when one
      side offers and the other receives. On a closed file a scan may still find a line, or a piece
      of one, in the scanner's own buffer; a scan that finds nothing more closes the channel. */
  function Take<S>(env: Env<S>, f: File, s: State<S>, step: Step): Option<State<S>> {
    match step
    case Scan =>
      if s.producer.Scanning? && s.next < |Delivered(f)|
      then Some(s.(next := s.next + 1, producer := Offering(Delivered(f)[s.next]))) else None
    case ScanEnds =>
      if s.producer.Scanning? && (s.next >= |Delivered(f)| || s.fileClosed)
      then Some(s.(producer := Closed)) else None
    case ScanPiece(piece) =>
      if s.producer.Scanning? && s.fileClosed && s.next < |f.content| && piece <= f.content[s.next]
      then Some(s.(next := s.next + 1, producer := Offering(piece))) else None
    case Start =>
      if s.consumer.Starting? && !s.world.held then
        var v := BeginCall(env, s.world);
        Some(s.(world := v, consumer := if v.tx.Some? then Receiving else Returned(false)))
      else None
    case HandOver =>
      if s.producer.Offering? && s.consumer.Receiving?
      then Some(s.(producer := Scanning, consumer := Running(s.producer.line))) else None
    case Work =>
      if s.consumer.Running? && s.world.tx.Some? then
        var (v, reply) := TxExecCall(env, s.world, s.consumer.line);
        Some(if reply.Done? then s.(world := v, consumer := Receiving)
             else s.(world := RollbackCall(v), consumer := Returned(false)))
      else None
    case Finish =>
      if s.consumer.Receiving? && s.producer.Closed? && s.world.tx.Some?
      then Some(s.(world := CommitCall(env, s.world).0, consumer := Returned(true))) else None
    case CloseFile =>
      if s.consumer.Returned? && !s.fileClosed then Some(s.(fileClosed := true)) else None
  }

  // The state after the given steps, if each could be taken in turn.
  function RunOf<S>(env: Env<S>, f: File, s: State<S>, steps: seq<Step>): Option<State<S>>
    decreases steps
  {
    if steps == [] then Some(s)
    else
      match Take(env, f, s, steps[0])
      case None => None
      case Some(t) => RunOf(env, f, t, steps[1..])
  }

  ghost predicate Stuck<S>(env: Env<S>, f: File, s: State<S>) {
    forall step :: Take(env, f, s, step).None?
  }

  // Lines that have changed hands.
  function Received<S>(s: State<S>): int {
    if s.producer.Offering? then s.next - 1 else s.next
  }

  // Lines given to tx.Exec.
  function Attempted<S>(s: State<S>): int {
    if s.consumer.Running? then Received(s) - 1 else Received(s)
  }

  ghost predicate ProducerSound<S>(lines: seq<string>, s: State<S>) {
    && 0 <= Received(s) <= |lines|
    && (s.producer.Offering? && !s.fileClosed ==>
          Received(s) < |lines| && s.producer.line == lines[Received(s)])
    && (s.producer.Closed? && !s.consumer.Returned? ==> s.next == |lines|)
    && (s.fileClosed ==> s.consumer.Returned?)
  }

  // What is still to come, done without interruption, leads to where transact alone leads.
  ghost predicate ConsumerSound<S>(env: Env<S>, lines: seq<string>, w: World<S>, s: State<S>)
    requires ProducerSound(lines, s)
  {
    var k := Received(s);
    match s.consumer
    case Starting => k == 0 && s.world == w
    case Receiving =>
      && s.world.tx.Some? && !w.held
      && Answered(TransactLoop(env, s.world, lines[k..])) == TransactRun(env, w, lines)
    case Running(line) =>
      && k >= 1 && line == lines[k - 1] && s.world.tx.Some? && !w.held
      && Answered(TransactLoop(env, s.world, lines[k - 1..])) == TransactRun(env, w, lines)
    case Returned(ok) =>
      && (s.world, Back(ok)) == TransactRun(env, w, lines) && !w.held
      && (ok ==> s.producer.Closed? && k == |lines|)
  }

  ghost predicate Records<S>(lines: seq<string>, w: World<S>, s: State<S>)
    requires ProducerSound(lines, s)
  {
    && 0 <= Attempted(s)
    && Issued(s.world.trace) == Issued(w.trace) + lines[..Attempted(s)]
    && (!s.consumer.Returned? ==> s.world.committed == w.committed)
  }

  ghost predicate Inv<S>(env: Env<S>, lines: seq<string>, w: World<S>, s: State<S>) {
    ProducerSound(lines, s) && ConsumerSound(env, lines, w, s) && Records(lines, w, s)
  }

  // ---------- one step ----------

  lemma StepAside<S>(env: Env<S>, f: File, w: World<S>, s: State<S>, step: Step)
    requires Inv(env, Delivered(f), w, s) && (step.Scan? || step.ScanEnds? || step.ScanPiece? || step.CloseFile?)
    requires Take(env, f, s, step).Some?
    ensures Inv(env, Delivered(f), w, Take(env, f, s, step).value)
  {
    hide TransactLoop, TransactRun, Issued, Delivered;
  }

  lemma StepOfHandOver<S>(env: Env<S>, f: File, w: World<S>, s: State<S>)
    requires Inv(env, Delivered(f), w, s) && Take(env, f, s, HandOver).Some?
    ensures Inv(env, Delivered(f), w, Take(env, f, s, HandOver).value)
  {
    hide TransactLoop, TransactRun, Issued, Delivered;
  }

  lemma StepOfStart<S>(env: Env<S>, f: File, w: World<S>, s: State<S>)
    requires Inv(env, Delivered(f), w, s) && Take(env, f, s, Start).Some?
    ensures Inv(env, Delivered(f), w, Take(env, f, s, Start).value)
  {
    hide TransactLoop, Issued, Delivered;
    var lines := Delivered(f);
    var v := BeginCall(env, w);
    IssuedSnoc(w.trace, Began(env.fate(w.clock).Served?));
    assert lines[0..] == lines;
    assert Issued(w.trace) + [] == Issued(w.trace);
  }

  lemma StepOfWork<S>(env: Env<S>, f: File, w: World<S>, s: State<S>)
    requires Inv(env, Delivered(f), w, s) && Take(env, f, s, Work).Some?
    ensures Inv(env, Delivered(f), w, Take(env, f, s, Work).value)
  {
    hide TransactRun, Issued, Delivered;
    var lines, k := Delivered(f), Received(s);
    var line, rest := s.consumer.line, lines[k..];
    var (v, reply) := TxExecCall(env, s.world, line);
    assert lines[k - 1..] == [line] + rest;
    assert ([line] + rest)[1..] == rest;
    assert lines[..k] == lines[..k - 1] + [line];
    IssuedSnoc(s.world.trace, v.trace[|s.world.trace|]);
    IssuedSnoc(v.trace, RolledBack);
    assert Issued(w.trace) + lines[..k - 1] + [line] == Issued(w.trace) + lines[..k];
  }

  lemma StepOfFinish<S>(env: Env<S>, f: File, w: World<S>, s: State<S>)
    requires Inv(env, Delivered(f), w, s) && Take(env, f, s, Finish).Some?
    ensures Inv(env, Delivered(f), w, Take(env, f, s, Finish).value)
  {
    hide TransactRun, Issued, Delivered;
    var lines := Delivered(f);
    assert lines[|lines|..] == [];
    var v := CommitCall(env, s.world).0;
    IssuedSnoc(s.world.trace, v.trace[|s.world.trace|]);
  }

  lemma StepKeepsInv<S>(env: Env<S>, f: File, w: World<S>, s: State<S>, step: Step)
    requires Inv(env, Delivered(f), w, s) && Take(env, f, s, step).Some?
    ensures Inv(env, Delivered(f), w, Take(env, f, s, step).value)
  {
    hide Inv, Take, Delivered;
    match step
    case Start => StepOfStart(env, f, w, s);
    case HandOver => StepOfHandOver(env, f, w, s);
    case Work => StepOfWork(env, f, w, s);
    case Finish => StepOfFinish(env, f, w, s);
    case _ => StepAside(env, f, w, s, step);
  }

  lemma {:induction false} RunKeepsInv<S>(env: Env<S>, f: File, w: World<S>, s: State<S>, steps: seq<Step>)
    requires Inv(env, Delivered(f), w, s) && RunOf(env, f, s, steps).Some?
    ensures Inv(env, Delivered(f), w, RunOf(env, f, s, steps).value)
    decreases |steps|
  {
    hide Inv, Take, Delivered;
    if steps != [] {
      StepKeepsInv(env, f, w, s, steps[0]);
      RunKeepsInv(env, f, w, Take(env, f, s, steps[0]).value, steps[1..]);
    }
  }

  lemma InitialInv<S>(env: Env<S>, f: File, w: World<S>)
    ensures Inv(env, Delivered(f), w, Initial(w))
  {
  }

  // ---------- main results ----------

  /** In every interleaving: the statements tried are a prefix of what the scanner delivers, in
      order; until transact returns nothing is committed; and when it returns, the database and the
      answer are those of transact run over what is delivered without any interleaving. */
  lemma EveryInterleaving<S>(env: Env<S>, f: File, w: World<S>, steps: seq<Step>)
    requires RunOf(env, f, Initial(w), steps).Some?
    ensures var s := RunOf(env, f, Initial(w), steps).value;
      var lines := Delivered(f);
      && 0 <= Attempted(s) <= |lines|
      && Issued(s.world.trace) == Issued(w.trace) + lines[..Attempted(s)]
      && (!s.consumer.Returned? ==> s.world.committed == w.committed)
      && (s.consumer.Returned? ==> (s.world, Back(s.consumer.ok)) == TransactRun(env, w, lines))
      && (s.consumer == Returned(true) ==> Attempted(s) == |lines|)
  {
    hide RunOf, TransactRun, TransactLoop, Issued, Delivered;
    InitialInv(env, f, w);
    RunKeepsInv(env, f, w, Initial(w), steps);
  }

  // Only whole lines are delivered, or the delivery ends with a piece.
  lemma DeliveredWhole(f: File)
    ensures Delivered(f) <= f.content <==> !Tears(f)
  {
    if f.torn.Some? {
      assert Delivered(f)[f.whole] == f.torn.value;
    }
  }

  /** A load is all or nothing over what the scanner delivers: when transact returns nil, all of it
      was tried and is committed if the Commit call landed, and otherwise nothing is. Read errors
      are not reported. What was tried is a beginning of the file, in whole lines, if and only if
      the delivery does not end in a torn line. */
  lemma LoadAllOrNothing<S>(env: Env<S>, f: File, w: World<S>, steps: seq<Step>)
    requires RunOf(env, f, Initial(w), steps).Some?
    ensures var s := RunOf(env, f, Initial(w), steps).value;
      var lines := Delivered(f);
      var all := Replay(env, w.committed, lines);
      && (s.consumer != Returned(true) ==> s.world.committed == w.committed)
      && (s.consumer == Returned(true) ==> all.Some?)
      && (s.consumer == Returned(true) ==>
            s.world.committed == if CommitLands(env, w.clock + 1 + |lines|) then all.value else w.committed)
      && (s.consumer == Returned(true) ==> Issued(s.world.trace) == Issued(w.trace) + lines)
      && (lines <= f.content <==> !Tears(f))
  {
    hide RunOf, TransactRun, Replay, Issued, Delivered, Tears;
    EveryInterleaving(env, f, w, steps);
    TransactAllOrNothing(env, w, Delivered(f));
    DeliveredWhole(f);
    assert Delivered(f)[..|Delivered(f)|] == Delivered(f);
  }

  // ---------- loads that get to the end ----------

  lemma {:induction false} RunOfConcat<S>(env: Env<S>, f: File, s: State<S>, a: seq<Step>, b: seq<Step>)
    requires RunOf(env, f, s, a).Some?
    ensures RunOf(env, f, s, a + b) == RunOf(env, f, RunOf(env, f, s, a).value, b)
    decreases |a|
  {
    hide Take;
    if a == [] {
      assert a + b == b;
    } else {
      assert (a + b)[1..] == a[1..] + b;
      RunOfConcat(env, f, Take(env, f, s, a[0]).value, a[1..], b);
    }
  }

  // Between two lines, with the receiver waiting.
  ghost predicate BetweenLines<S>(f: File, s: State<S>) {
    && s.producer.Scanning? && s.consumer.Receiving? && s.world.tx.Some? && !s.fileClosed
    && s.next <= |Delivered(f)|
  }

  // One line goes from the file to the database.
  lemma OneLine<S>(env: Env<S>, f: File, s: State<S>) returns (t: State<S>)
    requires BetweenLines(f, s) && s.next < |Delivered(f)|
    ensures RunOf(env, f, s, [Scan, HandOver, Work]) == Some(t)
    ensures t.next == s.next + 1 && (BetweenLines(f, t) || t.consumer.Returned?)
  {
    hide TxExecCall, RollbackCall, Delivered;
    var s1 := Take(env, f, s, Scan).value;
    var s2 := Take(env, f, s1, HandOver).value;
    t := Take(env, f, s2, Work).value;
    TxExecTicks(env, s2.world, s2.consumer.line);
    TwoSteps(env, f, s, Scan, HandOver);
    RunOfConcat(env, f, s, [Scan, HandOver], [Work]);
    assert [Scan, HandOver] + [Work] == [Scan, HandOver, Work];
    hide Take;
    assert [Work][1..] == [];
  }

  lemma {:induction false} RestReturns<S>(env: Env<S>, f: File, s: State<S>) returns (steps: seq<Step>)
    requires BetweenLines(f, s)
    ensures RunOf(env, f, s, steps).Some? && RunOf(env, f, s, steps).value.consumer.Returned?
    decreases |Delivered(f)| - s.next
  {
    if s.next == |Delivered(f)| {
      steps := [ScanEnds, Finish];
      TwoSteps(env, f, s, ScanEnds, Finish);
    } else {
      steps := [Scan, HandOver, Work];
      var t := OneLine(env, f, s);
      if !t.consumer.Returned? {
        var more := RestReturns(env, f, t);
        RunOfConcat(env, f, s, steps, more);
        steps := steps + more;
      }
    }
  }

  /** Every load can get to the end: over every file and database there is an interleaving in which
      transact comes back, unless the connection is held. */
  lemma LoadReturns<S>(env: Env<S>, f: File, w: World<S>) returns (steps: seq<Step>)
    requires !w.held
    ensures RunOf(env, f, Initial(w), steps).Some?
    ensures RunOf(env, f, Initial(w), steps).value.consumer.Returned?
  {
    hide Delivered;
    steps := [Start];
    var s := Take(env, f, Initial(w), Start).value;
    assert [Start][1..] == [];
    assert RunOf(env, f, Initial(w), steps) == Some(s);
    if s.consumer.Receiving? {
      var more := RestReturns(env, f, s);
      RunOfConcat(env, f, Initial(w), steps, more);
      steps := steps + more;
    }
  }

  const INSERT_LINE := "INSERT;"
  const DELETE_LINE := "DELETE FROM t WHERE id = 1;"
  const DELETE_PIECE := "DELETE FROM t"

  // A read error in the middle of the second of two lines.
  const TORN_FILE: File := Reading([INSERT_LINE, DELETE_LINE], 1, Some(DELETE_PIECE))

  /** A torn statement is committed: on a database that takes everything, a load of this file can
      come back with nil and the piece of the second line done as a statement of its own. */
  lemma TornStatementIsCommitted<S(!new)>(env: Env<S>, w: World<S>) returns (steps: seq<Step>)
    requires Healthy(env) && !w.held
    ensures RunOf(env, TORN_FILE, Initial(w), steps).Some?
    ensures var s := RunOf(env, TORN_FILE, Initial(w), steps).value;
      && s.consumer == Returned(true)
      && Issued(s.world.trace) == Issued(w.trace) + [INSERT_LINE, DELETE_PIECE]
      && Some(s.world.committed) == Replay(env, w.committed, [INSERT_LINE, DELETE_PIECE])
  {
    assert DELETE_PIECE <= DELETE_LINE;
    var lines := [INSERT_LINE, DELETE_PIECE];
    assert Delivered(TORN_FILE) == lines;
    hide RunOf, Issued, Replay, Delivered, TransactRun;
    steps := LoadReturns(env, TORN_FILE, w);
    EveryInterleaving(env, TORN_FILE, w, steps);
    LoadAllOrNothing(env, TORN_FILE, w, steps);
    HealthyTransact(env, w, lines);
    assert env.fate(w.clock + 1 + |lines|).Served?;
  }

  lemma {:induction false} HealthyTransactLoop<S(!new)>(env: Env<S>, w: World<S>, lines: seq<string>)
    requires Healthy(env) && w.tx.Some?
    ensures TransactLoop(env, w, lines).1
    decreases |lines|
  {
    if lines != [] {
      assert env.fate(w.clock).Served? && env.apply(w.tx.value, lines[0]).Some?;
      HealthyTransactLoop(env, TxExecCall(env, w, lines[0]).0, lines[1..]);
    }
  }

  lemma HealthyTransact<S(!new)>(env: Env<S>, w: World<S>, lines: seq<string>)
    requires Healthy(env) && !w.held
    ensures TransactRun(env, w, lines).1 == Back(true)
  {
    assert env.fate(w.clock).Served?;
    HealthyTransactLoop(env, BeginCall(env, w), lines);
  }

  // ---------- how runs end ----------

  /** How runs end. Unless the connection is held at the start, and transact waits for it for ever,
      no run gets stuck before transact is back and the file is closed. The goroutine is then left
      blocked on its send exactly when it has scanned one line more than were tried; otherwise it
      has closed the channel. After a load that returned nil it has closed, with every line tried. */
  lemma HowRunsEnd<S>(env: Env<S>, f: File, w: World<S>, steps: seq<Step>)
    requires RunOf(env, f, Initial(w), steps).Some?
    requires Stuck(env, f, RunOf(env, f, Initial(w), steps).value)
    ensures var s := RunOf(env, f, Initial(w), steps).value;
      var tried := |Issued(s.world.trace)| - |Issued(w.trace)|;
      && (w.held <==> s.consumer.Starting?)
      && (!w.held ==> s.consumer.Returned? && s.fileClosed)
      && (s.producer.Offering? <==> s.next == tried + 1)
      && (s.producer.Closed? <==> s.next == tried)
      && (s.consumer == Returned(true) ==> s.producer.Closed? && tried == |Delivered(f)|)
  {
    var s := RunOf(env, f, Initial(w), steps).value;
    InitialInv(env, f, w);
    RunKeepsInv(env, f, w, Initial(w), steps);
    hide RunOf, TransactLoop, TransactRun, Issued, Delivered;
    assert Take(env, f, s, Scan).None? && Take(env, f, s, ScanEnds).None?;
    assert Take(env, f, s, Start).None? && Take(env, f, s, HandOver).None?;
    assert Take(env, f, s, Work).None? && Take(env, f, s, Finish).None?;
    assert Take(env, f, s, CloseFile).None?;
  }

  /** After an error both endings happen, by which comes first: a goroutine that is about to scan
      with lines left is blocked for ever if it scans before the file is closed, and it is gone,
      with lines never received, if its scan fails on the closed file. */
  lemma BothEndingsHappen<S>(env: Env<S>, f: File, s: State<S>)
    requires s.consumer == Returned(false) && s.producer.Scanning? && !s.fileClosed
    requires s.next < |Delivered(f)|
    ensures var blocked, gone := RunOf(env, f, s, [Scan, CloseFile]), RunOf(env, f, s, [CloseFile, ScanEnds]);
      && blocked.Some? && blocked.value.producer.Offering? && Stuck(env, f, blocked.value)
      && gone.Some? && gone.value.producer.Closed? && Stuck(env, f, gone.value)
      && Received(gone.value) == s.next < |Delivered(f)|
  {
    hide Delivered;
    TwoSteps(env, f, s, Scan, CloseFile);
    TwoSteps(env, f, s, CloseFile, ScanEnds);
  }

  lemma TwoSteps<S>(env: Env<S>, f: File, s: State<S>, a: Step, b: Step)
    requires Take(env, f, s, a).Some?
    ensures RunOf(env, f, s, [a, b]) == Take(env, f, Take(env, f, s, a).value, b)
  {
    hide Take;
    var t := Take(env, f, s, a).value;
    assert [a, b][1..] == [b] && [b][1..] == [];
    assert RunOf(env, f, s, [a, b]) == RunOf(env, f, t, [b]);
    assert RunOf(env, f, t, [b]) == Take(env, f, t, b);
  }

  /** Such a state is reached on every file with a line, when the database refuses the Begin. */
  lemma RefusedBeginReachesBoth<S>(env: Env<S>, f: File, w: World<S>)
    requires !w.held && !env.fate(w.clock).Served? && |Delivered(f)| > 0
    ensures var s := RunOf(env, f, Initial(w), [Start]);
      && s.Some? && s.value.consumer == Returned(false) && s.value.producer.Scanning?
      && !s.value.fileClosed && s.value.next < |Delivered(f)|
  {
    assert [Start][1..] == [];
  }

  // Every step uses some of this up.
  function Budget<S>(f: File, s: State<S>): int {
    var p := match s.producer
             case Scanning => 1
             case Offering(_) => 3
             case Closed => 0;
    var c := match s.consumer
             case Starting => 2
             case Receiving => 1
             case Running(_) => 2
             case Returned(_) => 0;
    3 * (|Delivered(f)| - s.next) + p + c + if s.fileClosed then 0 else 1
  }

  ghost predicate BudgetSound<S>(f: File, s: State<S>) {
    && Received(s) <= |Delivered(f)|
    && (s.next <= |Delivered(f)| || s.fileClosed)
    && (s.fileClosed ==> s.consumer.Returned?)
  }

  lemma {:induction false} RunUsesBudget<S>(env: Env<S>, f: File, s: State<S>, steps: seq<Step>)
    requires BudgetSound(f, s) && RunOf(env, f, s, steps).Some?
    ensures var t := RunOf(env, f, s, steps).value;
      BudgetSound(f, t) && |steps| + Budget(f, t) <= Budget(f, s)
    decreases |steps|
  {
    hide BeginCall, TxExecCall, CommitCall, RollbackCall, Delivered;
    if steps != [] {
      RunUsesBudget(env, f, Take(env, f, s, steps[0]).value, steps[1..]);
    }
  }

  /** Every run ends: over n lines to deliver no interleaving has more than 3n + 4 steps. */
  lemma EveryRunEnds<S>(env: Env<S>, f: File, w: World<S>, steps: seq<Step>)
    requires RunOf(env, f, Initial(w), steps).Some?
    ensures |steps| <= 3 * |Delivered(f)| + 4
  {
    hide RunOf;
    RunUsesBudget(env, f, Initial(w), steps);
  }
}
