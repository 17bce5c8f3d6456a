/** What whole runs of Batch keep: the shape of the statements it sends, the fate of every
    line, the committed state, and the cost of retrying. */
module Semantics {
  import opened Text
  import opened Lines
  import opened Sql
  import opened Retry
  import opened Batch

  // ---------- parsing and performing come apart ----------

  /** Batch does both in one loop; it comes to parsing all lines and performing the commands. */
  lemma {:induction false} RunIsParseThenPerform<S>(env: Env<S>, w: World<S>, p: Parser, lines: seq<string>)
    ensures var run := RunLines(env, w, p, lines);
      var (q, cmds) := Parse(p, lines);
      var c := PerformAll(env, w, cmds);
      && run.world == c.world && run.stop == c.stop
      && (run.stop.None? ==> run.parser == q && run.unread == [])
    decreases |lines|
  {
    hide Feed, Perform;
    if lines != [] {
      var (q, cmd) := Feed(p, lines[0]);
      var (r, cmds) := Parse(q, lines[1..]);
      if cmd.None? {
        RunIsParseThenPerform(env, w, q, lines[1..]);
        assert ListOf(cmd) + cmds == cmds;
      } else {
        assert (ListOf(cmd) + cmds)[0] == cmd.value && (ListOf(cmd) + cmds)[1..] == cmds;
        RunIsParseThenPerform(env, Perform(env, w, cmd.value).0, q, lines[1..]);
      }
    }
  }

  lemma PerformAllCons<S>(env: Env<S>, w: World<S>, c: Command, cmds: seq<Command>)
    ensures var (v, stop) := Perform(env, w, c);
      PerformAll(env, w, [c] + cmds) == if stop.Some? then Course(v, stop, cmds) else PerformAll(env, v, cmds)
  {
    hide Perform;
    assert ([c] + cmds)[1..] == cmds;
  }

  // ---------- where statements end ----------

  // Outside a trigger body no terminator is ever left in the buffer.
  ghost predicate Sane(p: Parser) {
    !p.trigger ==> forall l | l in p.pending :: ';' !in l
  }

  // Only the end of a trigger, or a one-line trigger, can complete a statement that has a
  // terminator before its last line.
  ghost predicate Shaped(cmd: Command) {
    && cmd.lines != []
    && var last := cmd.lines[|cmd.lines| - 1];
       match cmd
       case Begin(_) => StartsWith(last, BEGIN_LINE)
       case Commit(_) => StartsWith(last, COMMIT_LINE)
       case Send(ls) =>
         && ';' in last
         && !StartsWith(last, BEGIN_LINE) && !StartsWith(last, COMMIT_LINE)
         && ((exists l | l in ls[..|ls| - 1] :: ';' in l) ==>
               StartsWith(last, END_LINE) || StartsWith(last, TRIGGER_LINE))
  }

  lemma FeedShape(p: Parser, line: string)
    requires Sane(p)
    ensures Sane(Feed(p, line).0)
    ensures Feed(p, line).1.Some? ==> Shaped(Feed(p, line).1.value) && Feed(p, line).0.pending == []
  {
    if StartsWith(line, END_LINE) {
      EndHasTerminator(line);
    }
    hide StartsWith;
    var pending := p.pending + [line];
    assert pending[..|pending| - 1] == p.pending;
  }

  /** An END; line completes a statement with everything in the buffer, in whatever state the
      parser is, and leaves the parser as it started. */
  lemma EndAlwaysSends(p: Parser, line: string)
    requires StartsWith(line, END_LINE)
    ensures Feed(p, line) == (START, Some(Send(p.pending + [line])))
  {
    KeywordIsOne(line);
    EndHasTerminator(line);
  }

  lemma {:induction false} ParseShape(p: Parser, lines: seq<string>)
    requires Sane(p)
    ensures Sane(Parse(p, lines).0)
    ensures forall cmd | cmd in Parse(p, lines).1 :: Shaped(cmd)
    decreases |lines|
  {
    if lines != [] {
      FeedShape(p, lines[0]);
      ParseShape(Feed(p, lines[0]).0, lines[1..]);
    }
  }

  /** In every state Batch can reach, an unset trigger flag means that no line in the buffer
      holds a terminator; and every statement it sends ends in a line with a terminator, holding
      an earlier one only if an END; or CREATE TRIGGER line completed it. */
  lemma TerminatorInvariant(lines: seq<string>)
    ensures var (p, cmds) := Parse(START, lines);
      && (!p.trigger ==> forall l | l in p.pending :: ';' !in l)
      && forall cmd | cmd in cmds :: Shaped(cmd)
  {
    ParseShape(START, lines);
  }

  // ---------- where lines go ----------

  // The lines used up by commands, in order.
  function Spell(cmds: seq<Command>): seq<string> {
    if cmds == [] then [] else cmds[0].lines + Spell(cmds[1..])
  }

  // The statements among the commands, in order.
  function Statements(cmds: seq<Command>): seq<string> {
    if cmds == [] then []
    else (if cmds[0].Send? then [Glue(cmds[0].lines)] else []) + Statements(cmds[1..])
  }

  // The statements a trace shows as handed to the database, retries not repeated.
  function IssuedBy(e: Entry): seq<string> {
    match e
    case InTx(s, _, _) => [s]
    case Sent(s) => [s]
    case Queried(s) => [s]
    case _ => []
  }

  function Issued(trace: seq<Entry>): seq<string> {
    if trace == [] then [] else Issued(trace[..|trace| - 1]) + IssuedBy(trace[|trace| - 1])
  }

  lemma IssuedSnoc(trace: seq<Entry>, e: Entry)
    ensures Issued(trace + [e]) == Issued(trace) + IssuedBy(e)
  {
    assert (trace + [e])[..|trace|] == trace;
  }

  // The commands that were begun, the one that stopped the run included.
  function Performed<S>(env: Env<S>, w: World<S>, cmds: seq<Command>): seq<Command>
    decreases cmds
  {
    if cmds == [] then []
    else
      var (v, stop) := Perform(env, w, cmds[0]);
      [cmds[0]] + if stop.Some? then [] else Performed(env, v, cmds[1..])
  }

  lemma {:induction false} LoopIssuesNothing<S>(env: Env<S>, w: World<S>, stmt: string, i: nat, delay: nat)
    requires i <= RETRY_LIMIT
    ensures Issued(ExecLoop(env, w, stmt, i, delay).0.trace) == Issued(w.trace)
    decreases RETRY_LIMIT - i
  {
    hide Issued;
    if i < RETRY_LIMIT {
      var (v, reply) := ExecCall(env, w, stmt);
      IssuedSnoc(w.trace, v.trace[|w.trace|]);
      IssuedSnoc(v.trace, Slept(delay));
      if reply.Broken? {
        LoopIssuesNothing(env, Note(v, Slept(delay)), stmt, i + 1, delay + delay);
      }
    }
  }

  lemma ExecIssues<S>(env: Env<S>, w: World<S>, stmt: string)
    ensures Issued(ExecStatement(env, w, stmt).0.trace) == Issued(w.trace) + [stmt]
  {
    hide Issued, ExecLoop;
    IssuedSnoc(w.trace, Sent(stmt));
    if !env.disabled(w.clock) {
      LoopIssuesNothing(env, Note(w, Sent(stmt)), stmt, 0, 1);
    }
  }

  lemma PerformIssues<S>(env: Env<S>, w: World<S>, cmd: Command)
    ensures Issued(Perform(env, w, cmd).0.trace) == Issued(w.trace) + if cmd.Send? then [Glue(cmd.lines)] else []
  {
    hide Issued, ExecStatement, StartsWith, Glue;
    var v := Perform(env, w, cmd).0;
    match cmd {
      case Begin(_) =>
        if !w.held {
          IssuedSnoc(w.trace, v.trace[|w.trace|]);
        }
      case Commit(_) =>
        if w.tx.Some? {
          IssuedSnoc(w.trace, v.trace[|w.trace|]);
        }
      case Send(lines) =>
        var stmt := Glue(lines);
        if StartsWith(stmt, SELECT_WORD) {
          IssuedSnoc(w.trace, Queried(stmt));
        } else if w.tx.Some? {
          IssuedSnoc(w.trace, v.trace[|w.trace|]);
        } else {
          ExecIssues(env, w, stmt);
        }
    }
  }

  lemma {:induction false} PerformAllIssues<S>(env: Env<S>, w: World<S>, cmds: seq<Command>)
    ensures Issued(PerformAll(env, w, cmds).world.trace)
      == Issued(w.trace) + Statements(Performed(env, w, cmds))
    decreases |cmds|
  {
    hide Issued, Perform, Glue;
    if cmds != [] {
      var (v, stop) := Perform(env, w, cmds[0]);
      PerformIssues(env, w, cmds[0]);
      var later := if stop.Some? then [] else Performed(env, v, cmds[1..]);
      assert Performed(env, w, cmds)[1..] == later;
      if stop.None? {
        PerformAllIssues(env, v, cmds[1..]);
      }
    }
  }

  // A line joins the buffer, or takes the whole buffer with it in a command.
  lemma FeedSpells(p: Parser, line: string)
    ensures var (q, cmd) := Feed(p, line);
      && (cmd.None? ==> q.pending == p.pending + [line])
      && (cmd.Some? ==> cmd.value.lines == p.pending + [line] && q.pending == [])
  {
    hide StartsWith;
  }

  lemma PerformedCons<S>(env: Env<S>, w: World<S>, c: Command, cmds: seq<Command>)
    ensures var (v, stop) := Perform(env, w, c);
      var later := if stop.Some? then [] else Performed(env, v, cmds);
      Spell(Performed(env, w, [c] + cmds)) == c.lines + Spell(later)
  {
    hide Perform;
    var (v, stop) := Perform(env, w, c);
    assert ([c] + cmds)[1..] == cmds;
    var later := if stop.Some? then [] else Performed(env, v, cmds);
    assert ([c] + later)[1..] == later;
  }

  // The buffer and the lines come back as lines of commands, lines left, lines unread.
  ghost predicate Conserved<S>(env: Env<S>, w: World<S>, p: Parser, lines: seq<string>) {
    var run := RunLines(env, w, p, lines);
    var left := if run.stop.None? then run.parser.pending else [];
    p.pending + lines == Spell(Performed(env, w, Parse(p, lines).1)) + (left + run.unread)
  }

  lemma ParseStep(p: Parser, line: string, rest: seq<string>)
    ensures var (q, cmd) := Feed(p, line);
      Parse(p, [line] + rest).1 == ListOf(cmd) + Parse(q, rest).1
  {
    assert ([line] + rest)[1..] == rest;
  }

  lemma ConservedPending<S>(env: Env<S>, w: World<S>, p: Parser, line: string, rest: seq<string>)
    requires Feed(p, line).1.None?
    requires Conserved(env, w, Feed(p, line).0, rest)
    ensures Conserved(env, w, p, [line] + rest)
  {
    hide RunLines, Parse, Spell, Performed, Feed, Perform;
    var q, cmd := RunStep(env, w, p, line, rest);
    ParseStep(p, line, rest);
    FeedSpells(p, line);
    assert ListOf(cmd) + Parse(q, rest).1 == Parse(q, rest).1;
    assert p.pending + ([line] + rest) == (p.pending + [line]) + rest;
  }

  lemma ConservedCommand<S>(env: Env<S>, w: World<S>, p: Parser, line: string, rest: seq<string>)
    requires Feed(p, line).1.Some?
    requires var (v, stop) := Perform(env, w, Feed(p, line).1.value);
      stop.None? ==> Conserved(env, v, Feed(p, line).0, rest)
    ensures Conserved(env, w, p, [line] + rest)
  {
    hide RunLines, Parse, Spell, Performed, Feed, Perform;
    var q, cmd := RunStep(env, w, p, line, rest);
    ParseStep(p, line, rest);
    FeedSpells(p, line);
    PerformedCons(env, w, cmd.value, Parse(q, rest).1);
    SpellNone();
    assert p.pending + ([line] + rest) == cmd.value.lines + rest;
    assert q.pending + rest == rest;
    var (v, stop) := Perform(env, w, cmd.value);
    if stop.Some? {
      assert cmd.value.lines + rest == (cmd.value.lines + []) + ([] + rest);
    } else {
      var run := RunLines(env, v, q, rest);
      var tail := (if run.stop.None? then run.parser.pending else []) + run.unread;
      var spelled := Spell(Performed(env, v, Parse(q, rest).1));
      assert rest == spelled + tail;
      assert cmd.value.lines + (spelled + tail) == (cmd.value.lines + spelled) + tail;
    }
  }

  lemma {:induction false} LinesConserved<S>(env: Env<S>, w: World<S>, p: Parser, lines: seq<string>)
    ensures Conserved(env, w, p, lines)
    decreases |lines|
  {
    if lines == [] {
      assert p.pending + lines == [] + (p.pending + []);
    } else {
      hide Conserved, Feed, Perform;
      var line, rest := lines[0], lines[1..];
      var (q, cmd) := Feed(p, line);
      assert lines == [line] + rest;
      if cmd.None? {
        LinesConserved(env, w, q, rest);
        ConservedPending(env, w, p, line, rest);
      } else {
        var (v, stop) := Perform(env, w, cmd.value);
        if stop.None? {
          LinesConserved(env, v, q, rest);
        }
        ConservedCommand(env, w, p, line, rest);
      }
    }
  }

  lemma SpellNone()
    ensures Spell([]) == []
  {
  }

  /** No line is lost, repeated or moved: for every script and every course of events the lines
      are, in order, those of the commands performed, those left in the buffer at the end, and
      those behind an error; and the statements handed to the database are, in order and once
      each, the commands' own lines. */
  lemma ScriptConserved<S>(env: Env<S>, w: World<S>, buffer: string) returns (done: seq<Command>)
    ensures var run := RunScript(env, w, buffer);
      var left := if run.stop.None? then run.parser.pending else [];
      && done <= Parse(START, ScriptLines(buffer)).1
      && ScriptLines(buffer) == Spell(done) + (left + run.unread)
      && Issued(run.world.trace) == Issued(w.trace) + Statements(done)
      && forall cmd | cmd in done :: Shaped(cmd)
  {
    var lines, u := ScriptLines(buffer), w.(tx := None);
    done := Performed(env, u, Parse(START, lines).1);
    LinesConserved(env, u, START, lines);
    assert START.pending + lines == lines;
    RunIsParseThenPerform(env, u, START, lines);
    PerformAllIssues(env, u, Parse(START, lines).1);
    ParseShape(START, lines);
    PerformedIsPrefix(env, u, Parse(START, lines).1);
  }

  lemma {:induction false} PerformedIsPrefix<S>(env: Env<S>, w: World<S>, cmds: seq<Command>)
    ensures Performed(env, w, cmds) <= cmds
    decreases |cmds|
  {
    hide Perform;
    if cmds != [] {
      var (v, stop) := Perform(env, w, cmds[0]);
      if stop.None? {
        PerformedIsPrefix(env, v, cmds[1..]);
        assert cmds == [cmds[0]] + cmds[1..];
      }
    }
  }

  // ---------- what retrying costs ----------

  ghost predicate WithinBudget(before: Meter, after: Meter, gaveUp: bool) {
    && before.sent <= after.sent
    && var n := after.sent - before.sent;
    && after.attempts <= before.attempts + 10 * n
    && (gaveUp ==> n >= 1 && after.slept <= before.slept + 511 * (n - 1) + 1023)
    && (!gaveUp ==> after.slept <= before.slept + 511 * n)
  }

  predicate RanOut(stop: Option<Stop>) {
    stop.Some? && stop.value.ExecFailed? && stop.value.verdict.GaveUp?
  }

  lemma PerformBudget<S>(env: Env<S>, w: World<S>, cmd: Command)
    ensures var (v, stop) := Perform(env, w, cmd);
      WithinBudget(Read(w.trace), Read(v.trace), RanOut(stop))
  {
    hide Read, ExecStatement, StartsWith, Glue;
    var v := Perform(env, w, cmd).0;
    match cmd {
      case Begin(_) =>
        if !w.held {
          ReadSnoc(w.trace, v.trace[|w.trace|]);
        }
      case Commit(_) =>
        if w.tx.Some? {
          ReadSnoc(w.trace, v.trace[|w.trace|]);
        }
      case Send(lines) =>
        var stmt := Glue(lines);
        if StartsWith(stmt, SELECT_WORD) {
          ReadSnoc(w.trace, Queried(stmt));
        } else if w.tx.Some? {
          ReadSnoc(w.trace, v.trace[|w.trace|]);
        } else {
          ExecMeasure(env, w, stmt);
        }
    }
  }

  lemma {:induction false} PerformAllBudget<S>(env: Env<S>, w: World<S>, cmds: seq<Command>)
    ensures var c := PerformAll(env, w, cmds);
      WithinBudget(Read(w.trace), Read(c.world.trace), RanOut(c.stop))
    decreases |cmds|
  {
    hide Read, Perform;
    if cmds != [] {
      var (v, stop) := Perform(env, w, cmds[0]);
      PerformBudget(env, w, cmds[0]);
      if stop.None? {
        PerformAllBudget(env, v, cmds[1..]);
      }
    }
  }

  /** A script that hands n statements to exec makes at most 10n attempts. It sleeps at most
      511n milliseconds, unless the last of them is given up: then at most 511(n-1) + 1023. */
  lemma ScriptBudget<S>(env: Env<S>, w: World<S>, buffer: string)
    ensures var run := RunScript(env, w, buffer);
      WithinBudget(Read(w.trace), Read(run.world.trace), RanOut(run.stop))
  {
    var u := w.(tx := None);
    RunIsParseThenPerform(env, u, START, ScriptLines(buffer));
    PerformAllBudget(env, u, Parse(START, ScriptLines(buffer)).1);
  }
}
