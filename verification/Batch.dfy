/** DBX.Batch as a state machine over the lines of a script (db.go, DBX.Batch), and the methods
    Exec and Batch of DBX themselves. */
module Batch {
  import opened Text
  import opened Comments
  import opened Lines
  import opened Sql
  import opened Retry

  const BEGIN_LINE := "BEGIN TRANSACTION"
  const COMMIT_LINE := "COMMIT;"
  const TRIGGER_LINE := "CREATE TRIGGER"
  const END_LINE := "END;"
  const SELECT_WORD := "SELECT"

  // ---------- what the lines say ----------

  // The lines in the statement buffer, and the flag that is set inside a trigger body.
  datatype Parser = Parser(pending: seq<string>, trigger: bool)

  const START := Parser([], false)

  // A step the loader takes towards the database, with the lines it uses up.
  datatype Command =
    | Begin(lines: seq<string>)
    | Commit(lines: seq<string>)
    | Send(lines: seq<string>)

  // The two switches of Batch's loop body, up to the point where a statement is complete.
  function Feed(p: Parser, line: string): (Parser, Option<Command>) {
    var pending := p.pending + [line];
    if StartsWith(line, BEGIN_LINE) then
      (Parser([], p.trigger), Some(Begin(pending)))
    else if StartsWith(line, COMMIT_LINE) then
      (Parser([], p.trigger), Some(Commit(pending)))
    else if StartsWith(line, TRIGGER_LINE) then
      if ';' !in line then (Parser(pending, true), None)
      else (Parser([], p.trigger), Some(Send(pending)))
    else if StartsWith(line, END_LINE) then
      if ';' !in line then (Parser(pending, false), None)
      else (Parser([], false), Some(Send(pending)))
    else if p.trigger then
      (Parser(pending, true), None)
    else if ';' !in line then
      (Parser(pending, false), None)
    else
      (Parser([], false), Some(Send(pending)))
  }

  lemma KeywordIsOne(line: string)
    ensures StartsWith(line, COMMIT_LINE) ==> !StartsWith(line, BEGIN_LINE)
    ensures StartsWith(line, TRIGGER_LINE) ==>
      !StartsWith(line, BEGIN_LINE) && !StartsWith(line, COMMIT_LINE) && !StartsWith(line, SELECT_WORD)
    ensures StartsWith(line, END_LINE) ==>
      !StartsWith(line, BEGIN_LINE) && !StartsWith(line, COMMIT_LINE) && !StartsWith(line, TRIGGER_LINE)
  {
    hide StartsWith;
    if StartsWith(line, COMMIT_LINE) {
      KeywordsExclude(line, COMMIT_LINE, BEGIN_LINE, 0);
    }
    if StartsWith(line, TRIGGER_LINE) {
      KeywordsExclude(line, TRIGGER_LINE, BEGIN_LINE, 0);
      KeywordsExclude(line, TRIGGER_LINE, COMMIT_LINE, 1);
      KeywordsExclude(line, TRIGGER_LINE, SELECT_WORD, 0);
    }
    if StartsWith(line, END_LINE) {
      KeywordsExclude(line, END_LINE, BEGIN_LINE, 0);
      KeywordsExclude(line, END_LINE, COMMIT_LINE, 0);
      KeywordsExclude(line, END_LINE, TRIGGER_LINE, 0);
    }
  }

  lemma EndHasTerminator(line: string)
    requires StartsWith(line, END_LINE)
    ensures ';' in line
  {
    assert END_LINE[3] == ';';
    KeywordSemicolon(line, END_LINE);
  }

  function ListOf<T>(x: Option<T>): seq<T> {
    match x
    case None => []
    case Some(v) => [v]
  }

  // All the commands of a list of lines, were none of them to fail.
  function Parse(p: Parser, lines: seq<string>): (Parser, seq<Command>)
    decreases lines
  {
    if lines == [] then (p, [])
    else
      var (q, cmd) := Feed(p, lines[0]);
      var (r, cmds) := Parse(q, lines[1..]);
      (r, ListOf(cmd) + cmds)
  }

  // ---------- what the commands do ----------

  /** Why Batch got no further. NilCommit is the nil dereference of a COMMIT; line without an
      open transaction. Waits is a call that never returns, because the one connection is held by
      a transaction, most often Batch's own. */
  datatype Stop =
    | NoBegin
    | NoCommit
    | NilCommit
    | Waits
    | TxFailed(stmt: string)
    | ExecFailed(stmt: string, verdict: Verdict)

  /** A statement goes to query, to the open transaction, or to exec. Query reads the breaker
      before it asks for the connection, and Batch ignores its error. */
  function SendStatement<S>(env: Env<S>, w: World<S>, stmt: string): (World<S>, Option<Stop>) {
    if StartsWith(stmt, SELECT_WORD) then
      (Note(w, Queried(stmt)), if w.held && !env.disabled(w.clock) then Some(Waits) else None)
    else if w.tx.Some? then
      var (v, reply) := TxExecCall(env, w, stmt);
      (v, if reply.Done? then None else Some(TxFailed(stmt)))
    else
      var (v, verdict) := ExecStatement(env, w, stmt);
      (v, if verdict.Ok? then None
          else if verdict.Waiting? then Some(Waits)
          else Some(ExecFailed(stmt, verdict)))
  }

  function Perform<S>(env: Env<S>, w: World<S>, cmd: Command): (World<S>, Option<Stop>) {
    match cmd
    case Begin(_) =>
      if w.held then (w, Some(Waits))
      else
        var v := BeginCall(env, w);
        (v, if v.tx.Some? then None else Some(NoBegin))
    case Commit(_) =>
      if w.tx.None? then (w, Some(NilCommit))
      else
        var (v, ok) := CommitCall(env, w);
        (v, if ok then None else Some(NoCommit))
    case Send(lines) => SendStatement(env, w, Glue(lines))
  }

  // Commands one after the other, up to the first that stops; rest is what was not reached.
  datatype Course<S> = Course(world: World<S>, stop: Option<Stop>, rest: seq<Command>)

  function PerformAll<S>(env: Env<S>, w: World<S>, cmds: seq<Command>): Course<S>
    decreases cmds
  {
    if cmds == [] then Course(w, None, [])
    else
      var (v, stop) := Perform(env, w, cmds[0]);
      if stop.Some? then Course(v, stop, cmds[1..]) else PerformAll(env, v, cmds[1..])
  }

  // ---------- the two together ----------

  datatype Run<S> = Run(world: World<S>, parser: Parser, unread: seq<string>, stop: Option<Stop>)

  // Batch's loop, one line at a time, parsing and performing in the same turn.
  function RunLines<S>(env: Env<S>, w: World<S>, p: Parser, lines: seq<string>): Run<S>
    decreases lines
  {
    if lines == [] then Run(w, p, [], None)
    else
      var (q, cmd) := Feed(p, lines[0]);
      match cmd
      case None => RunLines(env, w, q, lines[1..])
      case Some(c) =>
        var (v, stop) := Perform(env, w, c);
        if stop.Some? then Run(v, q, lines[1..], stop) else RunLines(env, v, q, lines[1..])
  }

  // One call of Batch; the handle tx starts as nil.
  function RunScript<S>(env: Env<S>, w: World<S>, buffer: string): Run<S> {
    RunLines(env, w.(tx := None), START, ScriptLines(buffer))
  }

  lemma {:induction false} GlueSnoc(lines: seq<string>, line: string)
    ensures Glue(lines + [line]) == Glue(lines) + line + "\n"
    decreases |lines|
  {
    if lines == [] {
      assert [line][1..] == [];
    } else {
      assert (lines + [line])[1..] == lines[1..] + [line];
      GlueSnoc(lines[1..], line);
    }
  }

  // One line: either it only moves the parser on, or it completes a command.
  lemma RunStep<S>(env: Env<S>, w: World<S>, p: Parser, line: string, rest: seq<string>)
    returns (q: Parser, cmd: Option<Command>)
    ensures Feed(p, line) == (q, cmd)
    ensures cmd.None? ==> RunLines(env, w, p, [line] + rest) == RunLines(env, w, q, rest)
    ensures cmd.Some? ==>
      var (v, stop) := Perform(env, w, cmd.value);
      RunLines(env, w, p, [line] + rest) == if stop.Some? then Run(v, q, rest, stop) else RunLines(env, v, q, rest)
    ensures cmd.Some? ==> Glue(q.pending) == ""
    ensures cmd.Some? ==> cmd.value.lines == p.pending + [line]
    ensures cmd.None? ==> q.pending == p.pending + [line]
  {
    assert ([line] + rest)[1..] == rest;
    q, cmd := Feed(p, line).0, Feed(p, line).1;
  }

  lemma RunEnd<S>(env: Env<S>, w: World<S>, p: Parser, lines: seq<string>)
    ensures RunLines(env, w, p, Tidy(lines[|lines|..])) == Run(w, p, [], None)
  {
  }

  lemma TidyStep(lines: seq<string>, i: nat)
    requires i < |lines|
    ensures Tidy(lines[i..]) ==
      if Trim(lines[i]) == "" then Tidy(lines[i + 1..]) else [Trim(lines[i])] + Tidy(lines[i + 1..])
  {
    assert lines[i..][1..] == lines[i + 1..];
  }

  /** DBX */
  class DBX<S> {
    const db: DB<S>

    constructor (db: DB<S>)
      ensures this.db == db
    {
      this.db := db;
    }

    method Exec(query: string) returns (verdict: Verdict)
      modifies db
      ensures (db.Snap(null), verdict) == ExecStatement(db.env, old(db.Snap(null)), query)
    {
      var disabled := db.env.disabled(db.clock);
      db.Record(Sent(query));
      if disabled {
        return Unavailable;
      }
      if db.held {
        return Waiting;
      }
      var delay := 1;
      ghost var w := db.Snap(null);
      for i := 0 to RETRY_LIMIT
        invariant !db.held
        invariant ExecLoop(db.env, w, query, 0, 1) == ExecLoop(db.env, db.Snap(null), query, i, delay)
      {
        var reply := db.Exec(query);
        if reply.Done? {
          return Ok;
        }
        if reply.Rejected? {
          return SqlError;
        }
        db.Record(Slept(delay));
        delay := delay + delay;
      }
      return GaveUp;
    }

    // The second switch of the loop body: who gets a complete statement.
    method Deliver(tx: Tx?<S>, stmt: string) returns (stop: Option<Stop>)
      requires tx != null ==> tx.db == db
      modifies db, tx
      ensures (db.Snap(tx), stop) == SendStatement(db.env, old(db.Snap(tx)), stmt)
    {
      if StartsWith(stmt, SELECT_WORD) {
        db.Record(Queried(stmt));
        if db.held && !db.env.disabled(db.clock) {
          return Some(Waits);
        }
      } else if tx != null {
        var reply := tx.Exec(stmt);
        if !reply.Done? {
          return Some(TxFailed(stmt));
        }
      } else {
        var verdict := Exec(stmt);
        if verdict.Waiting? {
          return Some(Waits);
        }
        if !verdict.Ok? {
          return Some(ExecFailed(stmt, verdict));
        }
      }
      return None;
    }

    method Batch(buffer: string) returns (stop: Option<Stop>)
      modifies db
      ensures var run := RunScript(db.env, old(db.Snap(null)), buffer);
        stop == run.stop && db.Snap(null) == run.world.(tx := None)
    {
      var lines := Split(CleanText(buffer));
      var statement, trigger := "", false;
      var tx: Tx?<S> := null;
      ghost var whole := RunScript(db.env, db.Snap(null), buffer);
      ghost var w, p := db.Snap(null), START;  // the machine's state before line i
      assert lines[0..] == lines;
      assert Glue([]) == "";
      hide RunLines, Split, CleanText, Tidy, Trim, StartsWith, Glue, BeginCall, CommitCall, SendStatement;
      for i := 0 to |lines|
        invariant tx != null ==> fresh(tx) && tx.db == db && db.held
        invariant w == db.Snap(tx) && statement == Glue(p.pending) && trigger == p.trigger
        invariant whole == RunLines(db.env, w, p, Tidy(lines[i..]))
      {
        TidyStep(lines, i);
        var line := Trim(lines[i]);
        if line == "" {
          continue;
        }
        ghost var next, cmd := RunStep(db.env, w, p, line, Tidy(lines[i + 1..]));
        GlueSnoc(p.pending, line);
        statement := statement + line + "\n";
        if StartsWith(line, BEGIN_LINE) {
          statement := "";
          if db.held {
            return Some(Waits);
          }
          tx := db.Begin();
          if tx == null {
            return Some(NoBegin);
          }
          w, p := db.Snap(tx), next;
          continue;
        } else if StartsWith(line, COMMIT_LINE) {
          if tx == null {
            return Some(NilCommit);
          }
          var ok := tx.Commit();
          if !ok {
            return Some(NoCommit);
          }
          tx := null;
          statement := "";
          w, p := db.Snap(tx), next;
          continue;
        } else if StartsWith(line, TRIGGER_LINE) {
          if ';' !in line {
            trigger := true;
            p := next;
            continue;
          }
        } else if StartsWith(line, END_LINE) {
          trigger := false;
        } else if trigger {
          p := next;
          continue;
        }
        if ';' !in line {
          p := next;
          continue;
        }
        stop := Deliver(tx, statement);
        if stop.Some? {
          return;
        }
        statement := "";
        w, p := db.Snap(tx), next;
      }
      RunEnd(db.env, w, p, lines);
      return None;
    }
  }
}
