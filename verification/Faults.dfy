/** How a run of Batch ends badly by its own doing: a COMMIT; without a transaction, a call that
    waits for the connection Batch itself holds, and the connection it leaves held behind. */
module Faults {
  import opened Text
  import opened Lines
  import opened Sql
  import opened Retry
  import opened Batch
  import opened Semantics
  import opened Dump
  import opened Transact

  predicate QueryCommand(cmd: Command) {
    cmd.Send? && StartsWith(Glue(cmd.lines), SELECT_WORD)
  }

  // What the BEGIN and COMMIT; lines alone say about an open transaction.
  function OpenAfterCommand(cmd: Command, open: bool): bool {
    match cmd
    case Begin(_) => true
    case Commit(_) => false
    case Send(_) => open
  }

  function OpenAfterAll(cmds: seq<Command>, open: bool): bool
    decreases cmds
  {
    if cmds == [] then open else OpenAfterAll(cmds[1..], OpenAfterCommand(cmds[0], open))
  }

  /** Why a command stops the run, given whether a transaction is open, the breaker is set, and the
      call is served: a mistake in the script, or a Begin or Commit call that fails. */
  function FaultOf(cmd: Command, open: bool, disabled: bool, served: bool): Option<Stop> {
    match cmd
    case Begin(_) => if open then Some(Waits) else if !served then Some(NoBegin) else None
    case Commit(_) => if !open then Some(NilCommit) else if !served then Some(NoCommit) else None
    case Send(_) => if open && QueryCommand(cmd) && !disabled then Some(Waits) else None
  }

  // The reasons that FaultOf speaks of.
  predicate Explained(f: Stop) {
    f == NilCommit || f == Waits || f == NoBegin || f == NoCommit
  }

  // ---------- on every database ----------

  function FaultNow<S>(env: Env<S>, w: World<S>, cmd: Command, open: bool): Option<Stop> {
    FaultOf(cmd, open, env.disabled(w.clock), env.fate(w.clock).Served?)
  }

  lemma PerformFaults<S>(env: Env<S>, w: World<S>, cmd: Command)
    ensures var (v, stop) := Perform(env, w, cmd);
      var fault := FaultNow(env, w, cmd, w.tx.Some?);
      && (stop == Some(NilCommit) <==> fault == Some(NilCommit))
      && (stop == Some(NoCommit) <==> fault == Some(NoCommit))
      && (stop.None? ==> v.tx.Some? == OpenAfterCommand(cmd, w.tx.Some?))
      && ((w.held <==> w.tx.Some?) ==>
            && (stop == Some(Waits) <==> fault == Some(Waits))
            && (stop == Some(NoBegin) <==> fault == Some(NoBegin))
            && (v.held <==> v.tx.Some?))
  {
    hide StartsWith, Glue, ExecStatement, TxExecCall;
    match cmd
    case Begin(_) =>
    case Commit(_) =>
    case Send(lines) =>
      var stmt := Glue(lines);
      if !StartsWith(stmt, SELECT_WORD) {
        ExecMeasure(env, w, stmt);
        if w.tx.Some? {
          TxExecKeeps(env, w, stmt);
        }
      }
  }

  lemma TxExecKeeps<S>(env: Env<S>, w: World<S>, stmt: string)
    requires w.tx.Some?
    ensures var v := TxExecCall(env, w, stmt).0;
      v.tx.Some? && v.held == w.held && v.committed == w.committed
  {
  }

  // The commands before place n go through, and the one at n is at fault.
  ghost predicate FaultAt<S>(env: Env<S>, w: World<S>, cmds: seq<Command>, n: nat, f: Stop) {
    && n < |cmds|
    && var c := PerformAll(env, w, cmds[..n]);
       c.stop.None? && FaultNow(env, c.world, cmds[n], OpenAfterAll(cmds[..n], w.tx.Some?)) == Some(f)
  }

  lemma FaultAtHead<S>(env: Env<S>, w: World<S>, c: Command, cmds: seq<Command>, f: Stop)
    ensures FaultAt(env, w, [c] + cmds, 0, f) <==> FaultNow(env, w, c, w.tx.Some?) == Some(f)
  {
    assert ([c] + cmds)[..0] == [];
  }

  lemma FaultAtTail<S>(env: Env<S>, w: World<S>, c: Command, cmds: seq<Command>, n: nat, f: Stop)
    ensures var (v, stop) := Perform(env, w, c);
      FaultAt(env, w, [c] + cmds, n + 1, f) <==> stop.None? && FaultAt(env, v, cmds, n, f)
  {
    var (v, stop) := Perform(env, w, c);
    PerformFaults(env, w, c);
    hide Perform, FaultNow, PerformAll;
    if n < |cmds| {
      assert ([c] + cmds)[..n + 1] == [c] + cmds[..n];
      PerformAllCons(env, w, c, cmds[..n]);
      assert ([c] + cmds[..n])[1..] == cmds[..n];
    }
  }

  ghost predicate SomeFault<S>(env: Env<S>, w: World<S>, cmds: seq<Command>, f: Stop) {
    exists n: nat :: FaultAt(env, w, cmds, n, f)
  }

  lemma SomeFaultCons<S>(env: Env<S>, w: World<S>, c: Command, cmds: seq<Command>, f: Stop)
    ensures var (v, stop) := Perform(env, w, c);
      SomeFault(env, w, [c] + cmds, f) <==>
        FaultNow(env, w, c, w.tx.Some?) == Some(f) || (stop.None? && SomeFault(env, v, cmds, f))
  {
    hide Perform, FaultAt, FaultNow;
    var (v, stop) := Perform(env, w, c);
    FaultAtHead(env, w, c, cmds, f);
    if n: nat :| FaultAt(env, w, [c] + cmds, n, f) {
      if n > 0 {
        FaultAtTail(env, w, c, cmds, n - 1, f);
      }
    }
    if n: nat :| stop.None? && FaultAt(env, v, cmds, n, f) {
      FaultAtTail(env, w, c, cmds, n, f);
    }
  }

  lemma {:induction false} StopsAtFault<S>(env: Env<S>, w: World<S>, cmds: seq<Command>, f: Stop)
    requires f == NilCommit || f == NoCommit || (Explained(f) && (w.held <==> w.tx.Some?))
    ensures PerformAll(env, w, cmds).stop == Some(f) <==> SomeFault(env, w, cmds, f)
    decreases |cmds|
  {
    if cmds != [] {
      var c, rest := cmds[0], cmds[1..];
      assert cmds == [c] + rest;
      PerformFaults(env, w, c);
      hide Perform, PerformAll, FaultAt, SomeFault, FaultNow;
      var (v, stop) := Perform(env, w, c);
      PerformAllCons(env, w, c, rest);
      SomeFaultCons(env, w, c, rest, f);
      if stop.None? {
        StopsAtFault(env, v, rest, f);
      }
    }
  }

  /** For every script and every course of events: Batch dereferences nil if and only if it comes,
      with every command before it done, to a COMMIT; that the lines before it leave without an
      open transaction, and reports a failed Commit if and only if it comes so to one with a
      transaction whose call is not served. On a free connection it waits for ever if and only if it
      comes so to a second BEGIN or, with the breaker off, a query inside an open transaction, and
      reports a failed Begin if and only if it comes so to a first BEGIN that is not served. */
  lemma ScriptStopsAtFault<S>(env: Env<S>, w: World<S>, buffer: string)
    ensures var run := RunScript(env, w, buffer);
      var u, cmds := w.(tx := None), Parse(START, ScriptLines(buffer)).1;
      && (run.stop == Some(NilCommit) <==> SomeFault(env, u, cmds, NilCommit))
      && (run.stop == Some(NoCommit) <==> SomeFault(env, u, cmds, NoCommit))
      && (!w.held ==> (run.stop == Some(Waits) <==> SomeFault(env, u, cmds, Waits)))
      && (!w.held ==> (run.stop == Some(NoBegin) <==> SomeFault(env, u, cmds, NoBegin)))
  {
    var u, cmds := w.(tx := None), Parse(START, ScriptLines(buffer)).1;
    RunIsParseThenPerform(env, u, START, ScriptLines(buffer));
    hide PerformAll, FaultAt, SomeFault, RunLines, Parse;
    StopsAtFault(env, u, cmds, NilCommit);
    StopsAtFault(env, u, cmds, NoCommit);
    if !w.held {
      StopsAtFault(env, u, cmds, Waits);
      StopsAtFault(env, u, cmds, NoBegin);
    }
  }

  // ---------- on a database that takes everything ----------

  // The first mistake, read off the commands alone.
  function FirstFault(cmds: seq<Command>, open: bool): Option<Stop>
    decreases cmds
  {
    if cmds == [] then None
    else if FaultOf(cmds[0], open, false, true).Some? then FaultOf(cmds[0], open, false, true)
    else FirstFault(cmds[1..], OpenAfterCommand(cmds[0], open))
  }

  lemma HealthyCommand<S(!new)>(env: Env<S>, w: World<S>, cmd: Command)
    requires Healthy(env) && (w.held <==> w.tx.Some?)
    ensures Perform(env, w, cmd).1 == FaultOf(cmd, w.held, false, true)
  {
    assert env.fate(w.clock).Served? && !env.disabled(w.clock);
    if cmd.Send? {
      hide StartsWith, Glue;
      HealthyExec(env, w, Glue(cmd.lines));
    }
  }

  lemma {:induction false} HealthyCommands<S(!new)>(env: Env<S>, w: World<S>, cmds: seq<Command>)
    requires Healthy(env) && (w.held <==> w.tx.Some?)
    ensures PerformAll(env, w, cmds).stop == FirstFault(cmds, w.held)
    decreases |cmds|
  {
    if cmds != [] {
      HealthyCommand(env, w, cmds[0]);
      PerformFaults(env, w, cmds[0]);
      hide Perform, FaultOf;
      var (v, stop) := Perform(env, w, cmds[0]);
      if stop.None? {
        HealthyCommands(env, v, cmds[1..]);
      }
    }
  }

  /** Where nothing fails, the script alone decides how Batch ends: it goes through exactly when
      its BEGIN and COMMIT; lines pair up and no query stands between two of them, and otherwise it
      crashes or waits at the first line that breaks this. */
  lemma HealthyEnding<S(!new)>(env: Env<S>, w: World<S>, buffer: string)
    requires Healthy(env) && !w.held
    ensures RunScript(env, w, buffer).stop == FirstFault(Parse(START, ScriptLines(buffer)).1, false)
  {
    RunIsParseThenPerform(env, w.(tx := None), START, ScriptLines(buffer));
    HealthyCommands(env, w.(tx := None), Parse(START, ScriptLines(buffer)).1);
  }

  // ---------- at concrete scripts ----------

  lemma LiteralLine(key: string, tail: string)
    requires var line := key + tail;
      Proper(line) && '-' !in line && '/' !in line
    ensures Plain(key + tail) && StartsWith(key + tail, key)
  {
    TrimmedStays(key + tail);
    UpperOfPrefix(key, key + tail);
  }

  lemma CommitLine()
    ensures Plain("COMMIT;") && StartsWith("COMMIT;", COMMIT_LINE)
  {
    assert COMMIT_LINE + "" == "COMMIT;";
    LiteralLine(COMMIT_LINE, "");
  }

  lemma BeginLine()
    ensures Plain("BEGIN TRANSACTION;") && StartsWith("BEGIN TRANSACTION;", BEGIN_LINE)
  {
    hide StartsWith, Plain;
    assert BEGIN_LINE + ";" == "BEGIN TRANSACTION;";
    LiteralLine(BEGIN_LINE, ";");
  }

  lemma SelectLine()
    ensures Plain("SELECT 1;") && StartsWith("SELECT 1;", SELECT_WORD) && StatementLine("SELECT 1;", true)
  {
    hide StartsWith, Plain;
    var s := "SELECT 1;";
    assert SELECT_WORD + " 1;" == s;
    LiteralLine(SELECT_WORD, " 1;");
    KeywordsExclude(s, SELECT_WORD, BEGIN_LINE, 0);
    KeywordsExclude(s, SELECT_WORD, COMMIT_LINE, 0);
    KeywordsExclude(s, SELECT_WORD, TRIGGER_LINE, 0);
  }

  /** One line is enough for the nil dereference, on every database. */
  lemma BareCommitCrashes<S>(env: Env<S>, w: World<S>)
    ensures RunScript(env, w, "COMMIT;\n").stop == Some(NilCommit)
  {
    CommitLine();
    hide Plain, StartsWith;
    var items := [Close("COMMIT;")];
    assert items[1..] == [];
    assert ["COMMIT;"][1..] == [];
    assert AllLines(items) == ["COMMIT;"];
    assert Print(items) == "COMMIT;\n";
    LoadIsPerform(env, w, items);
    assert CommandsOf(items) == [Commit(["COMMIT;"])];
  }

  lemma QueryBehindBegin<S>(env: Env<S>, w: World<S>, begin: string, query: string)
    requires !w.held && env.fate(w.clock).Served? && !env.disabled(w.clock + 1)
    requires StartsWith(Glue([query]), SELECT_WORD)
    ensures PerformAll(env, w, [Begin([begin]), Send([query])]).stop == Some(Waits)
  {
    hide StartsWith, Glue;
    assert [Begin([begin]), Send([query])] == [Begin([begin])] + ([Send([query])] + []);
    assert [Send([query])] + [] == [Send([query])];
    PerformAllCons(env, w, Begin([begin]), [Send([query])]);
    PerformAllCons(env, BeginCall(env, w), Send([query]), []);
  }

  lemma TwoItems(b: string, s: string)
    requires Printable(Open(b)) && Printable(Statement([s]))
    ensures AllPrintable([Open(b), Statement([s])])
    ensures CommandsOf([Open(b), Statement([s])]) == [Begin([b]), Send([s])]
  {
    hide Printable;
    CommandsCons(Open(b), [Statement([s])]);
    CommandsCons(Statement([s]), []);
    assert [Open(b)] + [Statement([s])] == [Open(b), Statement([s])];
    assert [Statement([s])] + [] == [Statement([s])];
  }

  /** Two lines are enough to wait for ever, wherever the BEGIN is served and the breaker is off. */
  lemma QueryInTransactionWaits<S>(env: Env<S>, w: World<S>)
    requires !w.held && env.fate(w.clock).Served? && !env.disabled(w.clock + 1)
    ensures RunScript(env, w, "BEGIN TRANSACTION;\nSELECT 1;\n").stop == Some(Waits)
  {
    var b, s := "BEGIN TRANSACTION;", "SELECT 1;";
    BeginLine();
    SelectLine();
    hide StartsWith, StatementLine, Print, PerformAll, RunScript, AllPrintable, CommandsOf, Glue;
    SelectByFirstLine([s]);
    assert Printable(Open(b)) && Printable(Statement([s]));
    hide Plain, Printable;
    TwoItems(b, s);
    LoadIsPerform(env, w, [Open(b), Statement([s])]);
    PrintTwo(b, s);
    assert b + "\n" + s + "\n" == "BEGIN TRANSACTION;\nSELECT 1;\n";
    QueryBehindBegin(env, w.(tx := None), b, s);
  }

  lemma PrintTwo(a: string, b: string)
    ensures Print([Open(a), Statement([b])]) == a + "\n" + b + "\n"
  {
    var items := [Open(a), Statement([b])];
    assert items[1..] == [Statement([b])] && items[1..][1..] == [];
    assert AllLines([Statement([b])]) == [b];
    assert AllLines(items) == [a, b];
    assert [a, b][1..] == [b] && [b][1..] == [];
    assert Glue([b]) == b + "\n";
  }

  // ---------- the connection left behind ----------

  lemma {:induction false} HeldAfterAll<S>(env: Env<S>, w: World<S>, cmds: seq<Command>)
    requires w.held <==> w.tx.Some?
    ensures var c := PerformAll(env, w, cmds);
      && (c.world.held <==> c.world.tx.Some?)
      && c.world.held == match c.stop
                         case None => OpenAfterAll(cmds, w.held)
                         case Some(TxFailed(_)) => true
                         case Some(Waits) => true
                         case Some(_) => false
    decreases |cmds|
  {
    if cmds != [] {
      var (v, stop) := Perform(env, w, cmds[0]);
      PerformFaults(env, w, cmds[0]);
      HeldAtStop(env, w, cmds[0]);
      hide Perform;
      if stop.None? {
        HeldAfterAll(env, v, cmds[1..]);
      }
    }
  }

  lemma HeldAtStop<S>(env: Env<S>, w: World<S>, cmd: Command)
    requires w.held <==> w.tx.Some?
    ensures var (v, stop) := Perform(env, w, cmd);
      stop.Some? ==> v.held == (stop.value.TxFailed? || stop.value.Waits?)
  {
    hide StartsWith, Glue, ExecStatement, TxExecCall;
    if cmd.Send? && !StartsWith(Glue(cmd.lines), SELECT_WORD) {
      ExecMeasure(env, w, Glue(cmd.lines));
      if w.tx.Some? {
        TxExecKeeps(env, w, Glue(cmd.lines));
      }
    }
  }

  /** After a load the connection stays held, until the handle is closed, exactly when a statement failed inside a
      transaction, when the run waits, or when the script ends inside a transaction. */
  lemma LoadLeavesHeld<S>(env: Env<S>, w: World<S>, buffer: string)
    requires !w.held
    ensures var run := RunScript(env, w, buffer);
      run.world.held == match run.stop
                        case None => OpenAfterAll(Parse(START, ScriptLines(buffer)).1, false)
                        case Some(TxFailed(_)) => true
                        case Some(Waits) => true
                        case Some(_) => false
  {
    RunIsParseThenPerform(env, w.(tx := None), START, ScriptLines(buffer));
    HeldAfterAll(env, w.(tx := None), Parse(START, ScriptLines(buffer)).1);
  }

  lemma {:induction false} HeldCommands<S>(env: Env<S>, w: World<S>, cmds: seq<Command>)
    requires w.held && w.tx.None?
    ensures var c := PerformAll(env, w, cmds);
      && c.world.committed == w.committed && c.world.held
      && (c.stop.None? ==> forall cmd | cmd in cmds :: QueryCommand(cmd))
    decreases |cmds|
  {
    hide StartsWith, Glue, ExecStatement;
    if cmds != [] {
      var (v, stop) := Perform(env, w, cmds[0]);
      if cmds[0].Send? {
        ExecMeasure(env, w, Glue(cmds[0].lines));
      }
      if stop.None? {
        HeldCommands(env, v, cmds[1..]);
      }
    }
  }

  /** From then on the handle is dead: whatever the database does, no script, transact or
      ExecuteContext commits anything through it; a script gets through only if it is all queries,
      and transact never returns. */
  lemma HeldHandleIsDead<S>(env: Env<S>, w: World<S>, buffer: string, lines: seq<string>)
    requires w.held
    ensures var run := RunScript(env, w, buffer);
      && run.world.committed == w.committed && run.world.held
      && (run.stop.None? ==> forall cmd | cmd in Parse(START, ScriptLines(buffer)).1 :: QueryCommand(cmd))
    ensures TransactRun(env, w, lines) == (w, Never)
    ensures ExecuteRun(env, w, lines).0.committed == w.committed
  {
    RunIsParseThenPerform(env, w.(tx := None), START, ScriptLines(buffer));
    HeldCommands(env, w.(tx := None), Parse(START, ScriptLines(buffer)).1);
  }
}
