/** The two other ways to run statements: transact, all or nothing, and ExecuteContext, one
    after the other (db.go). Each is a loop proved against a function, and the functions are
    compared with each other and with Batch. */
module Transact {
  import opened Text
  import opened Lines
  import opened Sql
  import opened Batch
  import opened Semantics
  import opened Committed
  import opened Dump

  // What a caller gets to see: an answer, or a call that waits for ever for the connection.
  datatype Answer<+T> = Back(value: T) | Never

  function Answered<S, T>(r: (World<S>, T)): (World<S>, Answer<T>) {
    (r.0, Back(r.1))
  }

  // ---------- transact ----------

  // The statements one by one, then Commit with its error ignored; a failure rolls back.
  function TransactLoop<S>(env: Env<S>, w: World<S>, lines: seq<string>): (World<S>, bool)
    requires w.tx.Some?
    decreases lines
  {
    if lines == [] then (CommitCall(env, w).0, true)
    else
      var (v, reply) := TxExecCall(env, w, lines[0]);
      if reply.Done? then TransactLoop(env, v, lines[1..]) else (RollbackCall(v), false)
  }

  // The flag is "transact returned nil".
  function TransactRun<S>(env: Env<S>, w: World<S>, lines: seq<string>): (World<S>, Answer<bool>) {
    if w.held then (w, Never)
    else
      var v := BeginCall(env, w);
      if v.tx.None? then (v, Back(false)) else Answered(TransactLoop(env, v, lines))
  }

  method Transact<S>(db: DB<S>, statements: seq<string>) returns (ok: Answer<bool>)
    modifies db
    ensures (db.Snap(null), ok) == TransactRun(db.env, old(db.Snap(null)), statements)
  {
    ghost var whole := TransactRun(db.env, db.Snap(null), statements);
    if db.held {
      return Never;
    }
    hide CommitCall, TxExecCall, RollbackCall, BeginCall;
    var tx := db.Begin();
    if tx == null {
      return Back(false);
    }
    var count := 0;
    assert statements[0..] == statements;
    for i := 0 to |statements|
      invariant count == i
      invariant fresh(tx) && tx.db == db
      invariant whole == Answered(TransactLoop(db.env, db.Snap(tx), statements[i..]))
    {
      assert statements[i..][1..] == statements[i + 1..];
      var reply := tx.Exec(statements[i]);
      if !reply.Done? {
        tx.Rollback();
        return Back(false);
      }
      count := count + 1;
    }
    var committed := tx.Commit();
    return Back(true);
  }

  // The moment of the Commit call is known beforehand; what becomes of it decides.
  predicate CommitLands<S>(env: Env<S>, clock: nat) {
    env.fate(clock).Served? || env.fate(clock) == Lost(true)
  }

  lemma {:induction false} TransactLoopMeaning<S>(env: Env<S>, w: World<S>, lines: seq<string>)
    requires w.tx.Some?
    ensures var (v, ok) := TransactLoop(env, w, lines);
      && (ok ==> var all := Replay(env, w.tx.value, lines);
            all.Some? && v.committed == if CommitLands(env, w.clock + |lines|) then all.value else w.committed)
      && (!ok ==> v.committed == w.committed)
      && v.tx.None? && !v.held
    decreases |lines|
  {
    hide Replay;
    if lines == [] {
      ReplayNothing(env, w.tx.value);
    } else {
      var (v, reply) := TxExecCall(env, w, lines[0]);
      if reply.Done? {
        TransactLoopMeaning(env, v, lines[1..]);
        ReplayCons(env, w.tx.value, lines[0], lines[1..]);
        assert lines == [lines[0]] + lines[1..];
        assert v.clock + |lines[1..]| == w.clock + |lines|;
      }
    }
  }

  lemma ReplayNothing<S>(env: Env<S>, s: S)
    ensures Replay(env, s, []) == Some(s)
  {
  }

  lemma ReplayCons<S>(env: Env<S>, s: S, stmt: string, stmts: seq<string>)
    requires env.apply(s, stmt).Some?
    ensures Replay(env, s, [stmt] + stmts) == Replay(env, env.apply(s, stmt).value, stmts)
  {
    ReplayNothing(env, s);
    ReplaySnoc(env, s, [], stmt);
    assert [] + [stmt] == [stmt];
    ReplayConcat(env, s, [stmt], stmts);
  }

  /** All or nothing: unless transact returns nil nothing is committed. When it does every
      statement was taken, and they are all committed if the Commit call landed and none of them if
      not; transact does not tell these two apart. It waits for ever exactly when the connection is
      held at the start, and otherwise leaves it free. */
  lemma TransactAllOrNothing<S>(env: Env<S>, w: World<S>, lines: seq<string>)
    ensures var (v, answer) := TransactRun(env, w, lines);
      var all := Replay(env, w.committed, lines);
      && (answer != Back(true) ==> v.committed == w.committed)
      && (answer == Back(true) ==> all.Some?)
      && (answer == Back(true) ==>
            v.committed == if CommitLands(env, w.clock + 1 + |lines|) then all.value else w.committed)
      && (answer.Never? <==> w.held) && v.held == w.held
  {
    hide Replay, TransactLoop;
    var v := BeginCall(env, w);
    if v.tx.Some? {
      TransactLoopMeaning(env, v, lines);
    }
  }

  // ---------- ExecuteContext ----------

  // The loop, with the results so far; None is an error return.
  function ExecuteLoop<S>(env: Env<S>, w: World<S>, stmts: seq<string>, results: seq<Receipt>)
    : (World<S>, Option<seq<Receipt>>)
    decreases stmts
  {
    if stmts == [] then (w, Some(results))
    else
      var (v, reply) := ExecCall(env, w, stmts[0]);
      if reply.Done? then ExecuteLoop(env, v, stmts[1..], results + [env.receipt(w.committed, stmts[0])])
      else (v, None)
  }

  function ExecuteRun<S>(env: Env<S>, w: World<S>, stmts: seq<string>)
    : (World<S>, Answer<Option<seq<Receipt>>>)
  {
    if env.disabled(w.clock) then (w, Back(None))
    else if w.held && stmts != [] then (w, Never)
    else Answered(ExecuteLoop(env, w, stmts, []))
  }

  method ExecuteContext<S>(db: DB<S>, statements: seq<string>) returns (response: Answer<Option<seq<Receipt>>>)
    modifies db
    ensures (db.Snap(null), response) == ExecuteRun(db.env, old(db.Snap(null)), statements)
  {
    if db.env.disabled(db.clock) {
      return Back(None);
    }
    if db.held && statements != [] {
      return Never;
    }
    var results := [];
    assert statements[0..] == statements;
    for i := 0 to |statements|
      invariant statements != [] ==> !db.held
      invariant ExecuteRun(db.env, old(db.Snap(null)), statements)
        == Answered(ExecuteLoop(db.env, db.Snap(null), statements[i..], results))
    {
      assert statements[i..][1..] == statements[i + 1..];
      var receipt := db.env.receipt(db.committed, statements[i]);
      HeldStays(db.env, db.Snap(null), statements[i]);
      hide ExecCall;
      var reply := db.Exec(statements[i]);
      if !reply.Done? {
        return Back(None);
      }
      results := results + [receipt];
    }
    return Back(Some(results));
  }

  lemma HeldStays<S>(env: Env<S>, w: World<S>, stmt: string)
    ensures ExecCall(env, w, stmt).0.held == w.held
  {
  }

  // How many statements in a row are served and taken, from the state s on.
  function TakenRun<S>(env: Env<S>, s: S, clock: nat, stmts: seq<string>): (k: nat)
    ensures k <= |stmts|
    decreases stmts
  {
    if stmts == [] || !env.fate(clock).Served? || env.apply(s, stmts[0]).None? then 0
    else 1 + TakenRun(env, env.apply(s, stmts[0]).value, clock + 1, stmts[1..])
  }

  // The call that ends the loop fails, and yet the engine does the work.
  ghost predicate LandsAnyway<S>(env: Env<S>, s: S, clock: nat, stmts: seq<string>, k: nat) {
    k < |stmts| && env.fate(clock + k) == Lost(true) && Replay(env, s, stmts[..k + 1]).Some?
  }

  // What the loop leaves, in terms of the number k of statements taken.
  ghost predicate PrefixDone<S>(env: Env<S>, w: World<S>, stmts: seq<string>, k: nat, v: World<S>,
                                response: Option<seq<Receipt>>, results: seq<Receipt>)
    requires k <= |stmts|
  {
    && Replay(env, w.committed, stmts[..k]).Some?
    && (response.Some? <==> k == |stmts|)
    && Some(v.committed) == Replay(env, w.committed,
         if LandsAnyway(env, w.committed, w.clock, stmts, k) then stmts[..k + 1] else stmts[..k])
    && (response.Some? ==> response.value == results + Receipts(env, w.committed, stmts))
  }

  // One result per statement, each taken at the state it met.
  ghost function Receipts<S>(env: Env<S>, s: S, stmts: seq<string>): seq<Receipt>
    decreases stmts
  {
    if stmts == [] then []
    else
      var later := match env.apply(s, stmts[0])
                   case None => []
                   case Some(t) => Receipts(env, t, stmts[1..]);
      [env.receipt(s, stmts[0])] + later
  }

  lemma {:induction false} ReceiptsPerStatement<S>(env: Env<S>, s: S, stmts: seq<string>)
    requires Replay(env, s, stmts).Some?
    ensures |Receipts(env, s, stmts)| == |stmts|
    decreases |stmts|
  {
    if stmts != [] {
      assert stmts == [stmts[0]] + stmts[1..];
      ReplayFirst(env, s, stmts[0], stmts[1..]);
      ReplayCons(env, s, stmts[0], stmts[1..]);
      ReceiptsPerStatement(env, env.apply(s, stmts[0]).value, stmts[1..]);
    }
  }

  // A replay that goes through takes its first statement.
  lemma {:induction false} ReplayFirst<S>(env: Env<S>, s: S, stmt: string, stmts: seq<string>)
    ensures Replay(env, s, [stmt] + stmts).Some? ==> env.apply(s, stmt).Some?
    decreases |stmts|
  {
    ReplayNothing(env, s);
    ReplaySnoc(env, s, [], stmt);
    assert [] + [stmt] == [stmt];
    if stmts == [] {
      assert [stmt] + stmts == [stmt];
    } else {
      ReplayFirst(env, s, stmt, stmts[..|stmts| - 1]);
      ReplaySnoc(env, s, [stmt] + stmts[..|stmts| - 1], stmts[|stmts| - 1]);
      assert [stmt] + stmts == ([stmt] + stmts[..|stmts| - 1]) + [stmts[|stmts| - 1]];
    }
  }

  lemma ReplayOne<S>(env: Env<S>, s: S, stmt: string)
    ensures Replay(env, s, [stmt]) == env.apply(s, stmt)
  {
    ReplayNothing(env, s);
    ReplaySnoc(env, s, [], stmt);
    assert [] + [stmt] == [stmt];
  }

  // The first statement is taken: the rest decides.
  lemma PrefixStep<S>(env: Env<S>, w: World<S>, stmt: string, rest: seq<string>, k: nat, u: World<S>,
                      v: World<S>, response: Option<seq<Receipt>>, results: seq<Receipt>)
    requires env.apply(w.committed, stmt) == Some(u.committed) && u.clock == w.clock + 1 && k <= |rest|
    requires PrefixDone(env, u, rest, k, v, response, results + [env.receipt(w.committed, stmt)])
    ensures PrefixDone(env, w, [stmt] + rest, k + 1, v, response, results)
  {
    hide Replay;
    var all := [stmt] + rest;
    assert all[..k + 1] == [stmt] + rest[..k];
    ReplayCons(env, w.committed, stmt, rest[..k]);
    if k < |rest| {
      assert all[..k + 2] == [stmt] + rest[..k + 1];
      ReplayCons(env, w.committed, stmt, rest[..k + 1]);
    }
    assert all[1..] == rest;
    assert results + ([env.receipt(w.committed, stmt)] + Receipts(env, u.committed, rest))
      == results + [env.receipt(w.committed, stmt)] + Receipts(env, u.committed, rest);
  }

  lemma PrefixStop<S>(env: Env<S>, w: World<S>, stmts: seq<string>, results: seq<Receipt>)
    requires stmts != [] && TakenRun(env, w.committed, w.clock, stmts) == 0
    ensures PrefixDone(env, w, stmts, 0, ExecCall(env, w, stmts[0]).0, None, results)
    ensures !ExecCall(env, w, stmts[0]).1.Done?
  {
    hide Replay;
    assert stmts[..0] == [] && stmts[..1] == [stmts[0]];
    ReplayNothing(env, w.committed);
    ReplayOne(env, w.committed, stmts[0]);
  }

  lemma {:induction false} ExecuteLoopMeaning<S>(env: Env<S>, w: World<S>, stmts: seq<string>, results: seq<Receipt>)
    ensures var k := TakenRun(env, w.committed, w.clock, stmts);
      var (v, response) := ExecuteLoop(env, w, stmts, results);
      PrefixDone(env, w, stmts, k, v, response, results)
    decreases |stmts|
  {
    if stmts == [] {
      ReplayNothing(env, w.committed);
    } else if TakenRun(env, w.committed, w.clock, stmts) == 0 {
      PrefixStop(env, w, stmts, results);
    } else {
      hide PrefixDone, Replay;
      var (u, reply) := ExecCall(env, w, stmts[0]);
      var more := results + [env.receipt(w.committed, stmts[0])];
      ExecuteLoopMeaning(env, u, stmts[1..], more);
      var (v, response) := ExecuteLoop(env, u, stmts[1..], more);
      assert stmts == [stmts[0]] + stmts[1..];
      var k := TakenRun(env, u.committed, u.clock, stmts[1..]);
      PrefixStep(env, w, stmts[0], stmts[1..], k, u, v, response, results);
    }
  }

  /** ExecuteContext commits the statements that are taken in a row from the first one on, and
      answers, one result per statement in order, exactly when these are all. The committed state
      is that prefix's, unless the failing call did its work all the same: then it is one longer.
      With the breaker set it returns an error, and with the connection held it does not return,
      and nothing changes. */
  lemma ExecutePrefix<S>(env: Env<S>, w: World<S>, stmts: seq<string>)
    ensures var k := TakenRun(env, w.committed, w.clock, stmts);
      var (v, answer) := ExecuteRun(env, w, stmts);
      var off, stuck := env.disabled(w.clock), w.held && stmts != [];
      && (off ==> v == w && answer == Back(None))
      && (!off && stuck ==> v == w && answer == Never)
      && (!off && !stuck ==> answer.Back? && PrefixDone(env, w, stmts, k, v, answer.value, []))
      && (!off && !stuck && answer.value.Some? ==> |answer.value.value| == |stmts|)
  {
    var k := TakenRun(env, w.committed, w.clock, stmts);
    ExecuteLoopMeaning(env, w, stmts, []);
    if k == |stmts| {
      assert stmts[..k] == stmts;
      ReceiptsPerStatement(env, w.committed, stmts);
    }
  }

  /** When both go through, ExecuteContext and transact commit the same state; when something
      fails, transact leaves the initial state and ExecuteContext the prefix. */
  lemma ExecuteAgainstTransact<S>(env: Env<S>, w: World<S>, stmts: seq<string>)
    ensures var (e, response) := ExecuteRun(env, w, stmts);
      var (t, answer) := TransactRun(env, w, stmts);
      && (response.Back? && response.value.Some? && answer == Back(true) ==>
            CommitLands(env, w.clock + 1 + |stmts|) ==> e.committed == t.committed)
      && (answer != Back(true) ==> t.committed == w.committed)
      && var k := TakenRun(env, w.committed, w.clock, stmts);
         (response == Back(None) && !env.disabled(w.clock) ==>
            LandsAnyway(env, w.committed, w.clock, stmts, k)
            || (k < |stmts| && Replay(env, w.committed, stmts[..k]) == Some(e.committed)))
  {
    hide Replay, ExecuteRun, TransactRun;
    ExecutePrefix(env, w, stmts);
    TransactAllOrNothing(env, w, stmts);
    assert stmts[..|stmts|] == stmts;
  }

  // ---------- Batch against transact ----------

  // SQL does not care for the newline that Batch leaves behind a statement.
  ghost predicate IgnoresNewline<S(!new)>(env: Env<S>) {
    forall s, stmt :: env.apply(s, stmt + "\n") == env.apply(s, stmt)
  }

  // A statement on one line that Batch sends as it is.
  ghost predicate OneLiner(line: string) {
    && Plain(line) && ';' in line
    && !StartsWith(line, BEGIN_LINE) && !StartsWith(line, COMMIT_LINE) && !StartsWith(line, SELECT_WORD)
  }

  // Equal but for the wording of the trace.
  ghost predicate Alike<S>(u: World<S>, w: World<S>) {
    u.committed == w.committed && u.tx == w.tx && u.held == w.held && u.clock == w.clock
  }

  function Sends(lines: seq<string>): seq<Item> {
    if lines == [] then [] else [Statement([lines[0]])] + Sends(lines[1..])
  }

  lemma OneLinerSent<S(!new)>(env: Env<S>, u: World<S>, w: World<S>, line: string)
    requires IgnoresNewline(env) && OneLiner(line) && Alike(u, w) && w.tx.Some?
    ensures var (x, stop) := Perform(env, u, Send([line]));
      var (y, reply) := TxExecCall(env, w, line);
      Alike(x, y) && (stop.Some? <==> !reply.Done?)
  {
    assert Glue([line]) == line + "\n" by {
      assert [line][1..] == [];
    }
    SelectByFirstLine([line]);
    hide StartsWith, Glue;
  }

  lemma CommandsCons(item: Item, items: seq<Item>)
    ensures CommandsOf([item] + items) == [CommandOf(item)] + CommandsOf(items)
  {
    assert ([item] + items)[1..] == items;
  }

  lemma {:induction false} LinesAgree<S(!new)>(env: Env<S>, u: World<S>, w: World<S>, lines: seq<string>, close: string)
    requires IgnoresNewline(env) && (forall l | l in lines :: OneLiner(l)) && Alike(u, w) && w.tx.Some?
    ensures var c := PerformAll(env, u, CommandsOf(Sends(lines) + [Close(close)]));
      var (v, ok) := TransactLoop(env, w, lines);
      && c.world.committed == v.committed
      && (c.stop.None? <==> ok && env.fate(w.clock + |lines|).Served?)
    decreases |lines|
  {
    hide Perform, OneLiner, IgnoresNewline, PerformAll, CommandsOf, TxExecCall, TransactLoop;
    if lines == [] {
      assert Sends(lines) + [Close(close)] == [Close(close)] + [];
      CloseAgrees(env, u, w, close);
    } else {
      var line, rest := lines[0], lines[1..];
      var items := Sends(rest) + [Close(close)];
      assert Sends(lines) + [Close(close)] == [Statement([line])] + items;
      assert lines == [line] + rest && line in lines;
      hide Sends;
      TransactCons(env, w, line, rest);
      TxExecTicks(env, w, line);
      OneLinerSent(env, u, w, line);
      CommandsCons(Statement([line]), items);
      PerformAllCons(env, u, Send([line]), CommandsOf(items));
      var (v, reply) := TxExecCall(env, w, line);
      if reply.Done? {
        LinesAgree(env, Perform(env, u, Send([line])).0, v, rest, close);
        assert v.clock + |rest| == w.clock + |lines|;
      }
    }
  }

  lemma TransactCons<S>(env: Env<S>, w: World<S>, line: string, rest: seq<string>)
    requires w.tx.Some?
    ensures var (v, reply) := TxExecCall(env, w, line);
      var (z, ok) := TransactLoop(env, w, [line] + rest);
      && v.tx.Some?
      && (reply.Done? ==> (z, ok) == TransactLoop(env, v, rest))
      && (!reply.Done? ==> z.committed == v.committed && !ok)
  {
    assert ([line] + rest)[1..] == rest;
  }

  lemma TxExecTicks<S>(env: Env<S>, w: World<S>, stmt: string)
    requires w.tx.Some?
    ensures var v := TxExecCall(env, w, stmt).0;
      v.tx.Some? && v.clock == w.clock + 1
  {
  }

  lemma CloseAgrees<S>(env: Env<S>, u: World<S>, w: World<S>, close: string)
    requires Alike(u, w) && w.tx.Some?
    ensures var c := PerformAll(env, u, CommandsOf([Close(close)] + []));
      && c.world.committed == TransactLoop(env, w, []).0.committed && TransactLoop(env, w, []).1
      && (c.stop.None? <==> env.fate(w.clock).Served?)
  {
    hide PerformAll, CommandsOf;
    CommandsCons(Close(close), []);
    PerformAllCons(env, u, Commit([close]), CommandsOf([]));
    NothingToDo(env, Perform(env, u, Commit([close])).0);
  }

  lemma NothingToDo<S>(env: Env<S>, w: World<S>)
    ensures PerformAll(env, w, CommandsOf([])) == Course(w, None, [])
  {
  }

  lemma {:induction false} SendsPrintable(lines: seq<string>)
    requires forall l | l in lines :: OneLiner(l)
    ensures AllPrintable(Sends(lines)) && AllLines(Sends(lines)) == lines
    decreases |lines|
  {
    if lines != [] {
      SendsPrintable(lines[1..]);
      assert OneLiner(lines[0]);
      assert Printable(Statement([lines[0]]));
    }
  }

  lemma {:induction false} AllLinesConcat(a: seq<Item>, b: seq<Item>)
    ensures AllLines(a + b) == AllLines(a) + AllLines(b)
    decreases |a|
  {
    if a == [] {
      assert a + b == b;
    } else {
      assert (a + b)[1..] == a[1..] + b;
      AllLinesConcat(a[1..], b);
    }
  }

  // The script transact's lines are wrapped into.
  function Wrapped(open: string, lines: seq<string>, close: string): string {
    Glue([open] + lines + [close])
  }

  lemma WrappedIsDump(open: string, lines: seq<string>, close: string) returns (items: seq<Item>)
    requires Plain(open) && StartsWith(open, BEGIN_LINE) && Plain(close) && StartsWith(close, COMMIT_LINE)
    requires forall l | l in lines :: OneLiner(l)
    ensures items == [Open(open)] + (Sends(lines) + [Close(close)])
    ensures AllPrintable(items) && Print(items) == Wrapped(open, lines, close)
  {
    hide Plain, OneLiner, StartsWith, Glue;
    var more := Sends(lines) + [Close(close)];
    items := [Open(open)] + more;
    SendsPrintable(lines);
    forall item | item in items ensures Printable(item) {}
    assert AllLines([Close(close)]) == [close] by {
      assert [Close(close)][1..] == [];
    }
    assert AllLines(items) == [open] + AllLines(more) by {
      assert items[1..] == more;
    }
    hide AllLines;
    AllLinesConcat(Sends(lines), [Close(close)]);
    assert [open] + (lines + [close]) == [open] + lines + [close];
  }

  /** Batch and transact agree: the lines wrapped in BEGIN TRANSACTION and COMMIT; leave the
      committed state that transact leaves, whatever fails. They differ in what they report:
      Batch succeeds when transact does and the Commit call comes back. Both wait for ever on a
      connection that is held. */
  lemma BatchAgreesWithTransact<S(!new)>(env: Env<S>, w: World<S>, open: string, lines: seq<string>, close: string)
    requires IgnoresNewline(env)
    requires Plain(open) && StartsWith(open, BEGIN_LINE) && Plain(close) && StartsWith(close, COMMIT_LINE)
    requires forall l | l in lines :: OneLiner(l)
    ensures var run := RunScript(env, w, Wrapped(open, lines, close));
      var (v, answer) := TransactRun(env, w, lines);
      && run.world.committed == v.committed
      && (run.stop.None? <==> answer == Back(true) && env.fate(w.clock + 1 + |lines|).Served?)
      && (answer.Never? ==> run.stop == Some(Waits))
  {
    hide OneLiner, IgnoresNewline, StartsWith, Plain, RunScript, Wrapped, Print, AllPrintable;
    hide PerformAll, CommandsOf, Sends, TransactLoop;
    var items := WrappedIsDump(open, lines, close);
    LoadIsPerform(env, w, items);
    var more := Sends(lines) + [Close(close)];
    CommandsCons(Open(open), more);
    PerformAllCons(env, w.(tx := None), Begin([open]), CommandsOf(more));
    var v := BeginCall(env, w);
    if v.tx.Some? && !w.held {
      LinesAgree(env, BeginCall(env, w.(tx := None)), v, lines, close);
    }
  }
}
