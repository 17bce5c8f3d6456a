/** The committed state over whole runs of Batch. First for every course of events, read off
    the trace; then, when no lost call does its work, read off the script alone. */
module Committed {
  import opened Text
  import opened Lines
  import opened Sql
  import opened Retry
  import opened Batch
  import opened Semantics

  // The state after the statements, if the engine takes them all.
  function Replay<S>(env: Env<S>, s: S, stmts: seq<string>): Option<S> {
    if stmts == [] then Some(s)
    else
      match Replay(env, s, stmts[..|stmts| - 1])
      case None => None
      case Some(t) => env.apply(t, stmts[|stmts| - 1])
  }

  lemma ReplaySnoc<S>(env: Env<S>, s: S, stmts: seq<string>, stmt: string)
    ensures Replay(env, s, stmts + [stmt]) ==
      match Replay(env, s, stmts)
      case None => None
      case Some(t) => env.apply(t, stmt)
  {
    assert (stmts + [stmt])[..|stmts|] == stmts;
  }

  lemma {:induction false} ReplayConcat<S>(env: Env<S>, s: S, x: seq<string>, y: seq<string>)
    requires Replay(env, s, x).Some?
    ensures Replay(env, s, x + y) == Replay(env, Replay(env, s, x).value, y)
    decreases |y|
  {
    if y == [] {
      assert x + y == x;
    } else {
      var y', last := y[..|y| - 1], y[|y| - 1];
      assert x + y == (x + y') + [last];
      ReplaySnoc(env, s, x + y', last);
      ReplayConcat(env, s, x, y');
    }
  }

  // ---------- the books kept on a trace ----------

  /** durable: the statements that are in the committed state; open: those done in the
      current transaction and not committed. */
  datatype Ledger = Ledger(durable: seq<string>, open: seq<string>)

  function Post(l: Ledger, e: Entry): Ledger {
    match e
    case Began(_) => l.(open := [])
    case RolledBack => l.(open := [])
    case InTx(s, _, landed) => if landed then l.(open := l.open + [s]) else l
    case Attempt(s, _, landed) => if landed then l.(durable := l.durable + [s]) else l
    case Ended(_, landed) => if landed then Ledger(l.durable + l.open, []) else l.(open := [])
    case _ => l
  }

  function BookOf(trace: seq<Entry>): Ledger {
    if trace == [] then Ledger([], [])
    else Post(BookOf(trace[..|trace| - 1]), trace[|trace| - 1])
  }

  lemma BookSnoc(trace: seq<Entry>, e: Entry)
    ensures BookOf(trace + [e]) == Post(BookOf(trace), e)
  {
    assert (trace + [e])[..|trace|] == trace;
  }

  // The books are right: replaying them from the start s gives the states the world holds.
  ghost predicate Audited<S>(env: Env<S>, s: S, w: World<S>) {
    var l := BookOf(w.trace);
    && Replay(env, s, l.durable) == Some(w.committed)
    && (w.tx.Some? ==> Replay(env, s, l.durable + l.open) == w.tx)
  }

  lemma AuditBegin<S>(env: Env<S>, s: S, w: World<S>)
    requires Audited(env, s, w)
    ensures Audited(env, s, BeginCall(env, w))
  {
    hide Replay, BookOf;
    BookSnoc(w.trace, Began(env.fate(w.clock).Served?));
    var l := BookOf(w.trace);
    assert l.durable + [] == l.durable;
  }

  lemma AuditCommit<S>(env: Env<S>, s: S, w: World<S>)
    requires Audited(env, s, w) && w.tx.Some?
    ensures Audited(env, s, CommitCall(env, w).0)
  {
    hide Replay, BookOf;
    var fate := env.fate(w.clock);
    BookSnoc(w.trace, Ended(fate.Served?, fate.Served? || fate == Lost(true)));
  }

  lemma AuditTxExec<S>(env: Env<S>, s: S, w: World<S>, stmt: string)
    requires Audited(env, s, w) && w.tx.Some?
    ensures Audited(env, s, TxExecCall(env, w, stmt).0)
  {
    hide Replay, BookOf;
    var r := Serve(env, w.tx.value, stmt, env.fate(w.clock));
    var l := BookOf(w.trace);
    BookSnoc(w.trace, InTx(stmt, r.reply.Done?, r.landed));
    ReplaySnoc(env, s, l.durable + l.open, stmt);
    assert l.durable + (l.open + [stmt]) == (l.durable + l.open) + [stmt];
  }

  lemma AuditExecCall<S>(env: Env<S>, s: S, w: World<S>, stmt: string)
    requires Audited(env, s, w) && w.tx.None?
    ensures Audited(env, s, ExecCall(env, w, stmt).0)
  {
    hide Replay, BookOf;
    var r := Serve(env, w.committed, stmt, env.fate(w.clock));
    BookSnoc(w.trace, Attempt(stmt, r.reply.Done?, r.landed));
    ReplaySnoc(env, s, BookOf(w.trace).durable, stmt);
  }

  lemma AuditNote<S>(env: Env<S>, s: S, w: World<S>, e: Entry)
    requires Audited(env, s, w) && (e.Slept? || e.Sent? || e.Queried?)
    ensures Audited(env, s, Note(w, e))
  {
    hide Replay, BookOf;
    BookSnoc(w.trace, e);
  }

  lemma {:induction false} AuditLoop<S>(env: Env<S>, s: S, w: World<S>, stmt: string, i: nat, delay: nat)
    requires i <= RETRY_LIMIT && Audited(env, s, w) && w.tx.None?
    ensures Audited(env, s, ExecLoop(env, w, stmt, i, delay).0)
    decreases RETRY_LIMIT - i
  {
    hide Audited, Serve;
    if i < RETRY_LIMIT {
      var (v, reply) := ExecCall(env, w, stmt);
      AuditExecCall(env, s, w, stmt);
      if reply.Broken? {
        AuditNote(env, s, v, Slept(delay));
        AuditLoop(env, s, Note(v, Slept(delay)), stmt, i + 1, delay + delay);
      }
    }
  }

  lemma AuditPerform<S>(env: Env<S>, s: S, w: World<S>, cmd: Command)
    requires Audited(env, s, w)
    ensures Audited(env, s, Perform(env, w, cmd).0)
  {
    hide Audited, StartsWith, Glue, ExecLoop;
    match cmd {
      case Begin(_) =>
        AuditBegin(env, s, w);
      case Commit(_) =>
        if w.tx.Some? {
          AuditCommit(env, s, w);
        }
      case Send(lines) =>
        var stmt := Glue(lines);
        if StartsWith(stmt, SELECT_WORD) {
          AuditNote(env, s, w, Queried(stmt));
        } else if w.tx.Some? {
          AuditTxExec(env, s, w, stmt);
        } else {
          AuditNote(env, s, w, Sent(stmt));
          AuditLoop(env, s, Note(w, Sent(stmt)), stmt, 0, 1);
        }
    }
  }

  lemma {:induction false} AuditPerformAll<S>(env: Env<S>, s: S, w: World<S>, cmds: seq<Command>)
    requires Audited(env, s, w)
    ensures Audited(env, s, PerformAll(env, w, cmds).world)
    decreases |cmds|
  {
    hide Audited, Perform;
    if cmds != [] {
      AuditPerform(env, s, w, cmds[0]);
      AuditPerformAll(env, s, Perform(env, w, cmds[0]).0, cmds[1..]);
    }
  }

  /** For every script and every course of events, lost calls that did their work and failed
      commits included: the committed state is the replay of the statements the trace shows as
      landed outside a transaction or inside a committed one, in that order. */
  lemma CommittedIsReplay<S>(env: Env<S>, s: S, w: World<S>, buffer: string)
    requires Audited(env, s, w)
    ensures var run := RunScript(env, w, buffer);
      && Audited(env, s, run.world)
      && Replay(env, s, BookOf(run.world.trace).durable) == Some(run.world.committed)
  {
    var u := w.(tx := None);
    RunIsParseThenPerform(env, u, START, ScriptLines(buffer));
    AuditPerformAll(env, s, u, Parse(START, ScriptLines(buffer)).1);
  }

  // ---------- the script alone ----------

  // Of the calls between two moments, none that was lost has done its work.
  ghost predicate NothingLost<S>(env: Env<S>, from: nat, to: nat) {
    forall c | from <= c < to :: env.fate(c) != Lost(true)
  }

  /** What the commands of a script owe to the committed state: statements outside a
      transaction at once, those inside with their COMMIT;, queries never. */
  datatype Plan = Plan(durable: seq<string>, open: Option<seq<string>>)

  const NO_PLAN := Plan([], None)

  function Extend(p: Plan, cmd: Command): Plan {
    match cmd
    case Begin(_) => p.(open := Some([]))
    case Commit(_) => if p.open.Some? then Plan(p.durable + p.open.value, None) else p
    case Send(lines) =>
      var stmt := Glue(lines);
      if StartsWith(stmt, SELECT_WORD) then p
      else if p.open.Some? then p.(open := Some(p.open.value + [stmt]))
      else p.(durable := p.durable + [stmt])
  }

  function PlanOf(p: Plan, cmds: seq<Command>): Plan
    decreases cmds
  {
    if cmds == [] then p else PlanOf(Extend(p, cmds[0]), cmds[1..])
  }

  ghost predicate OnPlan<S>(env: Env<S>, s: S, w: World<S>, p: Plan) {
    && Replay(env, s, p.durable) == Some(w.committed)
    && (w.tx.Some? <==> p.open.Some?)
    && (w.tx.Some? ==> Replay(env, s, p.durable + p.open.value) == w.tx)
  }

  lemma ExecOnPlan<S>(env: Env<S>, s: S, w: World<S>, p: Plan, stmt: string)
    requires OnPlan(env, s, w, p) && w.tx.None?
    requires NothingLost(env, w.clock, ExecStatement(env, w, stmt).0.clock)
    ensures var (v, verdict) := ExecStatement(env, w, stmt);
      && (verdict.Ok? ==> OnPlan(env, s, v, p.(durable := p.durable + [stmt])))
      && (!verdict.Ok? ==> OnPlan(env, s, v, p))
  {
    hide Replay, ExecLoop, LostRun, Read;
    ExecMeasure(env, w, stmt);
    ReplaySnoc(env, s, p.durable, stmt);
    if !env.disabled(w.clock) {
      var k := LostRun(env, w.clock, RETRY_LIMIT);
      LostRunIsLost(env, w.clock, RETRY_LIMIT);
      ExecExactlyOnce(env, w, stmt);
    }
  }

  lemma {:induction false} LostRunIsLost<S>(env: Env<S>, clock: nat, n: nat)
    ensures forall c | clock <= c < clock + LostRun(env, clock, n) :: env.fate(c).Lost?
    decreases n
  {
    if n > 0 && env.fate(clock).Lost? {
      LostRunIsLost(env, clock + 1, n - 1);
    }
  }

  // One command: what succeeds goes by the plan, what fails leaves the committed state alone.
  lemma PerformOnPlan<S>(env: Env<S>, s: S, w: World<S>, p: Plan, cmd: Command)
    requires OnPlan(env, s, w, p) && NothingLost(env, w.clock, Perform(env, w, cmd).0.clock)
    ensures var (v, stop) := Perform(env, w, cmd);
      && (stop.None? ==> OnPlan(env, s, v, Extend(p, cmd)))
      && (stop.Some? ==> v.committed == w.committed)
      && (stop.Some? && stop.value.TxFailed? ==> p.open.Some?)
  {
    hide Replay, StartsWith, Glue, ExecStatement;
    match cmd {
      case Begin(_) =>
        assert p.durable + [] == p.durable;
      case Commit(_) =>
      case Send(lines) =>
        var stmt := Glue(lines);
        if StartsWith(stmt, SELECT_WORD) {
        } else if w.tx.Some? {
          ReplaySnoc(env, s, p.durable + p.open.value, stmt);
          assert p.durable + (p.open.value + [stmt]) == (p.durable + p.open.value) + [stmt];
        } else {
          ExecOnPlan(env, s, w, p, stmt);
        }
    }
  }

  lemma ClockPerform<S>(env: Env<S>, w: World<S>, cmd: Command)
    ensures w.clock <= Perform(env, w, cmd).0.clock
  {
    hide StartsWith, Glue, ExecStatement;
    if cmd.Send? {
      ExecMeasure(env, w, Glue(cmd.lines));
    }
  }

  lemma {:induction false} ClockPerformAll<S>(env: Env<S>, w: World<S>, cmds: seq<Command>)
    ensures w.clock <= PerformAll(env, w, cmds).world.clock
    decreases |cmds|
  {
    hide Perform;
    if cmds != [] {
      ClockPerform(env, w, cmds[0]);
      ClockPerformAll(env, Perform(env, w, cmds[0]).0, cmds[1..]);
    }
  }

  // The commands that went through.
  ghost function Completed<S>(env: Env<S>, w: World<S>, cmds: seq<Command>): seq<Command>
    decreases cmds
  {
    if cmds == [] then []
    else
      var (v, stop) := Perform(env, w, cmds[0]);
      if stop.Some? then [] else [cmds[0]] + Completed(env, v, cmds[1..])
  }

  lemma {:induction false} PerformAllOnPlan<S>(env: Env<S>, s: S, w: World<S>, p: Plan, cmds: seq<Command>)
    requires OnPlan(env, s, w, p) && NothingLost(env, w.clock, PerformAll(env, w, cmds).world.clock)
    ensures var c := PerformAll(env, w, cmds);
      var q := PlanOf(p, Completed(env, w, cmds));
      && Replay(env, s, q.durable) == Some(c.world.committed)
      && (c.stop.None? ==> Completed(env, w, cmds) == cmds && OnPlan(env, s, c.world, q))
      && (c.stop.Some? && c.stop.value.TxFailed? ==> q.open.Some?)
    decreases |cmds|
  {
    hide Perform, Replay, Extend;
    if cmds != [] {
      var (v, stop) := Perform(env, w, cmds[0]);
      ClockPerform(env, w, cmds[0]);
      ClockPerformAll(env, v, cmds[1..]);
      assert v.clock <= PerformAll(env, w, cmds).world.clock;
      PerformOnPlan(env, s, w, p, cmds[0]);
      if stop.None? {
        PerformAllOnPlan(env, s, v, Extend(p, cmds[0]), cmds[1..]);
        var later := Completed(env, v, cmds[1..]);
        assert ([cmds[0]] + later)[1..] == later;
        assert cmds == [cmds[0]] + cmds[1..];
      }
    }
  }

  /** When no lost call of the run did its work, the script alone decides: the committed state
      after a run is the state before it with exactly the durable statements of the commands that went through.
      What was sent since the last BEGIN is not among them when a transaction fails. */
  lemma CommittedByPlan<S>(env: Env<S>, w: World<S>, buffer: string)
    requires NothingLost(env, w.clock, RunScript(env, w, buffer).world.clock)
    ensures var run := RunScript(env, w, buffer);
      var done := Completed(env, w.(tx := None), Parse(START, ScriptLines(buffer)).1);
      var plan := PlanOf(NO_PLAN, done);
      && Replay(env, w.committed, plan.durable) == Some(run.world.committed)
      && (run.stop.None? ==> done == Parse(START, ScriptLines(buffer)).1)
      && (run.stop.Some? && run.stop.value.TxFailed? ==> plan.open.Some?)
  {
    var u := w.(tx := None);
    RunIsParseThenPerform(env, u, START, ScriptLines(buffer));
    assert OnPlan(env, w.committed, u, NO_PLAN);
    PerformAllOnPlan(env, w.committed, u, NO_PLAN, Parse(START, ScriptLines(buffer)).1);
  }
}
