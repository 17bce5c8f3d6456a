/** How often the statements of a whole script take effect when they are sent outside a
    transaction, where a lost call may have done its work and is tried again. */
module Once {
  import opened Text
  import opened Lines
  import opened Sql
  import opened Retry
  import opened Batch
  import opened Semantics
  import opened Faults

  /** What a trace shows of exec: the statements handed to it, those that took effect, attempt by
      attempt, and the number of lost attempts among these. */
  datatype Tally = Tally(sent: seq<string>, landed: seq<string>, strays: nat)

  function Add(t: Tally, e: Entry): Tally {
    match e
    case Sent(s) => t.(sent := t.sent + [s])
    case Attempt(s, ok, landed) =>
      if landed then t.(landed := t.landed + [s], strays := t.strays + if ok then 0 else 1) else t
    case _ => t
  }

  function TallyOf(trace: seq<Entry>): Tally {
    if trace == [] then Tally([], [], 0)
    else Add(TallyOf(trace[..|trace| - 1]), trace[|trace| - 1])
  }

  lemma TallySnoc(trace: seq<Entry>, e: Entry)
    ensures TallyOf(trace + [e]) == Add(TallyOf(trace), e)
  {
    assert (trace + [e])[..|trace|] == trace;
  }

  function Times(stmt: string, n: nat): seq<string> {
    seq(n, _ => stmt)
  }

  lemma TallyOfAttempt<S>(env: Env<S>, w: World<S>, stmt: string, delay: nat)
    ensures var (v, reply) := ExecCall(env, w, stmt);
      var landed := Serve(env, w.committed, stmt, env.fate(w.clock)).landed;
      && TallyOf(v.trace) == Add(TallyOf(w.trace), Attempt(stmt, reply.Done?, landed))
      && TallyOf(Note(v, Slept(delay)).trace) == TallyOf(v.trace)
      && (reply.Done? ==> landed) && (reply.Rejected? ==> !landed)
  {
    hide TallyOf;
    var (v, reply) := ExecCall(env, w, stmt);
    TallySnoc(w.trace, Attempt(stmt, reply.Done?, Serve(env, w.committed, stmt, env.fate(w.clock)).landed));
    TallySnoc(v.trace, Slept(delay));
  }

  // The loop adds its statement once for every stray, and once more when it reports success.
  ghost predicate Tried(before: Tally, after: Tally, stmt: string, ok: bool) {
    && after.sent == before.sent
    && before.strays <= after.strays
    && after.landed == before.landed + Times(stmt, after.strays - before.strays + if ok then 1 else 0)
  }

  lemma TriedAgain(before: Tally, after: Tally, end: Tally, stmt: string, landed: bool, ok: bool)
    requires after == Add(before, Attempt(stmt, false, landed)) && Tried(after, end, stmt, ok)
    ensures Tried(before, end, stmt, ok)
  {
    var n := end.strays - after.strays + if ok then 1 else 0;
    assert [stmt] + Times(stmt, n) == Times(stmt, n + 1);
  }

  lemma {:induction false} LoopTally<S>(env: Env<S>, w: World<S>, stmt: string, i: nat, delay: nat)
    requires i <= RETRY_LIMIT
    ensures var (v, verdict) := ExecLoop(env, w, stmt, i, delay);
      Tried(TallyOf(w.trace), TallyOf(v.trace), stmt, verdict.Ok?) && !verdict.Waiting?
    decreases RETRY_LIMIT - i
  {
    hide TallyOf, Serve;
    if i < RETRY_LIMIT {
      var (v, reply) := ExecCall(env, w, stmt);
      TallyOfAttempt(env, w, stmt, delay);
      if reply.Broken? {
        var u := Note(v, Slept(delay));
        LoopTally(env, u, stmt, i + 1, delay + delay);
        var (end, verdict) := ExecLoop(env, u, stmt, i + 1, delay + delay);
        var landed := Serve(env, w.committed, stmt, env.fate(w.clock)).landed;
        TriedAgain(TallyOf(w.trace), TallyOf(u.trace), TallyOf(end.trace), stmt, landed, verdict.Ok?);
      }
    }
  }

  /** What a run adds to the tally, given whether its last statement for exec failed: without a
      stray, the statements that took effect are the statements sent, in order, less the failed
      one; every stray makes them one more. */
  ghost predicate Tallied(before: Tally, after: Tally, failed: bool) {
    && before.sent <= after.sent && before.landed <= after.landed && before.strays <= after.strays
    && var sent, landed := after.sent[|before.sent|..], after.landed[|before.landed|..];
    && (failed ==> sent != [])
    && |landed| == |sent| - (if failed then 1 else 0) + after.strays - before.strays
    && (after.strays == before.strays ==> landed == if failed then sent[..|sent| - 1] else sent)
  }

  lemma TalliedThen(before: Tally, between: Tally, after: Tally, failed: bool)
    requires Tallied(before, between, false) && Tallied(between, after, failed)
    ensures Tallied(before, after, failed)
  {
    assert after.sent[|before.sent|..] == between.sent[|before.sent|..] + after.sent[|between.sent|..];
    assert after.landed[|before.landed|..] == between.landed[|before.landed|..] + after.landed[|between.landed|..];
  }

  predicate ExecStopped(stop: Option<Stop>) {
    stop.Some? && stop.value.ExecFailed?
  }

  lemma ExecTally<S>(env: Env<S>, w: World<S>, stmt: string)
    requires !w.held
    ensures var (v, verdict) := ExecStatement(env, w, stmt);
      Tallied(TallyOf(w.trace), TallyOf(v.trace), !verdict.Ok?) && !verdict.Waiting?
  {
    hide TallyOf, ExecLoop;
    TallySnoc(w.trace, Sent(stmt));
    if !env.disabled(w.clock) {
      LoopTally(env, Note(w, Sent(stmt)), stmt, 0, 1);
    }
  }

  lemma TallyIdle(trace: seq<Entry>, e: Entry)
    requires !e.Sent? && !e.Attempt?
    ensures TallyOf(trace + [e]) == TallyOf(trace)
  {
    hide TallyOf;
    TallySnoc(trace, e);
  }

  lemma PerformTally<S>(env: Env<S>, w: World<S>, cmd: Command)
    requires w.held <==> w.tx.Some?
    ensures var (v, stop) := Perform(env, w, cmd);
      Tallied(TallyOf(w.trace), TallyOf(v.trace), ExecStopped(stop))
  {
    hide TallyOf, ExecStatement, StartsWith, Glue;
    var v := Perform(env, w, cmd).0;
    match cmd {
      case Begin(_) =>
        if !w.held {
          TallyIdle(w.trace, v.trace[|w.trace|]);
        }
      case Commit(_) =>
        if w.tx.Some? {
          TallyIdle(w.trace, v.trace[|w.trace|]);
        }
      case Send(lines) =>
        var stmt := Glue(lines);
        if StartsWith(stmt, SELECT_WORD) {
          TallyIdle(w.trace, Queried(stmt));
        } else if w.tx.Some? {
          TallyIdle(w.trace, v.trace[|w.trace|]);
        } else {
          ExecTally(env, w, stmt);
        }
    }
  }

  lemma {:induction false} PerformAllTally<S>(env: Env<S>, w: World<S>, cmds: seq<Command>)
    requires w.held <==> w.tx.Some?
    ensures var c := PerformAll(env, w, cmds);
      Tallied(TallyOf(w.trace), TallyOf(c.world.trace), ExecStopped(c.stop))
    decreases |cmds|
  {
    if cmds != [] {
      PerformTally(env, w, cmds[0]);
      PerformFaults(env, w, cmds[0]);
      hide TallyOf, Perform, Tallied, FaultOf;
      var (v, stop) := Perform(env, w, cmds[0]);
      if stop.None? {
        PerformAllTally(env, v, cmds[1..]);
        var c := PerformAll(env, v, cmds[1..]);
        TalliedThen(TallyOf(w.trace), TallyOf(v.trace), TallyOf(c.world.trace), ExecStopped(c.stop));
      }
    }
  }

  /** Over a whole script, the statements that took effect through exec are those handed to it, each
      once and in order, less the one that stopped the run, if and only if no lost attempt of the
      run did its work. */
  lemma ScriptExactlyOnce<S>(env: Env<S>, w: World<S>, buffer: string)
    requires !w.held
    ensures var run := RunScript(env, w, buffer);
      var before, after := TallyOf(w.trace), TallyOf(run.world.trace);
      && before.sent <= after.sent && before.landed <= after.landed
      && var sent, landed := after.sent[|before.sent|..], after.landed[|before.landed|..];
      && (ExecStopped(run.stop) ==> sent != [])
      && (landed == (if ExecStopped(run.stop) then sent[..|sent| - 1] else sent)
          <==> after.strays == before.strays)
  {
    RunIsParseThenPerform(env, w.(tx := None), START, ScriptLines(buffer));
    hide TallyOf;
    PerformAllTally(env, w.(tx := None), Parse(START, ScriptLines(buffer)).1);
  }
}
