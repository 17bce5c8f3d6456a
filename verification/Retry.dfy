/** DBX.exec: at most ten attempts with a doubling delay between them (db.go, DBX.exec). */
module Retry {
  import opened Text
  import opened Sql

  const RETRY_LIMIT := 10

  // Waiting is no answer at all: the connection is held and the call does not return.
  datatype Verdict = Ok | SqlError | GaveUp | Unavailable | Waiting

  // The rest of the loop, from attempt i on.
  function ExecLoop<S>(env: Env<S>, w: World<S>, stmt: string, i: nat, delay: nat): (World<S>, Verdict)
    requires i <= RETRY_LIMIT
    decreases RETRY_LIMIT - i
  {
    if i == RETRY_LIMIT then (w, GaveUp)
    else
      var (v, reply) := ExecCall(env, w, stmt);
      match reply
      case Done => (v, Ok)
      case Rejected => (v, SqlError)
      case Broken => ExecLoop(env, Note(v, Slept(delay)), stmt, i + 1, delay + delay)
  }

  // The breaker is read once, before the loop.
  function ExecStatement<S>(env: Env<S>, w: World<S>, stmt: string): (World<S>, Verdict) {
    if env.disabled(w.clock) then (Note(w, Sent(stmt)), Unavailable)
    else if w.held then (Note(w, Sent(stmt)), Waiting)
    else ExecLoop(env, Note(w, Sent(stmt)), stmt, 0, 1)
  }

  /** What a trace adds up to: statements handed to exec, attempts made, attempts that changed
      the database, and the milliseconds slept. */
  datatype Meter = Meter(sent: nat, attempts: nat, landings: nat, slept: nat)

  function Bump(m: Meter, e: Entry): Meter {
    match e
    case Sent(_) => m.(sent := m.sent + 1)
    case Attempt(_, _, landed) =>
      m.(attempts := m.attempts + 1, landings := m.landings + if landed then 1 else 0)
    case Slept(ms) => m.(slept := m.slept + ms)
    case _ => m
  }

  function Read(trace: seq<Entry>): Meter {
    if trace == [] then Meter(0, 0, 0, 0)
    else Bump(Read(trace[..|trace| - 1]), trace[|trace| - 1])
  }

  lemma ReadSnoc(trace: seq<Entry>, e: Entry)
    ensures Read(trace + [e]) == Bump(Read(trace), e)
  {
    assert (trace + [e])[..|trace|] == trace;
  }

  function Pow2(k: nat): nat {
    if k == 0 then 1 else 2 * Pow2(k - 1)
  }

  // k sleeps, each twice as long as the one before.
  function Naps(delay: nat, k: nat): nat
    decreases k
  {
    if k == 0 then 0 else delay + Naps(delay + delay, k - 1)
  }

  lemma {:induction false} NapsDouble(i: nat, k: nat)
    ensures Naps(Pow2(i), k) == Pow2(i + k) - Pow2(i)
    decreases k
  {
    if k > 0 {
      NapsDouble(i + 1, k - 1);
    }
  }

  // The number of calls lost in a row from the given moment, counting at most n.
  function LostRun<S>(env: Env<S>, clock: nat, n: nat): (k: nat)
    ensures k <= n
    decreases n
  {
    if n == 0 || !env.fate(clock).Lost? then 0 else 1 + LostRun(env, clock + 1, n - 1)
  }

  // One attempt: which fate brings which reply, and what it may change.
  lemma AttemptMeasure<S>(env: Env<S>, w: World<S>, stmt: string)
    ensures var (v, reply) := ExecCall(env, w, stmt);
      && (reply.Broken? <==> env.fate(w.clock).Lost?)
      && v.clock == w.clock + 1 && v.tx == w.tx && v.held == w.held
      && Read(v.trace).attempts == Read(w.trace).attempts + 1
      && Read(v.trace).slept == Read(w.trace).slept
      && Read(v.trace).sent == Read(w.trace).sent
  {
    var (v, reply) := ExecCall(env, w, stmt);
    ReadSnoc(w.trace, Attempt(stmt, reply.Done?, Serve(env, w.committed, stmt, env.fate(w.clock)).landed));
  }

  // How the loop ends after k calls were lost in a row, and what it adds to the meter.
  ghost predicate Measured<S>(w: World<S>, v: World<S>, verdict: Verdict, k: nat, left: nat, slept: nat) {
    && (verdict.GaveUp? <==> k == left)
    && !verdict.Unavailable? && !verdict.Waiting?
    && v.clock == w.clock + (if k == left then k else k + 1)
    && v.tx == w.tx && v.held == w.held
    && Read(v.trace).attempts == Read(w.trace).attempts + v.clock - w.clock
    && Read(v.trace).slept == Read(w.trace).slept + slept
    && Read(v.trace).sent == Read(w.trace).sent
  }

  // A turn of the loop that returns.
  lemma LastTurn<S>(env: Env<S>, w: World<S>, stmt: string, i: nat, delay: nat)
    requires i < RETRY_LIMIT && !env.fate(w.clock).Lost?
    ensures var (v, verdict) := ExecLoop(env, w, stmt, i, delay);
      Measured(w, v, verdict, 0, RETRY_LIMIT - i, 0)
  {
    hide Read, ExecCall;
    AttemptMeasure(env, w, stmt);
    assert ExecLoop(env, w, stmt, i, delay).0 == ExecCall(env, w, stmt).0;
  }

  // A turn of the loop that fails and sleeps.
  lemma LostTurn<S>(env: Env<S>, w: World<S>, stmt: string, i: nat, delay: nat) returns (u: World<S>)
    requires i < RETRY_LIMIT && env.fate(w.clock).Lost?
    ensures ExecLoop(env, w, stmt, i, delay) == ExecLoop(env, u, stmt, i + 1, delay + delay)
    ensures u == Note(ExecCall(env, w, stmt).0, Slept(delay))
    ensures u.clock == w.clock + 1 && u.tx == w.tx && u.held == w.held
    ensures Read(u.trace).attempts == Read(w.trace).attempts + 1
    ensures Read(u.trace).slept == Read(w.trace).slept + delay
    ensures Read(u.trace).sent == Read(w.trace).sent
  {
    hide Read, ExecCall;
    u := Note(ExecCall(env, w, stmt).0, Slept(delay));
    AttemptMeasure(env, w, stmt);
    ReadSnoc(ExecCall(env, w, stmt).0.trace, Slept(delay));
  }

  lemma {:induction false} LoopMeasure<S>(env: Env<S>, w: World<S>, stmt: string, i: nat, delay: nat)
    requires i <= RETRY_LIMIT
    ensures var k := LostRun(env, w.clock, RETRY_LIMIT - i);
      var (v, verdict) := ExecLoop(env, w, stmt, i, delay);
      Measured(w, v, verdict, k, RETRY_LIMIT - i, Naps(delay, k))
    decreases RETRY_LIMIT - i
  {
    hide Read, ExecCall, Note;
    if i == RETRY_LIMIT {
    } else if env.fate(w.clock).Lost? {
      var k := LostRun(env, w.clock + 1, RETRY_LIMIT - i - 1);
      assert LostRun(env, w.clock, RETRY_LIMIT - i) == k + 1;
      hide ExecLoop, LostRun;
      var u := LostTurn(env, w, stmt, i, delay);
      LoopMeasure(env, u, stmt, i + 1, delay + delay);
      assert Naps(delay, k + 1) == delay + Naps(delay + delay, k);
    } else {
      LastTurn(env, w, stmt, i, delay);
    }
  }

  // The k calls from the given moment on were lost without the engine having done anything.
  ghost predicate LostForNothing<S>(env: Env<S>, clock: nat, k: nat) {
    forall c | clock <= c < clock + k :: env.fate(c) == Lost(false)
  }

  // How often one run of the loop changed the database, and what it left, against the
  // statement being run once.
  ghost predicate Counted<S>(env: Env<S>, w: World<S>, stmt: string, v: World<S>, verdict: Verdict, k: nat) {
    var n := Read(v.trace).landings - Read(w.trace).landings;
    var once := if verdict.Ok? then 1 else 0;
    var next := env.apply(w.committed, stmt);
    && n >= once
    && (next.None? ==> n == 0 && !verdict.Ok? && v.committed == w.committed)
    && (LostForNothing(env, w.clock, k) ==>
          n == once && v.committed == if verdict.Ok? then next.value else w.committed)
    && (next.Some? && !LostForNothing(env, w.clock, k) ==> n > once)
  }

  lemma LandingMeasure<S>(env: Env<S>, w: World<S>, stmt: string, delay: nat)
    ensures var (v, reply) := ExecCall(env, w, stmt);
      var landed := Serve(env, w.committed, stmt, env.fate(w.clock)).landed;
      && Read(v.trace).landings == Read(w.trace).landings + (if landed then 1 else 0)
      && Read(Note(v, Slept(delay)).trace).landings == Read(v.trace).landings
  {
    hide Read;
    var (v, reply) := ExecCall(env, w, stmt);
    ReadSnoc(w.trace, Attempt(stmt, reply.Done?, Serve(env, w.committed, stmt, env.fate(w.clock)).landed));
    ReadSnoc(v.trace, Slept(delay));
  }

  lemma LastTurnCount<S>(env: Env<S>, w: World<S>, stmt: string, i: nat, delay: nat)
    requires i < RETRY_LIMIT && !env.fate(w.clock).Lost?
    ensures var (v, verdict) := ExecLoop(env, w, stmt, i, delay);
      Counted(env, w, stmt, v, verdict, 0)
  {
    hide Read;
    LandingMeasure(env, w, stmt, delay);
  }

  // A lost attempt in front of a run that is counted already.
  lemma LostTurnCount<S>(env: Env<S>, w: World<S>, stmt: string, u: World<S>, v: World<S>,
                         verdict: Verdict, k: nat, delay: nat)
    requires env.fate(w.clock).Lost? && u == Note(ExecCall(env, w, stmt).0, Slept(delay))
    requires Counted(env, u, stmt, v, verdict, k)
    ensures Counted(env, w, stmt, v, verdict, k + 1)
  {
    hide Read;
    LandingMeasure(env, w, stmt, delay);
    assert LostForNothing(env, w.clock, k + 1)
      <==> env.fate(w.clock) == Lost(false) && LostForNothing(env, w.clock + 1, k);
  }

  lemma {:induction false} LoopCount<S>(env: Env<S>, w: World<S>, stmt: string, i: nat, delay: nat)
    requires i <= RETRY_LIMIT
    ensures var k := LostRun(env, w.clock, RETRY_LIMIT - i);
      var (v, verdict) := ExecLoop(env, w, stmt, i, delay);
      Counted(env, w, stmt, v, verdict, k)
    decreases RETRY_LIMIT - i
  {
    hide Read, ExecCall;
    if i < RETRY_LIMIT && env.fate(w.clock).Lost? {
      var k := LostRun(env, w.clock + 1, RETRY_LIMIT - i - 1);
      assert LostRun(env, w.clock, RETRY_LIMIT - i) == k + 1;
      hide Counted, ExecLoop, LostRun;
      var u := LostTurn(env, w, stmt, i, delay);
      LoopCount(env, u, stmt, i + 1, delay + delay);
      var (v, verdict) := ExecLoop(env, u, stmt, i + 1, delay + delay);
      LostTurnCount(env, w, stmt, u, v, verdict, k, delay);
    } else if i < RETRY_LIMIT {
      LastTurnCount(env, w, stmt, i, delay);
    }
  }

  // ---------- main results ----------

  /** What exec does, for every statement and every course of events: it stops at the first
      attempt that is not lost, or after ten; it sleeps 2^k - 1 milliseconds over k lost attempts,
      so 1023 when it gives up and at most 511 otherwise. */
  lemma ExecMeasure<S>(env: Env<S>, w: World<S>, stmt: string)
    ensures var k := LostRun(env, w.clock, RETRY_LIMIT);
      var (v, verdict) := ExecStatement(env, w, stmt);
      var before, after := Read(w.trace), Read(v.trace);
      && after.sent == before.sent + 1
      && v.tx == w.tx && v.held == w.held
      && (verdict.Unavailable? <==> env.disabled(w.clock))
      && (verdict.Waiting? <==> !env.disabled(w.clock) && w.held)
      && (verdict.Unavailable? || verdict.Waiting? ==>
            v.clock == w.clock && v.committed == w.committed && after == before.(sent := after.sent))
      && (!verdict.Unavailable? && !verdict.Waiting? ==>
            && (verdict.GaveUp? <==> k == RETRY_LIMIT)
            && after.attempts == before.attempts + (if k == RETRY_LIMIT then k else k + 1)
            && v.clock == w.clock + (if k == RETRY_LIMIT then k else k + 1)
            && after.slept == before.slept + Pow2(k) - 1)
      && after.attempts <= before.attempts + 10
      && after.slept <= before.slept + (if verdict.GaveUp? then 1023 else 511)
  {
    hide Read, ExecLoop, LostRun;
    ReadSnoc(w.trace, Sent(stmt));
    if !env.disabled(w.clock) && !w.held {
      var k := LostRun(env, w.clock, RETRY_LIMIT);
      LoopMeasure(env, Note(w, Sent(stmt)), stmt, 0, 1);
      NapsDouble(0, k);
      Pow2Bound(k);
    }
  }

  lemma Pow2Bound(k: nat)
    requires k <= 10
    ensures Pow2(k) <= 1024 && (k < 10 ==> Pow2(k) <= 512)
  {
    assert Pow2(5) == 32;
    assert Pow2(10) == 32 * Pow2(5);
  }

  lemma {:induction false} LostRunIsLeast<S>(env: Env<S>, clock: nat, n: nat)
    ensures var k := LostRun(env, clock, n);
      && (forall c | clock <= c < clock + k :: env.fate(c).Lost?)
      && (k < n ==> !env.fate(clock + k).Lost?)
    decreases n
  {
    if n > 0 && env.fate(clock).Lost? {
      LostRunIsLeast(env, clock + 1, n - 1);
    }
  }

  // exec answers as the one call at u does.
  ghost predicate AnsweredBy<S>(env: Env<S>, u: World<S>, stmt: string, v: World<S>, verdict: Verdict) {
    var (x, reply) := ExecCall(env, u, stmt);
    v == x && (verdict == Ok <==> reply == Done) && (verdict == SqlError <==> reply == Rejected)
  }

  lemma LastAnswer<S>(env: Env<S>, w: World<S>, stmt: string, i: nat, delay: nat)
    requires i < RETRY_LIMIT && !env.fate(w.clock).Lost?
    ensures var (v, verdict) := ExecLoop(env, w, stmt, i, delay);
      AnsweredBy(env, w, stmt, v, verdict)
  {
    hide Read;
    assert !ExecCall(env, w, stmt).1.Broken? by { AttemptMeasure(env, w, stmt); }
  }

  // The world before the attempt that ends the loop.
  lemma {:induction false} LoopEndsWith<S>(env: Env<S>, w: World<S>, stmt: string, i: nat, delay: nat, k: nat)
    returns (u: World<S>)
    requires i <= RETRY_LIMIT && k == LostRun(env, w.clock, RETRY_LIMIT - i) < RETRY_LIMIT - i
    ensures u.clock == w.clock + k
    ensures var (v, verdict) := ExecLoop(env, w, stmt, i, delay);
      AnsweredBy(env, u, stmt, v, verdict)
    decreases RETRY_LIMIT - i
  {
    hide Read, ExecCall, ExecLoop, AnsweredBy;
    if env.fate(w.clock).Lost? {
      assert k == 1 + LostRun(env, w.clock + 1, RETRY_LIMIT - i - 1);
      hide LostRun;
      var t := LostTurn(env, w, stmt, i, delay);
      u := LoopEndsWith(env, t, stmt, i + 1, delay + delay, k - 1);
    } else {
      u := w;
      LastAnswer(env, w, stmt, i, delay);
    }
  }

  lemma ExecEndsWith<S>(env: Env<S>, w: World<S>, stmt: string, k: nat) returns (u: World<S>)
    requires !env.disabled(w.clock) && !w.held && k == LostRun(env, w.clock, RETRY_LIMIT) < RETRY_LIMIT
    ensures u.clock == w.clock + k
    ensures var (v, verdict) := ExecStatement(env, w, stmt);
      AnsweredBy(env, u, stmt, v, verdict)
  {
    hide Read, ExecCall, ExecLoop, LostRun, AnsweredBy;
    u := LoopEndsWith(env, Note(w, Sent(stmt)), stmt, 0, 1, k);
  }

  lemma TenLost<S>(env: Env<S>, clock: nat, k: nat)
    requires k == LostRun(env, clock, RETRY_LIMIT)
    ensures k == RETRY_LIMIT <==> forall c | clock <= c < clock + 10 :: env.fate(c).Lost?
    ensures k <= 10
  {
    LostRunIsLeast(env, clock, RETRY_LIMIT);
    if k < RETRY_LIMIT {
      assert !env.fate(clock + k).Lost?;
    }
  }

  lemma FirstReply<S>(env: Env<S>, clock: nat) returns (k: nat)
    requires exists c | clock <= c < clock + 10 :: !env.fate(c).Lost?
    ensures k == LostRun(env, clock, RETRY_LIMIT) < RETRY_LIMIT && k < 10
    ensures !env.fate(clock + k).Lost? && forall c | clock <= c < clock + k :: env.fate(c).Lost?
  {
    k := LostRun(env, clock, RETRY_LIMIT);
    TenLost(env, clock, k);
    LostRunIsLeast(env, clock, RETRY_LIMIT);
    hide LostRun;
  }

  lemma TenNaps()
    ensures Pow2(10) == 1024
  {
    assert Pow2(5) == 32;
    assert Pow2(10) == 32 * Pow2(5);
  }

  /** Ten attempts, whatever happens to them: on a free connection with the breaker off, exec gives
      up if and only if the next ten calls are all lost, and has then made ten attempts and slept
      1023 milliseconds. */
  lemma ExecTriesTenTimes<S>(env: Env<S>, w: World<S>, stmt: string)
    requires !env.disabled(w.clock) && !w.held
    ensures var (v, verdict) := ExecStatement(env, w, stmt);
      var before, after := Read(w.trace), Read(v.trace);
      && (verdict == GaveUp <==> forall c | w.clock <= c < w.clock + 10 :: env.fate(c).Lost?)
      && (verdict == GaveUp ==>
            after.attempts == before.attempts + 10 && after.slept == before.slept + 1023)
  {
    ExecMeasure(env, w, stmt);
    hide Read, ExecStatement, LostRun, Pow2;
    TenLost(env, w.clock, LostRun(env, w.clock, RETRY_LIMIT));
    TenNaps();
  }

  /** Otherwise its answer is that of the first of the ten calls that is not lost, given at the world
      u that the lost ones leave: it succeeds when that call is done, and fails at once when that
      call is rejected. */
  lemma ExecAnswersAtFirstReply<S>(env: Env<S>, w: World<S>, stmt: string) returns (u: World<S>)
    requires !env.disabled(w.clock) && !w.held
    requires exists c | w.clock <= c < w.clock + 10 :: !env.fate(c).Lost?
    ensures w.clock <= u.clock < w.clock + 10 && !env.fate(u.clock).Lost?
    ensures forall c | w.clock <= c < u.clock :: env.fate(c).Lost?
    ensures var (v, verdict) := ExecStatement(env, w, stmt);
      AnsweredBy(env, u, stmt, v, verdict)
  {
    hide *;
    var k := FirstReply(env, w.clock);
    u := ExecEndsWith(env, w, stmt, k);
  }

  /** The statement is applied exactly as often as exec reports, once on success and never on
      failure, if and only if it is not tried at all, the engine rejects it outright, or no lost
      attempt did its work; and then the committed state is that of applying it so. */
  lemma ExecExactlyOnce<S>(env: Env<S>, w: World<S>, stmt: string)
    ensures var k := LostRun(env, w.clock, RETRY_LIMIT);
      var (v, verdict) := ExecStatement(env, w, stmt);
      var n := Read(v.trace).landings - Read(w.trace).landings;
      var next := env.apply(w.committed, stmt);
      var sound := env.disabled(w.clock) || w.held || next.None? || LostForNothing(env, w.clock, k);
      && (n == (if verdict.Ok? then 1 else 0) <==> sound)
      && (sound ==> Some(v.committed) == if verdict.Ok? then next else Some(w.committed))
  {
    hide Read, ExecLoop, LostRun;
    ReadSnoc(w.trace, Sent(stmt));
    LoopCount(env, Note(w, Sent(stmt)), stmt, 0, 1);
  }

  // The first call is lost after the server did its work, the later ones are served.
  const LOST_ONCE: Env<int> := Env(
    (s: int, stmt: string) => Some(s + 1),
    (s: int, stmt: string) => Receipt(s, 1),
    (clock: nat) => if clock == 0 then Lost(true) else Served,
    (clock: nat) => false)

  /** It does happen: here a statement that counts up reports one success and has counted twice. */
  lemma AppliedTwice(stmt: string)
    ensures var (v, verdict) := ExecStatement(LOST_ONCE, World(0, None, false, 0, []), stmt);
      verdict == Ok && v.committed == 2
  {
    var w := Note(World(0, None, false, 0, []), Sent(stmt));
    var first := ExecCall(LOST_ONCE, w, stmt);
    assert first.1 == Broken && first.0.committed == 1 && first.0.clock == 1;
    var u := Note(first.0, Slept(1));
    var second := ExecCall(LOST_ONCE, u, stmt);
    assert second.1 == Done && second.0.committed == 2;
    hide ExecCall;
    assert ExecLoop(LOST_ONCE, u, stmt, 1, 2) == (second.0, Ok);
  }
}
