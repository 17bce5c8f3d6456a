/** The database as db.go sees it through database/sql: a committed state, transactions that
    work on a view of it, and a record of the calls made. SQL itself is uninterpreted: `apply`
    is any partial function, undefined where the engine answers with an error. */
module Sql {
  import opened Text

  /** What becomes of one call.
      - Served: the engine gets it and its answer comes back.
      - Refused: an error with a positive code comes back and nothing happened (a busy database).
      - Lost: any other error comes back; the engine may all the same have done the work. */
  datatype Fate = Served | Refused | Lost(landed: bool)

  // What the caller is told. Rejected is a driver.Error with a positive code.
  datatype Reply = Done | Rejected | Broken

  // sql.Result, as db.go's Result keeps it.
  datatype Receipt = Receipt(lastInsertID: int, rowsAffected: int)

  /** Everything outside the program. `fate` is asked with the number of calls made so far,
      `disabled` is the circuit breaker read at that moment. */
  datatype Env<!S> = Env(
    apply: (S, string) -> Option<S>,
    receipt: (S, string) -> Receipt,
    fate: nat -> Fate,
    disabled: nat -> bool)

  datatype Entry =
    | Began(ok: bool)
    | Ended(ok: bool, landed: bool)
    | RolledBack
    | InTx(stmt: string, ok: bool, landed: bool)
    | Sent(stmt: string)
    | Attempt(stmt: string, ok: bool, landed: bool)
    | Slept(ms: nat)
    | Queried(stmt: string)

  /** tx is the view of the caller's transaction handle, if it has one. held says that the one
      connection of the handle belongs to a transaction, the caller's or one left behind; a call
      that needs the connection then waits for ever. */
  datatype World<S> = World(committed: S, tx: Option<S>, held: bool, clock: nat, trace: seq<Entry>)

  datatype Service<S> = Service(state: S, reply: Reply, landed: bool)

  // One statement given to the engine.
  function Serve<S>(env: Env<S>, s: S, stmt: string, fate: Fate): Service<S> {
    var next := env.apply(s, stmt);
    match fate
    case Served => if next.Some? then Service(next.value, Done, true) else Service(s, Rejected, false)
    case Refused => Service(s, Rejected, false)
    case Lost(landed) =>
      if landed && next.Some? then Service(next.value, Broken, true) else Service(s, Broken, false)
  }

  // ---------- the calls, on values ----------

  function Tick<S>(w: World<S>, e: Entry): World<S> {
    w.(clock := w.clock + 1, trace := w.trace + [e])
  }

  function Note<S>(w: World<S>, e: Entry): World<S> {
    w.(trace := w.trace + [e])
  }

  // db.Begin on a free connection: a view of the committed state, or no handle at all.
  function BeginCall<S>(env: Env<S>, w: World<S>): World<S> {
    var ok := env.fate(w.clock).Served?;
    Tick(w, Began(ok)).(tx := if ok then Some(w.committed) else None, held := ok)
  }

  // tx.Exec
  function TxExecCall<S>(env: Env<S>, w: World<S>, stmt: string): (World<S>, Reply)
    requires w.tx.Some?
  {
    var r := Serve(env, w.tx.value, stmt, env.fate(w.clock));
    (Tick(w, InTx(stmt, r.reply.Done?, r.landed)).(tx := Some(r.state)), r.reply)
  }

  // tx.Commit: the handle is spent either way; a lost call may have committed.
  function CommitCall<S>(env: Env<S>, w: World<S>): (World<S>, bool)
    requires w.tx.Some?
  {
    var fate := env.fate(w.clock);
    var landed := fate.Served? || fate == Lost(true);
    (Tick(w, Ended(fate.Served?, landed)).(
       committed := if landed then w.tx.value else w.committed,
       tx := None,
       held := false),
     fate.Served?)
  }

  // tx.Rollback: its error is ignored by the caller.
  function RollbackCall<S>(w: World<S>): World<S> {
    Tick(w, RolledBack).(tx := None, held := false)
  }

  // db.Exec on a free connection, each call its own transaction.
  function ExecCall<S>(env: Env<S>, w: World<S>, stmt: string): (World<S>, Reply) {
    var r := Serve(env, w.committed, stmt, env.fate(w.clock));
    (Tick(w, Attempt(stmt, r.reply.Done?, r.landed)).(committed := r.state), r.reply)
  }

  // ---------- the handles ----------

  /** *sql.DB, limited to one connection. A call that finds it held does not return; the methods
      require it free, and their callers answer for the other case. */
  class DB<S> {
    const env: Env<S>
    var committed: S
    var held: bool
    var clock: nat
    var trace: seq<Entry>

    constructor (env: Env<S>, initial: S)
      ensures this.env == env
      ensures Snap(null) == World(initial, None, false, 0, [])
    {
      this.env := env;
      committed, held, clock, trace := initial, false, 0, [];
    }

    // The world of a caller that holds tx.
    ghost function Snap(tx: Tx?<S>): World<S>
      reads this, tx
    {
      World(committed, if tx == null then None else Some(tx.view), held, clock, trace)
    }

    method Record(e: Entry)
      modifies this`trace
      ensures trace == old(trace) + [e]
    {
      trace := trace + [e];
    }

    method Begin() returns (tx: Tx?<S>)
      requires !held
      modifies this
      ensures tx != null ==> fresh(tx) && tx.db == this
      ensures Snap(tx) == BeginCall(env, old(Snap(null)))
    {
      var ok := env.fate(clock).Served?;
      tx := null;
      if ok {
        tx := new Tx(this, committed);
      }
      held, clock, trace := ok, clock + 1, trace + [Began(ok)];
    }

    method Exec(stmt: string) returns (reply: Reply)
      requires !held
      modifies this
      ensures (Snap(null), reply) == ExecCall(env, old(Snap(null)), stmt)
    {
      var r := Serve(env, committed, stmt, env.fate(clock));
      reply := r.reply;
      committed := r.state;
      clock, trace := clock + 1, trace + [Attempt(stmt, r.reply.Done?, r.landed)];
    }
  }

  /** *sql.Tx */
  class Tx<S> {
    const db: DB<S>
    var view: S

    constructor (db: DB<S>, view: S)
      ensures this.db == db && this.view == view
    {
      this.db, this.view := db, view;
    }

    method Exec(stmt: string) returns (reply: Reply)
      modifies this, db
      ensures (db.Snap(this), reply) == TxExecCall(db.env, old(db.Snap(this)), stmt)
    {
      var r := Serve(db.env, view, stmt, db.env.fate(db.clock));
      view, reply := r.state, r.reply;
      db.clock, db.trace := db.clock + 1, db.trace + [InTx(stmt, r.reply.Done?, r.landed)];
    }

    method Commit() returns (ok: bool)
      modifies db
      ensures (db.Snap(null), ok) == CommitCall(db.env, old(db.Snap(this)))
    {
      var fate := db.env.fate(db.clock);
      var landed := fate.Served? || fate == Lost(true);
      ok := fate.Served?;
      if landed {
        db.committed := view;
      }
      db.held, db.clock, db.trace := false, db.clock + 1, db.trace + [Ended(ok, landed)];
    }

    method Rollback()
      modifies db
      ensures db.Snap(null) == RollbackCall(old(db.Snap(this)))
    {
      db.held, db.clock, db.trace := false, db.clock + 1, db.trace + [RolledBack];
    }
  }
}
