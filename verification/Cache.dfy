/** The handle cache behind getDB and DBX.Close (db.go, dbxDB under dbxMu). Each call holds the
    mutex from start to end, so a run is any sequence of calls. */
module Cache {
  // A *sql.DB, told apart by when it was opened.
  type Handle = nat

  // What the calls out of getDB would answer: the TLS files, driver.New, sql.Open.
  datatype Setup = Setup(tlsOk: bool, driverOk: bool, openOk: bool)

  /** NoDriver is an error return. Panicked is the second sql.Register, or SetMaxOpenConns on the
      nil handle of a failed sql.Open; the deferred unlock still runs. */
  datatype Got = Found(db: Handle) | NoDriver | Panicked

  // handles is dbxDB; open holds the handles not closed yet; created counts sql.Open's successes.
  datatype Pool = Pool(handles: map<string, Handle>, open: set<Handle>, created: nat, registrations: nat)

  const EMPTY_POOL := Pool(map[], {}, 0, 0)

  // The part of getDB behind the driver's registration.
  function OpenHandle(p: Pool, name: string, setup: Setup): (Pool, Got) {
    if setup.openOk then
      (p.(handles := p.handles[name := p.created], open := p.open + {p.created}, created := p.created + 1),
       Found(p.created))
    else
      (p, Panicked)
  }

  function Get(p: Pool, name: string, setup: Setup): (Pool, Got) {
    if name in p.handles then (p, Found(p.handles[name]))
    else if p.handles != map[] then OpenHandle(p, name, setup)
    else if !setup.tlsOk || !setup.driverOk then (p, NoDriver)
    else
      var q := p.(registrations := p.registrations + 1);
      if p.registrations > 0 then (q, Panicked) else OpenHandle(q, name, setup)
  }

  function Remove(p: Pool, name: string, db: Handle): Pool {
    p.(handles := p.handles - {name}, open := p.open - {db})
  }

  /** The globals themselves. */
  class Globals {
    var handles: map<string, Handle>
    var open: set<Handle>
    var created: nat
    var registrations: nat

    constructor ()
      ensures Value() == EMPTY_POOL
    {
      handles, open, created, registrations := map[], {}, 0, 0;
    }

    ghost function Value(): Pool
      reads this
    {
      Pool(handles, open, created, registrations)
    }

    method GetDB(name: string, setup: Setup) returns (got: Got)
      modifies this
      ensures (Value(), got) == Get(old(Value()), name, setup)
    {
      if name in handles {
        return Found(handles[name]);
      }
      if handles == map[] {
        if !setup.tlsOk || !setup.driverOk {
          return NoDriver;
        }
        registrations := registrations + 1;
        if registrations > 1 {
          return Panicked;
        }
      }
      if !setup.openOk {
        return Panicked;
      }
      var db := created;
      open, created := open + {db}, created + 1;
      handles := handles[name := db];
      return Found(db);
    }

    // DBX.Close of a connection made for name with handle db.
    method Close(name: string, db: Handle)
      modifies this
      ensures Value() == Remove(old(Value()), name, db)
    {
      handles := handles - {name};
      open := open - {db};
    }
  }

  // ---------- runs ----------

  // given: the connections (DBX values) handed out so far; they may be closed late, or twice.
  datatype System = System(pool: Pool, given: set<(string, Handle)>)

  datatype Call = GetDB(name: string, setup: Setup) | Close(conn: (string, Handle))

  const IDLE := System(EMPTY_POOL, {})

  function Step(s: System, call: Call): System {
    match call
    case GetDB(name, setup) =>
      var (p, got) := Get(s.pool, name, setup);
      System(p, if got.Found? then s.given + {(name, got.db)} else s.given)
    case Close(conn) => s.(pool := Remove(s.pool, conn.0, conn.1))
  }

  // Only connections that were handed out are closed.
  predicate CanCall(s: System, call: Call) {
    call.Close? ==> call.conn in s.given
  }

  predicate IsRun(s: System, calls: seq<Call>)
    decreases calls
  {
    calls == [] || (CanCall(s, calls[0]) && IsRun(Step(s, calls[0]), calls[1..]))
  }

  function After(s: System, calls: seq<Call>): System
    decreases calls
  {
    if calls == [] then s else After(Step(s, calls[0]), calls[1..])
  }

  // ---------- every cached handle is open, and cached once ----------

  ghost predicate Safe(p: Pool) {
    && (forall n | n in p.handles :: p.handles[n] in p.open)
    && (forall m, n | m in p.handles && n in p.handles && p.handles[m] == p.handles[n] :: m == n)
  }

  ghost predicate Inv(s: System) {
    var p := s.pool;
    && (forall n | n in p.handles :: p.handles[n] in p.open && (n, p.handles[n]) in s.given)
    && (forall h | h in p.open :: h < p.created)
    && (forall m, n, h | (m, h) in s.given && (n, h) in s.given :: m == n)
    && (forall n, h | (n, h) in s.given :: h < p.created)
    && (p.handles != map[] ==> p.registrations > 0)
  }

  lemma OpenKeepsInv(s: System, name: string, setup: Setup)
    requires Inv(s) && s.pool.registrations > 0 && setup.openOk
    ensures var (p, got) := OpenHandle(s.pool, name, setup);
      Inv(System(p, s.given + {(name, s.pool.created)}))
  {
  }

  lemma StepKeepsInv(s: System, call: Call)
    requires Inv(s) && CanCall(s, call)
    ensures Inv(Step(s, call))
  {
    match call
    case Close(conn) =>
      var p := Remove(s.pool, conn.0, conn.1);
      forall n | n in p.handles ensures p.handles[n] in p.open {
        assert p.handles[n] == conn.1 ==> (n, conn.1) in s.given;
      }
    case GetDB(name, setup) =>
      if name in s.pool.handles {
        assert s.given + {(name, s.pool.handles[name])} == s.given;
      } else {
        var registered := s.(pool := s.pool.(registrations := s.pool.registrations + 1));
        if setup.openOk {
          OpenKeepsInv(registered, name, setup);
          if s.pool.registrations > 0 {
            OpenKeepsInv(s, name, setup);
          }
        }
      }
  }

  lemma {:induction false} RunKeepsInv(s: System, calls: seq<Call>)
    requires Inv(s) && IsRun(s, calls)
    ensures Inv(After(s, calls))
    decreases |calls|
  {
    hide Inv, Step;
    if calls != [] {
      StepKeepsInv(s, calls[0]);
      RunKeepsInv(Step(s, calls[0]), calls[1..]);
    }
  }

  /** On every run, closes of stale and shared connections included: each cached handle is open,
      and cached under one name only. */
  lemma CacheSafety(calls: seq<Call>)
    requires IsRun(IDLE, calls)
    ensures Safe(After(IDLE, calls).pool)
  {
    RunKeepsInv(IDLE, calls);
    var s := After(IDLE, calls);
    forall m, n | m in s.pool.handles && n in s.pool.handles && s.pool.handles[m] == s.pool.handles[n]
      ensures m == n
    {
      assert (m, s.pool.handles[m]) in s.given && (n, s.pool.handles[n]) in s.given;
    }
  }

  // ---------- the driver is registered once ----------

  // A setup with which getDB gets as far as registering the driver.
  predicate Working(setup: Setup) {
    setup.tlsOk && setup.driverOk
  }

  /** The cache as a caller can follow it, by the calls alone: the names that are cached. A call
      opens a name that is not cached if sql.Open answers and, on an empty cache, the setup works. */
  function NamesAfter(names: set<string>, call: Call): set<string> {
    match call
    case GetDB(name, setup) =>
      if setup.openOk && (names != {} || Working(setup)) then names + {name} else names
    case Close(conn) => names - {conn.0}
  }

  function NamesAfterAll(names: set<string>, calls: seq<Call>): set<string>
    decreases calls
  {
    if calls == [] then names else NamesAfterAll(NamesAfter(names, calls[0]), calls[1..])
  }

  // A working getDB meets an empty cache.
  predicate MeetsEmpty(names: set<string>, call: Call) {
    call.GetDB? && names == {} && Working(call.setup)
  }

  // How many calls of a run do so.
  function Meetings(names: set<string>, calls: seq<Call>): nat
    decreases calls
  {
    if calls == [] then 0
    else (if MeetsEmpty(names, calls[0]) then 1 else 0) + Meetings(NamesAfter(names, calls[0]), calls[1..])
  }

  // The pool, as long as the driver was not registered twice, goes by the calls alone.
  ghost predicate InStep(p: Pool, names: set<string>, met: nat) {
    p.handles.Keys == names && p.registrations == met <= 1 && (names != {} ==> met == 1)
  }

  lemma StepInStep(s: System, names: set<string>, met: nat, call: Call)
    requires InStep(s.pool, names, met)
    ensures var t := Step(s, call);
      && (MeetsEmpty(names, call) && met == 1 ==> t.pool.registrations == 2)
      && (MeetsEmpty(names, call) && met == 0 ==> InStep(t.pool, NamesAfter(names, call), 1))
      && (!MeetsEmpty(names, call) ==> InStep(t.pool, NamesAfter(names, call), met))
  {
    match call
    case Close(conn) =>
    case GetDB(name, setup) =>
      if name in names {
        assert names + {name} == names;
      } else {
        assert names == {} <==> s.pool.handles == map[];
        assert s.pool.handles[name := s.pool.created].Keys == names + {name};
      }
  }

  lemma {:induction false} RegistrationsGrow(s: System, calls: seq<Call>)
    ensures After(s, calls).pool.registrations >= s.pool.registrations
    decreases |calls|
  {
    if calls != [] {
      RegistrationsGrow(Step(s, calls[0]), calls[1..]);
    }
  }

  lemma {:induction false} RegisteredByMeetings(s: System, names: set<string>, met: nat, calls: seq<Call>)
    requires InStep(s.pool, names, met)
    ensures var n, p := met + Meetings(names, calls), After(s, calls).pool;
      && (p.registrations <= 1 <==> n <= 1)
      && (n <= 1 ==> InStep(p, NamesAfterAll(names, calls), n))
    decreases |calls|
  {
    if calls != [] {
      StepInStep(s, names, met, calls[0]);
      hide Step, InStep, MeetsEmpty, NamesAfter;
      var t, more := Step(s, calls[0]), NamesAfter(names, calls[0]);
      if MeetsEmpty(names, calls[0]) && met == 1 {
        RegistrationsGrow(t, calls[1..]);
      } else if MeetsEmpty(names, calls[0]) {
        MetBound(s.pool, names, met);
        RegisteredByMeetings(t, more, 1, calls[1..]);
      } else {
        RegisteredByMeetings(t, more, met, calls[1..]);
      }
    }
  }

  lemma MetBound(p: Pool, names: set<string>, met: nat)
    requires InStep(p, names, met)
    ensures met <= 1
  {
  }

  /** Over any run the driver is registered at most once if and only if at most one working getDB
      meets an empty cache, as counted on the calls alone; it is then registered exactly as often
      as that happens, and the cache holds exactly the names the calls say. */
  lemma RegisteredOnceIff(calls: seq<Call>)
    ensures var p := After(IDLE, calls).pool;
      && (p.registrations <= 1 <==> Meetings({}, calls) <= 1)
      && (Meetings({}, calls) <= 1 ==>
            p.registrations == Meetings({}, calls) && p.handles.Keys == NamesAfterAll({}, calls))
  {
    RegisteredByMeetings(IDLE, {}, 0, calls);
  }

  lemma {:induction false} MeetingsConcat(names: set<string>, a: seq<Call>, b: seq<Call>)
    ensures Meetings(names, a + b) == Meetings(names, a) + Meetings(NamesAfterAll(names, a), b)
    decreases |a|
  {
    hide MeetsEmpty, NamesAfter;
    if a == [] {
      assert a + b == b;
    } else {
      assert (a + b)[1..] == a[1..] + b;
      MeetingsConcat(NamesAfter(names, a[0]), a[1..], b);
    }
  }

  /** When the first registration opens its handle, the driver stays registered exactly once if and
      only if the cache is never found drained: no later working getDB meets an empty cache. */
  lemma OnceWhileNeverDrained(before: seq<Call>, first: Call, later: seq<Call>)
    requires Meetings({}, before) == 0
    requires MeetsEmpty(NamesAfterAll({}, before), first) && first.setup.openOk
    ensures After(IDLE, before + [first] + later).pool.registrations == 1
      <==> Meetings({first.name}, later) == 0
  {
    MeetingsConcat({}, before, [first] + later);
    assert ([first] + later)[1..] == later;
    assert NamesAfter({}, first) == {first.name};
    RegisteredOnceIff(before + [first] + later);
    assert before + [first] + later == before + ([first] + later);
  }

  // On a cache that stays empty, only a working call counts.
  lemma {:induction false} MeetingsOfNone(calls: seq<Call>)
    ensures (forall c | c in calls :: !(c.GetDB? && Working(c.setup))) ==> Meetings({}, calls) == 0
    ensures (exists c | c in calls :: c.GetDB? && Working(c.setup)) ==> Meetings({}, calls) > 0
    decreases |calls|
  {
    if calls != [] {
      MeetingsOfNone(calls[1..]);
      assert calls[0] in calls;
      var empty: set<string> := {};
      assert !MeetsEmpty(empty, calls[0]) ==> NamesAfter(empty, calls[0]) == empty;
    }
  }

  /** When the first registration's sql.Open fails the cache is still empty, and the driver stays
      registered once if and only if no working getDB comes after it at all. */
  lemma OnceAfterFailedOpen(before: seq<Call>, first: Call, later: seq<Call>)
    requires Meetings({}, before) == 0
    requires MeetsEmpty(NamesAfterAll({}, before), first) && !first.setup.openOk
    ensures After(IDLE, before + [first] + later).pool.registrations == 1
      <==> forall c | c in later :: !(c.GetDB? && Working(c.setup))
  {
    MeetingsConcat({}, before, [first] + later);
    assert ([first] + later)[1..] == later;
    var empty: set<string> := {};
    assert NamesAfter(empty, first) == empty;
    RegisteredOnceIff(before + [first] + later);
    assert before + [first] + later == before + ([first] + later);
    MeetingsOfNone(later);
  }

  /** While the driver was not registered twice, the next getDB panics exactly when it would be the
      second working one to meet an empty cache, or when it gets to sql.Open and that fails. */
  lemma PanicsExactlyWhen(calls: seq<Call>, name: string, setup: Setup)
    requires Meetings({}, calls) <= 1
    ensures var names := NamesAfterAll({}, calls);
      Get(After(IDLE, calls).pool, name, setup).1.Panicked? <==>
        && name !in names
        && (names == {} ==> Working(setup))
        && (!setup.openOk || (names == {} && Meetings({}, calls) == 1))
  {
    RegisteredByMeetings(IDLE, {}, 0, calls);
    hide Meetings, NamesAfterAll, After;
    var p := After(IDLE, calls).pool;
    assert p.handles == map[] <==> p.handles.Keys == {};
  }

  // A name stays with its handle until it is closed.
  lemma {:induction false} StaysCached(s: System, name: string, h: Handle, calls: seq<Call>)
    requires name in s.pool.handles && s.pool.handles[name] == h
    requires forall c | c in calls && c.Close? :: c.conn.0 != name
    ensures var p := After(s, calls).pool;
      name in p.handles && p.handles[name] == h
    decreases |calls|
  {
    if calls != [] {
      assert calls[0] in calls;
      StaysCached(Step(s, calls[0]), name, h, calls[1..]);
    }
  }

  lemma {:induction false} AfterConcat(s: System, a: seq<Call>, b: seq<Call>)
    ensures After(s, a + b) == After(After(s, a), b)
    decreases |a|
  {
    hide Step;
    if a == [] {
      assert a + b == b;
    } else {
      assert (a + b)[1..] == a[1..] + b;
      AfterConcat(Step(s, a[0]), a[1..], b);
    }
  }

  /** Over every run: a name that getDB has handed out, and that has not been closed since, is
      answered with the same handle, and nothing changes, whatever the setup is by now. */
  lemma SameHandleUntilClosed(before: seq<Call>, first: Setup, between: seq<Call>, name: string, h: Handle,
                              setup: Setup)
    requires Get(After(IDLE, before).pool, name, first).1 == Found(h)
    requires forall c | c in between && c.Close? :: c.conn.0 != name
    ensures var p := After(IDLE, before + [GetDB(name, first)] + between).pool;
      Get(p, name, setup) == (p, Found(h))
  {
    var s := After(IDLE, before);
    var t := Step(s, GetDB(name, first));
    assert t.pool.handles[name] == h && name in t.pool.handles;
    var get := [GetDB(name, first)];
    AfterConcat(IDLE, before, get + between);
    AfterConcat(s, get, between);
    assert get[1..] == [];
    assert After(s, get) == t;
    assert before + get + between == before + (get + between);
    StaysCached(t, name, h, between);
  }

  /** The other answers, told by the calls while the driver was not registered twice: an error
      exactly when no name is cached and the setup does not work; and for a name that is not cached
      a handle that nobody was given before, which is then open and cached for that name. */
  lemma OtherAnswers(calls: seq<Call>, name: string, setup: Setup)
    requires IsRun(IDLE, calls) && Meetings({}, calls) <= 1
    ensures var s, names := After(IDLE, calls), NamesAfterAll({}, calls);
      var (q, got) := Get(s.pool, name, setup);
      && (got == NoDriver <==> names == {} && !Working(setup))
      && (got == NoDriver ==> q == s.pool)
      && (got.Found? && name !in names ==>
            && (forall conn | conn in s.given :: conn.1 != got.db)
            && q.handles == s.pool.handles[name := got.db] && q.open == s.pool.open + {got.db})
  {
    RegisteredByMeetings(IDLE, {}, 0, calls);
    RunKeepsInv(IDLE, calls);
    hide Meetings, NamesAfterAll, After, IsRun;
    var p := After(IDLE, calls).pool;
    assert p.handles == map[] <==> p.handles.Keys == {};
    forall conn | conn in After(IDLE, calls).given ensures conn.1 < p.created {
      assert conn == (conn.0, conn.1);
    }
  }

  const WORKING := Setup(true, true, true)

  /** It does happen: open, close, open again is enough, and the third call panics. */
  lemma ReopeningPanics(name: string)
    ensures var calls := [GetDB(name, WORKING), Close((name, 0))];
      && IsRun(IDLE, calls)
      && Get(After(IDLE, calls).pool, name, WORKING).1 == Panicked
  {
    var get, close := GetDB(name, WORKING), Close((name, 0));
    var calls := [get, close];
    var s1 := Step(IDLE, get);
    assert s1.pool == Pool(map[name := 0], {0}, 1, 1) && s1.given == {(name, 0)};
    var s2 := Step(s1, close);
    assert s2.pool.handles == map[];
    assert calls[1..] == [close] && [close][1..] == [];
    assert After(s1, [close]) == After(s2, []) == s2;
    assert IsRun(s1, [close]);
  }

  /** So is opening after a failed sql.Open, with a cache that was never filled at all. */
  lemma FailedOpenThenRegistersTwice(name: string)
    ensures var calls := [GetDB(name, Setup(true, true, false)), GetDB(name, WORKING)];
      var p := After(IDLE, calls).pool;
      && IsRun(IDLE, calls)
      && p.registrations == 2 && p.created == 0 && p.handles == map[]
  {
    var first, second := GetDB(name, Setup(true, true, false)), GetDB(name, WORKING);
    var calls := [first, second];
    assert calls[1..] == [second] && [second][1..] == [];
    var s1 := Step(IDLE, first);
    var s2 := Step(s1, second);
    assert After(s1, [second]) == After(s2, []) == s2;
    assert IsRun(s1, [second]);
  }

  // ---------- handles that fall out of the cache ----------

  ghost predicate NoOrphans(p: Pool) {
    forall h | h in p.open :: exists n :: n in p.handles && p.handles[n] == h
  }

  // The name of a closed connection is by now cached with another handle.
  predicate StaleClose(s: System, call: Call) {
    call.Close? && call.conn.0 in s.pool.handles && s.pool.handles[call.conn.0] != call.conn.1
  }

  lemma OrphanedByStaleClose(s: System, call: Call)
    requires Inv(s) && CanCall(s, call) && NoOrphans(s.pool)
    ensures NoOrphans(Step(s, call).pool) <==> !StaleClose(s, call)
  {
    var p, q := s.pool, Step(s, call).pool;
    match call {
      case GetDB(name, setup) =>
        forall h | h in q.open ensures exists n :: n in q.handles && q.handles[n] == h {
          if h in p.open {
            var n :| n in p.handles && p.handles[n] == h;
            assert n in q.handles && q.handles[n] == h;
          } else {
            assert name in q.handles && q.handles[name] == h;
          }
        }
      case Close(conn) =>
        if StaleClose(s, call) {
          var h := p.handles[conn.0];
          assert h in q.open;
          forall n | n in q.handles ensures q.handles[n] != h {
            assert (n, p.handles[n]) in s.given && (conn.0, h) in s.given;
          }
        } else {
          forall h | h in q.open ensures exists n :: n in q.handles && q.handles[n] == h {
            var n :| n in p.handles && p.handles[n] == h;
            assert n in q.handles && q.handles[n] == h;
          }
        }
    }
  }

  predicate NoStaleClose(s: System, calls: seq<Call>)
    decreases calls
  {
    calls == [] || (!StaleClose(s, calls[0]) && NoStaleClose(Step(s, calls[0]), calls[1..]))
  }

  lemma {:induction false} NoOrphansKept(s: System, calls: seq<Call>)
    requires Inv(s) && NoOrphans(s.pool) && IsRun(s, calls) && NoStaleClose(s, calls)
    ensures Inv(After(s, calls)) && NoOrphans(After(s, calls).pool)
    decreases |calls|
  {
    hide Inv, Step, NoOrphans, StaleClose, CanCall;
    if calls != [] {
      StepKeepsInv(s, calls[0]);
      OrphanedByStaleClose(s, calls[0]);
      NoOrphansKept(Step(s, calls[0]), calls[1..]);
    }
  }

  /** Over every run, open handles stay in the cache until the first close of a stale connection,
      and exactly that close makes one drop out of it while it is open. */
  lemma FirstStaleCloseOrphans(calls: seq<Call>, call: Call)
    requires IsRun(IDLE, calls) && NoStaleClose(IDLE, calls) && CanCall(After(IDLE, calls), call)
    ensures var s := After(IDLE, calls);
      && NoOrphans(s.pool)
      && (NoOrphans(Step(s, call).pool) <==> !StaleClose(s, call))
  {
    NoOrphansKept(IDLE, calls);
    OrphanedByStaleClose(After(IDLE, calls), call);
  }

  lemma RunCons(s: System, call: Call, calls: seq<Call>)
    ensures After(s, [call] + calls) == After(Step(s, call), calls)
    ensures IsRun(s, [call] + calls) <==> CanCall(s, call) && IsRun(Step(s, call), calls)
    ensures NoStaleClose(s, [call] + calls) <==> !StaleClose(s, call) && NoStaleClose(Step(s, call), calls)
  {
    assert ([call] + calls)[1..] == calls;
  }

  function StaleRun(a: string, b: string): seq<Call> {
    [GetDB(a, WORKING)] + ([GetDB(b, WORKING)] + ([Close((a, 0))] + ([GetDB(a, WORKING)] + [])))
  }

  lemma StaleRunIsRun(a: string, b: string) returns (s: System)
    requires a != b
    ensures IsRun(IDLE, StaleRun(a, b)) && NoStaleClose(IDLE, StaleRun(a, b))
    ensures s == After(IDLE, StaleRun(a, b))
    ensures s.pool == Pool(map[b := 1, a := 2], {1, 2}, 3, 1) && (a, 0) in s.given
  {
    var getA, getB, close := GetDB(a, WORKING), GetDB(b, WORKING), Close((a, 0));
    var s1 := Step(IDLE, getA);
    var s2 := Step(s1, getB);
    var s3 := Step(s2, close);
    s := Step(s3, getA);
    assert s1 == System(Pool(map[a := 0], {0}, 1, 1), {(a, 0)});
    assert s2 == System(Pool(map[a := 0, b := 1], {0, 1}, 2, 1), {(a, 0), (b, 1)});
    assert s3.pool == Pool(map[b := 1], {1}, 2, 1) && (a, 0) in s3.given;
    assert !StaleClose(s2, close) && CanCall(s2, close);
    hide Step;
    RunCons(IDLE, getA, [getB] + ([close] + ([getA] + [])));
    RunCons(s1, getB, [close] + ([getA] + []));
    RunCons(s2, close, [getA] + []);
    RunCons(s3, getA, []);
    assert !StaleClose(IDLE, getA) && !StaleClose(s1, getB) && !StaleClose(s3, getA);
    assert CanCall(IDLE, getA) && CanCall(s1, getB) && CanCall(s3, getA);
  }

  /** It can be reached, with the driver registered once: two names are opened, the connection to
      the first is closed, its name is opened again, and the old connection is closed once more. */
  lemma StaleCloseHappens(a: string, b: string)
    requires a != b
    ensures var calls, again := StaleRun(a, b), Close((a, 0));
      var s := After(IDLE, calls);
      && IsRun(IDLE, calls) && NoStaleClose(IDLE, calls) && s.pool.registrations == 1
      && CanCall(s, again) && StaleClose(s, again) && !NoOrphans(Step(s, again).pool)
  {
    var s := StaleRunIsRun(a, b);
    hide IsRun, NoStaleClose, After, StaleRun;
    FirstStaleCloseOrphans(StaleRun(a, b), Close((a, 0)));
  }

  // ---------- connections that still work ----------

  predicate Closes(call: Call, h: Handle) {
    call.Close? && call.conn.1 == h
  }

  lemma {:induction false} OpenWhileNotClosed(s: System, calls: seq<Call>, h: Handle)
    requires Inv(s) && IsRun(s, calls)
    ensures s.pool.created <= After(s, calls).pool.created
    ensures h in After(s, calls).pool.open <==>
      && (h in s.pool.open || s.pool.created <= h < After(s, calls).pool.created)
      && forall c | c in calls :: !Closes(c, h)
    decreases |calls|
  {
    if calls != [] {
      var call, rest := calls[0], calls[1..];
      StepKeepsInv(s, call);
      StepOpens(s, call, h);
      hide Inv, Step, CanCall;
      OpenWhileNotClosed(Step(s, call), rest, h);
      assert calls == [call] + rest;
    }
  }

  lemma StepOpens(s: System, call: Call, h: Handle)
    requires Inv(s) && CanCall(s, call)
    ensures var p, q := s.pool, Step(s, call).pool;
      && p.created <= q.created
      && (h in q.open <==> (h in p.open || p.created <= h < q.created) && !Closes(call, h))
      && (Closes(call, h) ==> h < p.created)
  {
  }

  /** Over every run, a connection that was handed out works until some connection with its handle,
      its own or one that shares it, is closed, and never after. */
  lemma WorksUntilSharedClose(calls: seq<Call>, conn: (string, Handle))
    requires IsRun(IDLE, calls) && conn in After(IDLE, calls).given
    ensures conn.1 in After(IDLE, calls).pool.open <==> forall c | c in calls :: !Closes(c, conn.1)
  {
    RunKeepsInv(IDLE, calls);
    OpenWhileNotClosed(IDLE, calls, conn.1);
  }
}
