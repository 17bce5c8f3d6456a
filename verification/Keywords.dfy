/** What the loader makes of a line, told by the letters of the line: the five keywords as they are
    written in a dump, and that upper and lower case do not matter (db.go, startsWith and Batch). */
module Keywords {
  import opened Text
  import opened Comments
  import opened Lines
  import opened Sql
  import opened Retry
  import opened Batch
  import opened Semantics
  import opened Dump

  // ---------- one line ----------

  /** Which command a line completes, and what it does to the trigger flag, by its letters alone. */
  lemma FeedByLetters(p: Parser, line: string)
    ensures var (q, cmd) := Feed(p, line);
      var lines := p.pending + [line];
      var begin, commit := Spells(line, "BEGIN TRANSACTION"), Spells(line, "COMMIT;");
      var create, end := Spells(line, "CREATE TRIGGER"), Spells(line, "END;");
      var sends := ';' in line && !begin && !commit && (end || create || !p.trigger);
      && (cmd == Some(Begin(lines)) <==> begin)
      && (cmd == Some(Commit(lines)) <==> commit)
      && (cmd == Some(Send(lines)) <==> sends)
      && (cmd == None <==> !begin && !commit && !sends)
      && (q.trigger <==> (create && ';' !in line) || (p.trigger && !end))
      && q.pending == if cmd == None then lines else []
  {
    StartsWithSpells(line, BEGIN_LINE);
    StartsWithSpells(line, COMMIT_LINE);
    StartsWithSpells(line, TRIGGER_LINE);
    StartsWithSpells(line, END_LINE);
    KeywordIsOne(line);
    if StartsWith(line, END_LINE) {
      EndHasTerminator(line);
    }
    hide StartsWith, Spells;
  }

  lemma {:induction false} LoopTraceGrows<S>(env: Env<S>, w: World<S>, stmt: string, i: nat, delay: nat)
    requires i <= RETRY_LIMIT
    ensures w.trace <= ExecLoop(env, w, stmt, i, delay).0.trace
    decreases RETRY_LIMIT - i
  {
    if i < RETRY_LIMIT && ExecCall(env, w, stmt).1.Broken? {
      LoopTraceGrows(env, Note(ExecCall(env, w, stmt).0, Slept(delay)), stmt, i + 1, delay + delay);
    }
  }

  /** Where a complete statement goes: its first call is to query exactly when the statement begins
      with the letters of SELECT, else to the open transaction or to exec. */
  lemma RouteByLetters<S>(env: Env<S>, w: World<S>, stmt: string)
    ensures var v := SendStatement(env, w, stmt).0;
      var n := |w.trace|;
      && w.trace <= v.trace && n < |v.trace|
      && (v.trace[n] == Queried(stmt) <==> Spells(stmt, "SELECT"))
      && (v.trace[n] == Sent(stmt) <==> !Spells(stmt, "SELECT") && w.tx.None?)
      && (v.trace[n].InTx? <==> !Spells(stmt, "SELECT") && w.tx.Some?)
  {
    StartsWithSpells(stmt, SELECT_WORD);
    LoopTraceGrows(env, Note(w, Sent(stmt)), stmt, 0, 1);
    hide StartsWith, Spells, ExecLoop;
  }

  // ---------- a trigger ----------

  // A line that begins with none of the four.
  predicate NoKeyword(line: string) {
    && !Spells(line, "BEGIN TRANSACTION") && !Spells(line, "COMMIT;")
    && !Spells(line, "CREATE TRIGGER") && !Spells(line, "END;")
  }

  lemma NoKeywordIsOrdinary(line: string)
    ensures NoKeyword(line) <==> Ordinary(line)
  {
    StartsWithSpells(line, BEGIN_LINE);
    StartsWithSpells(line, COMMIT_LINE);
    StartsWithSpells(line, TRIGGER_LINE);
    StartsWithSpells(line, END_LINE);
    hide StartsWith, Spells;
  }

  // The line that opens a trigger's body opens no transaction.
  lemma BareBegin(line: string)
    requires Spells(line, "BEGIN") && |Trim(line)| < 17
    ensures NoKeyword(line)
  {
    assert SameLetter(Trim(line)[0], 'B');
    assert |"BEGIN TRANSACTION"| == 17;
    assert "COMMIT;"[0] == 'C' && "CREATE TRIGGER"[0] == 'C' && "END;"[0] == 'E';
  }

  /** A trigger is read whole: a header without a terminator, a bare BEGIN, any lines that begin with
      no keyword, whatever terminators they hold, and a line that begins with END; come to one
      statement of exactly these lines, and the parser starts afresh behind them. */
  lemma TriggerReadsWhole(header: string, begin: string, body: seq<string>, last: string, rest: seq<string>)
    requires Spells(header, "CREATE TRIGGER") && ';' !in header
    requires Spells(begin, "BEGIN") && |Trim(begin)| < 17
    requires forall l | l in body :: NoKeyword(l)
    requires Spells(last, "END;")
    ensures var lines := [header, begin] + body + [last];
      var (p, cmds) := Parse(START, rest);
      Parse(START, lines + rest) == (p, [Send(lines)] + cmds)
  {
    StartsWithSpells(header, TRIGGER_LINE);
    StartsWithSpells(last, END_LINE);
    BareBegin(begin);
    hide Spells, StartsWith, NoKeyword, Parse;
    forall l | l in [begin] + body ensures Ordinary(l) {
      NoKeywordIsOrdinary(l);
    }
    hide Ordinary;
    ReadTrigger(header, [begin] + body, last, rest);
    assert [header] + ([begin] + body) + [last] == [header, begin] + body + [last];
    assert START.pending + ([header, begin] + body + [last]) == [header, begin] + body + [last];
  }

  lemma SpellsOut(line: string, text: string)
    requires Trimmed(line) && text <= line
    ensures Spells(line, text) && Trim(line) == line
  {
    TrimmedStays(line);
  }

  // A line that begins with a D begins with no keyword.
  lemma OtherLetter(line: string)
    requires Trimmed(line) && line != "" && line[0] == 'D'
    ensures NoKeyword(line)
  {
    TrimmedStays(line);
    assert "BEGIN TRANSACTION"[0] == 'B';
    assert "COMMIT;"[0] == 'C' && "CREATE TRIGGER"[0] == 'C' && "END;"[0] == 'E';
    hide Trim;
  }

  const HEADER := "CREATE TRIGGER t INSERT ON a"
  const DELETE := "DELETE FROM b;"

  const LAST := "END;"

  lemma HeaderIsOpen()
    ensures ';' !in HEADER
  {
  }

  // A trigger as it is usually written.
  lemma TriggerIsSentOnce()
    ensures var lines := [HEADER, "BEGIN", DELETE, LAST];
      Parse(START, lines) == (START, [Send(lines)])
  {
    SpellsOut(HEADER, "CREATE TRIGGER");
    SpellsOut("BEGIN", "BEGIN");
    SpellsOut(LAST, "END;");
    OtherLetter(DELETE);
    HeaderIsOpen();
    hide *;
    TriggerAlone(HEADER, "BEGIN", DELETE, LAST);
  }

  lemma TriggerAlone(header: string, begin: string, line: string, last: string)
    requires Spells(header, "CREATE TRIGGER") && ';' !in header
    requires Spells(begin, "BEGIN") && |Trim(begin)| < 17
    requires NoKeyword(line) && Spells(last, "END;")
    ensures var lines := [header, begin, line, last];
      Parse(START, lines) == (START, [Send(lines)])
  {
    hide Spells, NoKeyword, Trim;
    TriggerReadsWhole(header, begin, [line], last, []);
    var lines := [header, begin, line, last];
    assert [header, begin] + [line] + [last] == lines == lines + [];
    assert Parse(START, []) == (START, []);
    assert [Send(lines)] + [] == [Send(lines)];
  }

  // ---------- upper and lower case ----------

  // The same text, case aside.
  predicate Twins(s: string, t: string) {
    |s| == |t| && forall i | 0 <= i < |s| :: SameLetter(s[i], t[i])
  }

  predicate TwinLines(a: seq<string>, b: seq<string>) {
    |a| == |b| && forall i | 0 <= i < |a| :: Twins(a[i], b[i])
  }

  // Only letters have a case.
  lemma CaseOfLetters(c: char, d: char)
    requires SameLetter(c, d)
    ensures Space(c) <==> Space(d)
    ensures (c == '\n' <==> d == '\n') && (c == ';' <==> d == ';')
    ensures (c == '/' <==> d == '/') && (c == '*' <==> d == '*') && (c == '-' <==> d == '-')
  {
  }

  lemma TwinsSlice(s: string, t: string, i: nat, j: nat)
    requires Twins(s, t) && i <= j <= |s|
    ensures |s| == |t| && Twins(s[i..j], t[i..j])
  {
  }

  lemma TwinsConcat(s: string, t: string, x: string, y: string)
    requires Twins(s, t) && Twins(x, y)
    ensures Twins(s + x, t + y)
  {
  }

  lemma {:induction false} TwinPairs(s: string, t: string, a: char, b: char, k: nat)
    requires Twins(s, t) && k <= |s| && {a, b} <= {'/', '*', '-'}
    ensures FindPair(s, a, b, k) == FindPair(t, a, b, k)
    decreases |s| - k
  {
    if k < |s| {
      forall i | 0 <= i < |s| ensures (s[i] == a <==> t[i] == a) && (s[i] == b <==> t[i] == b) {
        CaseOfLetters(s[i], t[i]);
      }
      TwinPairs(s, t, a, b, k + 1);
    }
  }

  lemma TwinFindBlock(s: string, t: string)
    requires Twins(s, t)
    ensures FindBlock(s) == FindBlock(t)
  {
    TwinPairs(s, t, '/', '*', 0);
    var i := FindPair(s, '/', '*', 0);
    if i < |s| {
      TwinPairs(s, t, '*', '/', i + 2);
    }
    hide SameLetter, FindPair;
  }

  lemma {:induction false} TwinStripBlocks(s: string, t: string)
    requires Twins(s, t)
    ensures Twins(StripBlocks(s), StripBlocks(t))
    decreases |s|
  {
    hide FindBlock, Twins;
    TwinFindBlock(s, t);
    if FindBlock(s).Some? {
      var m := FindBlock(s).value;
      TwinsSlice(s, t, 0, m.from);
      TwinsSlice(s, t, m.to, |s|);
      assert s[0..m.from] == s[..m.from] && t[0..m.from] == t[..m.from];
      assert s[m.to..|s|] == s[m.to..] && t[m.to..|t|] == t[m.to..];
      TwinStripBlocks(s[m.to..], t[m.to..]);
      TwinsConcat(s[..m.from], t[..m.from], StripBlocks(s[m.to..]), StripBlocks(t[m.to..]));
    }
  }

  lemma {:induction false} TwinNewlines(s: string, t: string, k: nat)
    requires Twins(s, t) && k <= |s|
    ensures NewlineAt(s, k) == NewlineAt(t, k)
    decreases |s| - k
  {
    if k < |s| {
      CaseOfLetters(s[k], t[k]);
      TwinNewlines(s, t, k + 1);
    }
  }

  lemma {:induction false} TwinSplit(s: string, t: string)
    requires Twins(s, t)
    ensures TwinLines(Split(s), Split(t))
    decreases |s|
  {
    TwinNewlines(s, t, 0);
    var k := NewlineAt(s, 0);
    hide SameLetter, NewlineAt;
    if k < |s| {
      TwinsSlice(s, t, 0, k);
      TwinsSlice(s, t, k + 1, |s|);
      hide Twins;
      assert s[0..k] == s[..k] && t[0..k] == t[..k];
      assert s[k + 1..|s|] == s[k + 1..] && t[k + 1..|t|] == t[k + 1..];
      TwinSplit(s[k + 1..], t[k + 1..]);
    }
  }

  lemma {:induction false} TwinTrimLeft(s: string, t: string)
    requires Twins(s, t)
    ensures Twins(TrimLeft(s), TrimLeft(t))
    decreases |s|
  {
    if s != "" {
      CaseOfLetters(s[0], t[0]);
      TwinTrimLeft(s[1..], t[1..]);
    }
  }

  lemma {:induction false} TwinTrimRight(s: string, t: string)
    requires Twins(s, t)
    ensures Twins(TrimRight(s), TrimRight(t))
    decreases |s|
  {
    if s != "" {
      CaseOfLetters(s[|s| - 1], t[|t| - 1]);
      TwinTrimRight(s[..|s| - 1], t[..|t| - 1]);
    }
  }

  lemma TwinTrim(s: string, t: string)
    requires Twins(s, t)
    ensures Twins(Trim(s), Trim(t))
  {
    TwinTrimLeft(s, t);
    TwinTrimRight(TrimLeft(s), TrimLeft(t));
  }

  lemma TwinCuts(a: seq<string>, b: seq<string>)
    requires TwinLines(a, b)
    ensures TwinLines(Cuts(a), Cuts(b))
  {
    hide SameLetter, FindPair;
    forall i | 0 <= i < |a| ensures Twins(Cuts(a)[i], Cuts(b)[i]) {
      TwinPairs(a[i], b[i], '-', '-', 0);
    }
  }

  lemma {:induction false} TwinTidy(a: seq<string>, b: seq<string>)
    requires TwinLines(a, b)
    ensures TwinLines(Tidy(a), Tidy(b))
    decreases |a|
  {
    hide Twins, Trim;
    if a != [] {
      assert Twins(a[0], b[0]);
      TwinTrim(a[0], b[0]);
      TwinTidy(a[1..], b[1..]);
      assert Trim(a[0]) == "" <==> Trim(b[0]) == "" by { TwinsBlank(Trim(a[0]), Trim(b[0])); }
    }
  }

  lemma TwinsBlank(s: string, t: string)
    requires Twins(s, t)
    ensures s == "" <==> t == ""
  {
  }

  lemma TwinScriptLines(s: string, t: string)
    requires Twins(s, t)
    ensures TwinLines(ScriptLines(s), ScriptLines(t))
  {
    ScriptLinesLineByLine(s);
    ScriptLinesLineByLine(t);
    hide ScriptLines, Twins, TwinLines, Split, Cuts, Tidy, StripBlocks;
    TwinStripBlocks(s, t);
    TwinSplit(StripBlocks(s), StripBlocks(t));
    TwinCuts(Split(StripBlocks(s)), Split(StripBlocks(t)));
    TwinTidy(Cuts(Split(StripBlocks(s))), Cuts(Split(StripBlocks(t))));
  }

  lemma SameLetterAsTwin(c: char, d: char, x: char)
    requires SameLetter(c, d)
    ensures SameLetter(c, x) <==> SameLetter(d, x)
  {
  }

  lemma TwinStartsWith(s: string, t: string, key: string)
    requires Twins(s, t)
    ensures StartsWith(s, key) <==> StartsWith(t, key)
  {
    TwinTrim(s, t);
    var x, y := Trim(s), Trim(t);
    forall i | 0 <= i < |key| && i < |x| ensures SameLetter(x[i], key[i]) <==> SameLetter(y[i], key[i]) {
      SameLetterAsTwin(x[i], y[i], key[i]);
    }
    StartsWithSpells(s, key);
    StartsWithSpells(t, key);
    hide StartsWith, SameLetter, Trim;
  }

  lemma TwinTerminator(s: string, t: string)
    requires Twins(s, t)
    ensures ';' in s <==> ';' in t
  {
    forall i | 0 <= i < |s| ensures s[i] == ';' <==> t[i] == ';' {
      CaseOfLetters(s[i], t[i]);
    }
    hide SameLetter;
  }

  lemma {:induction false} TwinGlue(a: seq<string>, b: seq<string>)
    requires TwinLines(a, b)
    ensures Twins(Glue(a), Glue(b))
    decreases |a|
  {
    hide SameLetter;
    if a != [] {
      TwinGlue(a[1..], b[1..]);
      TwinNewline();
      TwinsConcat(a[0], b[0], "\n", "\n");
      TwinsConcat(a[0] + "\n", b[0] + "\n", Glue(a[1..]), Glue(b[1..]));
    }
  }

  lemma TwinNewline()
    ensures Twins("\n", "\n")
  {
  }

  // The same kind of step over the same lines, case aside, and to query or not alike.
  predicate Alike(c: Command, d: Command) {
    && (c.Begin? <==> d.Begin?) && (c.Commit? <==> d.Commit?)
    && TwinLines(c.lines, d.lines)
    && (StartsWith(Glue(c.lines), SELECT_WORD) <==> StartsWith(Glue(d.lines), SELECT_WORD))
  }

  predicate AllAlike(a: seq<Command>, b: seq<Command>) {
    |a| == |b| && forall i | 0 <= i < |a| :: Alike(a[i], b[i])
  }

  predicate TwinParsers(p: Parser, q: Parser) {
    TwinLines(p.pending, q.pending) && p.trigger == q.trigger
  }

  lemma TwinCommands(a: seq<string>, b: seq<string>)
    requires TwinLines(a, b)
    ensures Alike(Begin(a), Begin(b)) && Alike(Commit(a), Commit(b)) && Alike(Send(a), Send(b))
  {
    TwinGlue(a, b);
    TwinStartsWith(Glue(a), Glue(b), SELECT_WORD);
    hide StartsWith, Glue, TwinLines;
  }

  lemma TwinPending(p: Parser, q: Parser, s: string, t: string)
    requires TwinParsers(p, q) && Twins(s, t)
    ensures TwinLines(p.pending + [s], q.pending + [t]) && TwinLines([], [])
  {
    hide Twins;
  }

  lemma TwinFeed(p: Parser, q: Parser, s: string, t: string)
    requires TwinParsers(p, q) && Twins(s, t)
    ensures var (p', c) := Feed(p, s);
      var (q', d) := Feed(q, t);
      TwinParsers(p', q') && AllAlike(ListOf(c), ListOf(d))
  {
    TwinPending(p, q, s, t);
    TwinStartsWith(s, t, BEGIN_LINE);
    TwinStartsWith(s, t, COMMIT_LINE);
    TwinStartsWith(s, t, TRIGGER_LINE);
    TwinStartsWith(s, t, END_LINE);
    TwinTerminator(s, t);
    TwinCommands(p.pending + [s], q.pending + [t]);
    hide StartsWith, TwinLines, Twins, Alike;
  }

  lemma {:induction false} TwinParse(p: Parser, q: Parser, a: seq<string>, b: seq<string>)
    requires TwinParsers(p, q) && TwinLines(a, b)
    ensures var (p', c) := Parse(p, a);
      var (q', d) := Parse(q, b);
      TwinParsers(p', q') && AllAlike(c, d)
    decreases |a|
  {
    hide Twins, TwinParsers, Feed, Alike;
    if a != [] {
      assert Twins(a[0], b[0]);
      TwinFeed(p, q, a[0], b[0]);
      TwinParse(Feed(p, a[0]).0, Feed(q, b[0]).0, a[1..], b[1..]);
    }
  }

  /** Two scripts that differ in the case of letters only are read as commands of the same kinds over
      the same lines, go to query alike, and leave the parser in the same state. */
  lemma CaseDoesNotMatter(s: string, t: string)
    requires Twins(s, t)
    ensures var (p, c) := Parse(START, ScriptLines(s));
      var (q, d) := Parse(START, ScriptLines(t));
      AllAlike(c, d) && TwinParsers(p, q)
  {
    TwinScriptLines(s, t);
    TwinParse(START, START, ScriptLines(s), ScriptLines(t));
  }

  // ---------- on a database that does not mind either ----------

  ghost predicate IgnoresCase<S(!new)>(env: Env<S>) {
    forall s, a, b | Twins(a, b) :: env.apply(s, a) == env.apply(s, b)
  }

  // The calls themselves may differ in their texts.
  ghost predicate SameButTrace<S>(w: World<S>, u: World<S>) {
    w.(trace := []) == u.(trace := [])
  }

  // The same reason, whatever the text of the failing statement.
  predicate SameReason(x: Option<Stop>, y: Option<Stop>) {
    || x == y
    || (x.Some? && y.Some? && x.value.TxFailed? && y.value.TxFailed?)
    || (x.Some? && y.Some? && x.value.ExecFailed? && y.value.ExecFailed? && x.value.verdict == y.value.verdict)
  }

  lemma TwinExecCall<S(!new)>(env: Env<S>, w: World<S>, u: World<S>, a: string, b: string)
    requires IgnoresCase(env) && SameButTrace(w, u) && Twins(a, b)
    ensures SameButTrace(ExecCall(env, w, a).0, ExecCall(env, u, b).0)
    ensures ExecCall(env, w, a).1 == ExecCall(env, u, b).1
  {
    assert env.apply(w.committed, a) == env.apply(w.committed, b);
    hide Twins;
  }

  lemma {:induction false} TwinLoop<S(!new)>(env: Env<S>, w: World<S>, u: World<S>, a: string, b: string,
                                             i: nat, delay: nat)
    requires IgnoresCase(env) && SameButTrace(w, u) && Twins(a, b) && i <= RETRY_LIMIT
    ensures SameButTrace(ExecLoop(env, w, a, i, delay).0, ExecLoop(env, u, b, i, delay).0)
    ensures ExecLoop(env, w, a, i, delay).1 == ExecLoop(env, u, b, i, delay).1
    decreases RETRY_LIMIT - i
  {
    hide Twins, IgnoresCase, ExecCall;
    if i < RETRY_LIMIT {
      TwinExecCall(env, w, u, a, b);
      var v, x := ExecCall(env, w, a).0, ExecCall(env, u, b).0;
      TwinLoop(env, Note(v, Slept(delay)), Note(x, Slept(delay)), a, b, i + 1, delay + delay);
    }
  }

  lemma TwinExec<S(!new)>(env: Env<S>, w: World<S>, u: World<S>, a: string, b: string)
    requires IgnoresCase(env) && SameButTrace(w, u) && Twins(a, b)
    ensures SameButTrace(ExecStatement(env, w, a).0, ExecStatement(env, u, b).0)
    ensures ExecStatement(env, w, a).1 == ExecStatement(env, u, b).1
  {
    TwinLoop(env, Note(w, Sent(a)), Note(u, Sent(b)), a, b, 0, 1);
    hide Twins, IgnoresCase, ExecLoop;
  }

  lemma TwinTxExec<S(!new)>(env: Env<S>, w: World<S>, u: World<S>, a: string, b: string)
    requires IgnoresCase(env) && SameButTrace(w, u) && Twins(a, b) && w.tx.Some?
    ensures u.tx.Some?
    ensures SameButTrace(TxExecCall(env, w, a).0, TxExecCall(env, u, b).0)
    ensures TxExecCall(env, w, a).1 == TxExecCall(env, u, b).1
  {
    assert env.apply(w.tx.value, a) == env.apply(w.tx.value, b);
    hide Twins;
  }

  lemma TwinSend<S(!new)>(env: Env<S>, w: World<S>, u: World<S>, a: string, b: string)
    requires IgnoresCase(env) && SameButTrace(w, u) && Twins(a, b)
    ensures SameButTrace(SendStatement(env, w, a).0, SendStatement(env, u, b).0)
    ensures SameReason(SendStatement(env, w, a).1, SendStatement(env, u, b).1)
  {
    TwinStartsWith(a, b, SELECT_WORD);
    TwinExec(env, w, u, a, b);
    if w.tx.Some? {
      TwinTxExec(env, w, u, a, b);
    }
    hide Twins, IgnoresCase, StartsWith, ExecStatement, TxExecCall;
  }

  lemma TwinPerform<S(!new)>(env: Env<S>, w: World<S>, u: World<S>, c: Command, d: Command)
    requires IgnoresCase(env) && SameButTrace(w, u) && Alike(c, d)
    ensures SameButTrace(Perform(env, w, c).0, Perform(env, u, d).0)
    ensures SameReason(Perform(env, w, c).1, Perform(env, u, d).1)
  {
    TwinGlue(c.lines, d.lines);
    if c.Send? {
      TwinSend(env, w, u, Glue(c.lines), Glue(d.lines));
    }
    hide Twins, TwinLines, IgnoresCase, StartsWith, Glue, SendStatement;
  }

  lemma {:induction false} TwinPerformAll<S(!new)>(env: Env<S>, w: World<S>, u: World<S>,
                                                   cs: seq<Command>, ds: seq<Command>)
    requires IgnoresCase(env) && SameButTrace(w, u) && AllAlike(cs, ds)
    ensures var x, y := PerformAll(env, w, cs), PerformAll(env, u, ds);
      SameButTrace(x.world, y.world) && SameReason(x.stop, y.stop) && |x.rest| == |y.rest|
    decreases |cs|
  {
    hide Alike, IgnoresCase, Perform, SameButTrace;
    if cs != [] {
      assert Alike(cs[0], ds[0]);
      TwinPerform(env, w, u, cs[0], ds[0]);
      if Perform(env, w, cs[0]).1.None? {
        TwinPerformAll(env, Perform(env, w, cs[0]).0, Perform(env, u, ds[0]).0, cs[1..], ds[1..]);
      }
    }
  }

  /** Where the database does not mind the case of its statements either, two such scripts have the
      same effect: the same committed state after as many calls, and the same reason to stop. */
  lemma CaseDoesNotMatterToTheRun<S(!new)>(env: Env<S>, w: World<S>, s: string, t: string)
    requires IgnoresCase(env) && Twins(s, t)
    ensures var x, y := RunScript(env, w, s), RunScript(env, w, t);
      SameButTrace(x.world, y.world) && SameReason(x.stop, y.stop)
  {
    CaseDoesNotMatter(s, t);
    var u := w.(tx := None);
    RunIsParseThenPerform(env, u, START, ScriptLines(s));
    RunIsParseThenPerform(env, u, START, ScriptLines(t));
    hide Parse, ScriptLines, AllAlike, IgnoresCase, PerformAll, RunLines, Twins;
    TwinPerformAll(env, u, u, Parse(START, ScriptLines(s)).1, Parse(START, ScriptLines(t)).1);
  }
}
