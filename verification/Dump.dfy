/** The round trip with a dump printer: what a dump writes, Batch reads back as the same
    statements, in order, each sent where it belongs (db.go, DBX.Batch). */
module Dump {
  import opened Text
  import opened Lines
  import opened Sql
  import opened Retry
  import opened Batch
  import opened Semantics

  datatype Item =
    | Statement(lines: seq<string>)
    | Trigger(header: string, body: seq<string>, last: string)
    | Open(line: string)
    | Close(line: string)

  function ItemLines(item: Item): seq<string> {
    match item
    case Statement(lines) => lines
    case Trigger(header, body, last) => [header] + body + [last]
    case Open(line) => [line]
    case Close(line) => [line]
  }

  function AllLines(items: seq<Item>): seq<string> {
    if items == [] then [] else ItemLines(items[0]) + AllLines(items[1..])
  }

  // The dump file: every line ends with a newline.
  function Print(items: seq<Item>): string {
    Glue(AllLines(items))
  }

  // A line that is none of the four the loader looks for.
  predicate Ordinary(line: string) {
    && !StartsWith(line, BEGIN_LINE) && !StartsWith(line, COMMIT_LINE)
    && !StartsWith(line, TRIGGER_LINE) && !StartsWith(line, END_LINE)
  }

  // A line that can stand in a plain statement; only the last one ends it.
  predicate StatementLine(line: string, isLast: bool) {
    && (';' in line <==> isLast)
    && !StartsWith(line, BEGIN_LINE) && !StartsWith(line, COMMIT_LINE)
    && (StartsWith(line, TRIGGER_LINE) ==> ';' in line)
  }

  ghost predicate Printable(item: Item) {
    && (forall l | l in ItemLines(item) :: Plain(l))
    && match item
       case Statement(lines) =>
         lines != [] && forall i | 0 <= i < |lines| :: StatementLine(lines[i], i == |lines| - 1)
       case Trigger(header, body, last) =>
         && StartsWith(header, TRIGGER_LINE) && ';' !in header
         && (forall l | l in body :: Ordinary(l))
         && StartsWith(last, END_LINE)
       case Open(line) => StartsWith(line, BEGIN_LINE)
       case Close(line) => StartsWith(line, COMMIT_LINE)
  }

  ghost predicate AllPrintable(items: seq<Item>) {
    forall item | item in items :: Printable(item)
  }

  function CommandOf(item: Item): Command {
    match item
    case Open(line) => Begin([line])
    case Close(line) => Commit([line])
    case _ => Send(ItemLines(item))
  }

  function CommandsOf(items: seq<Item>): seq<Command> {
    if items == [] then [] else [CommandOf(items[0])] + CommandsOf(items[1..])
  }

  // ---------- reading one item ----------

  // What the commands of a list of lines are, when the list begins with the given ones.
  lemma ParseHead(p: Parser, line: string, rest: seq<string>)
    ensures var (q, cmd) := Feed(p, line);
      var (r, cmds) := Parse(q, rest);
      Parse(p, [line] + rest) == (r, ListOf(cmd) + cmds)
  {
    assert ([line] + rest)[1..] == rest;
  }

  // The parser reads these lines as one statement, with what is pending, and starts afresh.
  ghost predicate ReadsAsOne(p: Parser, lines: seq<string>, rest: seq<string>) {
    Parse(p, lines + rest) == (Parse(START, rest).0, [Send(p.pending + lines)] + Parse(START, rest).1)
  }

  lemma LastLineReads(p: Parser, line: string, rest: seq<string>)
    requires Feed(p, line) == (START, Some(Send(p.pending + [line])))
    ensures ReadsAsOne(p, [line], rest)
  {
    hide Feed, Parse;
    ParseHead(p, line, rest);
  }

  lemma PendingLineReads(p: Parser, q: Parser, lines: seq<string>, rest: seq<string>)
    requires lines != [] && Feed(p, lines[0]) == (q, None) && q.pending == p.pending + [lines[0]]
    requires ReadsAsOne(q, lines[1..], rest)
    ensures ReadsAsOne(p, lines, rest)
  {
    hide Feed, Parse;
    ParseHead(p, lines[0], lines[1..] + rest);
    assert [lines[0]] + (lines[1..] + rest) == lines + rest;
    assert p.pending + [lines[0]] + lines[1..] == p.pending + lines;
    ListOfNone([Send(p.pending + lines)] + Parse(START, rest).1);
  }

  lemma ListOfNone(cmds: seq<Command>)
    ensures ListOf(None) + cmds == cmds
  {
  }

  lemma {:induction false} ReadStatement(pre: seq<string>, lines: seq<string>, rest: seq<string>)
    requires lines != [] && forall i | 0 <= i < |lines| :: StatementLine(lines[i], i == |lines| - 1)
    ensures ReadsAsOne(Parser(pre, false), lines, rest)
    decreases |lines|
  {
    var p, line := Parser(pre, false), lines[0];
    assert StatementLine(line, |lines| == 1);
    if StartsWith(line, END_LINE) {
      EndHasTerminator(line);
    }
    hide StartsWith, ReadsAsOne;
    if |lines| == 1 {
      assert lines == [line];
      LastLineReads(p, line, rest);
    } else {
      assert forall i | 0 <= i < |lines| - 1 :: lines[1..][i] == lines[i + 1];
      ReadStatement(pre + [line], lines[1..], rest);
      PendingLineReads(p, Parser(pre + [line], false), lines, rest);
    }
  }

  lemma {:induction false} ReadTriggerBody(pre: seq<string>, lines: seq<string>, rest: seq<string>)
    requires lines != [] && StartsWith(lines[|lines| - 1], END_LINE)
    requires forall i | 0 <= i < |lines| - 1 :: Ordinary(lines[i])
    ensures ReadsAsOne(Parser(pre, true), lines, rest)
    decreases |lines|
  {
    var p, line := Parser(pre, true), lines[0];
    if |lines| == 1 {
      EndAlwaysSends(p, line);
      assert lines == [line];
      LastLineReads(p, line, rest);
    } else {
      assert Ordinary(line);
      hide StartsWith, ReadsAsOne;
      ReadTriggerBody(pre + [line], lines[1..], rest);
      PendingLineReads(p, Parser(pre + [line], true), lines, rest);
    }
  }

  lemma ReadTrigger(header: string, body: seq<string>, last: string, rest: seq<string>)
    requires StartsWith(header, TRIGGER_LINE) && ';' !in header
    requires (forall l | l in body :: Ordinary(l)) && StartsWith(last, END_LINE)
    ensures ReadsAsOne(START, [header] + body + [last], rest)
  {
    KeywordIsOne(header);
    assert START.pending + [header] == [header];
    assert Feed(START, header) == (Parser([header], true), None);
    hide StartsWith, Parse, Feed, ReadsAsOne, Ordinary;
    var lines := [header] + body + [last];
    assert lines[1..] == body + [last];
    assert forall i | 0 <= i < |body| :: (body + [last])[i] in body;
    ReadTriggerBody([header], body + [last], rest);
    PendingLineReads(START, Parser([header], true), lines, rest);
  }

  lemma ReadBracket(line: string, cmd: Command, rest: seq<string>)
    requires || (cmd == Begin([line]) && StartsWith(line, BEGIN_LINE))
             || (cmd == Commit([line]) && StartsWith(line, COMMIT_LINE))
    ensures Parse(START, [line] + rest) == (Parse(START, rest).0, [cmd] + Parse(START, rest).1)
  {
    KeywordIsOne(line);
    assert START.pending + [line] == [line];
    assert Feed(START, line) == (START, Some(cmd));
    hide StartsWith, Parse, Feed;
    ParseHead(START, line, rest);
  }

  lemma ReadItem(item: Item, rest: seq<string>)
    requires Printable(item)
    ensures Parse(START, ItemLines(item) + rest)
      == (Parse(START, rest).0, [CommandOf(item)] + Parse(START, rest).1)
  {
    hide StartsWith, Parse, Plain;
    match item {
      case Statement(lines) =>
        ReadStatement([], lines, rest);
        assert START.pending + lines == lines;
      case Trigger(header, body, last) =>
        ReadTrigger(header, body, last, rest);
        assert START.pending + ItemLines(item) == ItemLines(item);
      case Open(line) =>
        ReadBracket(line, Begin([line]), rest);
      case Close(line) =>
        ReadBracket(line, Commit([line]), rest);
    }
  }

  lemma {:induction false} ReadItems(items: seq<Item>)
    requires AllPrintable(items)
    ensures Parse(START, AllLines(items)) == (START, CommandsOf(items))
    decreases |items|
  {
    if items != [] {
      hide Printable, CommandOf, ItemLines, Parse;
      assert items[0] in items;
      ReadItem(items[0], AllLines(items[1..]));
      ReadItems(items[1..]);
    }
  }

  lemma {:induction false} DumpLinesPlain(items: seq<Item>)
    requires AllPrintable(items)
    ensures forall l | l in AllLines(items) :: Plain(l)
    decreases |items|
  {
    if items != [] {
      hide Plain, ItemLines;
      assert items[0] in items;
      DumpLinesPlain(items[1..]);
    }
  }

  // ---------- main results ----------

  /** Read back, a dump gives its own items as commands, nothing left over. */
  lemma RoundTrip(items: seq<Item>)
    requires AllPrintable(items)
    ensures Parse(START, ScriptLines(Print(items))) == (START, CommandsOf(items))
  {
    DumpLinesPlain(items);
    PlainScript(AllLines(items));
    ReadItems(items);
  }

  /** Loading a dump is performing its items one by one, whatever the database does. */
  lemma LoadIsPerform<S>(env: Env<S>, w: World<S>, items: seq<Item>)
    requires AllPrintable(items)
    ensures var run := RunScript(env, w, Print(items));
      var c := PerformAll(env, w.(tx := None), CommandsOf(items));
      && run.world == c.world && run.stop == c.stop
      && (run.stop.None? ==> run.parser == START)
  {
    RoundTrip(items);
    RunIsParseThenPerform(env, w.(tx := None), START, ScriptLines(Print(items)));
  }

  // ---------- where statements go ----------

  // Every call is served and the engine takes every statement.
  ghost predicate Healthy<S(!new)>(env: Env<S>) {
    && (forall c :: env.fate(c).Served? && !env.disabled(c))
    && (forall s, stmt :: env.apply(s, stmt).Some?)
  }

  // A plain statement that starts as a query does.
  predicate IsQuery(item: Item) {
    item.Statement? && item.lines != [] && StartsWith(item.lines[0], SELECT_WORD)
  }

  // Transactions open and close by turns, and no query stands inside one.
  predicate Bracketed(items: seq<Item>, open: bool) {
    if items == [] then true
    else match items[0]
         case Open(_) => !open && Bracketed(items[1..], true)
         case Close(_) => open && Bracketed(items[1..], false)
         case _ => (open ==> !IsQuery(items[0])) && Bracketed(items[1..], open)
  }

  // The calls one item makes: a query by its first word, else by the open transaction.
  function CallsOf(item: Item, open: bool): seq<Entry> {
    var stmt := Glue(ItemLines(item));
    match item
    case Open(_) => [Began(true)]
    case Close(_) => [Ended(true, true)]
    case Trigger(_, _, _) => if open then [InTx(stmt, true, true)] else [Sent(stmt), Attempt(stmt, true, true)]
    case Statement(lines) =>
      if IsQuery(item) then [Queried(stmt)]
      else if open then [InTx(stmt, true, true)]
      else [Sent(stmt), Attempt(stmt, true, true)]
  }

  function OpenAfter(item: Item, open: bool): bool {
    match item
    case Open(_) => true
    case Close(_) => false
    case _ => open
  }

  function AllCalls(items: seq<Item>, open: bool): seq<Entry>
    decreases items
  {
    if items == [] then []
    else CallsOf(items[0], open) + AllCalls(items[1..], OpenAfter(items[0], open))
  }

  lemma SelectInFirstLine(x: string, y: string)
    requires Trimmed(x) && x != "" && y != "" && y[0] == '\n' && StartsWith(x + y, SELECT_WORD)
    ensures StartsWith(x, SELECT_WORD)
  {
    var t := Trim(x + y);
    TrimKeepsHead(x, y);
    assert TrimLeft(x + y) == x + y;
    TrimRightIsPrefix(x + y);
    assert Upper(SELECT_WORD) == SELECT_WORD;
    forall i | 0 <= i < 6 ensures i < |t| && UpperChar(t[i]) == SELECT_WORD[i] {
      KeywordLetter(x + y, SELECT_WORD, i);
    }
    assert forall i | 0 <= i < 6 :: t[i] != '\n';
    assert |x| < |t| ==> t[|x|] == '\n';
    TrimmedStays(x);
    assert forall i | 0 <= i < 6 :: Upper(x)[i] == SELECT_WORD[i];
  }

  // The first line alone tells a query.
  lemma SelectByFirstLine(lines: seq<string>)
    requires lines != [] && Proper(lines[0])
    ensures StartsWith(Glue(lines), SELECT_WORD) <==> StartsWith(lines[0], SELECT_WORD)
  {
    var x, y := lines[0], "\n" + Glue(lines[1..]);
    assert Glue(lines) == x + y;
    if StartsWith(x, SELECT_WORD) {
      StartsWithGrows(x, y, SELECT_WORD);
    }
    if StartsWith(x + y, SELECT_WORD) {
      SelectInFirstLine(x, y);
    }
  }

  // A trigger, by its header, is no query.
  lemma TriggerIsNoQuery(item: Item)
    requires item.Trigger? && Printable(item)
    ensures !StartsWith(Glue(ItemLines(item)), SELECT_WORD)
  {
    var lines := ItemLines(item);
    assert lines[0] == item.header && item.header in lines;
    assert Plain(item.header);
    KeywordIsOne(item.header);
    SelectByFirstLine(lines);
  }

  lemma HealthyItem<S(!new)>(env: Env<S>, w: World<S>, item: Item)
    requires Healthy(env) && Printable(item) && (w.held <==> w.tx.Some?)
    requires (item.Close? ==> w.held) && (item.Open? || IsQuery(item) ==> !w.held)
    ensures var (v, stop) := Perform(env, w, CommandOf(item));
      && stop.None?
      && v.trace == w.trace + CallsOf(item, w.held)
      && (v.held <==> v.tx.Some?) && v.held == OpenAfter(item, w.held)
  {
    assert env.fate(w.clock).Served? && !env.disabled(w.clock);
    match item {
      case Open(_) =>
      case Close(_) =>
      case Statement(lines) =>
        assert lines[0] in ItemLines(item);
        SelectByFirstLine(lines);
        hide StartsWith, Glue;
        HealthyExec(env, w, Glue(lines));
      case Trigger(_, _, _) =>
        TriggerIsNoQuery(item);
        hide StartsWith, Glue;
        HealthyExec(env, w, Glue(ItemLines(item)));
    }
  }

  lemma HealthyExec<S(!new)>(env: Env<S>, w: World<S>, stmt: string)
    requires Healthy(env)
    ensures !w.held ==> var (v, verdict) := ExecStatement(env, w, stmt);
      verdict.Ok? && v.tx == w.tx && !v.held && v.trace == w.trace + [Sent(stmt), Attempt(stmt, true, true)]
    ensures w.tx.Some? ==> var (v, reply) := TxExecCall(env, w, stmt);
      reply.Done? && v.tx.Some? && v.held == w.held && v.trace == w.trace + [InTx(stmt, true, true)]
  {
    assert env.fate(w.clock).Served? && !env.disabled(w.clock);
    assert env.apply(w.committed, stmt).Some?;
    assert ExecLoop(env, Note(w, Sent(stmt)), stmt, 0, 1) == (ExecCall(env, Note(w, Sent(stmt)), stmt).0, Ok);
    assert w.trace + [Sent(stmt)] + [Attempt(stmt, true, true)]
      == w.trace + [Sent(stmt), Attempt(stmt, true, true)];
  }

  lemma {:induction false} HealthyItems<S(!new)>(env: Env<S>, w: World<S>, items: seq<Item>)
    requires Healthy(env) && AllPrintable(items)
    requires (w.held <==> w.tx.Some?) && Bracketed(items, w.held)
    ensures var c := PerformAll(env, w, CommandsOf(items));
      c.stop.None? && c.world.trace == w.trace + AllCalls(items, w.held)
    decreases |items|
  {
    if items != [] {
      var item := items[0];
      assert item in items;
      BracketedHead(items, w.held);
      assert AllPrintable(items[1..]);
      hide Perform, Printable, CommandOf, CallsOf, Bracketed, IsQuery, OpenAfter, Healthy, AllPrintable, PerformAll;
      HealthyItem(env, w, item);
      var v := Perform(env, w, CommandOf(item)).0;
      HealthyItems(env, v, items[1..]);
      HealthyItemsCons(env, w, items, v);
    }
  }

  // The first item's calls, and then the rest's.
  lemma HealthyItemsCons<S>(env: Env<S>, w: World<S>, items: seq<Item>, v: World<S>)
    requires items != [] && Perform(env, w, CommandOf(items[0])) == (v, None)
    requires v.trace == w.trace + CallsOf(items[0], w.held) && v.held == OpenAfter(items[0], w.held)
    requires var c := PerformAll(env, v, CommandsOf(items[1..]));
      c.stop.None? && c.world.trace == v.trace + AllCalls(items[1..], v.held)
    ensures var c := PerformAll(env, w, CommandsOf(items));
      c.stop.None? && c.world.trace == w.trace + AllCalls(items, w.held)
  {
    hide Perform, CommandOf, CallsOf, OpenAfter, PerformAll;
    var calls, rest := CallsOf(items[0], w.held), AllCalls(items[1..], v.held);
    assert AllCalls(items, w.held) == calls + rest;
    assert CommandsOf(items) == [CommandOf(items[0])] + CommandsOf(items[1..]);
    hide AllCalls, CommandsOf;
    PerformAllCons(env, w, CommandOf(items[0]), CommandsOf(items[1..]));
    assert (w.trace + calls) + rest == w.trace + (calls + rest);
  }

  lemma BracketedHead(items: seq<Item>, open: bool)
    requires items != [] && Bracketed(items, open)
    ensures (items[0].Close? ==> open) && (items[0].Open? || IsQuery(items[0]) ==> !open)
    ensures Bracketed(items[1..], OpenAfter(items[0], open))
  {
  }

  /** On a database that takes everything and a free connection, loading a well-bracketed dump
      makes exactly the calls its items say, in order: queries to query, the rest to the
      transaction it stands in, or to exec. */
  lemma DumpMakesItsCalls<S(!new)>(env: Env<S>, w: World<S>, items: seq<Item>)
    requires Healthy(env) && AllPrintable(items) && Bracketed(items, false) && !w.held
    ensures var run := RunScript(env, w, Print(items));
      && run.stop.None? && run.parser == START
      && run.world.trace == w.trace + AllCalls(items, false)
  {
    LoadIsPerform(env, w, items);
    HealthyItems(env, w.(tx := None), items);
  }
}
