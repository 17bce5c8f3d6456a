/** What a run of Batch does not depend on: how a script is laid out, and whether it is loaded
    in one piece or in two. */
module Scripts {
  import opened Text
  import opened Comments
  import opened Lines
  import opened Sql
  import opened Retry
  import opened Batch
  import opened Semantics

  // ---------- two scripts in a row ----------

  lemma {:induction false} RunLinesConcat<S>(env: Env<S>, w: World<S>, p: Parser, a: seq<string>, b: seq<string>)
    ensures var first := RunLines(env, w, p, a);
      RunLines(env, w, p, a + b) ==
        if first.stop.Some? then first.(unread := first.unread + b)
        else RunLines(env, first.world, first.parser, b)
    decreases |a|
  {
    if a == [] {
      assert a + b == b;
    } else {
      var line, rest := a[0], a[1..];
      assert a == [line] + rest && a + b == [line] + (rest + b);
      var q, cmd := RunStep(env, w, p, line, rest);
      var q', cmd' := RunStep(env, w, p, line, rest + b);
      hide RunLines, Feed, Perform;
      if cmd.None? {
        RunLinesConcat(env, w, q, rest, b);
      } else {
        RunLinesConcat(env, Perform(env, w, cmd.value).0, q, rest, b);
      }
    }
  }

  /** Loading a and b as one script goes on from where a alone ends: it stops where a stops, and
      otherwise reads b's lines in a's final state. If a ends with an empty buffer, outside a
      trigger and without a transaction, that is loading a and then loading b. */
  lemma ScriptSplits<S>(env: Env<S>, w: World<S>, a: string, b: string)
    requires !LeavesOpen(a)
    ensures var first, both := RunScript(env, w, a), RunScript(env, w, a + "\n" + b);
      && (first.stop.Some? ==> both == first.(unread := first.unread + ScriptLines(b)))
      && (first.stop.None? ==> both == RunLines(env, first.world, first.parser, ScriptLines(b)))
      && (first.stop.None? && first.parser == START && first.world.tx.None? ==>
            both == RunScript(env, first.world, b))
  {
    ScriptLinesSplit(a, b);
    RunLinesConcat(env, w.(tx := None), START, ScriptLines(a), ScriptLines(b));
  }

  // ---------- layout ----------

  /** One line of a script as laid out by hand: a line of the bare script with space around it
      and perhaps a comment behind it, or a line of nothing but space and comment. */
  datatype Piece =
    | Kept(indent: string, line: string, trail: string, comment: Option<string>)
    | Extra(space: string, comment: Option<string>)

  function Behind(comment: Option<string>): string {
    match comment
    case None => ""
    case Some(c) => "--" + c
  }

  function Before(p: Piece): string {
    match p
    case Kept(indent, line, trail, _) => indent + line + trail
    case Extra(space, _) => space
  }

  function Show(p: Piece): string {
    Before(p) + Behind(p.comment)
  }

  function ShowAll(ps: seq<Piece>): seq<string> {
    if ps == [] then [] else [Show(ps[0])] + ShowAll(ps[1..])
  }

  // The bare script.
  function Bare(ps: seq<Piece>): seq<string> {
    if ps == [] then []
    else (if ps[0].Kept? then [ps[0].line] else []) + Bare(ps[1..])
  }

  ghost predicate Margin(s: string) {
    Spaces(s) && '\n' !in s
  }

  ghost predicate Remark(s: string) {
    '\n' !in s && !HasPair(s, '/', '*')
  }

  ghost predicate LaidOut(p: Piece) {
    && (p.comment.Some? ==> Remark(p.comment.value))
    && match p
       case Kept(indent, line, trail, _) =>
         && Margin(indent) && Margin(trail)
         && '\n' !in line && !HasPair(line, '-', '-') && !HasPair(line, '/', '*')
       case Extra(space, _) => Margin(space)
  }

  // A dash at the end of the line would join the dashes of the comment.
  predicate DashTouches(p: Piece) {
    p.Kept? && p.comment.Some? && p.trail == "" && p.line != "" && p.line[|p.line| - 1] == '-'
  }

  // What stays of a piece when it is read by itself.
  function Meant(p: Piece): string {
    match p
    case Kept(_, line, _, _) => Trim(line)
    case Extra(_, _) => ""
  }

  lemma MarginsHoldNoPair(indent: string, line: string, trail: string, a: char, b: char)
    requires Spaces(indent) && Spaces(trail) && !HasPair(line, a, b) && !Space(a) && !Space(b)
    ensures !HasPair(indent + line + trail, a, b)
  {
    forall k | PairAt(indent + line + trail, a, b, k) ensures PairAt(line, a, b, k - |indent|) {}
  }

  lemma BeforeHasNoPair(p: Piece, a: char, b: char)
    requires LaidOut(p) && !Space(a) && !Space(b)
    requires p.Kept? ==> !HasPair(p.line, a, b)
    ensures !HasPair(Before(p), a, b)
  {
    match p
    case Kept(indent, line, trail, _) => MarginsHoldNoPair(indent, line, trail, a, b);
    case Extra(space, _) =>
      forall k ensures !PairAt(space, a, b, k) {}
  }

  lemma ShowIsOneLine(p: Piece)
    requires LaidOut(p)
    ensures '\n' !in Show(p) && !HasPair(Show(p), '/', '*')
  {
    BeforeHasNoPair(p, '/', '*');
    var pre, post := Before(p), Behind(p.comment);
    forall k ensures !PairAt(Show(p), '/', '*', k) {
      assert k + 1 < |pre| ==> (PairAt(Show(p), '/', '*', k) ==> PairAt(pre, '/', '*', k));
      assert k >= |pre| + 2 ==>
        (PairAt(Show(p), '/', '*', k) ==> PairAt(p.comment.value, '/', '*', k - |pre| - 2));
    }
  }

  lemma BeforeMeans(p: Piece)
    requires LaidOut(p)
    ensures Trim(Before(p)) == Meant(p)
  {
    match p
    case Kept(indent, line, trail, _) => TrimPad(indent, line, trail);
    case Extra(space, _) =>
      TrimPad(space, "", "");
      assert space + "" + "" == space;
  }

  lemma {:induction false} TrimLeftThenLetter(y: string, c: char)
    requires !Space(c)
    ensures TrimLeft(y + [c]) == TrimLeft(y) + [c]
    decreases |y|
  {
    if y != "" && Space(y[0]) {
      assert (y + [c])[1..] == y[1..] + [c];
      TrimLeftThenLetter(y[1..], c);
    }
  }

  // The dashes of the comment are met one place early.
  lemma TouchedCut(p: Piece, y: string)
    requires LaidOut(p) && DashTouches(p) && Before(p) == y + ['-']
    ensures Cut(Show(p)) == y
  {
    var pre := Before(p);
    BeforeHasNoPair(p, '-', '-');
    assert Show(p) == y + "--" + ("-" + p.comment.value);
    PairsOfPrefix(pre, |y|, |pre|, '-', '-');
    assert pre[..|pre|] == pre && pre[..|y|] == y;
    assert y != "" ==> !PairAt(pre, '-', '-', |y| - 1);
    CutAtDashes(y, "-" + p.comment.value);
  }

  // A line that loses its last character, not a space, reads shorter.
  lemma LastLetterShows(y: string, c: char)
    requires !Space(c)
    ensures |Trim(y)| < |Trim(y + [c])|
  {
    TrimLeftThenLetter(y, c);
    TrimRightIsPrefix(TrimLeft(y));
  }

  /** Cut at its first dashes and trimmed, a piece reads as it was meant if and only if its line
      does not end in a dash that touches the comment's. */
  lemma PieceReads(p: Piece)
    requires LaidOut(p)
    ensures Trim(Cut(Show(p))) == Meant(p) <==> !DashTouches(p)
  {
    hide Trim;
    var pre := Before(p);
    BeforeMeans(p);
    BeforeHasNoPair(p, '-', '-');
    if p.comment.None? {
      assert Show(p) == pre;
      CutIdle(pre);
    } else if DashTouches(p) {
      var y := pre[..|pre| - 1];
      assert pre == y + ['-'];
      TouchedCut(p, y);
      LastLetterShows(y, '-');
    } else {
      assert Show(p) == pre + "--" + p.comment.value;
      CutAtDashes(pre, p.comment.value);
    }
  }

  ghost predicate AllLaidOut(ps: seq<Piece>) {
    forall i | 0 <= i < |ps| :: LaidOut(ps[i])
  }

  ghost predicate NoneTouches(ps: seq<Piece>) {
    forall i | 0 <= i < |ps| :: !DashTouches(ps[i])
  }

  lemma TidyCutsCons(line: string, lines: seq<string>)
    ensures Tidy(Cuts([line] + lines)) ==
      (if Trim(Cut(line)) == "" then [] else [Trim(Cut(line))]) + Tidy(Cuts(lines))
  {
    assert Cuts([line] + lines) == [Cut(line)] + Cuts(lines);
    TidyConcat([Cut(line)], Cuts(lines));
    TidySingle(Cut(line));
  }

  // Characters in a list of lines.
  function Weight(lines: seq<string>): nat {
    if lines == [] then 0 else |lines[0]| + Weight(lines[1..])
  }

  lemma WeightCons(line: string, lines: seq<string>)
    ensures Weight((if Trim(line) == "" then [] else [Trim(line)]) + lines) == |Trim(line)| + Weight(lines)
  {
    if Trim(line) != "" {
      assert ([Trim(line)] + lines)[1..] == lines;
    } else {
      assert [] + lines == lines;
    }
  }

  // A piece reads as it was meant, or shorter.
  lemma PieceReadsShorter(p: Piece)
    requires LaidOut(p) && DashTouches(p)
    ensures |Trim(Cut(Show(p)))| < |Meant(p)|
  {
    var pre := Before(p);
    BeforeMeans(p);
    BeforeHasNoPair(p, '-', '-');
    var y := pre[..|pre| - 1];
    assert pre == y + ['-'];
    TouchedCut(p, y);
    LastLetterShows(y, '-');
  }

  lemma {:induction false} PiecesRead(ps: seq<Piece>)
    requires AllLaidOut(ps)
    ensures NoneTouches(ps) ==> Tidy(Cuts(ShowAll(ps))) == Tidy(Cuts(Bare(ps)))
    ensures Weight(Tidy(Cuts(ShowAll(ps)))) <= Weight(Tidy(Cuts(Bare(ps))))
    ensures !NoneTouches(ps) ==> Weight(Tidy(Cuts(ShowAll(ps)))) < Weight(Tidy(Cuts(Bare(ps))))
    decreases |ps|
  {
    hide Trim, Cut, Cuts, Tidy, Show, Weight, DashTouches, LaidOut;
    if ps != [] {
      var p, rest := ps[0], ps[1..];
      assert LaidOut(p) && AllLaidOut(rest);
      assert NoneTouches(ps) <==> !DashTouches(p) && NoneTouches(rest) by {
        assert ps == [p] + rest;
      }
      PiecesRead(rest);
      PieceCons(p, rest);
    }
  }

  // One piece in front.
  lemma PieceCons(p: Piece, rest: seq<Piece>)
    requires LaidOut(p)
    ensures var shown, bare := Tidy(Cuts(ShowAll([p] + rest))), Tidy(Cuts(Bare([p] + rest)));
      var shownRest, bareRest := Tidy(Cuts(ShowAll(rest))), Tidy(Cuts(Bare(rest)));
      && (!DashTouches(p) && shownRest == bareRest ==> shown == bare)
      && (DashTouches(p) ==> Weight(shown) - Weight(shownRest) < Weight(bare) - Weight(bareRest))
      && (!DashTouches(p) ==> Weight(shown) - Weight(shownRest) == Weight(bare) - Weight(bareRest))
  {
    PieceReads(p);
    if DashTouches(p) {
      PieceReadsShorter(p);
    }
    if p.Kept? {
      CutIdle(p.line);
    }
    hide Trim, Cut, Cuts, Tidy, Show, Weight, DashTouches, LaidOut;
    assert ([p] + rest)[1..] == rest;
    TidyCutsCons(Show(p), ShowAll(rest));
    WeightCons(Cut(Show(p)), Tidy(Cuts(ShowAll(rest))));
    if p.Kept? {
      TidyCutsCons(p.line, Bare(rest));
      WeightCons(p.line, Tidy(Cuts(Bare(rest))));
    } else {
      assert Bare([p] + rest) == Bare(rest);
      assert [] + Tidy(Cuts(ShowAll(rest))) == Tidy(Cuts(ShowAll(rest)));
    }
  }

  ghost predicate SingleLines(lines: seq<string>) {
    forall l | l in lines :: '\n' !in l && !HasPair(l, '/', '*')
  }

  lemma {:induction false} PiecesAreLines(ps: seq<Piece>)
    requires AllLaidOut(ps)
    ensures SingleLines(ShowAll(ps)) && SingleLines(Bare(ps))
    decreases |ps|
  {
    hide Show;
    if ps != [] {
      assert AllLaidOut(ps[1..]);
      PiecesAreLines(ps[1..]);
      ShowIsOneLine(ps[0]);
    }
  }

  lemma JoinedScriptLines(lines: seq<string>)
    requires SingleLines(lines)
    ensures ScriptLines(Join(lines)) == Tidy(Cuts(lines))
  {
    JoinHasNoPair(lines, '/', '*');
    StripBlocksIdle(Join(lines));
    ScriptLinesLineByLine(Join(lines));
    JoinLineByLine(lines);
  }

  /** Indenting, trailing space, blank lines and dash comments leave the lines that Batch reads
      unchanged if and only if no line ends in a dash that touches its comment. */
  lemma LayoutExactly(ps: seq<Piece>)
    requires AllLaidOut(ps)
    ensures ScriptLines(Join(ShowAll(ps))) == ScriptLines(Join(Bare(ps))) <==> NoneTouches(ps)
  {
    PiecesRead(ps);
    PiecesAreLines(ps);
    JoinedScriptLines(ShowAll(ps));
    JoinedScriptLines(Bare(ps));
  }

  /** Then nothing at all changes: the run of the script as laid out is the run of the bare
      script, whatever the database does. */
  lemma LayoutDoesNotMatter<S>(env: Env<S>, w: World<S>, ps: seq<Piece>)
    requires AllLaidOut(ps) && NoneTouches(ps)
    ensures RunScript(env, w, Join(ShowAll(ps))) == RunScript(env, w, Join(Bare(ps)))
  {
    LayoutExactly(ps);
  }

  // ---------- a layout that matters ----------

  lemma OneLineScript<S>(env: Env<S>, w: World<S>, text: string, line: string)
    requires ScriptLines(text) == [line] && line != "" && Trimmed(line) && line[0] == 'x' && ';' in line
    ensures RunScript(env, w, text).world == ExecStatement(env, w.(tx := None), line + "\n").0
  {
    TrimmedStays(line);
    assert Upper(line)[0] == 'X';
    assert Feed(START, line) == (START, Some(Send([line]))) by {
      assert START.pending + [line] == [line];
    }
    TrimPad("", line, "\n");
    assert "" + line + "\n" == line + "\n";
    assert !StartsWith(line + "\n", SELECT_WORD);
    assert [line] == [line] + [];
    var q, cmd := RunStep(env, w.(tx := None), START, line, []);
    assert Glue([line]) == line + "\n" by {
      assert [line][1..] == [];
    }
    hide StartsWith, ExecStatement;
  }

  lemma TouchingLines()
    ensures ScriptLines("x;---c") == ["x;"] && ScriptLines("x;-") == ["x;-"]
  {
    hide ScriptLines, Trim, Cut;
    assert "x;---c" == "x;" + "--" + "-c";
    CutAtDashes("x;", "-c");
    TrimmedStays("x;");
    OneLineRead("x;---c", "x;");
    CutIdle("x;-");
    TrimmedStays("x;-");
    OneLineRead("x;-", "x;-");
  }

  const TOUCHING := [Kept("", "x;-", "", Some("c"))]

  lemma TouchingTexts()
    ensures Join(ShowAll(TOUCHING)) == "x;---c" && Join(Bare(TOUCHING)) == "x;-"
  {
    assert TOUCHING[1..] == [];
  }

  /** A comment that touches a dash changes what is sent: laid out so, the line `x;-` reaches the
      database without its dash. */
  lemma TouchingCommentChangesTheRun<S>(env: Env<S>, w: World<S>)
    ensures Issued(RunScript(env, w, Join(ShowAll(TOUCHING))).world.trace) == Issued(w.trace) + ["x;\n"]
    ensures Issued(RunScript(env, w, Join(Bare(TOUCHING))).world.trace) == Issued(w.trace) + ["x;-\n"]
  {
    TouchingTexts();
    TouchingLines();
    hide ScriptLines, RunScript, ExecStatement, Issued, Join, ShowAll, Bare, Trim;
    OneLineScript(env, w, "x;---c", "x;");
    OneLineScript(env, w, "x;-", "x;-");
    ExecIssues(env, w.(tx := None), "x;" + "\n");
    ExecIssues(env, w.(tx := None), "x;-" + "\n");
    assert "x;" + "\n" == "x;\n" && "x;-" + "\n" == "x;-\n";
  }

  lemma OneLineRead(text: string, line: string)
    requires '\n' !in text && !HasPair(text, '/', '*') && Trim(Cut(text)) == line && line != ""
    ensures ScriptLines(text) == [line]
  {
    StripBlocksIdle(text);
    ScriptLinesLineByLine(text);
    SplitSingle(text);
  }
}
