/** The lines that Batch works on: the cleaned text split at newlines, each line trimmed,
    blank lines skipped (db.go, Batch). The main result is that cleaning, which runs over the
    whole text and eats space across newlines, comes to a plain line-by-line reading. */
module Lines {
  import opened Text
  import opened Comments

  // Batch's "TrimSpace, continue when empty" over a list of lines.
  function Tidy(lines: seq<string>): seq<string> {
    if lines == [] then []
    else (if Trim(lines[0]) == "" then [] else [Trim(lines[0])]) + Tidy(lines[1..])
  }

  function LinesOf(text: string): seq<string> {
    Tidy(Split(text))
  }

  // What Batch loops over, given its whole input.
  function ScriptLines(buffer: string): seq<string> {
    LinesOf(CleanText(buffer))
  }

  // The reference: a line ends at its first two dashes.
  function Cut(line: string): string {
    line[..FindPair(line, '-', '-', 0)]
  }

  function Cuts(lines: seq<string>): seq<string> {
    seq(|lines|, i requires 0 <= i < |lines| => Cut(lines[i]))
  }

  function LineByLine(text: string): seq<string> {
    Tidy(Cuts(Split(text)))
  }

  // ---------- Tidy, Split and Cut ----------

  lemma {:induction false} TidyConcat(x: seq<string>, y: seq<string>)
    ensures Tidy(x + y) == Tidy(x) + Tidy(y)
    decreases |x|
  {
    if x == [] {
      assert x + y == y;
    } else {
      assert (x + y)[1..] == x[1..] + y;
      TidyConcat(x[1..], y);
    }
  }

  lemma LinesJoin(a: string, b: string)
    ensures LinesOf(a + "\n" + b) == LinesOf(a) + LinesOf(b)
  {
    hide Split, Tidy;
    SplitJoin(a, b);
    TidyConcat(Split(a), Split(b));
  }

  lemma LineByLineJoin(a: string, b: string)
    ensures LineByLine(a + "\n" + b) == LineByLine(a) + LineByLine(b)
  {
    hide Split, Tidy;
    SplitJoin(a, b);
    assert Cuts(Split(a) + Split(b)) == Cuts(Split(a)) + Cuts(Split(b));
    TidyConcat(Cuts(Split(a)), Cuts(Split(b)));
  }

  // Text that begins with a newline begins with a line that is skipped.
  lemma LinesBehind(a: string, c: string)
    requires EmptyOrNewline(c)
    ensures LinesOf(a + c) == LinesOf(a) + LinesOf(c)
    ensures LineByLine(a + c) == LineByLine(a) + LineByLine(c)
  {
    hide Split, Tidy, Cuts;
    SplitSingle("");
    if c == "" {
      assert a + c == a;
    } else {
      assert c == "" + "\n" + c[1..];
      assert a + c == a + "\n" + c[1..];
      LinesJoin(a, c[1..]);
      LinesJoin("", c[1..]);
      LineByLineJoin(a, c[1..]);
      LineByLineJoin("", c[1..]);
      assert "" + "\n" + c[1..] == c;
    }
  }

  lemma TidySingle(line: string)
    ensures Tidy([line]) == if Trim(line) == "" then [] else [Trim(line)]
  {
    assert [line][1..] == [];
  }

  lemma SplitSingle(line: string)
    requires '\n' !in line
    ensures Split(line) == [line]
    ensures LinesOf(line) == if Trim(line) == "" then [] else [Trim(line)]
    ensures LineByLine(line) == if Trim(Cut(line)) == "" then [] else [Trim(Cut(line))]
  {
    SplitOne(line);
    TidySingle(line);
    assert Cuts([line]) == [Cut(line)];
    TidySingle(Cut(line));
  }

  lemma CutIdle(line: string)
    requires !HasPair(line, '-', '-')
    ensures Cut(line) == line
  {
    FindPairNone(line, '-', '-');
  }

  lemma LinesPadLast(a: string, w: char)
    requires '\n' !in a && ReSpace(w) && w != '\n'
    ensures LinesOf(a + [w]) == LinesOf(a)
  {
    SplitSingle(a);
    SplitSingle(a + [w]);
    TrimPad("", a, [w]);
    assert "" + a + [w] == a + [w];
  }

  // Trailing space of the regexp's kind, newlines included, does not change the lines.
  lemma {:induction false} LinesPad(a: string, w: char)
    requires ReSpace(w)
    ensures LinesOf(a + [w]) == LinesOf(a)
    decreases |a|
  {
    if w == '\n' {
      LinesBehind(a, "\n");
      SplitHead("", "");
      assert LinesOf("\n") == [];
    } else if '\n' in a {
      var head, tail := SplitFirst(a);
      LinesPad(tail, w);
      LinesJoin(head, tail);
      assert a + [w] == head + "\n" + (tail + [w]);
      LinesJoin(head, tail + [w]);
    } else {
      LinesPadLast(a, w);
    }
  }

  lemma {:induction false} LinesPadAll(a: string, k: nat)
    requires k <= |a| && forall i | k <= i < |a| :: ReSpace(a[i])
    ensures LinesOf(a[..k]) == LinesOf(a)
    decreases |a| - k
  {
    if k < |a| {
      LinesPadAll(a, k + 1);
      LinesPad(a[..k], a[k]);
      assert a[..k] + [a[k]] == a[..k + 1];
    } else {
      assert a[..k] == a;
    }
  }

  lemma PairsOfLines(head: string, tail: string, a: char, b: char)
    requires !HasPair(head + "\n" + tail, a, b)
    ensures !HasPair(head, a, b) && !HasPair(tail, a, b)
  {
    var s := head + "\n" + tail;
    forall k | PairAt(tail, a, b, k) ensures PairAt(s, a, b, |head| + 1 + k) {}
    forall k | PairAt(head, a, b, k) ensures PairAt(s, a, b, k) {}
  }

  lemma CutAtDashes(pre: string, junk: string)
    requires !HasPair(pre, '-', '-') && (pre != "" ==> pre[|pre| - 1] != '-')
    ensures Cut(pre + "--" + junk) == pre
  {
    var s := pre + "--" + junk;
    FindPairIsFirst(s, '-', '-', 0);
    assert PairAt(s, '-', '-', |pre|);
    forall k | 0 <= k < |pre| ensures !PairAt(s, '-', '-', k) {
      assert k + 1 < |pre| ==> !PairAt(pre, '-', '-', k);
    }
  }

  // Cutting a text that has no dashes before its last line's comment.
  lemma {:induction false} LineByLineCut(pre: string, junk: string)
    requires !HasPair(pre, '-', '-') && (pre != "" ==> pre[|pre| - 1] != '-') && '\n' !in junk
    ensures LineByLine(pre + "--" + junk) == LinesOf(pre)
    decreases |pre|
  {
    hide Tidy, Cut, Cuts;
    if '\n' in pre {
      var head, tail := SplitFirst(pre);
      PairsOfLines(head, tail, '-', '-');
      LineByLineCut(tail, junk);
      NoDashesNoCut(head);
      assert pre + "--" + junk == head + "\n" + (tail + "--" + junk);
      LineByLineJoin(head, tail + "--" + junk);
      LinesJoin(head, tail);
    } else {
      SplitSingle(pre);
      SplitSingle(pre + "--" + junk);
      CutAtDashes(pre, junk);
    }
  }

  lemma {:induction false} NoDashesNoCut(s: string)
    requires !HasPair(s, '-', '-')
    ensures LineByLine(s) == LinesOf(s)
    decreases |s|
  {
    if '\n' in s {
      var head, tail := SplitFirst(s);
      PairsOfLines(head, tail, '-', '-');
      NoDashesNoCut(head);
      NoDashesNoCut(tail);
      LinesJoin(head, tail);
      LineByLineJoin(head, tail);
    } else {
      SplitSingle(s);
      CutIdle(s);
    }
  }

  // ---------- main results ----------

  // One match, between pre and rest: it reads as if it were not there.
  lemma LineByLineSkip(pre: string, junk: string, rest: string, from: nat)
    requires !HasPair(pre, '-', '-') && (pre != "" ==> pre[|pre| - 1] != '-')
    requires '\n' !in junk && EmptyOrNewline(rest)
    requires from <= |pre| && forall i | from <= i < |pre| :: ReSpace(pre[i])
    ensures LineByLine(pre + "--" + junk + rest) == LinesOf(pre[..from]) + LineByLine(rest)
  {
    LinesBehind(pre + "--" + junk, rest);
    LineByLineCut(pre, junk);
    LinesPadAll(pre, from);
  }

  lemma LineByLineOneDash(s: string, m: Span)
    requires FindDash(s) == Some(m)
    ensures m.from < m.to <= |s| && EmptyOrNewline(s[m.to..])
    ensures LineByLine(s) == LinesOf(s[..m.from]) + LineByLine(s[m.to..])
  {
    var q := DashView(s);
    var pre, junk, rest := s[..q], s[q + 2..m.to], s[m.to..];
    assert s == pre + "--" + junk + rest;
    assert pre[..m.from] == s[..m.from];
    LineByLineSkip(pre, junk, rest, m.from);
  }

  // The dash pass over the whole text gives the lines of the line-by-line reading.
  lemma {:induction false} StripDashesIsLineByLine(s: string)
    ensures LinesOf(StripDashes(s)) == LineByLine(s)
    decreases |s|
  {
    if FindDash(s).None? {
      FindPairNone(s, '-', '-');
      NoDashesNoCut(s);
    } else {
      var m := FindDash(s).value;
      LineByLineOneDash(s, m);
      StripDashesIsLineByLine(s[m.to..]);
      StripDashesHead(s[m.to..]);
      LinesBehind(s[..m.from], StripDashes(s[m.to..]));
    }
  }

  // What Batch loops over, for every input: the block comments go first, then each line of
  // what is left is cut at its first dashes, trimmed, and dropped when blank.
  lemma ScriptLinesLineByLine(buffer: string)
    ensures ScriptLines(buffer) == LineByLine(StripBlocks(buffer))
  {
    StripDashesIsLineByLine(StripBlocks(buffer));
  }

  // Scripts can be cut at a newline wherever no block comment is left open.
  lemma ScriptLinesSplit(a: string, b: string)
    requires !LeavesOpen(a)
    ensures ScriptLines(a + "\n" + b) == ScriptLines(a) + ScriptLines(b)
  {
    StripBlocksSplits(a, b);
    ScriptLinesLineByLine(a);
    ScriptLinesLineByLine(b);
    ScriptLinesLineByLine(a + "\n" + b);
    LineByLineJoin(StripBlocks(a), StripBlocks(b));
  }

  // Every line that reaches the loop body is trimmed, not blank, and on one line.
  predicate Proper(line: string) {
    Trimmed(line) && line != "" && '\n' !in line
  }

  lemma {:induction false} SplitHasNoNewline(s: string)
    ensures forall l | l in Split(s) :: '\n' !in l
    decreases |s|
  {
    if '\n' in s {
      var head, tail := SplitFirst(s);
      SplitHead(head, tail);
      SplitHasNoNewline(tail);
    } else {
      SplitOne(s);
    }
  }

  lemma {:induction false} TidyIsProper(lines: seq<string>)
    requires forall l | l in lines :: '\n' !in l
    ensures forall l | l in Tidy(lines) :: Proper(l)
    decreases |lines|
  {
    if lines != [] {
      TrimIsTrimmed(lines[0]);
      TidyIsProper(lines[1..]);
    }
  }

  lemma ScriptLinesProper(buffer: string)
    ensures forall l | l in ScriptLines(buffer) :: Proper(l)
  {
    SplitHasNoNewline(CleanText(buffer));
    TidyIsProper(Split(CleanText(buffer)));
  }

  // ---------- texts built from lines ----------

  // A line without comment markers, as a dump prints it.
  ghost predicate Plain(line: string) {
    Proper(line) && !HasPair(line, '-', '-') && !HasPair(line, '/', '*')
  }

  lemma {:induction false} JoinLineByLine(lines: seq<string>)
    requires forall l | l in lines :: '\n' !in l
    ensures LineByLine(Join(lines)) == Tidy(Cuts(lines))
    decreases |lines|
  {
    if lines == [] {
      SplitSingle("");
    } else {
      assert lines[0] in lines;
      SplitSingle(lines[0]);
      if |lines| == 1 {
        assert lines == [lines[0]];
      } else {
        LineByLineJoin(lines[0], Join(lines[1..]));
        JoinLineByLine(lines[1..]);
        assert Cuts(lines)[1..] == Cuts(lines[1..]);
      }
    }
  }

  lemma {:induction false} JoinHasNoPair(lines: seq<string>, a: char, b: char)
    requires a != '\n' && b != '\n' && forall l | l in lines :: !HasPair(l, a, b)
    ensures !HasPair(Join(lines), a, b)
    decreases |lines|
  {
    if |lines| > 1 {
      JoinHasNoPair(lines[1..], a, b);
      var rest := "\n" + Join(lines[1..]);
      assert Join(lines) == lines[0] + rest;
      PairsOfJoint(lines[0], rest, a, b);
      forall k | PairAt(rest, a, b, k) ensures PairAt(Join(lines[1..]), a, b, k - 1) {}
    }
  }

  lemma {:induction false} TidyOfPlain(lines: seq<string>)
    requires forall l | l in lines :: Plain(l)
    ensures Tidy(Cuts(lines)) == lines
    decreases |lines|
  {
    if lines != [] {
      assert Plain(lines[0]);
      TidyOfPlain(lines[1..]);
      TrimmedStays(lines[0]);
      CutIdle(lines[0]);
      assert Cuts(lines)[1..] == Cuts(lines[1..]);
    }
  }

  lemma PlainCuts(lines: seq<string>)
    requires forall l | l in lines :: Plain(l)
    ensures Tidy(Cuts(lines + [""])) == lines
  {
    assert Cuts(lines + [""]) == Cuts(lines) + [""];
    TidyConcat(Cuts(lines), [""]);
    TidySingle("");
    TidyOfPlain(lines);
  }

  // Plain lines come through untouched.
  lemma PlainScript(lines: seq<string>)
    requires forall l | l in lines :: Plain(l)
    ensures ScriptLines(Glue(lines)) == lines
  {
    var all := lines + [""];
    GlueIsJoin(lines);
    JoinHasNoPair(all, '/', '*');
    StripBlocksIdle(Join(all));
    ScriptLinesLineByLine(Join(all));
    JoinLineByLine(all);
    PlainCuts(lines);
  }
}
