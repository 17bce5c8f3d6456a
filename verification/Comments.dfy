/** CleanText and its two regular expressions (db.go, commentC and commentSQL).

    Each expression is given first as a language, a predicate on the span s[from..to],
    and then as a scanner that is proved to pick the span the regexp package picks:
    the leftmost match, and among the matches at that place the shortest (`.*?`) or
    the longest (`\s*`, `.*`). */
module Comments {
  import opened Text

  datatype Span = Span(from: nat, to: nat)

  predicate PairAt(s: string, a: char, b: char, k: int) {
    0 <= k && k + 1 < |s| && s[k] == a && s[k + 1] == b
  }

  ghost predicate HasPair(s: string, a: char, b: char) {
    exists k :: PairAt(s, a, b, k)
  }

  // ---------- (?s)/\*.*?\*/ ----------

  ghost predicate BlockAt(s: string, i: int, j: int) {
    i + 4 <= j && PairAt(s, '/', '*', i) && PairAt(s, '*', '/', j - 2)
  }

  ghost predicate HasBlock(s: string) {
    exists i, j :: BlockAt(s, i, j)
  }

  // What the regexp package returns for commentC.
  ghost predicate FirstBlock(s: string, m: Span) {
    && BlockAt(s, m.from, m.to)
    && (forall i, j | BlockAt(s, i, j) :: m.from <= i)
    && (forall j | BlockAt(s, m.from, j) :: m.to <= j)
  }

  // The first place at or after k where a is followed by b, or |s|.
  function FindPair(s: string, a: char, b: char, k: nat): (i: nat)
    requires k <= |s|
    ensures k <= i <= |s|
    ensures i < |s| ==> i + 1 < |s|
    decreases |s| - k
  {
    if k == |s| || PairAt(s, a, b, k) then k else FindPair(s, a, b, k + 1)
  }

  lemma {:induction false} FindPairIsFirst(s: string, a: char, b: char, k: nat)
    requires k <= |s|
    ensures FindPair(s, a, b, k) < |s| ==> PairAt(s, a, b, FindPair(s, a, b, k))
    ensures forall j | k <= j < FindPair(s, a, b, k) :: !PairAt(s, a, b, j)
    decreases |s| - k
  {
    if k < |s| && !PairAt(s, a, b, k) {
      FindPairIsFirst(s, a, b, k + 1);
    }
  }

  // The scan comes to the end exactly when the pair does not occur.
  lemma FindPairNone(s: string, a: char, b: char)
    ensures FindPair(s, a, b, 0) == |s| <==> !HasPair(s, a, b)
  {
    FindPairIsFirst(s, a, b, 0);
  }

  function FindBlock(s: string): (m: Option<Span>)
    ensures m.Some? ==> m.value.from + 4 <= m.value.to <= |s|
  {
    var i := FindPair(s, '/', '*', 0);
    if i == |s| then
      None
    else
      var j := FindPair(s, '*', '/', i + 2);
      if j == |s| then None else Some(Span(i, j + 2))
  }

  lemma FindBlockIsFirst(s: string)
    ensures FindBlock(s).None? <==> !HasBlock(s)
    ensures FindBlock(s).Some? ==> FirstBlock(s, FindBlock(s).value)
  {
    var i := FindPair(s, '/', '*', 0);
    FindPairIsFirst(s, '/', '*', 0);
    if i < |s| {
      FindPairIsFirst(s, '*', '/', i + 2);
      var j := FindPair(s, '*', '/', i + 2);
      assert j < |s| ==> BlockAt(s, i, j + 2);
    }
  }

  // commentC.ReplaceAll(s, "")
  function StripBlocks(s: string): string
    decreases |s|
  {
    match FindBlock(s)
    case None => s
    case Some(m) => s[..m.from] + StripBlocks(s[m.to..])
  }

  // ---------- \s*--.* ----------

  // Space from i up to the two dashes at q, then no newline up to j.
  ghost predicate DashAt(s: string, i: int, q: int, j: int) {
    && 0 <= i <= q && q + 2 <= j <= |s|
    && (forall k | i <= k < q :: ReSpace(s[k]))
    && PairAt(s, '-', '-', q)
    && (forall k | q + 2 <= k < j :: s[k] != '\n')
  }

  // What the regexp package returns for commentSQL.
  ghost predicate FirstDash(s: string, m: Span) {
    && (exists q :: DashAt(s, m.from, q, m.to))
    && (forall i, q, j | DashAt(s, i, q, j) :: m.from <= i)
    && (forall q, j | DashAt(s, m.from, q, j) :: j <= m.to)
  }

  // The start of the run of \s that ends before q.
  function RunStart(s: string, q: nat): (i: nat)
    requires q <= |s|
    ensures i <= q
  {
    if q > 0 && ReSpace(s[q - 1]) then RunStart(s, q - 1) else q
  }

  lemma {:induction false} RunStartIsMaximal(s: string, q: nat)
    requires q <= |s|
    ensures forall k | RunStart(s, q) <= k < q :: ReSpace(s[k])
    ensures RunStart(s, q) > 0 ==> !ReSpace(s[RunStart(s, q) - 1])
  {
    if q > 0 && ReSpace(s[q - 1]) {
      RunStartIsMaximal(s, q - 1);
    }
  }

  function FindDash(s: string): (m: Option<Span>)
    ensures m.Some? ==> m.value.from + 2 <= m.value.to <= |s|
  {
    var q := FindPair(s, '-', '-', 0);
    if q == |s| then None else Some(Span(RunStart(s, q), NewlineAt(s, q + 2)))
  }

  lemma FindDashIsFirst(s: string)
    ensures FindDash(s).None? <==> !HasPair(s, '-', '-')
    ensures FindDash(s).Some? ==> FirstDash(s, FindDash(s).value)
  {
    FindPairNone(s, '-', '-');
    if FindDash(s).Some? {
      var q := FindPair(s, '-', '-', 0);
      var m := FindDash(s).value;
      FindPairIsFirst(s, '-', '-', 0);
      RunStartIsMaximal(s, q);
      NewlineAtIsFirst(s, q + 2);
      assert DashAt(s, m.from, q, m.to);
      forall i, p, j | DashAt(s, i, p, j) ensures m.from <= i {
        assert i < m.from ==> i <= m.from - 1 < p;
      }
      forall p, j | DashAt(s, m.from, p, j) ensures j <= m.to {
        assert p == q;
      }
    }
  }

  // commentSQL.ReplaceAll(s, "")
  function StripDashes(s: string): string
    decreases |s|
  {
    match FindDash(s)
    case None => s
    case Some(m) => s[..m.from] + StripDashes(s[m.to..])
  }

  function CleanText(s: string): string {
    StripDashes(StripBlocks(s))
  }

  // ---------- what the scanners mean ----------

  lemma FirstBlockIsUnique(s: string, m: Span, n: Span)
    requires FirstBlock(s, m) && FirstBlock(s, n)
    ensures m == n
  {
  }

  // One step of the replacement, at the span the language singles out.
  lemma StripFirstBlock(s: string, m: Span)
    requires FirstBlock(s, m)
    ensures StripBlocks(s) == s[..m.from] + StripBlocks(s[m.to..])
  {
    FindBlockIsFirst(s);
    FirstBlockIsUnique(s, FindBlock(s).value, m);
  }

  // Text cut into gaps and comments, (gap, comment) pairs with a last gap.
  function Woven(parts: seq<(string, string)>, tail: string): string {
    if parts == [] then tail else parts[0].0 + parts[0].1 + Woven(parts[1..], tail)
  }

  function Gaps(parts: seq<(string, string)>, tail: string): string {
    if parts == [] then tail else parts[0].0 + Gaps(parts[1..], tail)
  }

  // A comment from its opening to the first closing behind it.
  ghost predicate OneBlock(c: string) {
    FirstBlock(c, Span(0, |c|))
  }

  /** What the block pass keeps, without a scanner: the text is gaps and comments by turns, no
      comment opens inside a gap that a comment follows, each comment ends at its first closing,
      and the last gap holds no complete comment. The gaps are what is kept. */
  lemma {:induction false} StripBlocksKeepsGaps(s: string) returns (parts: seq<(string, string)>, tail: string)
    ensures s == Woven(parts, tail) && StripBlocks(s) == Gaps(parts, tail)
    ensures forall p | p in parts :: OneBlock(p.1) && !HasPair(p.0 + p.1[..1], '/', '*')
    ensures !HasBlock(tail)
    decreases |s|
  {
    FindBlockIsFirst(s);
    if FindBlock(s).None? {
      parts, tail := [], s;
    } else {
      var m := FindBlock(s).value;
      var gap, block := s[..m.from], s[m.from..m.to];
      OneBlockOf(s, m);
      var more: seq<(string, string)>;
      more, tail := StripBlocksKeepsGaps(s[m.to..]);
      parts := [(gap, block)] + more;
      assert parts[1..] == more;
      assert s == gap + block + s[m.to..];
    }
  }

  lemma OneBlockOf(s: string, m: Span)
    requires FirstBlock(s, m)
    ensures OneBlock(s[m.from..m.to]) && !HasPair(s[..m.from] + s[m.from..m.to][..1], '/', '*')
  {
    var block := s[m.from..m.to];
    assert BlockAt(block, 0, |block|);
    forall j | BlockAt(block, 0, j) ensures |block| <= j {
      assert BlockAt(s, m.from, m.from + j);
    }
    var head := s[..m.from + 1];
    assert s[..m.from] + block[..1] == head;
    forall k ensures !PairAt(head, '/', '*', k) {
      assert PairAt(head, '/', '*', k) ==> BlockAt(s, k, m.to);
    }
  }

  lemma StripNoBlock(s: string)
    requires !HasBlock(s)
    ensures StripBlocks(s) == s
  {
    FindBlockIsFirst(s);
  }

  lemma StripNoDash(s: string)
    requires !HasPair(s, '-', '-')
    ensures StripDashes(s) == s
  {
    FindPairNone(s, '-', '-');
  }

  // The places the dash scanner works with, in one view: the first two dashes at q, the run
  // of space before them and the end of their line.
  lemma DashView(s: string) returns (q: nat)
    requires FindDash(s).Some?
    ensures var m := FindDash(s).value;
      && m.from <= q && q + 2 <= m.to <= |s|
      && PairAt(s, '-', '-', q) && !HasPair(s[..q], '-', '-') && (q > 0 ==> s[q - 1] != '-')
      && (forall k | m.from <= k < q :: ReSpace(s[k]))
      && (forall k | q + 2 <= k < m.to :: s[k] != '\n')
      && (m.to == |s| || s[m.to] == '\n')
  {
    q := FindPair(s, '-', '-', 0);
    FindPairIsFirst(s, '-', '-', 0);
    RunStartIsMaximal(s, q);
    NewlineAtIsFirst(s, q + 2);
    assert forall k | PairAt(s[..q], '-', '-', k) :: PairAt(s, '-', '-', k);
    assert q > 0 ==> !PairAt(s, '-', '-', q - 1);
  }

  ghost predicate EmptyOrNewline(s: string) {
    s == "" || s[0] == '\n'
  }

  // Text is only ever joined again at a newline or at the end.
  lemma {:induction false} StripDashesHead(s: string)
    requires EmptyOrNewline(s)
    ensures EmptyOrNewline(StripDashes(s))
    decreases |s|
  {
    if FindDash(s).Some? {
      var q := DashView(s);
      StripDashesHead(s[FindDash(s).value.to..]);
    }
  }

  // A pair cannot straddle such a joint.
  lemma PairsOfJoint(x: string, y: string, a: char, b: char)
    requires EmptyOrNewline(y) && a != '\n' && b != '\n'
    ensures HasPair(x + y, a, b) <==> HasPair(x, a, b) || HasPair(y, a, b)
  {
    forall k | PairAt(x, a, b, k) ensures PairAt(x + y, a, b, k) {}
    forall k | PairAt(y, a, b, k) ensures PairAt(x + y, a, b, |x| + k) {}
    forall k | PairAt(x + y, a, b, k) ensures PairAt(x, a, b, k) || PairAt(y, a, b, k - |x|) {}
  }

  lemma PairsOfPrefix(s: string, i: nat, q: nat, a: char, b: char)
    requires i <= q <= |s|
    ensures HasPair(s[..i], a, b) ==> HasPair(s[..q], a, b)
  {
    forall k | PairAt(s[..i], a, b, k) ensures PairAt(s[..q], a, b, k) {}
  }

  // A cut from 0 to the end: space, two dashes, and no newline.
  ghost predicate OneDash(c: string) {
    exists q :: DashAt(c, 0, q, |c|)
  }

  // Gaps and dash comments by turns, each comment taken from where its space begins to its line's end.
  ghost predicate DashParts(parts: seq<(string, string)>, tail: string)
    decreases parts
  {
    if parts == [] then !HasPair(tail, '-', '-')
    else
      var (gap, cut) := parts[0];
      && !HasPair(gap, '-', '-') && (gap != "" ==> !ReSpace(gap[|gap| - 1]))
      && OneDash(cut) && EmptyOrNewline(Woven(parts[1..], tail))
      && DashParts(parts[1..], tail)
  }

  /** What the dash pass keeps, without a scanner: exactly the text outside the comments, where each
      comment takes the space before it and runs to the end of its line. */
  lemma {:induction false} StripDashesKeepsGaps(s: string) returns (parts: seq<(string, string)>, tail: string)
    ensures s == Woven(parts, tail) && StripDashes(s) == Gaps(parts, tail) && DashParts(parts, tail)
    decreases |s|
  {
    if FindDash(s).None? {
      FindPairNone(s, '-', '-');
      parts, tail := [], s;
    } else {
      var m := FindDash(s).value;
      FirstCut(s, m);
      var gap, cut, rest := s[..m.from], s[m.from..m.to], s[m.to..];
      assert s == gap + cut + rest;
      assert StripDashes(s) == gap + StripDashes(rest);
      hide FindDash, OneDash, StripDashes, DashParts, Woven, Gaps, HasPair, EmptyOrNewline, ReSpace;
      var more: seq<(string, string)>;
      more, tail := StripDashesKeepsGaps(rest);
      parts := [(gap, cut)] + more;
      DashPartsCons(gap, cut, more, tail);
    }
  }

  lemma DashPartsCons(gap: string, cut: string, more: seq<(string, string)>, tail: string)
    ensures var parts := [(gap, cut)] + more;
      && Woven(parts, tail) == gap + cut + Woven(more, tail)
      && Gaps(parts, tail) == gap + Gaps(more, tail)
      && (DashParts(parts, tail) <==>
            && !HasPair(gap, '-', '-') && (gap != "" ==> !ReSpace(gap[|gap| - 1]))
            && OneDash(cut) && EmptyOrNewline(Woven(more, tail)) && DashParts(more, tail))
  {
    hide HasPair, OneDash, EmptyOrNewline, ReSpace;
    assert ([(gap, cut)] + more)[1..] == more;
  }

  lemma FirstCut(s: string, m: Span)
    requires FindDash(s) == Some(m)
    ensures var gap, cut := s[..m.from], s[m.from..m.to];
      && !HasPair(gap, '-', '-') && (gap != "" ==> !ReSpace(gap[|gap| - 1]))
      && OneDash(cut) && EmptyOrNewline(s[m.to..])
  {
    var q := DashView(s);
    DashGapEnds(s);
    PairsOfPrefix(s, m.from, q, '-', '-');
    var cut := s[m.from..m.to];
    assert DashAt(cut, 0, q - m.from, |cut|);
  }

  lemma DashGapEnds(s: string)
    requires FindDash(s).Some?
    ensures var i := FindDash(s).value.from;
      i > 0 ==> !ReSpace(s[i - 1])
  {
    RunStartIsMaximal(s, FindPair(s, '-', '-', 0));
  }

  // Dash comments are gone, whatever the text.
  lemma {:induction false} StripDashesLeavesNone(s: string)
    ensures !HasPair(StripDashes(s), '-', '-')
    decreases |s|
  {
    if FindDash(s).None? {
      FindPairNone(s, '-', '-');
    } else {
      var m := FindDash(s).value;
      var q := DashView(s);
      StripDashesLeavesNone(s[m.to..]);
      StripDashesHead(s[m.to..]);
      PairsOfPrefix(s, m.from, q, '-', '-');
      PairsOfJoint(s[..m.from], StripDashes(s[m.to..]), '-', '-');
    }
  }

  // The dash pass creates no pair that was not there.
  lemma {:induction false} StripDashesAddsNoPair(s: string, a: char, b: char)
    requires a != '\n' && b != '\n'
    ensures HasPair(StripDashes(s), a, b) ==> HasPair(s, a, b)
    decreases |s|
  {
    if FindDash(s).Some? {
      var m := FindDash(s).value;
      var q := DashView(s);
      StripDashesAddsNoPair(s[m.to..], a, b);
      StripDashesHead(s[m.to..]);
      PairsOfJoint(s[..m.from], StripDashes(s[m.to..]), a, b);
      forall k | PairAt(s[..m.from], a, b, k) ensures PairAt(s, a, b, k) {}
      forall k | PairAt(s[m.to..], a, b, k) ensures PairAt(s, a, b, m.to + k) {}
    }
  }

  // A block comment in x + y was there in x + gone + rest, when y takes its markers, in
  // order, from rest.
  lemma BlockBeforeJoint(x: string, y: string, gone: string, rest: string, i: int, j: int)
    requires EmptyOrNewline(y) && BlockAt(x + y, i, j)
    requires HasBlock(y) ==> HasBlock(rest)
    requires HasPair(y, '*', '/') ==> HasPair(rest, '*', '/')
    ensures HasBlock(x + gone + rest)
  {
    var s, off := x + gone + rest, |x| + |gone|;
    if j <= |x| {
      assert BlockAt(s, i, j);
    } else if i >= |x| {
      assert BlockAt(y, i - |x|, j - |x|);
      var i', j' :| BlockAt(rest, i', j');
      assert BlockAt(s, off + i', off + j');
    } else {
      assert i + 2 <= |x|;
      assert PairAt(y, '*', '/', j - 2 - |x|);
      var k :| PairAt(rest, '*', '/', k);
      assert BlockAt(s, i, off + k + 2);
    }
  }

  // Nor a block comment: a marker cannot form at a joint, and the order of markers is kept.
  lemma {:induction false} StripDashesAddsNoBlock(s: string)
    ensures HasBlock(StripDashes(s)) ==> HasBlock(s)
    decreases |s|
  {
    match FindDash(s) {
      case None =>
      case Some(m) =>
        var rest := s[m.to..];
        assert EmptyOrNewline(rest) by { var q := DashView(s); }
        StripDashesHead(rest);
        StripDashesAddsNoBlock(rest);
        StripDashesAddsNoPair(rest, '*', '/');
        assert s == s[..m.from] + s[m.from..m.to] + rest;
        forall i, j | BlockAt(s[..m.from] + StripDashes(rest), i, j) ensures HasBlock(s) {
          BlockBeforeJoint(s[..m.from], StripDashes(rest), s[m.from..m.to], rest, i, j);
        }
    }
  }

  // ---------- main results ----------

  // The cleaned text holds no dash comment at all.
  lemma CleanTextHasNoDashes(s: string)
    ensures !HasPair(CleanText(s), '-', '-')
  {
    StripDashesLeavesNone(StripBlocks(s));
  }

  lemma {:induction false} StripDashesShrinks(s: string)
    ensures |StripDashes(s)| <= |s|
    decreases |s|
  {
    if FindDash(s).Some? {
      var q := DashView(s);
      StripDashesShrinks(s[FindDash(s).value.to..]);
    }
  }

  lemma {:induction false} StripBlocksShrinks(s: string)
    ensures |StripBlocks(s)| <= |s|
    ensures HasBlock(s) ==> |StripBlocks(s)| < |s|
    decreases |s|
  {
    FindBlockIsFirst(s);
    if FindBlock(s).Some? {
      StripBlocksShrinks(s[FindBlock(s).value.to..]);
    }
  }

  /** The texts that cleaning leaves alone are exactly those without a complete block comment and
      without two dashes in a row. */
  lemma CleanTextFixed(c: string)
    ensures CleanText(c) == c <==> !HasBlock(c) && !HasPair(c, '-', '-')
  {
    StripBlocksShrinks(c);
    StripDashesShrinks(StripBlocks(c));
    CleanTextHasNoDashes(c);
    if !HasBlock(c) && !HasPair(c, '-', '-') {
      StripNoBlock(c);
      StripNoDash(c);
    }
  }

  // So cleaning twice is cleaning once exactly when the first cleaning left no complete
  // block comment behind.
  lemma CleanTextIdempotent(s: string)
    ensures CleanText(CleanText(s)) == CleanText(s) <==> !HasBlock(CleanText(s))
  {
    CleanTextHasNoDashes(s);
    CleanTextFixed(CleanText(s));
  }

  // A sufficient condition on the first pass alone.
  lemma CleanTextIdempotentAfterBlocks(s: string)
    requires !HasBlock(StripBlocks(s))
    ensures CleanText(CleanText(s)) == CleanText(s)
  {
    StripDashesAddsNoBlock(StripBlocks(s));
    CleanTextIdempotent(s);
  }

  // It can fail: removing one block comment may put the halves of another together.
  lemma CleanTextNotIdempotent()
    ensures CleanText("//**/* */") == "/* */" && HasBlock("/* */")
  {
    hide StripBlocks, FindBlock, StripDashes;
    var s, t := "//**/* */", "/* */";
    assert BlockAt(s, 1, 5) && BlockAt(t, 0, 5);
    StripFirstBlock(s, Span(1, 5));
    assert s[..1] == "/" && s[5..] == "* */" && "/" + "* */" == t;
    StripNoBlock("* */");
    StripNoDash(t);
  }

  // The tail behind the last block comment opens another one.
  predicate LeavesOpen(s: string)
    decreases |s|
  {
    match FindBlock(s)
    case None => FindPair(s, '/', '*', 0) < |s|
    case Some(m) => LeavesOpen(s[m.to..])
  }

  lemma OpensNothing(s: string)
    requires !LeavesOpen(s) && FindBlock(s).None?
    ensures !HasPair(s, '/', '*')
  {
    FindPairNone(s, '/', '*');
  }

  // No opening marker forms where c follows a.
  ghost predicate Apart(a: string, c: string) {
    a == "" || c == "" || a[|a| - 1] != '/' || c[0] != '*'
  }

  // The first comment of a is the first comment of any text that a begins.
  lemma FirstBlockStays(a: string, m: Span, c: string)
    requires FirstBlock(a, m)
    ensures FirstBlock(a + c, m)
  {
    var s := a + c;
    assert BlockAt(s, m.from, m.to);
    forall i, j | BlockAt(s, i, j) ensures m.from <= i {
      assert i < m.from ==> BlockAt(a, i, m.to);
    }
    forall j | BlockAt(s, m.from, j) ensures m.to <= j {
      assert j < m.to ==> BlockAt(a, m.from, j);
    }
  }

  lemma StripFirstBlockOf(a: string, m: Span, c: string)
    requires FirstBlock(a, m)
    ensures StripBlocks(a + c) == a[..m.from] + StripBlocks(a[m.to..] + c)
  {
    hide StripBlocks, FindBlock;
    FirstBlockStays(a, m, c);
    StripFirstBlock(a + c, m);
    assert (a + c)[m.to..] == a[m.to..] + c;
    assert (a + c)[..m.from] == a[..m.from];
  }

  // Behind text that opens no comment, the comments are those of the rest, moved.
  lemma BlocksMove(a: string, c: string, i: int, j: int)
    requires !HasPair(a, '/', '*') && Apart(a, c)
    ensures BlockAt(a + c, i, j) <==> |a| <= i && BlockAt(c, i - |a|, j - |a|)
  {
    var s := a + c;
    assert i + 1 < |a| ==> (PairAt(s, '/', '*', i) <==> PairAt(a, '/', '*', i));
  }

  lemma FirstBlockMoves(a: string, c: string, n: Span)
    requires !HasPair(a, '/', '*') && Apart(a, c) && FirstBlock(c, n)
    ensures FirstBlock(a + c, Span(|a| + n.from, |a| + n.to))
  {
    var m := Span(|a| + n.from, |a| + n.to);
    BlocksMove(a, c, m.from, m.to);
    forall i, j | BlockAt(a + c, i, j) ensures m.from <= i {
      BlocksMove(a, c, i, j);
    }
    forall j | BlockAt(a + c, m.from, j) ensures m.to <= j {
      BlocksMove(a, c, m.from, j);
    }
  }

  lemma NoBlockMoves(a: string, c: string)
    requires !HasPair(a, '/', '*') && Apart(a, c) && !HasBlock(c)
    ensures !HasBlock(a + c)
  {
    if HasBlock(a + c) {
      var i, j :| BlockAt(a + c, i, j);
      BlocksMove(a, c, i, j);
    }
  }

  lemma StripFirstBlockBehind(a: string, c: string, n: Span)
    requires !HasPair(a, '/', '*') && Apart(a, c) && FirstBlock(c, n)
    ensures StripBlocks(a + c) == a + c[..n.from] + StripBlocks(c[n.to..])
  {
    hide StripBlocks, FindBlock;
    FirstBlockMoves(a, c, n);
    StripFirstBlock(a + c, Span(|a| + n.from, |a| + n.to));
    assert (a + c)[|a| + n.to..] == c[n.to..];
    assert (a + c)[..|a| + n.from] == a + c[..n.from];
  }

  lemma StripBlocksBehind(a: string, c: string)
    requires !HasPair(a, '/', '*') && Apart(a, c)
    ensures StripBlocks(a + c) == a + StripBlocks(c)
  {
    hide StripBlocks, FindBlock;
    var m := FindBlock(c);
    if m.Some? {
      assert FirstBlock(c, m.value) by { FindBlockIsFirst(c); }
      StripFirstBlockBehind(a, c, m.value);
      StripFirstBlock(c, m.value);
    } else {
      FindBlockIsFirst(c);
      NoBlockMoves(a, c);
      StripNoBlock(a + c);
      StripNoBlock(c);
    }
  }

  // Where the scan of a leaves nothing open, the block pass works on a and c apart.
  lemma {:induction false} StripBlocksJoint(a: string, c: string)
    requires !LeavesOpen(a) && Apart(a, c)
    ensures StripBlocks(a + c) == StripBlocks(a) + StripBlocks(c)
    decreases |a|
  {
    hide StripBlocks, FindBlock;
    var m := FindBlock(a);
    if m.Some? {
      assert FirstBlock(a, m.value) by { FindBlockIsFirst(a); }
      StripFirstBlockOf(a, m.value, c);
      StripFirstBlock(a, m.value);
      StripBlocksJoint(a[m.value.to..], c);
    } else {
      OpensNothing(a);
      StripBlocksIdle(a);
      StripBlocksBehind(a, c);
    }
  }

  // At a newline nothing can form.
  lemma StripBlocksSplits(a: string, b: string)
    requires !LeavesOpen(a)
    ensures StripBlocks(a + "\n" + b) == StripBlocks(a) + "\n" + StripBlocks(b)
  {
    assert a + "\n" + b == a + ("\n" + b);
    StripBlocksJoint(a, "\n" + b);
    StripBlocksBehind("\n", b);
  }

  // Text without an opening marker has no block comment to strip.
  lemma StripBlocksIdle(s: string)
    requires !HasPair(s, '/', '*')
    ensures StripBlocks(s) == s
  {
    forall i, j ensures !BlockAt(s, i, j) {
      assert BlockAt(s, i, j) ==> PairAt(s, '/', '*', i);
    }
    StripNoBlock(s);
  }
}
