/** The parts of Go's `strings` package that the script loader of db.go leans on,
    over strings of code points. */
module Text {

  datatype Option<+T> = None | Some(value: T)

  // The regexp class \s: five ASCII characters, without the vertical tab.
  predicate ReSpace(c: char) {
    c == '\t' || c == '\n' || c == '\U{0C}' || c == '\r' || c == ' '
  }

  // unicode.IsSpace, which strings.TrimSpace cuts.
  predicate Space(c: char) {
    || ReSpace(c)
    || c == '\U{0B}' || c == '\U{85}' || c == '\U{A0}' || c == '\U{1680}'
    || '\U{2000}' <= c <= '\U{200A}'
    || c == '\U{2028}' || c == '\U{2029}' || c == '\U{202F}' || c == '\U{205F}' || c == '\U{3000}'
  }

  ghost predicate Spaces(s: string) {
    forall k | 0 <= k < |s| :: Space(s[k])
  }

  function TrimLeft(s: string): string {
    if s != "" && Space(s[0]) then TrimLeft(s[1..]) else s
  }

  function TrimRight(s: string): string {
    if s != "" && Space(s[|s| - 1]) then TrimRight(s[..|s| - 1]) else s
  }

  // strings.TrimSpace
  function Trim(s: string): string {
    TrimRight(TrimLeft(s))
  }

  // No space at either end.
  predicate Trimmed(s: string) {
    s == "" || (!Space(s[0]) && !Space(s[|s| - 1]))
  }

  // strings.ToUpper, as far as a test against an ASCII prefix can tell: the two letters
  // outside ASCII whose upper case is ASCII are the dotless i and the long s.
  function UpperChar(c: char): char {
    if 'a' <= c <= 'z' then (c as int - 32) as char
    else if c == '\U{131}' then 'I'
    else if c == '\U{17F}' then 'S'
    else c
  }

  function Upper(s: string): string {
    seq(|s|, i requires 0 <= i < |s| => UpperChar(s[i]))
  }

  // db.go's startsWith; the operator <= on sequences is "is a prefix of".
  predicate StartsWith(data: string, sub: string) {
    Upper(sub) <= Upper(Trim(data))
  }

  // Every line followed by a newline, as Batch's builder and a dump file hold them.
  function Glue(lines: seq<string>): string {
    if lines == [] then "" else lines[0] + "\n" + Glue(lines[1..])
  }

  // The place of the first newline, or |s|.
  function NewlineAt(s: string, k: nat): (i: nat)
    requires k <= |s|
    ensures k <= i <= |s|
    decreases |s| - k
  {
    if k == |s| || s[k] == '\n' then k else NewlineAt(s, k + 1)
  }

  lemma {:induction false} NewlineAtIsFirst(s: string, k: nat)
    requires k <= |s|
    ensures NewlineAt(s, k) < |s| ==> s[NewlineAt(s, k)] == '\n'
    ensures forall j | k <= j < NewlineAt(s, k) :: s[j] != '\n'
    decreases |s| - k
  {
    if k < |s| && s[k] != '\n' {
      NewlineAtIsFirst(s, k + 1);
    }
  }

  // strings.Split(s, "\n")
  function Split(s: string): seq<string> {
    var k := NewlineAt(s, 0);
    if k == |s| then [s] else [s[..k]] + Split(s[k + 1..])
  }

  // strings.Join(lines, "\n")
  function Join(lines: seq<string>): string {
    if lines == [] then ""
    else if |lines| == 1 then lines[0]
    else lines[0] + "\n" + Join(lines[1..])
  }

  // ---------- trimming ----------

  lemma {:induction false} TrimRightPad(s: string, b: string)
    requires Spaces(b)
    ensures TrimRight(s + b) == TrimRight(s)
    decreases |b|
  {
    if b == "" {
      assert s + b == s;
    } else {
      assert (s + b)[|s + b| - 1] == b[|b| - 1];
      assert (s + b)[..|s + b| - 1] == s + b[..|b| - 1];
      TrimRightPad(s, b[..|b| - 1]);
    }
  }

  lemma {:induction false} TrimLeftPad(a: string, s: string)
    requires Spaces(a)
    ensures TrimLeft(a + s) == TrimLeft(s)
    decreases |a|
  {
    if a == "" {
      assert a + s == s;
    } else {
      assert (a + s)[1..] == a[1..] + s;
      TrimLeftPad(a[1..], s);
    }
  }

  lemma {:induction false} TrimLeftThenPad(s: string, b: string)
    requires Spaces(b)
    ensures TrimRight(TrimLeft(s + b)) == TrimRight(TrimLeft(s))
    decreases |s|
  {
    if s == "" {
      assert s + b == b == b + "";
      TrimLeftPad(b, "");
    } else if Space(s[0]) {
      assert (s + b)[1..] == s[1..] + b;
      TrimLeftThenPad(s[1..], b);
    } else {
      TrimRightPad(s, b);
    }
  }

  // Space added at either end does not show after trimming.
  lemma TrimPad(a: string, s: string, b: string)
    requires Spaces(a) && Spaces(b)
    ensures Trim(a + s + b) == Trim(s)
  {
    assert a + s + b == a + (s + b);
    TrimLeftPad(a, s + b);
    TrimLeftThenPad(s, b);
  }

  lemma {:induction false} TrimRightIsPrefix(s: string)
    ensures TrimRight(s) <= s
    ensures TrimRight(s) != "" ==> !Space(TrimRight(s)[|TrimRight(s)| - 1])
    decreases |s|
  {
    if s != "" && Space(s[|s| - 1]) {
      TrimRightIsPrefix(s[..|s| - 1]);
    }
  }

  lemma {:induction false} TrimLeftIsSuffix(s: string)
    ensures |TrimLeft(s)| <= |s| && TrimLeft(s) == s[|s| - |TrimLeft(s)|..]
    ensures TrimLeft(s) != "" ==> !Space(TrimLeft(s)[0])
    decreases |s|
  {
    if s != "" && Space(s[0]) {
      TrimLeftIsSuffix(s[1..]);
    }
  }

  lemma TrimIsTrimmed(s: string)
    ensures Trimmed(Trim(s))
    ensures forall c | c in Trim(s) :: c in s
    ensures |Trim(s)| <= |s|
  {
    TrimLeftIsSuffix(s);
    TrimRightIsPrefix(TrimLeft(s));
  }

  lemma TrimmedStays(s: string)
    requires Trimmed(s)
    ensures Trim(s) == s
  {
  }

  // A trimmed, non-blank beginning survives trimming whatever follows it.
  lemma {:induction false} TrimKeepsHead(x: string, y: string)
    requires Trimmed(x) && x != ""
    ensures x <= Trim(x + y)
    decreases |y|
  {
    assert TrimLeft(x + y) == x + y;
    if y == "" {
      assert x + y == x;
    } else if Space(y[|y| - 1]) {
      assert (x + y)[..|x + y| - 1] == x + y[..|y| - 1];
      TrimKeepsHead(x, y[..|y| - 1]);
    }
  }

  /** Trimming, whatever the text: a run of space at either end goes, what stays is the middle, and
      it neither begins nor ends with space. */
  lemma TrimIsMiddle(s: string) returns (i: nat, j: nat)
    ensures i <= j <= |s| && Trim(s) == s[i..j]
    ensures Spaces(s[..i]) && Spaces(s[j..])
    ensures i < j ==> !Space(s[i]) && !Space(s[j - 1])
  {
    var t := TrimLeft(s);
    TrimLeftCutsSpace(s);
    TrimLeftIsSuffix(s);
    TrimRightCutsSpace(t);
    TrimRightIsPrefix(t);
    i := |s| - |t|;
    j := i + |TrimRight(t)|;
    assert t == s[i..];
    assert t[|TrimRight(t)|..] == s[j..];
    assert s[i..j] == t[..|TrimRight(t)|];
  }

  lemma {:induction false} TrimLeftCutsSpace(s: string)
    ensures |TrimLeft(s)| <= |s| && Spaces(s[..|s| - |TrimLeft(s)|])
    decreases |s|
  {
    if s != "" && Space(s[0]) {
      TrimLeftCutsSpace(s[1..]);
      assert s[..|s| - |TrimLeft(s)|] == [s[0]] + s[1..][..|s| - 1 - |TrimLeft(s)|];
    }
  }

  lemma {:induction false} TrimRightCutsSpace(s: string)
    ensures |TrimRight(s)| <= |s| && Spaces(s[|TrimRight(s)|..])
    decreases |s|
  {
    if s != "" && Space(s[|s| - 1]) {
      TrimRightCutsSpace(s[..|s| - 1]);
      assert s[|TrimRight(s)|..] == s[..|s| - 1][|TrimRight(s)|..] + [s[|s| - 1]];
    }
  }

  /** The characters that are space, by their code points; the regexps know five of them. */
  lemma SpaceByCode(c: char)
    ensures var n := c as int;
      && (Space(c) <==> n in {9, 10, 11, 12, 13, 32, 133, 160, 5760, 8232, 8233, 8239, 8287, 12288}
                        || 8192 <= n <= 8202)
      && (ReSpace(c) <==> n in {9, 10, 12, 13, 32})
  {
  }

  // The carriage return of a file written elsewhere does not show.
  lemma CarriageReturnTrimmed(line: string)
    ensures Trim(line + "\r") == Trim(line)
  {
    assert "" + line + "\r" == line + "\r";
    TrimPad("", line, "\r");
  }

  // ---------- keyword tests ----------

  // The same letter, case aside; the dotless i and the long s count as an i and an s.
  predicate SameLetter(c: char, d: char) {
    || c == d
    || ('a' <= c <= 'z' && 'A' <= d <= 'Z' && c as int - 'a' as int == d as int - 'A' as int)
    || ('A' <= c <= 'Z' && 'a' <= d <= 'z' && c as int - 'A' as int == d as int - 'a' as int)
    || (c in {'i', 'I', '\U{131}'} && d in {'i', 'I', '\U{131}'})
    || (c in {'s', 'S', '\U{17F}'} && d in {'s', 'S', '\U{17F}'})
  }

  // The trimmed line begins with the letters of the text.
  predicate Spells(line: string, text: string) {
    var t := Trim(line);
    |text| <= |t| && forall i | 0 <= i < |text| :: SameLetter(t[i], text[i])
  }

  /** The keyword test, whatever the line and the keyword: it holds exactly when the trimmed line
      begins with the keyword's letters, case aside. */
  lemma StartsWithSpells(line: string, key: string)
    ensures StartsWith(line, key) <==> Spells(line, key)
  {
    var t := Trim(line);
    forall c, d ensures UpperChar(c) == UpperChar(d) <==> SameLetter(c, d) {
      LetterCase(c, d);
    }
    assert forall i | 0 <= i < |key| :: Upper(key)[i] == UpperChar(key[i]);
    assert forall i | 0 <= i < |t| :: Upper(t)[i] == UpperChar(t[i]);
    if StartsWith(line, key) {
      forall i | 0 <= i < |key| ensures SameLetter(t[i], key[i]) {
        assert Upper(key)[i] == Upper(t)[i];
      }
    }
    if Spells(line, key) {
      assert Upper(key) == Upper(t)[..|key|];
    }
  }

  lemma LetterCase(c: char, d: char)
    ensures UpperChar(c) == UpperChar(d) <==> SameLetter(c, d)
  {
  }

  lemma UpperOfPrefix(a: string, b: string)
    requires a <= b
    ensures Upper(a) <= Upper(b)
  {
  }

  lemma StartsWithGrows(x: string, y: string, key: string)
    requires Trimmed(x) && x != "" && StartsWith(x, key)
    ensures StartsWith(x + y, key)
  {
    TrimmedStays(x);
    TrimKeepsHead(x, y);
    UpperOfPrefix(x, Trim(x + y));
  }

  // A terminator found by a keyword test is really in the line.
  lemma KeywordSemicolon(line: string, key: string)
    requires StartsWith(line, key) && ';' in key
    ensures ';' in line
  {
    var k :| 0 <= k < |key| && key[k] == ';';
    assert Upper(key)[k] == Upper(Trim(line))[k];
    assert Trim(line)[k] == ';';
    TrimIsTrimmed(line);
  }

  lemma KeywordLetter(line: string, k: string, i: nat)
    requires StartsWith(line, k) && i < |k|
    ensures i < |Trim(line)| && UpperChar(Trim(line)[i]) == UpperChar(k[i])
  {
    assert Upper(k)[i] == Upper(Trim(line))[i];
  }

  // Two keywords that differ at some place cannot both start a line.
  lemma KeywordsExclude(line: string, k: string, m: string, i: nat)
    requires StartsWith(line, k) && i < |k| && i < |m| && UpperChar(k[i]) != UpperChar(m[i])
    ensures !StartsWith(line, m)
  {
    hide StartsWith;
    KeywordLetter(line, k, i);
    if StartsWith(line, m) {
      KeywordLetter(line, m, i);
    }
  }

  // ---------- splitting and joining ----------

  lemma SplitFirst(s: string) returns (head: string, tail: string)
    requires '\n' in s
    ensures s == head + "\n" + tail && '\n' !in head
  {
    NewlineAtIsFirst(s, 0);
    var k := NewlineAt(s, 0);
    head, tail := s[..k], s[k + 1..];
  }

  lemma SplitHead(head: string, tail: string)
    requires '\n' !in head
    ensures Split(head + "\n" + tail) == [head] + Split(tail)
  {
    var s := head + "\n" + tail;
    assert s[|head|] == '\n';
    assert forall j | 0 <= j < |head| :: s[j] == head[j];
    NewlineAtIsFirst(s, 0);
    assert NewlineAt(s, 0) == |head|;
    assert s[..|head|] == head;
    assert s[|head| + 1..] == tail;
  }

  lemma SplitOne(line: string)
    requires '\n' !in line
    ensures Split(line) == [line]
  {
    NewlineAtIsFirst(line, 0);
  }

  lemma {:induction false} SplitJoin(a: string, b: string)
    ensures Split(a + "\n" + b) == Split(a) + Split(b)
    decreases |a|
  {
    if '\n' in a {
      var head, tail := SplitFirst(a);
      SplitJoin(tail, b);
      SplitHead(head, tail);
      assert a + "\n" + b == head + "\n" + (tail + "\n" + b);
      SplitHead(head, tail + "\n" + b);
    } else {
      SplitOne(a);
      SplitHead(a, b);
    }
  }

  // Adding a trailing newline to every line is joining with one more empty line.
  lemma {:induction false} GlueIsJoin(lines: seq<string>)
    ensures Glue(lines) == Join(lines + [""])
    decreases |lines|
  {
    if lines != [] {
      GlueIsJoin(lines[1..]);
      assert (lines + [""])[1..] == lines[1..] + [""];
    }
  }
}
