/** choiceList, the printer of flag choices, and a reader for what it prints (main.go). */
module Choices {

  const NO_CHOICE := "you have no choice"

  // Behind the first word: ", x" for each word, ", or x" for the last.
  function Rest(choices: seq<string>): string
    requires choices != []
  {
    if |choices| == 1 then ", or " + choices[0] else ", " + choices[0] + Rest(choices[1..])
  }

  function Phrase(choices: seq<string>): string {
    if |choices| == 0 then NO_CHOICE
    else if |choices| == 1 then choices[0]
    else if |choices| == 2 then choices[0] + " or " + choices[1]
    else choices[0] + Rest(choices[1..])
  }

  method ChoiceList(choices: seq<string>) returns (msg: string)
    ensures msg == Phrase(choices)
  {
    if |choices| == 0 {
      return "you have no choice";
    }
    if |choices| == 1 {
      return choices[0];
    }
    if |choices| == 2 {
      return choices[0] + " or " + choices[1];
    }
    var buf := "";
    for i := 0 to |choices|
      invariant i == 0 ==> buf == ""
      invariant 0 < i < |choices| ==> buf + Rest(choices[i..]) == Phrase(choices)
      invariant i == |choices| ==> buf == Phrase(choices)
    {
      if i == 0 {
        buf := buf + choices[i];
      } else if i == |choices| - 1 {
        buf := buf + ", or ";
        buf := buf + choices[i];
      } else {
        assert choices[i..][1..] == choices[i + 1..];
        buf := buf + ", ";
        buf := buf + choices[i];
      }
    }
    return buf;
  }

  // ---------- what it says ----------

  // Every word with a comma and a space behind it.
  function Commas(words: seq<string>): string {
    if words == [] then "" else words[0] + ", " + Commas(words[1..])
  }

  lemma JoinCommas(x: string, commas: string, end: string)
    ensures ", " + x + (", " + commas + end) == ", " + (x + ", " + commas) + end
  {
  }

  lemma CommasCons(x: string, words: seq<string>)
    ensures Commas([x] + words) == x + ", " + Commas(words)
  {
    assert ([x] + words)[1..] == words;
  }

  lemma {:induction false} RestIsCommas(rest: seq<string>)
    requires rest != []
    ensures Rest(rest) == ", " + Commas(rest[..|rest| - 1]) + ("or " + rest[|rest| - 1])
    decreases |rest|
  {
    var x, more := rest[0], rest[1..];
    if |rest| == 1 {
      assert ", or " + x == ", " + "" + ("or " + x);
    } else {
      var init := more[..|more| - 1];
      RestIsCommas(more);
      assert Rest(rest) == ", " + x + Rest(more);
      assert rest[..|rest| - 1] == [x] + init;
      hide Rest, Commas;
      CommasCons(x, init);
      JoinCommas(x, Commas(init), "or " + more[|more| - 1]);
    }
  }

  /** The phrases, one length after the other: a fixed text, the word, two words with `or` between
      them, and from three on all words but the last, each with a comma and a space, then `or` and
      the last. */
  lemma PhraseByLength(choices: seq<string>)
    ensures var n := |choices|;
      && (n == 0 ==> Phrase(choices) == "you have no choice")
      && (n == 1 ==> Phrase(choices) == choices[0])
      && (n == 2 ==> Phrase(choices) == choices[0] + " or " + choices[1])
      && (n >= 3 ==> Phrase(choices) == Commas(choices[..n - 1]) + "or " + choices[n - 1])
  {
    if |choices| >= 3 {
      var n, x, more := |choices|, choices[0], choices[1..];
      RestIsCommas(more);
      CommasCons(x, more[..n - 2]);
      assert [x] + more[..n - 2] == choices[..n - 1];
      hide Rest, Commas;
      assert x + (", " + Commas(more[..n - 2]) + ("or " + choices[n - 1]))
        == x + ", " + Commas(more[..n - 2]) + "or " + choices[n - 1];
    }
  }

  // ---------- reading it back ----------

  predicate Word(s: string) {
    ',' !in s && ' ' !in s
  }

  // Lists whose phrase can be told apart: no comma in any choice, and no space in a short list.
  predicate Legible(choices: seq<string>) {
    && (forall w | w in choices :: ',' !in w)
    && (|choices| <= 2 ==> forall w | w in choices :: ' ' !in w)
  }

  // The place of the first c, or |s|.
  function Find(s: string, c: char): (k: nat)
    ensures k <= |s|
  {
    if s == "" || s[0] == c then 0 else 1 + Find(s[1..], c)
  }

  // From the left: a word and ", ", then either "or " and the last one, or more. A text that is not
  // put together so is read as one choice.
  function ReadMany(s: string): seq<string>
    decreases |s|
  {
    var k := Find(s, ',');
    if |s| < k + 2 || s[k..k + 2] != ", " then [s]
    else
      var rest := s[k + 2..];
      if ',' in rest then [s[..k]] + ReadMany(rest)
      else if |rest| < 3 || rest[..3] != "or " then [s]
      else [s[..k], rest[3..]]
  }

  function ReadPhrase(s: string): seq<string> {
    if s == NO_CHOICE then []
    else if ',' in s then ReadMany(s)
    else if ' ' in s then
      var k := Find(s, ' ');
      if |s| < k + 4 || s[k..k + 4] != " or " then [s] else [s[..k], s[k + 4..]]
    else [s]
  }

  lemma {:induction false} FindBehind(w: string, c: char, tail: string)
    requires c !in w && tail != "" && tail[0] == c
    ensures Find(w + tail, c) == |w|
    decreases |w|
  {
    if w == "" {
      assert w + tail == tail;
    } else {
      assert (w + tail)[1..] == w[1..] + tail;
      FindBehind(w[1..], c, tail);
    }
  }

  // One word off the front, with the separator behind it.
  lemma ReadOneOff(w: string, t: string)
    requires ',' !in w
    ensures var s := w + ", " + t;
      && (',' in t ==> ReadMany(s) == [w] + ReadMany(t))
      && (',' !in t && "or " <= t ==> ReadMany(s) == [w, t[3..]])
  {
    var tail := ", " + t;
    var s := w + tail;
    assert s == w + ", " + t;
    FindBehind(w, ',', tail);
    assert s[..|w|] == w && s[|w|..|w| + 2] == ", " && s[|w| + 2..] == t;
    assert "or " <= t ==> t[..3] == "or ";
    hide Find;
  }

  lemma {:induction false} ReadManyBack(choices: seq<string>)
    requires |choices| >= 2 && forall w | w in choices :: ',' !in w
    ensures ReadMany(choices[0] + Rest(choices[1..])) == choices
    decreases |choices|
  {
    var w, more := choices[0], choices[1..];
    assert w in choices && more[0] in choices;
    if |more| == 1 {
      var t := "or " + more[0];
      assert w + Rest(more) == w + ", " + t;
      assert t[3..] == more[0] && choices == [w, more[0]];
      hide ReadMany, Rest;
      ReadOneOff(w, t);
    } else {
      var t := more[0] + Rest(more[1..]);
      assert w + Rest(more) == w + ", " + t;
      RestStarts(more[1..]);
      ReadManyBack(more);
      hide ReadMany, Rest;
      assert t[|more[0]|] == ',';
      ReadOneOff(w, t);
      assert choices == [w] + more;
    }
  }

  lemma ReadTwoBack(a: string, b: string)
    requires Word(a) && Word(b)
    ensures ReadPhrase(a + " or " + b) == [a, b]
  {
    hide Find, ReadMany;
    var s, tail := a + " or " + b, " or " + b;
    assert s == a + tail;
    FindBehind(a, ' ', tail);
    assert s[|a|] == ' ' && s[|a| + 2] == 'r';
    assert 'r' !in NO_CHOICE;
    assert ',' !in s;
    assert s[..|a|] == a && s[|a|..|a| + 4] == " or " && s[|a| + 4..] == b;
  }

  lemma CommaReadsMany(s: string)
    requires ',' in s
    ensures ReadPhrase(s) == ReadMany(s)
  {
    hide ReadMany, Find;
    assert ',' !in NO_CHOICE;
  }

  lemma ReadThreeOrMoreBack(choices: seq<string>)
    requires |choices| > 2 && forall w | w in choices :: ',' !in w
    ensures ReadPhrase(Phrase(choices)) == choices
  {
    ReadManyBack(choices);
    var w, tail := choices[0], Rest(choices[1..]);
    RestStarts(choices[1..]);
    assert Phrase(choices) == w + tail;
    hide ReadMany, Rest, Find, ReadPhrase, Phrase;
    assert (w + tail)[|w|] == ',';
    CommaReadsMany(w + tail);
  }

  /** A list comes back from its phrase for every length: one or two words without commas and
      spaces, or any longer list of choices without commas. */
  lemma PhraseReadsBack(choices: seq<string>)
    requires Legible(choices)
    ensures ReadPhrase(Phrase(choices)) == choices
  {
    if |choices| == 1 {
      assert choices[0] in choices;
      assert NO_CHOICE[3] == ' ';
    } else if |choices| == 2 {
      assert choices[0] in choices && choices[1] in choices;
      ReadTwoBack(choices[0], choices[1]);
      hide ReadPhrase;
      assert choices == [choices[0], choices[1]];
    } else if |choices| > 2 {
      ReadThreeOrMoreBack(choices);
    }
  }

  /** So the printer tells any two such lists apart. */
  lemma PhraseIsInjective(a: seq<string>, b: seq<string>)
    requires Legible(a) && Legible(b) && Phrase(a) == Phrase(b)
    ensures a == b
  {
    PhraseReadsBack(a);
    PhraseReadsBack(b);
  }

  lemma RestStarts(choices: seq<string>)
    requires choices != []
    ensures Rest(choices) != "" && Rest(choices)[0] == ','
  {
  }

  // ---------- whose phrase is it ----------

  /** The phrase of any list is also the phrase of the one choice that reads like it, so no list
      but a single choice can be told from it. */
  lemma PhraseOfPhrase(choices: seq<string>)
    ensures Phrase([Phrase(choices)]) == Phrase(choices)
    ensures |choices| != 1 ==> [Phrase(choices)] != choices
  {
  }

  const OR := " or "

  predicate OrAt(s: string, k: int) {
    0 <= k && k + 4 <= |s| && s[k..k + 4] == OR
  }

  ghost predicate HasOr(s: string) {
    exists k :: OrAt(s, k)
  }

  lemma OrBehind(a: string, b: string)
    requires HasOr(b)
    ensures HasOr(a + b)
  {
    var k :| OrAt(b, k);
    assert (a + b)[|a| + k..|a| + k + 4] == b[k..k + 4];
    assert OrAt(a + b, |a| + k);
  }

  lemma OrBetween(a: string, b: string)
    ensures HasOr(a + OR + b)
  {
    assert (a + OR + b)[|a|..|a| + 4] == OR;
    assert OrAt(a + OR + b, |a|);
  }

  lemma {:induction false} RestHasOr(choices: seq<string>)
    requires choices != []
    ensures HasOr(Rest(choices))
    decreases |choices|
  {
    if |choices| == 1 {
      OrBetween(",", choices[0]);
      assert "," + OR + choices[0] == Rest(choices);
    } else {
      RestHasOr(choices[1..]);
      OrBehind(", " + choices[0], Rest(choices[1..]));
    }
  }

  // Two choices or more leave the word in the phrase.
  lemma LongPhraseHasOr(choices: seq<string>)
    requires |choices| >= 2
    ensures HasOr(Phrase(choices))
  {
    if |choices| == 2 {
      OrBetween(choices[0], choices[1]);
    } else {
      hide Rest;
      RestHasOr(choices[1..]);
      OrBehind(choices[0], Rest(choices[1..]));
    }
  }

  // No other list has this list's phrase.
  ghost predicate OwnsPhrase(choices: seq<string>) {
    forall other :: Phrase(other) == Phrase(choices) ==> other == choices
  }

  /** A phrase belongs to one list alone if and only if that list is a single choice that is not
      the phrase for no choice and in which no `or` stands between spaces. */
  lemma OwnsPhraseIff(choices: seq<string>)
    ensures OwnsPhrase(choices) <==> |choices| == 1 && choices[0] != NO_CHOICE && !HasOr(choices[0])
  {
    if |choices| != 1 {
      PhraseOfPhrase(choices);
    } else if choices[0] == NO_CHOICE {
      assert Phrase([]) == Phrase(choices);
    } else if HasOr(choices[0]) {
      var s := choices[0];
      var k :| OrAt(s, k);
      var other := [s[..k], s[k + 4..]];
      assert s == s[..k] + s[k..k + 4] + s[k + 4..];
      assert Phrase(other) == s[..k] + OR + s[k + 4..] == Phrase(choices);
    } else {
      forall other | Phrase(other) == Phrase(choices) ensures other == choices {
        if |other| >= 2 {
          LongPhraseHasOr(other);
        } else if |other| == 1 {
          assert other == [other[0]] && choices == [choices[0]];
        }
      }
    }
  }
}
