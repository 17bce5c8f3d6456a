/** The insert loop of hammerTime and its counters (hammer.go). */
module Hammer {

  /** What db.Exec and LastInsertId answer to one insert.
      - Acked: the row is stored and its id comes back.
      - NoId: the row is stored, LastInsertId fails.
      - Eof: an io.EOF comes back, the row may be stored all the same.
      - OtherError: any other error. */
  datatype Answer = Acked | NoId | Eof(stored: bool) | OtherError(stored: bool)

  datatype Row = Row(id: int, other: int)

  // crashed: the loop over the causes of an error leaves it nil, and its Error method is called.
  datatype Count = Count(good: int, last: int, fails: int, rows: seq<Row>, crashed: bool)

  const FRESH := Count(0, 0, 0, [], false)

  // A table that hands out the ids 1, 2, 3, ...
  function Stored(rows: seq<Row>, other: int): seq<Row> {
    rows + [Row(|rows| + 1, other)]
  }

  function Stores(a: Answer): bool {
    match a
    case Eof(stored) => stored
    case OtherError(stored) => stored
    case _ => true
  }

  // One turn of the loop.
  function Turn(c: Count, a: Answer): Count {
    var rows := if Stores(a) then Stored(c.rows, c.last + 1) else c.rows;
    match a
    case OtherError(_) => c.(rows := rows, fails := c.fails + 1, crashed := true)
    case Eof(_) => c.(rows := rows, fails := c.fails + 1)
    case NoId => c.(rows := rows)
    case Acked =>
      var last := |c.rows| + 1;
      var good := if last != c.good + 1 then last else c.good + 1;
      Count(good, last, 0, rows, false)
  }

  // The state at the loop head after n turns, or where it crashed.
  function Turns(answers: nat -> Answer, n: nat): Count {
    if n == 0 then FRESH
    else
      var c := Turns(answers, n - 1);
      if c.crashed then c else Turn(c, answers(n - 1))
  }

  class Table {
    var rows: seq<Row>

    constructor ()
      ensures rows == []
    {
      rows := [];
    }

    method Insert(other: int, a: Answer) returns (id: int)
      modifies this
      ensures rows == if Stores(a) then Stored(old(rows), other) else old(rows)
      ensures id == |old(rows)| + 1
    {
      id := |rows| + 1;
      if Stores(a) {
        rows := rows + [Row(id, other)];
      }
    }
  }

  method HammerTime(table: Table, answers: nat -> Answer, count: int) returns (c: Count)
    requires table.rows == []
    modifies table
    ensures c == Turns(answers, if count < 0 then 0 else count) && table.rows == c.rows
  {
    var fails, good, last := 0, 0, 0;
    var i := 0;
    while i < count
      invariant 0 <= i && (i <= count || i == 0)
      invariant Count(good, last, fails, table.rows, false) == Turns(answers, i)
    {
      var a := answers(i);
      var id := table.Insert(last + 1, a);
      i := i + 1;
      if a.Eof? || a.OtherError? {
        fails := fails + 1;
        if a.OtherError? {
          CrashStays(answers, i, if count < 0 then 0 else count);
          return Count(good, last, fails, table.rows, true);
        }
        continue;
      }
      if a.NoId? {
        continue;
      }
      last := id;
      if fails > 0 {
        fails := 0;
      }
      good := good + 1;
      if last != good {
        good := last;
      }
    }
    return Count(good, last, fails, table.rows, false);
  }

  lemma {:induction false} CrashStays(answers: nat -> Answer, n: nat, m: nat)
    requires n <= m && Turns(answers, n).crashed
    ensures Turns(answers, m) == Turns(answers, n)
    decreases m
  {
    if n < m {
      CrashStays(answers, n, m - 1);
    }
  }

  // ---------- the counters ----------

  /** At every loop head, whatever was answered, good equals last. */
  lemma {:induction false} GoodIsLast(answers: nat -> Answer, n: nat)
    ensures Turns(answers, n).good == Turns(answers, n).last
    decreases n
  {
    if n > 0 {
      GoodIsLast(answers, n - 1);
    }
  }

  /** The loop crashes exactly when some insert meets an error other than io.EOF. */
  lemma {:induction false} CrashesOnOtherError(answers: nat -> Answer, n: nat)
    ensures Turns(answers, n).crashed <==> exists i: nat :: i < n && answers(i).OtherError?
    decreases n
  {
    if n > 0 {
      CrashesOnOtherError(answers, n - 1);
      assert answers(n - 1).OtherError? ==> exists i: nat :: i < n && answers(i).OtherError?;
    }
  }

  // For each stored row, in order, whether the loop was told its id.
  function Told(answers: nat -> Answer, n: nat): seq<bool> {
    if n == 0 then []
    else if Turns(answers, n - 1).crashed || !Stores(answers(n - 1)) then Told(answers, n - 1)
    else Told(answers, n - 1) + [answers(n - 1).Acked?]
  }

  // The id of the last row told, or 0.
  function LastTold(told: seq<bool>): nat {
    if told == [] then 0
    else if told[|told| - 1] then |told| else LastTold(told[..|told| - 1])
  }

  lemma LastToldSnoc(told: seq<bool>, b: bool)
    ensures LastTold(told + [b]) == if b then |told| + 1 else LastTold(told)
  {
    assert (told + [b])[..|told|] == told;
  }

  ghost predicate RowsExplained(rows: seq<Row>, told: seq<bool>) {
    && |rows| == |told|
    && forall k | 0 <= k < |rows| :: rows[k] == Row(k + 1, LastTold(told[..k]) + 1)
  }

  lemma RowsExplainedSnoc(rows: seq<Row>, told: seq<bool>, b: bool)
    requires RowsExplained(rows, told)
    ensures RowsExplained(Stored(rows, LastTold(told) + 1), told + [b])
  {
    var more := told + [b];
    forall k | 0 <= k <= |told| ensures more[..k] == told[..k] {}
    assert told[..|told|] == told;
  }

  /** Every row stored, in every run: ids count up from 1, and `other` is one more than the id the
      loop was told last before that row. `last` is the id told last. */
  lemma {:induction false} RowsOf(answers: nat -> Answer, n: nat)
    ensures var c := Turns(answers, n);
      RowsExplained(c.rows, Told(answers, n)) && c.last == LastTold(Told(answers, n))
    decreases n
  {
    hide RowsExplained, LastTold;
    if n == 0 {
      NoRows();
    } else {
      RowsOf(answers, n - 1);
      var c, told := Turns(answers, n - 1), Told(answers, n - 1);
      RowsExplainedSnoc(c.rows, told, answers(n - 1).Acked?);
      LastToldSnoc(told, answers(n - 1).Acked?);
      assert |c.rows| == |told| by { RowsCount(c.rows, told); }
    }
  }

  lemma NoRows()
    ensures RowsExplained([], []) && LastTold([]) == 0
  {
  }

  lemma RowsCount(rows: seq<Row>, told: seq<bool>)
    requires RowsExplained(rows, told)
    ensures |rows| == |told|
  {
  }

  // One row holds its own id exactly when the loop was told of the row before it.
  lemma RowMatchesIffTold(rows: seq<Row>, told: seq<bool>, k: nat)
    requires RowsExplained(rows, told) && k < |rows|
    ensures rows[k].other == rows[k].id <==> k == 0 || told[k - 1]
  {
    if k > 0 {
      assert told[..k] == told[..k - 1] + [told[k - 1]];
      LastToldSnoc(told[..k - 1], told[k - 1]);
      LastToldBound(told[..k - 1]);
    }
  }

  ghost predicate RowsMatch(rows: seq<Row>) {
    forall k | 0 <= k < |rows| :: rows[k].other == rows[k].id
  }

  /** All rows hold their own id exactly when the loop was told of every row but perhaps the last:
      a row stored unseen throws the next one off. */
  lemma RowsMatchIffTold(answers: nat -> Answer, n: nat)
    ensures var rows, told := Turns(answers, n).rows, Told(answers, n);
      && |rows| == |told|
      && (RowsMatch(rows) <==> forall k | 0 <= k < |told| - 1 :: told[k])
  {
    RowsOf(answers, n);
    var rows, told := Turns(answers, n).rows, Told(answers, n);
    hide Turns, Told, LastTold;
    forall k | 0 <= k < |rows| ensures rows[k].other == rows[k].id <==> k == 0 || told[k - 1] {
      RowMatchesIffTold(rows, told, k);
    }
    if RowsMatch(rows) {
      forall k | 0 <= k < |told| - 1 ensures told[k] {
        RowMatchesIffTold(rows, told, k + 1);
      }
    }
  }

  lemma {:induction false} LastToldBound(told: seq<bool>)
    ensures LastTold(told) <= |told|
    decreases |told|
  {
    if told != [] {
      LastToldBound(told[..|told| - 1]);
    }
  }

  // The place behind the last insert before turn n whose id was told, or 0.
  function SinceTold(answers: nat -> Answer, n: nat): (m: nat)
    ensures m <= n
  {
    if n == 0 then 0 else if answers(n - 1).Acked? then n else SinceTold(answers, n - 1)
  }

  lemma {:induction false} SinceToldIsLast(answers: nat -> Answer, n: nat)
    ensures SinceTold(answers, n) > 0 ==> answers(SinceTold(answers, n) - 1).Acked?
    ensures forall i: nat | SinceTold(answers, n) <= i < n :: !answers(i).Acked?
    decreases n
  {
    if n > 0 && !answers(n - 1).Acked? {
      SinceToldIsLast(answers, n - 1);
    }
  }

  // Error answers to the inserts of the turns from m up to n.
  function Errors(answers: nat -> Answer, m: nat, n: nat): set<nat> {
    set i: nat | m <= i < n && (answers(i).Eof? || answers(i).OtherError?)
  }

  /** At every loop head, whatever was answered, fails is the number of error answers since the last
      insert whose id was told; one whose id could not be told neither adds to it nor clears it. */
  lemma {:induction false} FailsOf(answers: nat -> Answer, n: nat)
    ensures !Turns(answers, n).crashed ==>
      Turns(answers, n).fails == |Errors(answers, SinceTold(answers, n), n)|
    decreases n
  {
    if n == 0 {
      assert Errors(answers, 0, 0) == {};
    } else {
      FailsOf(answers, n - 1);
      var m := SinceTold(answers, n);
      match answers(n - 1) {
        case Acked =>
          assert Errors(answers, n, n) == {};
        case NoId =>
          assert Errors(answers, m, n) == Errors(answers, m, n - 1);
        case Eof(_) =>
          assert Errors(answers, m, n) == Errors(answers, m, n - 1) + {n - 1};
        case OtherError(_) =>
      }
    }
  }

  // ---------- failures that write nothing ----------

  ghost predicate Clean(answers: nat -> Answer, n: nat) {
    forall i: nat | i < n :: answers(i) == Acked || answers(i) == Eof(false)
  }

  // The failures in a row just before turn n.
  function TrailingFails(answers: nat -> Answer, n: nat): nat {
    if n > 0 && answers(n - 1).Eof? then 1 + TrailingFails(answers, n - 1) else 0
  }

  lemma {:induction false} CleanIsTold(answers: nat -> Answer, n: nat)
    requires Clean(answers, n)
    ensures !Turns(answers, n).crashed
    ensures forall k | 0 <= k < |Told(answers, n)| :: Told(answers, n)[k]
    ensures Turns(answers, n).fails == TrailingFails(answers, n)
    decreases n
  {
    if n > 0 {
      CleanIsTold(answers, n - 1);
    }
  }

  /** If every failure is an io.EOF that writes nothing, then at every loop head each row holds its
      own id, last is the number of rows, and fails is the length of the current run of failures. */
  lemma CleanRun(answers: nat -> Answer, n: nat)
    requires Clean(answers, n)
    ensures var c := Turns(answers, n);
      && !c.crashed
      && (forall k | 0 <= k < |c.rows| :: c.rows[k] == Row(k + 1, k + 1))
      && c.last == |c.rows|
      && c.fails == TrailingFails(answers, n)
  {
    RowsOf(answers, n);
    RowsMatchIffTold(answers, n);
    CleanIsTold(answers, n);
  }
}
