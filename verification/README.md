# The script loader of dqlited

dqlited keeps SQLite databases on a dqlite cluster. Its loader (`db.go`) takes the text of a dump
and turns it into calls on a database handle. This project models that path from raw text to
committed state, and three smaller pieces of the same program, and proves what they keep.

| file | what it models |
|---|---|
| `Text.dfy` | the string operations the loader uses: trimming, splitting, the keyword test |
| `Comments.dfy` | the two regular expressions of `CleanText`, as languages and as scanners |
| `Lines.dfy` | the list of lines that `Batch` loops over, and its line-by-line meaning |
| `Sql.dfy` | the handles `DB` and `Tx`, a committed state, the one connection, and a record of the calls |
| `Retry.dfy` | `DBX.exec`: ten attempts with doubling delays |
| `Batch.dfy` | `DBX.Batch` as a parser and a performer of commands, and the methods of `DBX` |
| `Semantics.dfy` | where statements end, where lines go, what retries cost, over whole runs |
| `Committed.dfy` | the committed state over whole runs |
| `Faults.dfy` | how a run ends by Batch's own doing, and the connection it leaves held |
| `Once.dfy` | how often the statements of a script take effect when calls are lost |
| `Scripts.dfy` | layout and splitting of scripts |
| `Dump.dfy` | the round trip with a dump printer |
| `Keywords.dfy` | the loader's keyword tests told by the letters of a line, and scripts that differ in case |
| `Transact.dfy` | `transact`, `ExecuteContext`, and their comparison with `Batch` |
| `Liner.dfy` | a batched file load: the `liner` goroutine, `transact` and the closing of the file, interleaved |
| `Cache.dfy` | the handle cache behind `getDB` and `DBX.Close` |
| `Hammer.dfy` | the insert loop of `hammerTime` |
| `Choices.dfy` | the list printer `choiceList` |

## How the database is modelled

SQL is not interpreted. An `Env` holds a partial function `apply` from a state and a statement to
the next state, and it is arbitrary: a lemma about all `Env` is a lemma about all databases. It also
holds an oracle that gives each call a fate. A call is *served* (the engine gets it and its answer
comes back), *refused* (an error with a positive code, nothing done), or *lost* (any other error; the
work may have been done all the same). The circuit breaker is a second oracle. The clock of the
oracles counts calls. A trace records the calls; it stands for what an observer of the handle sees
and takes part in no decision of the program.

`Sql.DB` and `Sql.Tx` stand for the handles of Go's `database/sql`. A call outside a transaction
commits at once, and a lost one may have. A transaction works on a view of the state that was
committed when it began; the view becomes the committed state exactly when the Commit call lands,
whatever it reports, and never on Rollback. `getDB` limits a handle to one connection (`db.go:281`),
so a transaction holds it from BEGIN to Commit or Rollback. A call that needs the connection while
it is held waits for ever, since the loader sets no deadline; the model says so in the call's place,
with the stop reason `Waits`, the verdict `Waiting` and the answer `Never`. A row that says so of
`ExecuteContext` means a wait that only its context can end.

A Begin that does not come back leaves nothing behind in the model, even if the server carried it
out: the connection is free and the transaction is never heard of again.

Strings are sequences of code points. `strings.ToUpper` is modelled as far as a test against an
ASCII prefix can see it: the ASCII letters, and the two other letters whose upper case is ASCII.

## What comes out of the code as it stands

- `transact` returns nil after a failed `Commit`. `TransactAllOrNothing` says which state is then
  committed; `BatchAgreesWithTransact` says where the two loaders' answers differ.
- `exec` may apply a statement more than once when an attempt is lost after the server did its work.
  `ExecExactlyOnce` and, for a whole script, `ScriptExactlyOnce` give the exact condition;
  `AppliedTwice` is such a run.
- `CleanText` is not idempotent on every text; `CleanTextIdempotent` gives the exact condition.
- A comment glued to a line that ends in a dash takes that dash with it; `LayoutExactly` says when
  layout matters and `TouchingCommentChangesTheRun` shows a run that changes.
- `COMMIT;` without an open transaction is a nil dereference, and a query or a second BEGIN inside
  one waits for ever; `ScriptStopsAtFault` says exactly when, and `HealthyEnding` from the script
  alone.
- A statement that fails inside a transaction leaves the connection held, and so does a script that
  ends inside one; `HeldHandleIsDead` says what is left of the handle.
- `transact` returns nil after a read error. What the scanner delivered until then is committed, and
  a read error inside a line makes it deliver the piece read so far, which is run as a statement of
  its own: `LoadAllOrNothing` says when only whole lines were run, `TornStatementIsCommitted` is a
  load that commits a torn one. An over-long line ends the scan without a piece.
- After an error in the middle of a file the `liner` goroutine may stay blocked on its send for
  ever, or meet the closed file and end; `HowRunsEnd` tells the endings apart and
  `BothEndingsHappen` shows both.
- `getDB` registers the driver a second time, and panics, when it finds the cache empty again, after
  closes or after a failed open; closing a stale connection drops a live handle from the cache.
- `hammerTime` dereferences nil on every error other than `io.EOF`, because its loop over the causes
  of the error leaves the variable nil.
- `choiceList` gives any list the same phrase as one choice that reads like it; `OwnsPhraseIff` says
  whose phrase belongs to it alone.

## Model

| member | source | states |
|---|---|---|
| Text.StartsWithSpells | db.go:707-710 | for every line and keyword the test holds if and only if the trimmed line begins with the keyword's letters, case aside, told by character ranges |
| Text.TrimIsMiddle | db.go:743 | trimming keeps the middle of a text between two runs of space, and the middle has no space at either end |
| Comments.FindBlockIsFirst | db.go:702 | the block scanner finds a match when there is one, and it is the leftmost and, from there, the shortest, as the regexp asks |
| Comments.FindDashIsFirst | db.go:703 | the dash scanner finds the leftmost match of space, two dashes and the rest of the line, at its longest |
| Comments.StripBlocksKeepsGaps | db.go:715 | scanner-free meaning of the first replacement: the text is gaps and comments by turns and the gaps are kept |
| Comments.StripDashesKeepsGaps | db.go:716 | scanner-free meaning of the second replacement: exactly the text outside the comments is kept, each comment with the space before it and up to the end of its line |
| Comments.CleanTextHasNoDashes | db.go:714-718 | no two dashes in a row are left in any cleaned text |
| Comments.CleanTextFixed | db.go:714-718 | the texts that cleaning leaves alone are exactly those without a complete block comment and without two dashes in a row |
| Comments.CleanTextIdempotent | db.go:714-718 | cleaning again changes nothing if and only if the cleaned text holds no complete block comment |
| Comments.CleanTextIdempotentAfterBlocks | db.go:714-718 | it is enough that the first pass left none: the second pass puts no marker together |
| Comments.CleanTextNotIdempotent | db.go:714-718 | a text whose cleaned form is a block comment |
| Comments.StripBlocksSplits | db.go:715 | at a newline behind text that leaves no comment open, the block pass works on both sides apart |
| Lines.StripDashesIsLineByLine | db.go:716 | although the dash pass eats space across newlines, its trimmed non-blank lines are those of cutting each line at its first dashes |
| Lines.ScriptLinesLineByLine | db.go:714-746 | for every input, the lines that reach the loop body are those of the line-by-line reading behind the block pass |
| Lines.ScriptLinesSplit | db.go:714-746 | the lines of two scripts joined by a newline are the lines of the first and then of the second |
| Lines.ScriptLinesProper | db.go:743-746 | every line that reaches the loop body is trimmed, not blank and free of newlines |
| Lines.PlainScript | db.go:714-746 | trimmed lines without comment markers come through unchanged, in order |
| Scripts.PieceReads | db.go:714-746 | a line with space around it and a comment behind it reads as the bare line if and only if it does not end in a dash touching the comment |
| Scripts.LayoutExactly | db.go:714-746 | indentation, trailing space, blank lines and dash comments leave the lines that are read unchanged if and only if no line ends in a dash touching its comment |
| Scripts.LayoutDoesNotMatter | db.go:714-808 | then the whole run is unchanged, on every database |
| Scripts.TouchingCommentChangesTheRun | db.go:714-808 | a script whose comment changes the statement that is sent |
| Scripts.ScriptSplits | db.go:729-809 | loading two scripts as one stops where the first stops, or reads the second from the first's end state; from a clean end it is loading one and then the other |
| Retry.ExecMeasure | db.go:317-343 | exec is refused exactly by the breaker and waits exactly on a held connection; else it stops at the first attempt that is not lost, or after ten; k lost attempts sleep 2^k - 1 ms, 1023 when it gives up and at most 511 otherwise |
| Retry.ExecTriesTenTimes | db.go:317-343 | on a free connection with the breaker off exec gives up if and only if the next 10 calls are all lost, after exactly 10 attempts and 1023 ms of sleep |
| Retry.ExecAnswersAtFirstReply | db.go:325-342 | when one of the ten calls is not lost, the first such call gives the answer and leaves the state that exec leaves |
| Retry.NapsDouble | db.go:324-338 | from a delay of 2^i ms, k doubling sleeps add up to 2^(i+k) - 2^i ms |
| Retry.ExecExactlyOnce | db.go:317-343 | a statement takes effect once on success and never on failure if and only if it is not tried, the engine rejects it outright, or no lost attempt did its work |
| Retry.AppliedTwice | db.go:325-338 | a database on which one reported success has taken effect twice |
| Once.ScriptExactlyOnce | db.go:317-343 | over a whole script the statements that took effect through exec are those handed to it, each once and in order, less the one that stopped the run, if and only if no lost attempt did its work |
| Batch.DBX.Exec | db.go:317-343 | the retry loop computes the function that the lemmas above are about, errors included |
| Batch.DBX.Deliver | db.go:788-806 | a complete statement goes to query, to the open transaction, or to exec, with the error that stops the run |
| Batch.DBX.Batch | db.go:729-810 | the loop with its builder, flag and handle computes the run of the line machine, for every input and every course of events |
| Semantics.RunIsParseThenPerform | db.go:742-808 | the one loop comes to parsing all lines and performing the commands up to the first error |
| Semantics.EndAlwaysSends | db.go:778-807 | an END; line, in whatever state, sends everything in the buffer as one statement and leaves the parser as it started |
| Semantics.TerminatorInvariant | db.go:750-786 | while the trigger flag is unset no pending line holds a terminator; a statement holds one before its last line only when END; or a one-line CREATE TRIGGER completed it |
| Semantics.ScriptConserved | db.go:742-808 | every line is, in order and once, in a command, left in the buffer, or behind an error; the statements handed to the database are the commands' own lines, in order, once each |
| Semantics.ScriptBudget | db.go:323-342 | a script with n statements for exec makes at most 10n attempts and sleeps at most 511n ms, or 511(n-1) + 1023 ms when the last is given up |
| Committed.CommittedIsReplay | db.go:751-807 | on every run, lost calls and failed commits included, the committed state is the replay of what landed outside transactions or in committed ones |
| Committed.PerformAllOnPlan | db.go:751-807 | when no lost call of the steps made did its work, the committed state, after every step and from any state on the plan, follows from the commands that went through |
| Committed.CommittedByPlan | db.go:751-807 | when no lost call of the run did its work, the committed state is the earlier one with exactly the non-SELECT statements outside transactions and in committed ones; a failing transaction adds nothing since its BEGIN |
| Faults.ScriptStopsAtFault | db.go:751-806 | the nil dereference happens if and only if the run comes, with all before it done, to a COMMIT; without an open transaction, and a failed Commit is reported if and only if it comes so to one that is not served; on a free connection it waits for ever if and only if it comes so to a second BEGIN or, with the breaker off, a query inside one, and reports a failed Begin if and only if it comes so to a first BEGIN that is not served |
| Faults.HealthyEnding | db.go:742-808 | where nothing fails the commands alone decide how the run ends: through, crashed or waiting at the first line that breaks the bracketing |
| Faults.BareCommitCrashes | db.go:763-767 | a one-line script that dereferences nil on every database |
| Faults.QueryInTransactionWaits | db.go:788-790 | a two-line script that waits for ever wherever its BEGIN is served |
| Faults.LoadLeavesHeld | db.go:758-810 | the connection stays held after a load, until the handle is closed, exactly when a statement failed inside a transaction, the run waits, or the script ends inside a transaction |
| Faults.HeldHandleIsDead | db.go:673-676 | through a handle whose connection is held no script, transact or ExecuteContext commits anything, only queries get through, and transact never returns |
| Dump.RoundTrip | db.go:742-808 | the commands read from a printed dump are the dump's items, in order, with nothing left over |
| Dump.LoadIsPerform | db.go:729-810 | loading a printed dump is performing its items one by one, on every database |
| Dump.SelectByFirstLine | db.go:707-710 | the SELECT test on a whole statement depends on its first line alone |
| Dump.DumpMakesItsCalls | db.go:788-806 | on a database that takes everything a dump whose transactions pair up, with no query inside one, makes exactly the calls its items say |
| Keywords.FeedByLetters | db.go:750-786 | for every line and parser state: which command comes out and what becomes of the trigger flag, by what the line spells and whether it holds a terminator |
| Keywords.RouteByLetters | db.go:788-806 | a complete statement goes to query if and only if it spells SELECT, else to the open transaction or to exec |
| Keywords.TriggerReadsWhole | db.go:768-783 | a trigger header, a bare BEGIN, any lines without keywords, terminators included, and an END; line are one statement of exactly these lines |
| Keywords.CaseDoesNotMatter | db.go:707-786 | scripts that differ only in the case of letters are read as commands of the same kinds over the same lines, comments included, and go to query alike |
| Keywords.CaseDoesNotMatterToTheRun | db.go:707-808 | on a database that does not mind the case of statements such scripts leave the same committed state and stop for the same reason |
| Transact.Transact | db.go:673-699 | the receiving loop computes the function that the lemmas below are about |
| Transact.TransactAllOrNothing | db.go:673-699 | an error commits nothing; a nil return means all statements were taken, and all are committed or none, by whether the Commit call landed; it waits exactly on a held connection and otherwise leaves it free |
| Transact.ExecuteContext | db.go:864-888 | the loop computes the function that the lemmas below are about |
| Transact.ExecutePrefix | db.go:864-888 | the statements taken in a row are committed, with one result each in order exactly when they are all; one more is committed only if the failing call did its work |
| Transact.ExecuteAgainstTransact | db.go:673-699 | both commit the same state when nothing fails; on a failure one restores the start and the other keeps the prefix |
| Transact.BatchAgreesWithTransact | db.go:729-810 | one-line statements wrapped in BEGIN TRANSACTION and COMMIT; leave the state transact leaves, whatever fails, and the answers differ only by the Commit call |
| Liner.EveryInterleaving | db.go:624-652 | in every interleaving the statements tried are a prefix of what the scanner delivers, a torn last line included, nothing is committed before the end, and the outcome is that of transact alone over it |
| Liner.LoadAllOrNothing | db.go:642-699 | in every interleaving all that the scanner delivers is committed or nothing is, read errors are not reported, and only whole lines from the start of the file were run if and only if the delivery does not end in a torn line |
| Liner.LoadReturns | db.go:624-699 | over every file and database some interleaving brings transact back, unless the connection is held |
| Liner.TornStatementIsCommitted | db.go:628-699 | a file whose load returns nil and commits a piece of a line as a statement |
| Liner.HowRunsEnd | db.go:624-652 | unless the connection is held no interleaving gets stuck before transact is back and the file closed; the goroutine is left blocked exactly when it scanned one line more than were tried, and has closed the channel otherwise |
| Liner.BothEndingsHappen | db.go:628-652 | with lines left after an error, scanning before the file is closed blocks the goroutine for ever, and a scan that finds the file closed ends it with lines unreceived |
| Liner.RefusedBeginReachesBoth | db.go:674-677 | a refused Begin leads there on every file with a line |
| Liner.EveryRunEnds | db.go:624-652 | over n lines to deliver no interleaving has more than 3n + 4 steps |
| Cache.Globals.GetDB | db.go:235-283 | the lookup, the registration on an empty cache, the open, and their failures, as one step |
| Cache.Globals.Close | db.go:376-381 | the name leaves the cache and the connection's own handle is closed |
| Cache.SameHandleUntilClosed | db.go:238-240 | over every run a name that was handed out, with no close of it since, is answered with the same handle and changes nothing |
| Cache.OtherAnswers | db.go:238-282 | told by the calls: an error exactly when no name is cached and the setup does not work, and for a name that is not cached a handle never handed out before |
| Cache.CacheSafety | db.go:235-283 | on every run, stale and repeated closes included, cached handles are open and cached under one name |
| Cache.WorksUntilSharedClose | db.go:376-381 | over every run a connection that was handed out works exactly until some connection with its handle, its own or one that shares it, is closed |
| Cache.PanicsExactlyWhen | db.go:238-282 | after any run with at most one registration, getDB panics exactly when it would be the second working call on an empty cache, or when its sql.Open fails, as told by the calls alone |
| Cache.RegisteredOnceIff | db.go:242-275 | over any run the driver is registered at most once if and only if at most one working getDB meets an empty cache, counted on the calls alone |
| Cache.OnceWhileNeverDrained | db.go:242-280 | when the first registration opens its handle the driver is registered exactly once if and only if no later working getDB finds the cache drained |
| Cache.OnceAfterFailedOpen | db.go:274-281 | when its sql.Open fails the driver is registered exactly once if and only if no working getDB follows at all |
| Cache.FailedOpenThenRegistersTwice | db.go:274-281 | a run that registers twice with a cache that was never filled |
| Cache.ReopeningPanics | db.go:242-275 | open, close and open again panics |
| Cache.FirstStaleCloseOrphans | db.go:376-381 | over every run open handles stay cached until the first close of a stale connection, and exactly such a close drops one |
| Cache.StaleCloseHappens | db.go:376-381 | a run from the empty cache, without a second registration, that comes to such a close |
| Hammer.HammerTime | hammer.go:67-120 | the loop computes the counters and the table that the lemmas below are about, up to the end or the crash |
| Hammer.GoodIsLast | hammer.go:75-120 | good equals last at every loop head, whatever is answered |
| Hammer.CrashesOnOtherError | hammer.go:81-97 | the loop crashes if and only if an insert meets an error other than io.EOF |
| Hammer.RowsOf | hammer.go:79-105 | in every run each row's `other` is one more than the id last told before it, and last is the id told last |
| Hammer.RowsMatchIffTold | hammer.go:79-105 | all rows hold their own id if and only if the loop was told of every row but perhaps the last |
| Hammer.FailsOf | hammer.go:81-109 | at every loop head, whatever is answered, fails is the number of error answers since the last insert whose id was told |
| Hammer.CleanRun | hammer.go:75-114 | when failures are io.EOF and write nothing, every row holds its id, last is the row count and fails is the current run of failures |
| Choices.ChoiceList | main.go:525-550 | the loop over the builder writes the phrase that the lemmas below are about |
| Choices.PhraseByLength | main.go:525-550 | the text for every number of choices; from three on all but the last, each with a comma and a space, then `or` and the last |
| Choices.PhraseReadsBack | main.go:525-550 | for every length a list is recovered from its phrase: up to two words without commas and spaces, or three and more choices without commas |
| Choices.PhraseIsInjective | main.go:525-550 | two such lists with the same phrase are equal |
| Choices.PhraseOfPhrase | main.go:525-550 | the phrase of any list is also the phrase of the single choice that reads like it |
| Choices.OwnsPhraseIff | main.go:525-550 | a phrase belongs to one list alone if and only if that list is a single choice, not the phrase for no choice, in which no `or` stands between spaces |

## Left out

- dqlite, raft, TLS and leader discovery (`client.go`, most of `cluster.go`): calls into libraries whose behaviour is not in this repository.
- HTTP handlers and JSON (`web.go`), commands and flags (`main.go`): they carry requests to the code modelled here and decide nothing in it.
- What a query prints: `dx.query` is an entry in the trace, its error is ignored by `Batch` as in the code.
- A deadline on the context that `web.go` may hand to `ExecuteContext`: the model's calls have none.
- The breaker flipping between two reads with no call in between: it is read once per call made.
- Other clients of the same database: between the calls of one loader nothing else changes the committed state.
- String literals in SQL: cleaning is textual, as in the code, and strips dashes inside them too.
- Bytes that are not UTF-8, and letters whose upper case is not ASCII: no keyword test can tell them apart.
- How much of a file can be read: the whole lines, and the piece a read error cuts off, are parameters of the load.
- `DBX.Execute` and `MakeExec`: the same loop as `ExecuteContext`.
- `dbFile`, `dbReport` and `hammer` close `dx.db` without the cache; they are not calls of the cache's system.
- The closing report of `hammerTime`, 64-bit overflow of its counters, and other writers to its table, which is modelled as the empty one that `hammerPrep` leaves (`hammer.go`).
- `Eval`, `FlagChoice.Set`, `NormalizeAddr` and the other one-branch helpers: they keep no state and feed none of the results above.
