# Verified models of Realx8-Core's scripts and start-up

Dafny models of the parts of Realx8-Core whose correctness is an argument rather than a lookup, with the argument proved.
`dafny verify dfyconfig.toml` checks all of it.

**The transaction-safety analyser** (`Tx*.dfy`). On Postgres a failed statement poisons its transaction, so a catch
handler that swallows the failure leaves a transaction in which nothing works any more. `lint-transaction-safety.js` looks
for such handlers in the syntax tree. `TxAst` is the tree, `TxAnalyser` the analyser's predicates and searches, `TxReport`
the same searches as they run, filling shared lists. `TxSemantics` says what the analysed code does: completions as in
section 14.15 of ECMA-262, a transaction that is clean, poisoned or ended, and a `lost` flag for a boundary that committed
a poisoned one. A run is fixed by a finite list of choices, and the theorems hold for every list. The main result is
`Soundness`: a tree with no findings never carries on with a poisoned transaction. It rests on calls being awaited where they
are written (a call that nothing awaits, or one under `Promise.allSettled`, escapes the analyser and the model alike) and on
four promises about the text of the program, none of which mentions the analyser's findings; for each of the four `TxLimits`
has a program that breaks it alone, is passed in silence, and slips through:

- `ThrowIsReached`: no break or continue skips the final throw of a handler around something that can fail (`JumpsMatter`);
- `RollbackIsReached`: a handler that rolls back and need not throw does one of the two on every path
  (`RollbackPathsMatter`);
- `FinalizerStays`: a finalizer does not return, break or continue (`FinalizersMatter`);
- `RollbackComesFirst`: inside what a swallowing handler guards, handlers roll back before anything that can throw
  (`HiddenFailuresMatter`). This is what makes the search complete there (`SearchMissesNothing`).

`SoundWhenOrderly` has the same conclusion from plainer and stricter terms: no jump leaves a handler, no finalizer is
abrupt, and every handler that rolls back does so first.

`TxReading` says what the report holds in the tree's own terms, paths, names, argument positions and marked lines, without
any of the analyser's searches: for every tree a finding is reported if and only if it is due (`ReportedIfDue`).

The code accepts a `tx-safe:` comment on the handler's line or on either of the two lines above it, while its header speaks
of the line or the line above; the model follows the code.

**The SQL scanner's text algorithms and its UPDATE rule** (`SqlText`, `UpdateRule`, `UpdateEngines`, `UpdateText`,
`UpdateSpelled`, `UpdateLimits`, `CommentBlanker`, `CommentStates`, `Brackets`, `BracketCounts`). Each index loop is a
method with the loop's own variables, proved against a declarative reading of the text that is shown to be the only one.
That is told again from counted brackets, from letters and, for comments, from a machine that reads one character at a time.
The rule against SET clauses that read an earlier assignment is compared with the engines on the SET text itself. The engines have string literals and `:parameters`, which
they do not read names in, functions, which are names directly before a parenthesis, and columns such as `a$b`; the rule has
none of these. An expression's value may be any function of the columns that its text names otherwise, and what a name
stands for is not modelled further. In these terms, for assignments to distinct columns:

- the rule splits the text where the engines do if and only if each clause, its literals included, keeps its commas inside
  parentheses and each but the last closes them (`SplitIsRightExactly`);
- a firing rule is right if and only if a clause reads an earlier one's column, and a silent one is wrong if and only if a
  clause reads an earlier one's column and one of the two is not a plain word, or the text was split wrongly
  (`VerdictIsRightExactly`); so on a text split right the verdict is right if and only if an earlier column is named just
  when one is read (`VerdictIsRightOnSplit`);
- so on plain words, with literals that hold no stray parenthesis or comma and no name of an assigned column, the rule fires
  exactly when the engines can differ (`RuleIsExact`).

`UpdateLimits` has a text for each way to be wrong: `a=1,b='a'`, `a=:a,b=:a`, `date=1,x=date(y)`, `a$b=1,c=a$b`,
`t=':(',a=1,b=a` and `t=',a=1,b=a'`.

**Payout reconciliation** (`CashBook*.dfy`). Two greedy passes over a shared set of claimed rows, the report and the restore
loop. The passes give a maximal one-to-one matching, at least half as large as any other. A repair followed by a rerun
reports nothing if and only if no missing payout's reference had been used already. The code treats company number 0 and a
missing company alike in one direction only; the model does too, and where the two contend for a row the count per class can
fail (`CompanyZeroContends`). `CashBookFields` says in terms of the fields which payout gets which row, and
`CashBookWritten` what a repair writes and by how much the book grows.

**Plan-version hand-over** (`Plan*.dfy`). Changing the release trigger closes each live version and opens the next. Over any
sequence of runs the versions of a plan are never in force together, if every open version has started. The script's promise
is that history is not restated. `PlanResolution` has the choice that resolution makes among the active plans that match a
deal: precedence, then the latest start, then the highest id (`shared/src/commissionStore.js:57-115`). In these terms the
promise does not always hold, because the hand-over also makes the plan active, takes the configuration of a version that
may not have started, and makes the plan's version the newest:

- earlier deals all resolve to what they did if and only if every plan that the run changes was active or had nothing in
  force (`RunKeepsPastExactly`);
- all deals whose plans differ in precedence resolve, at every time, to the same configuration up to the trigger if and only
  if every plan that the run changes was active and, from the hand-over until the start of its outgoing version, has another
  version in force that starts later than the hand-over or has the same terms (`RunRestatesExactly`). Where every open
  version has started that leaves the plans being active (`StartedIsSafe`);
- of plans with one precedence, each two decide (`PairsStandForDeals`), and a changed plan overtakes the other unless that
  one starts later (`TiedRowsExactly`, `TiedWithOtherExactly`).

Each way of failing has an input: a plan archived with its version open (`ArchivedPlanRevives`), an active plan with a
version activated ahead of time (`ScheduledAheadMovesForward`, and the overlap it leaves, `ScheduledAheadOverlaps`), and two
plans assigned to one property (`SharedScopeFlips`). In-force times stay apart if and only if the plan's other versions are
over when the hand-over happens (`HandOverExclusive`). `PlanWritten` gives the whole of what a run writes, every field of
every row, and that a refused configuration never gets into a version.

**Boot and readiness** (`Boot`, `BootServer`). Several processes, one migration lock, requests at any moment: an event list
is any interleaving. `BootServer` is one process with its `ready` and `progress` variables; its log is proved to be a run of
the protocol, and `EachRunsItsOwn` says that in any interleaving each process goes through such a run. The code boots
without the lock when it cannot get it; migrations of two processes overlap only then, and then they can.

**Batched copy** (`BatchCopy`, `BatchCells`). The nested loops that number parameters and collect values.

## Model

| member | source | states |
|---|---|---|
| TxReport.TransactionCallsIn | scripts/lint-transaction-safety.js:110-137 | Appends to the shared list exactly the calls of `CallsIn`, in that order, keeping what the list held. |
| TxReach.FoundIffReaches | scripts/lint-transaction-safety.js:110-137 | A path is searched to a find if and only if it ends at a call given a transaction and crosses neither a function argument of a boundary call nor the block of a try whose handler rolls back. |
| TxReach.ExactReachability | scripts/lint-transaction-safety.js:107-137 | The calls found are those at the ends of exactly the open paths to transaction-bearing calls, one for each path, in the order of a walk from parents to children, left to right. |
| TxHandlers.AlwaysThrowsIsRight | scripts/lint-transaction-safety.js:139-164 | A body said to always throw never completes normally and never returns, whatever ifs, tries, loops and functions are nested in it. |
| TxHandlers.RollbackFirstEnds | scripts/lint-transaction-safety.js:85-99 | Code that begins by rolling back leaves the transaction ended however the rest of it fails. |
| TxHandlers.EndsOrThrowsIsRight | scripts/lint-transaction-safety.js:85-99 | A handler whose every path throws or rolls back ends each run by throwing or with the transaction ended. |
| TxSoundness.SearchMissesNothing | scripts/lint-transaction-safety.js:107-137 | Where handlers that roll back a failure do so before anything that can throw, the search finds a call if and only if a failed statement can leak out. |
| TxSoundness.Soundness | scripts/lint-transaction-safety.js:170-213 | With no findings and the four promises kept throughout the tree, no run from a clean transaction commits a poisoned one, and a run that does not throw leaves the transaction unpoisoned. |
| TxSoundness.ContainedRun | scripts/lint-transaction-safety.js:107-137 | For every part of an accepted tree and every state: a transaction that was not poisoned becomes so only when the run throws out of a part that a failed statement can leak from, and no boundary commits a poisoned one. |
| TxOrderly.SoundWhenOrderly | scripts/lint-transaction-safety.js:85-213 | The same when no break or continue leaves a handler, no finalizer is abrupt, and a handler that rolls back does so before anything that can throw. |
| TxReport.ReportCalls | scripts/lint-transaction-safety.js:166-192 | Appends one finding for each call, in order, unless a `tx-safe:` mark stands on the handler's line or one of the two above it. |
| TxReport.Visit | scripts/lint-transaction-safety.js:178-212 | Appends the unacknowledged findings of the node and everything below it, in walk order. |
| TxReport.FindingsFor | scripts/lint-transaction-safety.js:170-223 | Returns the unacknowledged findings of the tree with repeats collapsed. |
| TxReport.OnePerKey | scripts/lint-transaction-safety.js:215-222 | Collapsing keeps the first finding of every (handler line, call line) pair, no pair twice, and nothing else. |
| TxSemantics.StatementsAreFound | scripts/lint-transaction-safety.js:77-83 | A call counts as given a transaction if and only if at some position of some argument that is an object there is a property `transaction`, its key an identifier or a string and not computed, with a value other than a literal null. |
| TxReading.RollbackIsFound | scripts/lint-transaction-safety.js:85-99 | Code counts as rolling back if and only if some path in it, of any depth, leads to a call named `rollback`, directly or as a member. |
| TxReading.ThrowIsFound | scripts/lint-transaction-safety.js:139-164 | A body counts as always throwing if and only if it is a throw, or a block whose last statement is one and before which no path leads to a return without passing through a function. |
| TxReading.FoundIfDue | scripts/lint-transaction-safety.js:107-204 | For every tree: a finding is made, marks and repeats aside, if and only if somewhere a handler that neither ends in a throw nor rolls back guards code from which a way leads to a call given a transaction, entering no callback of a boundary and no block of a try whose handler rolls back. |
| TxReading.ReportedIfDue | scripts/lint-transaction-safety.js:166-223 | The report holds only such findings as no mark on the handler's line or the two above it covers, all of them by handler line and call line, and each such pair of lines once. |
| TxReading.FindingsInWalkOrder | scripts/lint-transaction-safety.js:178-212 | The findings of a handler met earlier in a walk of the tree stand before those of one met later. |
| TxReading.TwoCallsTwoFindings | scripts/lint-transaction-safety.js:215-222 | Two statements on different lines under one handler make two findings. |
| TxReading.PlainTryIsReported | scripts/lint-transaction-safety.js:77-83 | A `try` around one plain call given a transaction, at any argument and property position, with an empty handler on line h, is reported once, as line h and the call's line, unless one of lines h-2 to h is marked, and then not at all. |
| TxReport.SilentReportIsSound | scripts/lint-transaction-safety.js:166-223 | An empty report on a file without `tx-safe:` marks gives the conclusion of `Soundness`. |
| TxReport.SilentReportIsSoundBelow | scripts/lint-transaction-safety.js:178-212 | And so for every part of the tree run on its own, such as a function that is called from elsewhere. |
| TxLimits.JumpsMatter | scripts/lint-transaction-safety.js:139-164 | A handler with a `continue` before its final throw, all other promises kept, is passed in silence and carries on poisoned. |
| TxLimits.FinalizersMatter | scripts/lint-transaction-safety.js:196-204 | A `return` in a finalizer, all other promises kept, is passed in silence and drops the failure. |
| TxLimits.RollbackPathsMatter | scripts/lint-transaction-safety.js:85-99 | A handler that rolls back on one branch only, all other promises kept, is passed in silence and carries on poisoned on the other. |
| TxLimits.HiddenFailuresMatter | scripts/lint-transaction-safety.js:112-120 | A handler that can throw before its rollback, inside a swallowing one, all other promises kept, is passed in silence and carries on poisoned. |
| TxLimits.BrokenIndeed | scripts/lint-transaction-safety.js:170-213 | In each of these programs the promise in question is broken, so none follows from the others. |
| SqlText.CaseDoesNotMatter | scripts/lint-sql-dialect.js:157 | A word is found in a text in any mixture of cases or in none. |
| UpdateRule.SplitClauses | scripts/lint-sql-dialect.js:139-148 | The loop over `depth`, `current` and `clauses` returns the clauses of `Split`. |
| UpdateRule.JoinAfterSplit | scripts/lint-sql-dialect.js:135-148 | Joining the clauses of any text with commas restores the text. |
| UpdateRule.SplitIsSeparable | scripts/lint-sql-dialect.js:135-148 | No clause holds a comma at depth 0, and every clause but the last closes its parentheses. |
| UpdateRule.SplitAfterJoin | scripts/lint-sql-dialect.js:135-148 | Splitting a joined list restores the list if and only if the list has that form. |
| UpdateRule.ParseIsExact | scripts/lint-sql-dialect.js:152-154 | A clause is parsed to a column and an expression if and only if it is optional white space, optional quotes, the column, optional quotes, optional white space, `=` and the expression. |
| UpdateRule.TestClauses | scripts/lint-sql-dialect.js:150-162 | The loop returns true if and only if some clause that parses names a column that an earlier one assigns. |
| UpdateRule.RuleTest | scripts/lint-sql-dialect.js:132-162 | The same of a SET text, blank ones included. |
| UpdateSpelled.SplitIsByCounting | scripts/lint-sql-dialect.js:139-148 | The rule's clauses are the stretches of the text between exactly those commas before which as many parentheses open as close. |
| UpdateSpelled.CutIsByCounting | scripts/lint-sql-dialect.js:135-148 | The engines' clauses are the stretches between the commas of which that holds once literals and parameters are blanked. |
| UpdateSpelled.WordsAreMentioned | scripts/lint-sql-dialect.js:157 | A pattern between word boundaries with the `i` flag finds a word if and only if its letters, each in either case, stand somewhere with no letter, digit or underscore beside them. |
| UpdateSpelled.VerdictIsMentioning | scripts/lint-sql-dialect.js:129-163 | For every SET text: the rule fires if and only if one stretch between such commas is an assignment whose expression mentions, as a whole word, the column that an earlier stretch assigns. |
| UpdateText.SplitIsRightExactly | scripts/lint-sql-dialect.js:135-148 | The rule splits a text where the engines do if and only if, literals included, each engine clause keeps its commas inside parentheses and each but the last closes them. |
| UpdateText.PlainLiteralsAreHarmless | scripts/lint-sql-dialect.js:135-148 | With no parenthesis or comma in a literal the rule splits where the engines do. |
| UpdateText.CutIsVisible | scripts/lint-sql-dialect.js:135-148 | The engines' clauses are the pieces into which the text falls when literals and parameters are blanked, and each begins outside a literal. |
| UpdateText.OddColumnIsSkipped | scripts/lint-sql-dialect.js:152-153 | A clause that the engines read is read alike by the rule if its column is a word and passed over if not. |
| UpdateText.VerdictIsNaming | scripts/lint-sql-dialect.js:129-163 | On a text split right the rule fires if and only if a clause on a word names, in code or not, a word that an earlier clause assigns. |
| UpdateEngines.IndependentMeansSame | scripts/lint-sql-dialect.js:121-128 | If no clause reads an earlier one's column, left-to-right evaluation and evaluation on the old row give the same row, for every row, every value type, every evaluator and any number of clauses. |
| UpdateEngines.DifferenceIsReading | scripts/lint-sql-dialect.js:121-128 | On distinct columns the two can differ if and only if some clause reads an earlier one's column. |
| UpdateEngines.ReadsAreNamed | scripts/lint-sql-dialect.js:156-157 | A word that an expression reads outside literals and parameters is found by the rule's pattern. |
| UpdateText.VerdictIsRightExactly | scripts/lint-sql-dialect.js:129-163 | For any text of assignments to distinct columns: a firing rule is right if and only if a clause reads an earlier one's column; a silent rule on a text split right is wrong if and only if a clause does so and one of the two columns is not a word, and on a text split wrong if and only if a clause does so. |
| UpdateText.VerdictIsRightOnSplit | scripts/lint-sql-dialect.js:129-163 | On a text split right the verdict is right if and only if a word clause names an earlier word column just when some clause reads an earlier one. |
| UpdateText.SilenceMeansSame | scripts/lint-sql-dialect.js:121-163 | Silence on a text split right whose columns are words means that both engines compute the same row, for every row, value type and evaluator. |
| UpdateText.RuleIsExact | scripts/lint-sql-dialect.js:121-163 | On such a text in which nothing merely mentions an earlier column the rule fires if and only if the engines can differ. |
| UpdateLimits.NameInLiteral | scripts/lint-sql-dialect.js:156-157 | The rule fires on `a=1,b='a'`, where the engines cannot differ. |
| UpdateLimits.NameAsParameter | scripts/lint-sql-dialect.js:156-157 | And on `a=:a,b=:a`. |
| UpdateLimits.NameOfFunction | scripts/lint-sql-dialect.js:156-157 | And on `date=1,x=date(y)`. |
| UpdateLimits.OddColumn | scripts/lint-sql-dialect.js:152-153 | It is silent on `a$b=1,c=a$b`, where they can. |
| UpdateLimits.BracketInLiteral | scripts/lint-sql-dialect.js:142-147 | And on `t=':(',a=1,b=a`, where the literal hides the clauses after it. |
| UpdateLimits.CommaInLiteral | scripts/lint-sql-dialect.js:142-147 | It fires on `t=',a=1,b=a'`, finding clauses inside the literal. |
| UpdateRule.QualifiedColumnIsSkipped | scripts/lint-sql-dialect.js:152-153 | A clause that assigns a qualified column does not parse and is passed over. |
| CommentBlanker.SkipString | scripts/lint-sql-dialect.js:513-520 | The inner loop stops where the string token ends, for unterminated strings and a trailing backslash as well. |
| CommentBlanker.StripComments | scripts/lint-sql-dialect.js:487-530 | The loop returns the print of the lexed text with every comment blanked. |
| CommentBlanker.LexIsLexing | scripts/lint-sql-dialect.js:492-528 | The tokens print the source and each fits what follows it. |
| CommentBlanker.LexingIsUnique | scripts/lint-sql-dialect.js:492-528 | No other list of fitting tokens prints the same text. |
| CommentBlanker.StripsTheOneLexing | scripts/lint-sql-dialect.js:487-530 | For any fitting list of tokens that prints the source, stripping blanks its comments and nothing else. |
| CommentStates.StripIsMasking | scripts/lint-sql-dialect.js:487-530 | Stripping a text is the same as running a machine with seven states and one character of lookahead over it that turns each character of a comment but the line breaks into a space. |
| CommentStates.LineIsCounting | scripts/lint-sql-dialect.js:598 | The line of a position is one more than the line breaks before it. |
| CommentBlanker.BlankingKeepsPositions | scripts/lint-sql-dialect.js:484-490 | Length and every newline are kept, and a changed character is a space. |
| CommentBlanker.LinesAreKept | scripts/lint-sql-dialect.js:598 | A position's line number in the stripped text is its line number in the original. |
| CommentBlanker.StrippingIsIdempotent | scripts/lint-sql-dialect.js:487-530 | Stripping a stripped text changes nothing. |
| Brackets.StripSubqueries | scripts/lint-sql-dialect.js:549-573 | The loop over `depth` and `start` prints the pieces of the text with each group that holds a SELECT replaced by one space. |
| Brackets.ReadIsReading | scripts/lint-sql-dialect.js:549-573 | The pieces print the text: characters at depth 0, whole top-level groups, and at most one unclosed tail at the end. |
| Brackets.ReadingIsUnique | scripts/lint-sql-dialect.js:549-573 | No other list of such pieces prints the same text. |
| Brackets.StripLeavesNoSubquery | scripts/lint-sql-dialect.js:537-573 | The result reads as the same pieces with the subqueries gone, so none of its groups holds a SELECT, and stripping again changes nothing. |
| BracketCounts.StripInParts | scripts/lint-sql-dialect.js:549-573 | Every text falls into single characters outside parentheses, groups whose opening and closing parentheses balance at their end and not before, and perhaps an unclosed rest; the result is the same parts in order, with a space for each group that has the word SELECT in it, in any case. |
| Brackets.BlockAfter | scripts/lint-sql-dialect.js:393-406 | Returns the balanced body after the first brace if there is one and the empty string if not. |
| Brackets.BlockBodyIsUnique | scripts/lint-sql-dialect.js:393-406 | At most one text after a brace is balanced, never closes more than it opened, and is closed by the next character. |
| BracketCounts.BodyIsCounting | scripts/lint-sql-dialect.js:393-406 | A block body has its own braces around it, as many opening braces as closing ones, and in no beginning of it more closing than opening. |
| Brackets.UnclosedHasNoBody | scripts/lint-sql-dialect.js:398-405 | A brace that is never closed has no such body. |
| CashBook.ReconcileIsMaximal | scripts/find-missing-payout-cashbook.js:92-114 | The two passes give a one-to-one matching under the two rules, and no unrecorded payout fits an unclaimed row under either. |
| CashBook.GreedyIsAtLeastHalf | scripts/find-missing-payout-cashbook.js:92-114 | Any one-to-one assignment of rows to payouts under the rules has at most twice as many payouts. |
| CashBookFields.MatchesInFields | scripts/find-missing-payout-cashbook.js:65-114 | Pass 1 takes a row whose company agrees and whose reference is the batch, a hyphen and the payout's id in decimal; pass 2 one that agrees in company, realtor and amount with a reference that is the payout's batch or bank reference and not empty. |
| CashBookFields.LeftoversDisagree | scripts/find-missing-payout-cashbook.js:92-116 | Each claim is of a row that agrees with its payout in one of these two ways, no row is claimed twice, and no missing payout agrees with an unclaimed row in either. |
| CashBookFields.ServedInOrder | scripts/find-missing-payout-cashbook.js:92-114 | A payout named by a row has the first such row; any other has, of the rows of the old shape, the first that no payout named by a row and no payout before it in the list has, and is missing if and only if there is none. |
| CashBookFields.OlderIsServedFirst | scripts/find-missing-payout-cashbook.js:80-82 | Of two payouts that differ only in id and time paid, the younger is not recorded while the older, an unknown time being 1970 and equal times going by id, is missing, unless a row names the younger. |
| CashBookRepair.OwnReferencesDiffer | scripts/find-missing-payout-cashbook.js:65 | Two payouts with the same own reference have the same id. |
| CashBookRepair.RerunAfterRestore | scripts/find-missing-payout-cashbook.js:92-119 | However the database orders the restored rows among the old ones, the next run keeps every claim, finds each restored row for its payout, and reports exactly the payouts not restored. |
| CashBookRepair.RestoredUnlessTaken | scripts/find-missing-payout-cashbook.js:145-174 | A payout gets its row if and only if its company had not used its reference before the loop began. |
| CashBookRepair.RepairThenRerun | scripts/find-missing-payout-cashbook.js:145-174 | After a full repair exactly the duplicates are still missing, earlier claims stand, and a second repair writes nothing. |
| CashBookRepair.RepairIsComplete | scripts/find-missing-payout-cashbook.js:92-174 | The rerun finds nothing missing if and only if no missing payout's insert was a duplicate. |
| CashBookWritten.RowsInFull | scripts/find-missing-payout-cashbook.js:145-174 | A repair leaves the old rows in place and puts behind them, with the next ids, one row for each payout whose reference its company has not used, with the payout's company, realtor, net amount and reference. |
| CashBookWritten.EachGetsItsRow | scripts/find-missing-payout-cashbook.js:150-168 | Each such payout ends with a row of its own fields and of the reference that pass 1 looks for. |
| CashBookWritten.TakenInFull | scripts/find-missing-payout-cashbook.js:169-173 | Afterwards exactly the references used before and the payouts' own are used. |
| CashBookWritten.BookGrowsByNets | scripts/find-missing-payout-cashbook.js:145-174 | The sum of the book's amounts grows by exactly the sum of the net amounts of those payouts. |
| CashBookWritten.RepairClosesTheGap | scripts/find-missing-payout-cashbook.js:134-174 | With no reference used it grows by the total that the report prints. |
| CashBookRun.OldestFirstIsUnique | scripts/find-missing-payout-cashbook.js:80-82 | Payouts with distinct ids have one order by time paid, then id, so any sort gives the same list. |
| CashBookRun.Reconciliation.ClaimFor | scripts/find-missing-payout-cashbook.js:92-97 | Returns the first unclaimed row that matches and adds its id, and nothing else, to the claimed set. |
| CashBookRun.Reconciliation.RunPass | scripts/find-missing-payout-cashbook.js:99-114 | Leaves the claimed and recorded sets as the values and keys of the claims of `Pass`. |
| CashBookRun.Reconciliation.FindMissing | scripts/find-missing-payout-cashbook.js:92-116 | The two passes make the claims of `Reconcile`, and the payouts returned are those left without one, in order. |
| CashBookRun.Transactions.InsertRow | scripts/find-missing-payout-cashbook.js:150-173 | Appends the restored row, or changes nothing when the company has used the reference. |
| CashBookRun.Transactions.RestoreRows | scripts/find-missing-payout-cashbook.js:145-174 | Leaves the table as `Restore` says and returns the number of rows written. |
| CashBookRun.SkippingLegacy | scripts/find-missing-payout-cashbook.js:116-119 | With `--skip-legacy` a rerun misses exactly the legacy payouts and the duplicates. |
| CashBookWritten.SkippedByDate | scripts/find-missing-payout-cashbook.js:61-63 | A rerun then misses a payout if and only if it was missing and was paid before September 20th, 2026, by the calendar, or refused. |
| CashBookRun.ExactCountPerClass | scripts/find-missing-payout-cashbook.js:92-119 | Without bank references, and unless a payout without a company and a row of company 0 contend in it, of the payouts of a (company, batch, realtor, amount) class that pass 1 leaves, as many as there are unclaimed rows are recorded, oldest first, and exactly the later ones are missing. |
| CashBookRun.CompanyZeroContends | scripts/find-missing-payout-cashbook.js:66 | Where they do contend the count can fail: alone together, the row of company 0 records the payout although the payout's class has no row. |
| PlanVersions.HandOverExclusive | scripts/set-release-trigger.js:98-142 | A hand-over keeps in-force times of a plan's versions apart if and only if its other versions are over by then. |
| PlanVersions.StartedMeansOthersOver | scripts/set-release-trigger.js:123-129 | They are over when the open version has started. |
| PlanVersions.OneOpenVersion | scripts/set-release-trigger.js:61-68 | Versions that are never in force together include at most one open one for each plan. |
| PlanVersions.HandOverKeepsChain | scripts/set-release-trigger.js:98-142 | Ids stay unique, version numbers grow with ids, in-force times stay apart, and open versions have started. |
| PlanVersions.HandOverPoints | scripts/set-release-trigger.js:131-139 | The changed plan points at its new open version, and every other plan that pointed at an open version still does. |
| PlanRuns.RowsPoint | scripts/set-release-trigger.js:76-143 | After a whole run a plan points at an open version if it did before or the run changed it. |
| PlanRuns.ChainForever | scripts/set-release-trigger.js:54-147 | All of that over any sequence of runs that do not overlap, on a clock that does not go back; in the end a plan points at its open version if it did at the start or any of the runs changed it. |
| PlanRuns.SecondRunWritesNothing | scripts/set-release-trigger.js:76-96 | A second run with the same trigger leaves both tables as they are. |
| PlanWritten.DueInOrder | scripts/set-release-trigger.js:76-95 | The rows handed over are, in order, just those whose trigger is another one and whose configuration validates with the new one. |
| PlanWritten.RunInFull | scripts/set-release-trigger.js:54-147 | The whole result of a run over open versions of different plans: each such row is ended at its own moment and has a successor with the next id, the same company, the plan's highest version number plus one, that moment as its start, no end, and the new trigger in an otherwise equal configuration; its plan is active and points there; all else is the same. A dry run and an unknown trigger write nothing. |
| PlanWritten.InsertedAreAccepted | scripts/set-release-trigger.js:87-95 | Whatever the tables and rows are, every version that a run inserts has a configuration that validates. |
| PlanWritten.RefusedStays | scripts/set-release-trigger.js:87-95 | A live version whose configuration is refused leaves its plan and all versions of the plan as they were. |
| PlanHistory.RunHandsOver | scripts/set-release-trigger.js:76-143 | A whole run amounts, for each plan that it changes, to one hand-over at its row's own moment, whatever it does to the others. |
| PlanHistory.RunLeavesOthers | scripts/set-release-trigger.js:76-143 | A plan that it does not change has the same status and the same versions in force at every time. |
| PlanHistory.PastApplies | scripts/explain-commission.js:136-137 | Before the hand-over the same versions with the same configurations are in force. |
| PlanHistory.FutureApplies | scripts/set-release-trigger.js:86-129 | From the hand-over on what applies of the plan is the new version, with the outgoing configuration and the trigger set, and whatever else of it applied but the outgoing one, started or not. |
| PlanHistory.OtherPlansApply | scripts/set-release-trigger.js:126-139 | Nothing changes for any other plan at any time. |
| PlanHistory.RunTimeline | scripts/set-release-trigger.js:76-143 | For each row of a run: before its own moment, or always if it is skipped or refused, its plan's versions apply as before; from then on the new version does, with the next id in order, and the others that did but the outgoing one; the plan ends active if it was or was changed. |
| PlanResolution.OneChoice | shared/src/commissionStore.js:77-96 | A deal resolves to one version of one plan at most. |
| PlanResolution.SomeChoice | shared/src/commissionStore.js:60-115 | A deal that an active plan with a version in force matches resolves to something. |
| PlanResolution.ResolvesToBestOffer | shared/src/commissionStore.js:60-96 | A deal resolves to a version if and only if it is active, has started and has not ended, its plan is active and matches, and any other such version is of a less specific plan, or of one as specific and started earlier, or at the same time with a lower id. |
| PlanResolution.PlansStandForDeals | shared/src/commissionStore.js:77-96 | All deals whose plans differ in precedence are kept, up to the trigger, between any two tables if and only if the deals that one plan alone matches are. |
| PlanResolution.PairsStandForDeals | shared/src/commissionStore.js:77-96 | All deals whatever are kept if and only if the deals that two plans match with one precedence are. |
| PlanPromise.PastIsKeptExactly | scripts/set-release-trigger.js:98-142 | What a plan that is handed over gives earlier deals is unchanged if and only if it was active already or had nothing in force before. |
| PlanPromise.GivesAfter | scripts/set-release-trigger.js:98-142 | From the hand-over on a plan by itself gives the new version, unless another of its versions in force starts later. |
| PlanPromise.PlanIsKeptExactly | scripts/set-release-trigger.js:98-142 | At any one time the plan by itself gives the configuration it gave, up to the trigger, if and only if, for an earlier time, it was active or had nothing in force, and, for a later one, it was active and, until the outgoing version's start, has another in force that starts after the hand-over or has the same terms. |
| PlanRestated.RunKeepsPastExactly | scripts/set-release-trigger.js:54-147 | Every deal before a run resolves to the same version after it if and only if every plan that the run changes was active or had nothing in force. |
| PlanRestated.RunKeepsAt | scripts/set-release-trigger.js:76-143 | At any one time all deals whose plans differ in precedence are kept, up to the trigger, if and only if each changed plan is. |
| PlanRestated.RunRestatesExactly | scripts/set-release-trigger.js:54-147 | At all times they are if and only if every plan that the run changes was active and, until its outgoing version's start, has another in force that starts after the hand-over or has the same terms. |
| PlanRestated.StartedIsSafe | scripts/set-release-trigger.js:61-68 | When every open version has started, that condition is that the changed plans were active. |
| PlanRestated.PairExactly | shared/src/commissionStore.js:95-96 | Two plans of one precedence, each kept by itself, are kept together if and only if the newer of the two stays the newer or both have the same terms. |
| PlanRestated.TiedRowsExactly | scripts/set-release-trigger.js:76-143 | Of two such plans that the run changes the later in its list ends as the newer, so deals keep their terms if and only if it was the newer before or both have the same terms. |
| PlanRestated.TiedWithOtherExactly | scripts/set-release-trigger.js:76-143 | When it changes one of the two, deals keep their terms if and only if that was the newer before, or the other starts after the hand-over, or both have the same terms. |
| PlanRestated.ArchivedPlanRevives | services/finance-service/src/controllers/commissionPlanController.js:492-508 | For a plan archived with its version open a run restates earlier deals and later ones. |
| PlanRestated.ScheduledAheadMovesForward | services/finance-service/src/controllers/commissionPlanController.js:356-376 | For an active plan with a version activated ahead of time a run before its start moves deals in between from the terms in force to the coming ones. |
| PlanRestated.ScheduledAheadOverlaps | services/finance-service/src/controllers/commissionPlanController.js:356-376 | And it puts two versions of the plan in force together. |
| PlanRestated.SharedScopeFlips | services/finance-service/src/controllers/commissionPlanController.js:438-479 | For two plans assigned to one property a run that changes the older moves deals to it from the newer. |
| PlanHistory.PlanTables.EndVersion | scripts/set-release-trigger.js:126-129 | Sets the end of the version with that id and leaves every other row alone. |
| PlanHistory.PlanTables.HandOverTo | scripts/set-release-trigger.js:98-139 | Insert, close and repoint, in the source's order, amount to one hand-over. |
| PlanHistory.PlanTables.SetReleaseTrigger | scripts/set-release-trigger.js:54-147 | The loop with its skips, refusals and dry run leaves the tables as `Run` says. |
| Boot.GateOpensAfterMigrations | server.js:166-173 | In any interleaving a request passes a process's gate only when each of its services has bootstrapped exactly once, in list order, and none has failed. |
| Boot.HooksRunAfterMigrations | server.js:248-256 | A ready hook, too, runs only after every service has bootstrapped once, in order. |
| Boot.ReadyStaysReady | server.js:98 | A process that is ready stays so, and refuses no request from then on. |
| Boot.FailedNeverOpens | server.js:263-271 | A process one of whose bootstraps fails never becomes ready. |
| Boot.FailedNeverServes | server.js:166-173 | No request passes its gate, before the failure or after it. |
| Boot.OverlapNeedsNoLock | platform/boot.js:106-143 | Two processes migrate at the same time only if one of them went on without the lock. |
| Boot.OverlapWithoutLock | shared/src/bootLock.js:89-106 | When one does, both can be inside a bootstrap at once. |
| Boot.LockIsGivenBack | shared/src/bootLock.js:60-132 | Only a process that took the lock and is still migrating holds it, and a process that starts while nobody holds it can take it. |
| Boot.HealthTellsProgress | platform/boot.js:75-104 | While a service bootstraps, the progress names it and the number of services through; afterwards it names none and counts all. |
| BootServer.EachRunsItsOwn | platform/boot.js:67-144 | In any interleaving the events of one process are a run of its own that ends in its present state. |
| BootServer.Server.Gate | server.js:166-173 | Lets the request through if and only if `ready`, changing nothing. |
| BootServer.Server.BootstrapService | platform/boot.js:77-102 | One round: reports progress, lets requests be refused meanwhile, and either adds the service to those done or ends the process. |
| BootServer.Server.BootstrapServices | platform/boot.js:75-144 | Returns true if and only if every bootstrap works; otherwise the services before the first failure, and no others, are done. Requests meanwhile are all refused. |
| BootServer.Server.RunReadyHooks | platform/boot.js:146-157 | Calls the hooks that exist, in list order, and changes nothing else. |
| BootServer.HooksInOrder | platform/boot.js:146-157 | These are the hooks of just the services that have one, each once, in increasing order. |
| BootServer.Server.Start | server.js:192-275 | The gate opens if and only if every bootstrap works, the hooks come right after, and nothing has passed before. |
| BatchCopy.NumberedStores | scripts/migrate-mysql-to-postgres.js:121-135 | Parameters numbered row by row without a gap, with the values in the order of the cells, store exactly the rows the cells came from. |
| BatchCopy.BuildInsert | scripts/migrate-mysql-to-postgres.js:119-135 | The placeholder of row i, column j is i times the number of columns plus j plus 1, and the statement stores the converted cells of the chunk, row for row. |
| BatchCopy.CopyTable | scripts/migrate-mysql-to-postgres.js:112-136 | The statements store every row once, in order, each cell as its own conversion, in batches of 500 but for the last. |
| BatchCells.CellsInPlace | scripts/migrate-mysql-to-postgres.js:112-136 | Row r of the table is row r % 500 of statement r / 500; its column j has the parameter (r % 500) times the number of columns plus j plus 1, and the value there is the cell, converted. |
| BatchCells.CopiedCell | scripts/migrate-mysql-to-postgres.js:169-181 | Nothing stays nothing; in a boolean column 1, the text 1 and true become true and all else false; in a JSON column a text stays and all else is serialised; every other value stays. |
| BatchCopy.CopyIsStable | scripts/migrate-mysql-to-postgres.js:169-181 | Reading the stored rows back and copying them again stores the same: nulls stay null, and booleans, JSON texts and other values are converted once and for all. |

## Left out

Of the analyser:

- `.then` with two arguments, helpers that take a transaction positionally, manual `commit`, labels, and patterns or default values in catch parameters. A function that is stored and called later is analysed as a body of its own (`SilentReportIsSoundBelow`).
- The model acts on one current transaction: statements inside the callback of `transaction()` or `withSavepoint()` use that boundary's transaction. A call that is no boundary passes on the failures of its callbacks. A rollback takes effect even if it throws. The test `!transaction.finished` is decided by the state.
- `switch`, which the tree has no node for: a break inside one, in a handler, would count as leaving the handler.
- Parsing, file walking and the parse-error finding.

Of the scanner:

- The cut of an UPDATE statement down to its SET text, `stripSqlComments`, query extraction, the other rules. Each is a pattern match without an algorithm of its own.
- Double-quoted and backslash-escaped string literals of MySQL, dollar-quoted ones of Postgres, names of other than ASCII letters, and qualified target columns, which Postgres refuses. A name outside literals that is another table's column, or a function's with white space before its parenthesis, counts as read.
- Lone surrogates: a text is a sequence of Unicode characters here, of UTF-16 code units there.

Of the reconciliation:

- Rounding of `amount * 100` in floating point: amounts are integers in minor units, times integers in milliseconds.
- The sort itself, which is built in; its result is unique (`OldestFirstIsUnique`).
- CashBookRun.ExactCountPerClass: says nothing of a class in which a payout without a company and a row of company 0 contend, where it can fail (`CompanyZeroContends`).

Of the hand-over:

- Runs that race each other. `validatePlan` is an arbitrary predicate on the configuration. A deal is the plans that match it with their precedence; how a plan's scope and company come to match is not modelled.

Of the boot protocol:

- The stall watchdog, real time and timeouts, the bodies of responses, and a holder that loses its lock while it is still migrating: the lock is taken as exclusive.

Of the copy:

- Database access, the constraints and sequences around the copy, Postgres's limit on parameters of one statement, and the quoting of names. The JSON serialiser is a parameter.

Otherwise: the registry, dispatcher, proxy and session middleware, which are short branches over other code; the verify, diagnose, seed and print scripts; the commission, ledger and allocation engines.
