# A verified model of the hpc-bridge evaluation harness

hpc-bridge lets an AI agent (the *operator*) drive an HPC cluster. Its harness runs an operator, reconstructs what
it did, grades the run, plays the human user, and shares one cluster among many runs. This project models the
harness code that carries real algorithms and protocols, in the form that code has (loops, tables, buffers and
objects stay such; the rest are functions), and proves what that code is for.

| file | models |
|---|---|
| `StableSort.dfy`, `TextLines.dfy`, `Common.dfy` | Python's stable `sorted`, its `splitlines` and white space, and a few small types and functions, shared by the other files |
| `Alignment.dfy`, `BuildTrace.dfy` | the order-preserving alignment of the operator's own record with the server's journal, and the merge of the two |
| `TextPlacement.dfy` | where the operator's texts stand among its calls, and what a grader reads as said after a call |
| `Pairwise.dfy`, `PairwiseOrder.dfy` | the greedy covering-array generator, its repair search included, and the order it tries seeds in |
| `ShellLexer.dfy`, `ShellReading.dfy`, `ShellIndependence.dfy`, `ShellSkeleton.dfy` | the shell lexer behind the "no hand-made scheduler job" graders, and what it leaves of each character |
| `ToolCalls.dfy`, `Rejection.dfy`, `EndlessWait.dfy` | the trace-lifecycle graders: terms, refused starts, starts to release, endless waits |
| `SimPolicy.dfy`, `HumanSim.dfy` | the simulated user's turn policy, the object that keeps it, the responder and the bounded session |
| `JsonString.dfy`, `JsonText.dfy` | the reader of a JSON string value in a text that may be cut off, and of what a JSON writer writes |
| `Stamping.dfy`, `Readers.dfy` | the user's answers put into a trace in place, and the readers that place them |
| `Sweep.dfy` | the peak of work out at once |
| `NodeActions.dfy` | the request, answer and undo protocol between the jail and the host |
| `NodeGate.dfy` | the admission of compute cells, any number of suites at once |
| `Template.dfy`, `SeedLines.dfy`, `SeedEdit.dfy` | the targeted edit of a seed file's text, and the replacement template a version is read as |
| `SeedReading.dfy` | the edited entry as a reader of the seed file takes it |
| `SeedAgain.dfy`, `SeedTwice.dfy`, `SeedBroken.dfy`, `SeedCases.dfy` | recording the same proof twice |

How the parts connect: each method is proved against a specification function, or against the property itself; the
lemmas then say what that function means. `Alignment.Align` is proved against every order-preserving matching, and
`BuildTrace.Build` against the conservation of events and rows; `ShellSkeleton.ShellSkeleton`, which rewrites a
buffer, equals the step-by-step lexer of `ShellLexer`, about which the independence theorems are proved;
`EndlessWait.Count` equals a fold, and the fold a reading of the trace by runs; `HumanSim.HumanSim` refines
`SimPolicy`; `NodeActions.Server` and the interleaved system share `ExitCode`, `Effect` and `Booked`.

## Where the code does less than its words

Each of these has a lemma at a concrete input, and where the code does meet the property, a theorem saying when.

- The alignment is described as the one "matching the most calls" (`cli_runner.py:341-343`). It maximises the score,
  two points for equal arguments and one for the same tool, and can return fewer pairs than there are:
  `Alignment.MostPointsNotMostCalls`. No order-preserving
  alignment has more pairs than it by more than it has more exact ones, so it does match the most calls when all pairs
  that score, score alike (`Alignment.MostCallsWhenAlike`); in any case it matches at least half as many as any.
- "A pair is coverable exactly when no constraint names it" (`pairwise.py:15-16`): two constraints can block a third
  pair together, `Pairwise.UnnamedYetUncoverable`. `Pairwise.Generate` says when it gives up, and that without a
  whole-row rule it never does when each factor has a level no constraint names. Its error says "no row can cover the
  pairs left" (`pairwise.py:157`); it means that no tried seed makes a row, and there can be one
  (`Pairwise.GivesUpTooSoon`).
- A quoted character is never a boundary afterwards, exactly unless it is a control character one, the lexer's own
  marker for the `)` of a case pattern (`ShellLexer.QuotedLeft`, `ShellLexer.QuotedMarkerCuts`).
- Exchanges stamped after the same call come out in the reverse of the order they came in, exactly when the first of
  them is not put in past the end (`Stamping.EqualIndicesOrder`); and a reply made before the first call is stamped
  after that call (`Readers.ReplySits`, `Readers.EarlyReplyIsLate`).
- The Claude transcript's two readers count calls alike exactly when sidechains are included or use no tool
  (`Readers.CountsAgree`, `Readers.SidechainMiscounts`).
- The sweep counts an interval that ends before it starts as cover taken away, and a re-used task name makes one from
  calls whose own stamps are in order (`Sweep.InvertedHides`, `Sweep.ReusedTaskHides`). The peak is the most work out at
  once exactly when no more commands than tasks ran at once, or some instant with the most commands over it has no
  such interval over it (`Sweep.PeakIsMost`).
- A signal between a node action and its booking loses the undo (`NodeActions.UnbookedIsLost`). A fully successful
  undo restores the untouched world exactly unless the server stopped there, after a command that took something away
  and that nothing booked earlier gives back (`NodeActions.StopRestores`). Two clients that count the log's lines at
  once get the same number (`NodeActions.TwoClientsCollide`).
- A launch is recorded as one node whatever the cell needs, so the gate keeps cells of one size from oversubscribing
  the idle nodes exactly when that size is at most one (`NodeGate.BothLaunch`, `NodeGate.SafeForOneNodeOnly`).
- Recording the same proof twice is recording it once exactly when four things hold of the entry, its old block aside:
  no block's key before the date; nothing of a block's depth after it, before the next key; a new block that is read
  back whole; and a version that is, or no value to write it over (`SeedTwice.TwiceIsOnce`). An entry fails each:
  `SeedCases.TwoBlocks`, `SeedCases.DeepAfterDate`, `SeedCases.BreakInValue`, `SeedCases.SpacedVersion` and
  `SeedCases.ReferenceInVersion`. That theorem is for versions that break no line they are written into. For any version,
  read of the lines the first text has and where the first two hold of them and no break starts an entry or a date, it
  is the last two of the four (`SeedBroken.BrokenTwiceIsOnce`); `SeedCases.BreakInVersion` and `SeedCases.BreakInVersionRepeats` are one of
  each kind.

## Assumptions

Equality of coerced JSON values (`_loose`), the regexes that read prose, lines and shell words, the language model's
output, clocks, what the authenticator shows, a command's exit code and a node probe are inputs. In the node-action
protocol a command's exit code is zero exactly when it took effect, except that a QOS name with a newline at its end,
which the source's pattern lets through (`node_actions.py:79`), is retired by no command; and the login hosts are neither the controller
nor the accounting service. In the node gate's runs every probe is exact, a launched block takes its nodes within
the window, and only these cells take nodes.

## Model

| member | source | states |
|---|---|---|
| StableSort.SortPermutes | agentic/harness/cli_runner.py:386 | sorting neither loses nor adds an element |
| StableSort.SortSorts | agentic/harness/cli_runner.py:386 | the result is in order, for every total preorder used as a key |
| StableSort.SortStable | agentic/harness/hermes_trace.py:177 | elements that tie keep the order they were given in |
| StableSort.FilterConcat | agentic/harness/cli_runner.py:384-385 | filtering two lists is filtering their concatenation, order kept |
| StableSort.FilterCounts | agentic/harness/hermes_trace.py:176 | filtering keeps every occurrence of what passes, and of nothing else |
| Alignment.BestBounds | agentic/harness/cli_runner.py:351-354 | no order-preserving matching gains more from a position on than the table's entry there |
| Alignment.FillTable | agentic/harness/cli_runner.py:351-354 | the table filled in place holds the best remaining score at every position |
| Alignment.Walk | agentic/harness/cli_runner.py:355-367 | the traceback returns a strictly increasing matching of nonzero pairs worth exactly the first entry |
| Alignment.ScoreMeans | agentic/harness/cli_runner.py:346-349 | a pair scores two exactly when the tool and the arguments agree, nothing exactly when the tool differs or the event is a refused one |
| Alignment.Align | agentic/harness/cli_runner.py:340-367 | the alignment is worth at least as much as every order-preserving matching, and has at least half as many pairs as any; as many, when all pairs that score, score alike |
| Alignment.WorthCounts | agentic/harness/cli_runner.py:346-349 | an alignment is worth between one and two points a pair |
| Alignment.ExactCounts | agentic/harness/cli_runner.py:346-349 | what an alignment is worth beyond its pairs is the number of its exact ones |
| Alignment.MostCallsWhenAlike | agentic/harness/cli_runner.py:340-349 | no matching exceeds the alignment in pairs by more than the alignment exceeds it in exact ones; so it matches the most calls when all pairs that score, score alike |
| Alignment.MostPointsNotMostCalls | agentic/harness/cli_runner.py:340-349 | two exact matches beat three same-tool ones: on this input every alignment worth the most has fewer pairs than another |
| BuildTrace.FirstStart | agentic/harness/cli_runner.py:387 | the run's zero is the least start of any row, and missing only when no row has one |
| BuildTrace.StartedIs | agentic/harness/cli_runner.py:384-386 | the tool rows and no others; none without a start time before one with one; then by start time, and then by number |
| BuildTrace.SortedIsInOrder | agentic/harness/cli_runner.py:386 | rows sorted by the merge's key are in that order of their start times and numbers |
| BuildTrace.TiesKeepWrittenOrder | agentic/harness/cli_runner.py:386 | rows with the same start and number are merged in the order the journal was written |
| BuildTrace.HpcbAt | agentic/harness/cli_runner.py:388 | the positions of all the hpc-bridge calls and no others, increasing |
| BuildTrace.LiftedPairs | agentic/harness/cli_runner.py:389 | pairs of hpc-bridge positions become pairs of events: still increasing, still of the row's own tool, never of a refused call |
| BuildTrace.AlignEvents | agentic/harness/cli_runner.py:388-389 | the alignment of the hpc-bridge calls, as pairs of events and rows |
| BuildTrace.PickConserves | agentic/harness/cli_runner.py:407-408 | the used rows and the left-over ones are the journal's rows, each once |
| BuildTrace.MergeEvents | agentic/harness/cli_runner.py:390-406 | call k is event k; the matched rows come in journal order; the counters are those of the calls |
| BuildTrace.TalliesCount | agentic/harness/cli_runner.py:391-406 | each counter is the number of calls of its kind, and together they account for every call |
| BuildTrace.CallsExplain | agentic/harness/cli_runner.py:306-316 | a matched call carries its own row, timed from the first start: never before it, and lasting the row's milliseconds |
| BuildTrace.Conserves | agentic/harness/cli_runner.py:407-410 | the rows of the matched calls and of the appended ones are all the tool rows, each in exactly one call |
| BuildTrace.Build | agentic/harness/cli_runner.py:370-414 | every event is one call, in order; every tool row is in exactly one call; the matched calls follow an alignment worth the most; the rows of the matched calls, and those of the rest, are in order of their start times and numbers; the trace's own events are the rows that are no call; the counters add up; texts are placed only when there is one position each |
| TextPlacement.ReadStream | agentic/harness/cli_runner.py:518-553 | each text stands after the calls the stream listed before it; positions never go back and never pass the calls (the second event stream, at 562-590, counts alike) |
| TextPlacement.ReadHops | agentic/harness/cli_runner.py:483-515 | all the texts, in order; a response's stand after every earlier response's calls and before its own (the message log, at 621-672, places alike) |
| TextPlacement.StreamIsPlaced | agentic/harness/cli_runner.py:562-590 | the positions of an event stream never go back and never pass the calls |
| TextPlacement.TextSits | agentic/harness/cli_runner.py:562-590 | a text's position is the number of different calls that have an item before it |
| TextPlacement.HopSits | agentic/harness/cli_runner.py:483-515 | a response's texts and calls stand together in the whole, the texts placed right before its first call |
| TextPlacement.HopsArePlaced | agentic/harness/cli_runner.py:593-671 | nor do those of the message log's rows |
| TextPlacement.GreedyFinds | agentic/harness/cli_runner.py:196-208 | what the search finds is an order-preserving embedding into texts of the same words |
| TextPlacement.GreedyIsEarliest | agentic/harness/cli_runner.py:196-208 | whenever an embedding exists the search succeeds, and no embedding is anywhere earlier |
| TextPlacement.GreedyDecides | agentic/harness/cli_runner.py:196-208 | the search finds positions exactly when an embedding exists |
| TextPlacement.PlacedByMatch | agentic/harness/cli_runner.py:196-208 | the loop returns the relay's positions of that embedding, or none |
| TextPlacement.MatchIsPlaced | agentic/harness/cli_runner.py:196-208 | positions that never go back in the relay's order do not in the found one |
| TextPlacement.SaidAfterHolds | agentic/harness/invariants.py:977-990 | what was said after a call is exactly the texts placed after it; every text, when they are not placed |
| TextPlacement.SaidAfterIsTail | agentic/harness/invariants.py:977-990 | with placed texts, what was said after a call is a tail of what was said |
| TextPlacement.SaidAfterShrinks | agentic/harness/invariants.py:977-990 | the tails shrink as the call gets later, and nothing is said after the last one |
| Pairwise.AllPairs | agentic/harness/pairwise.py:53-63 | what must be covered: exactly the pairs of levels of two factors that no constraint names |
| Pairwise.ForbiddenPairs | agentic/harness/pairwise.py:48-50 | exactly the pairs of levels a constraint names, the earlier factor's first |
| Pairwise.AllowedMeans | agentic/harness/pairwise.py:107-109 | a row is allowed exactly when it holds no forbidden pair |
| Pairwise.FirstBest | agentic/harness/pairwise.py:90-97 | the choice gains the most of the admissible elements, and is none only when there is none |
| Pairwise.FirstBestIsFirst | agentic/harness/pairwise.py:95-97 | every admissible element before the choice gains strictly less: ties go to the earlier |
| Pairwise.PickBest | agentic/harness/pairwise.py:90-97 | the loop over candidates makes that choice |
| Pairwise.FilledIsPartial | agentic/harness/pairwise.py:87-101 | the factors filled so far have levels of theirs, no forbidden pair among them, and the seed in place |
| PairwiseOrder.LevelAdds | agentic/harness/pairwise.py:94-97 | what a level is picked for is how many uncovered pairs it adds to those its row covers |
| Pairwise.OneChangeMends | agentic/harness/pairwise.py:116-123 | the one-change candidates are exactly the rows at distance one with the seed's factors untouched |
| Pairwise.TwoChangesMend | agentic/harness/pairwise.py:116-123 | the two-change candidates are exactly those at distance two |
| Pairwise.MendedIsBest | agentic/harness/pairwise.py:112-132 | no mend is found exactly when none works at distance one or two; otherwise it is at the smaller distance and covers the most uncovered pairs there |
| Pairwise.MendKeepsSeed | agentic/harness/pairwise.py:116-123 | a mended row still gives levels only, and still holds its seed |
| Pairwise.Mend | agentic/harness/pairwise.py:112-132 | the search over widths one and two computes that mend |
| Pairwise.Complete | agentic/harness/pairwise.py:85-104 | the loop that fills a row, with its early stop and its mend, computes the completed row |
| Pairwise.CompletedIsNearest | agentic/harness/pairwise.py:85-132 | the row made is the greedy one when it keeps the rule, else its best mend at the smaller distance, and none when none works at distance one or two |
| Pairwise.CompletedIsGood | agentic/harness/pairwise.py:85-104 | a completed row has one level per factor, no forbidden pair, keeps the whole-row rule and holds its seed |
| Pairwise.UncoveredSeeds | agentic/harness/pairwise.py:145-148 | the tried seeds are uncovered pairs, the first ones among them, and there is one while any pair is left |
| PairwiseOrder.SeedsInOrder | agentic/harness/pairwise.py:76-79 | seeds are tried in factor, then level, order, each once, for factors that list a level once |
| Pairwise.FirstSeeds | agentic/harness/pairwise.py:148 | the first seeds of a round: as many as asked for, one at least |
| Pairwise.NothingTriedMakes | agentic/harness/pairwise.py:146-157 | a round without a row: no first seed makes one, nor, under a whole-row rule, any pair left |
| Pairwise.TrySeed | agentic/harness/pairwise.py:151-154 | a row made from an uncovered seed covers at least one uncovered pair |
| Pairwise.BestRow | agentic/harness/pairwise.py:143-157 | a round finds a row exactly when a tried seed makes one; it is the best the first seeds make, the earlier on a tie, and past those the first that any makes |
| Pairwise.RoundShrinks | agentic/harness/pairwise.py:158-159 | every round's row is a good one and leaves strictly fewer pairs |
| Pairwise.FreeLevelsMake | agentic/harness/pairwise.py:85-101 | with a level per factor that no constraint names, and no whole-row rule, some tried seed always makes a row |
| Pairwise.Cover | agentic/harness/pairwise.py:142-160 | the rows and the uncovered pairs together never exceed the pairs; a stop leaves only seeds that make no row |
| Pairwise.Generate | agentic/harness/pairwise.py:135-160 | a returned table covers every coverable pair, breaks nothing and has at most one row a pair; it fails exactly on a bad constraint, or when good rows leave pairs of which none of the first makes a row and, under a whole-row rule, none at all does |
| Pairwise.UncoveredPairs | agentic/harness/pairwise.py:163-168 | exactly the coverable pairs no row of the table holds |
| Pairwise.UnnamedYetUncoverable | agentic/harness/pairwise.py:15-17 | a pair no constraint names that no allowed row holds |
| Pairwise.GivesUpTooSoon | agentic/harness/pairwise.py:156-157 | a first round of one seed that makes no row, and a good row that covers that seed |
| ShellLexer.Step | agentic/harness/invariants.py:334-402 | every step goes on, stays within the command, and leaves as many characters as it reads |
| ShellLexer.Lex | agentic/harness/invariants.py:320-403 | the lexer ends on every string and preserves length |
| ShellLexer.LexSplits | agentic/harness/invariants.py:334-402 | what is left is what the steps so far left, and then what the rest leaves |
| ShellLexer.QuotedLeft | agentic/harness/invariants.py:336-347 | no separator and no backtick is left from quoted text; a boundary is, exactly when the quoted character is the lexer's own case marker |
| ShellLexer.QuotedMarkerCuts | agentic/harness/invariants.py:336-342 | a quoted control character one is a boundary afterwards |
| ShellReading.EscapedLeft | agentic/harness/invariants.py:348-352 | an escaped character and its backslash are left as blanks or a letter: never a boundary, a separator, a quote or a backtick |
| ShellReading.QuotedIsLeft | agentic/harness/invariants.py:334-347 | quoted text is left as it is, but for separators, backticks and the closing quote |
| ShellReading.BareLeft | agentic/harness/invariants.py:357-402 | bare text is left as it is, but for quotes, backticks, which become parentheses, and a `)` that closes nothing |
| ShellReading.BareCuts | agentic/harness/invariants.py:306 | a bare `;`, pipe, newline, opening parenthesis or backtick, and a `)` that closes nothing cut the command line; no other character but `&` does |
| ShellReading.HiddenNeverCuts | agentic/harness/invariants.py:334-352 | an escaped character never cuts it, a quoted one only when it is the lexer's own case marker |
| ShellReading.BlankedLeft | agentic/harness/invariants.py:353-400 | comments, arithmetic and here-document bodies are blanked but for their newlines |
| ShellReading.SingleQuoteReaches | agentic/harness/invariants.py:334-340 | a single quote reaches to the next one, and the text after it is read as before it |
| ShellReading.DoubleQuoteReaches | agentic/harness/invariants.py:341-347 | a double quote does, with no escape or substitution between |
| ShellReading.SubstitutionReturns | agentic/harness/invariants.py:357-379 | a command substitution is read bare, and after its parenthesis the text is read as before it |
| ShellReading.CloseParenBalances | agentic/harness/invariants.py:310-317 | an arithmetic expansion ends at the first place where its parentheses balance, or at the end |
| ShellReading.HeredocReads | agentic/harness/invariants.py:305 | a here-document's operator, with or without dash, blanks, backslash and quotes, gives its word as the delimiter |
| ShellReading.HeredocIsLaid | agentic/harness/invariants.py:305 | nothing else is read as one |
| ShellReading.BodyEndIs | agentic/harness/invariants.py:389-400 | a here-document's body ends past the first line that is its delimiter, or at the end when none is |
| ShellReading.StripTabsIs | agentic/harness/invariants.py:398 | leading tabs and nothing else are ignored |
| ShellIndependence.AfterLocal | agentic/harness/invariants.py:334-402 | commands that agree through a `#` or newline put the lexer in the same place before it |
| ShellIndependence.LexFrom | agentic/harness/invariants.py:334-402 | commands that agree from a newline on are lexed alike from there |
| ShellIndependence.CommentTextIsBlank | agentic/harness/invariants.py:377-380 | the text of a comment leaves no trace: only its length counts |
| ShellIndependence.BodySame | agentic/harness/invariants.py:387-396 | a here-document ends where it did when the same lines of its own body end it |
| ShellIndependence.BodiesSame | agentic/harness/invariants.py:387-396 | so do all that wait for their bodies |
| ShellIndependence.BodyTextIsBlank | agentic/harness/invariants.py:385-398 | the text of here-document bodies leaves no trace: only length, newlines and where the bodies end count |
| ShellSkeleton.BlankInPlace | agentic/harness/invariants.py:327-330 | the range is blanked but for its newlines, the rest of the buffer stays |
| ShellSkeleton.SkipBodies | agentic/harness/invariants.py:387-398 | the nested loops end past the last delimiter line |
| ShellSkeleton.StepInPlace | agentic/harness/invariants.py:334-402 | the writes to the buffer are the step's, and the cells not read yet still hold the command |
| ShellSkeleton.ShellSkeleton | agentic/harness/invariants.py:320-411 | the buffer rewritten in place is the skeleton: the lexed command with function bodies blanked |
| ShellSkeleton.Skeleton | agentic/harness/invariants.py:403-411 | the skeleton is as long as the command |
| ShellSkeleton.CloseBraceBalances | agentic/harness/invariants.py:405-409 | a body ends at the first place where its braces balance, or at the end |
| ShellSkeleton.BodyIsBlanked | agentic/harness/invariants.py:404-410 | blanking a function's body changes nothing outside it |
| ShellSkeleton.PiecesMean | agentic/harness/invariants.py:457-462 | the pieces are exactly the stretches between boundaries, less what a case pattern's marker closes |
| ShellSkeleton.SplitPieces | agentic/harness/invariants.py:457-462 | the loop over the boundaries collects those pieces |
| ShellSkeleton.SubmitsMean | agentic/harness/invariants.py:451-519 | a scheduler command is found exactly when the command runs it, or a script nested in it at most four deep does |
| ShellSkeleton.SubmitsSame | agentic/harness/invariants.py:463-519 | the commands found depend on the command itself only through the scripts nested shells read |
| ShellSkeleton.EditedTextSubmitsTheSame | agentic/harness/invariants.py:451-519 | editing a comment or a here-document body changes no skeleton, and no scheduler command found unless a nested shell reads its script from there |
| ToolCalls.ComputeAskedTerms | agentic/harness/invariants.py:213-225 | the loop computes the running fold of the terms |
| ToolCalls.TermIsLastNamed | agentic/harness/invariants.py:213-225 | a term is the last one a compute request named since the last re-binding connect, and empty exactly when none was |
| ToolCalls.TermOfPrefix | agentic/harness/invariants.py:213-225 | the terms at a call do not depend on what follows it |
| Rejection.VoidedByRejection | agentic/harness/invariants.py:228-260 | the forward scan computes the verdict on a start |
| Rejection.FirstSayDecides | agentic/harness/invariants.py:243-260 | a verdict is that of the first later answer that says anything, and open exactly when none does |
| Rejection.OpenSaysNothing | agentic/harness/invariants.py:245-259 | a call decides nothing exactly when it leaves the start open, and voids it exactly when it refuses its terms |
| Rejection.VoidedMeans | agentic/harness/invariants.py:228-260 | a start is voided exactly when a later answer refuses its very terms, and every call between leaves it open: no stop, re-bind or other refusal, the same request still provisioning, other answers about the block still starting |
| Rejection.BilledStartIs | agentic/harness/invariants.py:157-192 | which answers make a confirmed endpoint request or batch a billed start |
| Rejection.VerdictIsStable | agentic/harness/invariants.py:228-260 | once an answer decides, no extension of the run changes the verdict |
| Rejection.StartsToRelease | agentic/harness/invariants.py:157-192 | the starts, in order, that requested a block and were not voided |
| Rejection.ReleaseOnlyShrinks | agentic/harness/invariants.py:263-268 | a start can only leave the list as the run goes on, and leaves exactly when nothing had decided on it and a later answer voids it |
| EndlessWait.TermsAreLastNamed | agentic/harness/invariants.py:2135-2151 | a term is the one a compute request named last since the last connect with new details, empty when none did since; without either, what the first marked answer's block was asked on |
| EndlessWait.FreshMeans | agentic/harness/invariants.py:2141-2153 | an attempt is a fresh one exactly at a connect with new details, or a compute request that names another partition or account than those in force |
| EndlessWait.UnusedNext | agentic/harness/invariants.py:2140-2158 | the flag says exactly whether the run of unchanged terms has a refusal or stop no confirm has used up |
| EndlessWait.RunNext | agentic/harness/invariants.py:2140-2158 | a run's counts grow by the call's own, and start again when the terms change |
| EndlessWait.CountersMean | agentic/harness/invariants.py:2130-2158 | the one-pass counters are the counts of the current run |
| EndlessWait.WorstIsGreatest | agentic/harness/invariants.py:2130-2158 | the worst counts are attained by some run and exceeded by none |
| EndlessWait.FirstHit | agentic/harness/invariants.py:2131-2134 | the first marked answer about the block |
| EndlessWait.Count | agentic/harness/invariants.py:2134-2158 | the loop computes the counters |
| EndlessWait.GreatestDecides | agentic/harness/invariants.py:2159 | the worst counts are within the caps exactly when every run's are |
| EndlessWait.Grade | agentic/harness/invariants.py:2118-2173 | the run passes exactly when no run of unchanged terms has too many marked answers or resubmissions, the terms being the last named ones |
| Common.TailEnds | agentic/harness/human_sim.py:430 | the last words of a turn are a suffix of it, of the length kept or the whole |
| SimPolicy.MenuAdvancesOnce | agentic/harness/human_sim.py:371-381 | a menu call advances the script one stage at most, and after the current code only for a question that says it was refused |
| SimPolicy.MenuAnswersFirst | agentic/harness/human_sim.py:376-381 | the script answers the first question of a menu that it answers at all |
| SimPolicy.MenuAnswers | agentic/harness/human_sim.py:398-405 | a menu's answers are the script's, and otherwise the model's, to the questions asked and no others |
| SimPolicy.StagesSay | agentic/harness/human_sim.py:342-369 | which stage of the script offers the password, has no entry, gives the stale code or the current one |
| SimPolicy.StagesKeepCode | agentic/harness/human_sim.py:342-369 | before the stage that gives it, a reply does not depend on the code |
| SimPolicy.StandingMeans | agentic/harness/human_sim.py:485-505 | a decline stands exactly when some exchange refuses to spend and no later one approves |
| SimPolicy.MenuReads | agentic/harness/human_sim.py:499-504 | of a menu, the answer to its last spend question says whether it refuses; without one it says nothing |
| SimPolicy.ReplyIsRecorded | agentic/harness/human_sim.py:461-482 | within its budget a reply is sent, and recorded as the kind it was given when that is a known one and otherwise as an answer; past it the user concludes |
| SimPolicy.NudgeIsGuarded | agentic/harness/human_sim.py:514-522 | a nudge is sent exactly when no decline stands and its budget is not spent; otherwise the user concludes |
| SimPolicy.OtherMoves | agentic/harness/human_sim.py:461-482 | the user concludes when the model says so; words not understood, or empty, are answered by the neutral reply, within the answer budget |
| SimPolicy.ScriptIsSent | agentic/harness/human_sim.py:422-440 | the script's reply is sent whatever the budgets, recorded as an answer, and counted apart |
| SimPolicy.RefusalStands | agentic/harness/human_sim.py:422-522 | a refusal to spend that is sent stands, and a nudge right after it concludes |
| SimPolicy.ParsedIsProper | agentic/harness/human_sim.py:461-482 | whatever the model says, the move is a message of a known kind, a nudge, or the end |
| SimPolicy.AnsweredKeeps | agentic/harness/human_sim.py:371-406 | a menu answer keeps the budgets and the guard |
| SimPolicy.SettledKeeps | agentic/harness/human_sim.py:507-534 | the guards keep every budget, the counters count the dialogue, and a move that does not conclude spends one of a budget |
| SimPolicy.MovedKeeps | agentic/harness/human_sim.py:422-459 | a whole turn does |
| SimPolicy.NoNudgeAfterDecline | agentic/harness/human_sim.py:485-518 | between a refusal to spend and a later nudge some exchange approved |
| HumanSim.HumanSim.constructor | agentic/harness/human_sim.py:292-313 | a fresh simulated user has spent nothing |
| HumanSim.HumanSim.ScriptedCodeReply | agentic/harness/human_sim.py:342-369 | the script's reply and the counters it leaves |
| HumanSim.HumanSim.Answer | agentic/harness/human_sim.py:371-406 | a menu call is one exchange, answered by the script at most once; the budgets hold |
| HumanSim.HumanSim.StandingDecline | agentic/harness/human_sim.py:485-505 | the backward scan decides whether a decline stands |
| HumanSim.HumanSim.Settle | agentic/harness/human_sim.py:507-534 | the guarded move and the whole new state |
| HumanSim.HumanSim.Next | agentic/harness/human_sim.py:422-459 | the whole new state after a turn; the budgets hold and one is spent unless it concludes; a refusal to spend that is sent stands |
| HumanSim.MoveIsSent | agentic/harness/hermes_runner.py:154-162 | the dialogue records exactly the message a turn sends, and none when it concludes |
| HumanSim.TakeTurn | agentic/harness/hermes_runner.py:154-162 | a prompt turn with its menus spends one of a budget, or concludes |
| HumanSim.RunSession | agentic/harness/acp_client.py:251-265 | the prompts are the task and then the recorded replies, in order; with more turns than budget the session concludes |
| HumanSim.RunAcp | agentic/harness/human_sim.py:219-221 | for every operator and every model, the session concludes within the source's bound on prompts |
| JsonString.JsonStringAt | agentic/harness/infra.py:200-219 | the loop collects whole characters and escapes, and has them parsed |
| JsonString.CutCollects | agentic/harness/infra.py:207-215 | what is collected from a cut text parses, to a prefix |
| JsonString.FindCut | agentic/harness/infra.py:203-206 | the key is found in the same place in every cut past the opening quote |
| JsonString.CutReadsPrefix | agentic/harness/infra.py:200-219 | wherever a text is cut after the opening quote, even inside an escape, a prefix of the value is read |
| JsonString.ReadsEncoding | agentic/harness/infra.py:200-219 | whatever characters and escapes a value is written with, it is read back |
| JsonString.ReadsWholePieces | agentic/harness/infra.py:212-214 | a cut gives exactly the characters and escapes that fit whole |
| JsonString.HexRoundTrip | agentic/harness/infra.py:216-219 | four hexadecimal digits give their code unit back |
| JsonString.RoundTrip | agentic/harness/infra.py:200-219 | every sequence of UTF-16 code units is read back from the object that holds it, and a prefix of it from that object cut anywhere past the opening quote |
| JsonText.TextRoundTrip | agentic/harness/infra.py:200-219 | every text, written as a JSON writer puts it (characters as themselves, short escapes, control characters in hexadecimal), is read back as its own UTF-16 code units |
| JsonText.ParsesOnlyPieces | agentic/harness/infra.py:216-219 | what parses is characters and escapes of JSON and nothing else |
| JsonText.ShortEscapesAre | agentic/harness/infra.py:216-219 | the short escapes are the eight of JSON and no others |
| JsonText.HexDigitsAre | agentic/harness/infra.py:216-219 | hexadecimal digits of either case and nothing else |
| JsonText.FirstKey | agentic/harness/infra.py:203 | the value read is that of the first place where the quoted key, a colon and a quote are, white space between |
| JsonText.NoKey | agentic/harness/infra.py:203-205 | there is none when they are nowhere |
| Stamping.Recorded.Stamp | agentic/harness/hermes_trace.py:176-187 | the in-place insertions, highest position first |
| Stamping.TodoSorts | agentic/harness/hermes_trace.py:176-177 | what is stamped is the exchanges left in, sorted |
| Stamping.TodoDescends | agentic/harness/hermes_trace.py:176-177 | each exchange with a question or a nudge is stamped as often as it was given, no other is, and none before one of a higher index |
| Stamping.StampErases | agentic/harness/hermes_trace.py:160-187 | erasing the stamps gives the original trace back |
| Stamping.CallIsPlaced | agentic/harness/hermes_trace.py:177-186 | original call i ends at i plus the number of stamped exchanges with a lower index |
| Stamping.ExchangePlace | agentic/harness/hermes_trace.py:177-186 | an exchange ends where it is put, after its call or at the end, and one further for every later one whose call is before that place |
| Stamping.ExchangeIsBetween | agentic/harness/hermes_trace.py:177-186 | a stamped exchange sits after exactly the calls up to its index, after all of them when its index is past the end |
| Stamping.EqualIndicesOrder | agentic/harness/hermes_trace.py:177-186 | exchanges after the same call come out in reverse exactly when the first of them is not put in past the end; past it they keep their order |
| Stamping.EqualIndicesKeepOrder | agentic/harness/hermes_trace.py:177 | the sort itself keeps them in the order they came in |
| Readers.TraceFromMessages | agentic/harness/hermes_trace.py:116-153 | the trace's reader collects every call and every non-empty prose, in order |
| Readers.ProseIs | agentic/harness/hermes_trace.py:145-147 | the texts are what the assistant's rows say, and never empty |
| Readers.ExchangesFromMessages | agentic/harness/hermes_trace.py:190-233 | the reader of the replies counts the calls before each reply as the trace's reader does |
| Readers.ExchangesNumber | agentic/harness/hermes_trace.py:218-232 | as many exchanges as user rows after the first, or as replies |
| Readers.ExchangesPair | agentic/harness/hermes_trace.py:218-232 | exchange j is reply j, at the user row with j + 1 before it |
| Readers.ReplySits | agentic/harness/hermes_trace.py:226-228 | a reply with a call before it is stamped between the calls before and after it; one before the first call is stamped after that call |
| Readers.EarlyReplyIsLate | agentic/harness/hermes_trace.py:226-228 | a message log whose early instruction is stamped after the call that followed it |
| Readers.RepliesArePlaced | agentic/harness/hermes_trace.py:190-233 | end to end, every stamped reply sits between the calls made before it, or the first, and the rest |
| Readers.CountsAgree | agentic/harness/claude_transcript.py:94-173 | the transcript's two readers count calls alike exactly when sidechains are included or use no tool |
| Readers.SidechainMiscounts | agentic/harness/claude_transcript.py:94-173 | a transcript on which the two readers disagree |
| Sweep.OutMeans | agentic/harness/batch_checks.py:140-150 | a task is out exactly when it was admitted and not settled since |
| Sweep.HighWater | agentic/harness/batch_checks.py:140-150 | the greatest number of admitted and unsettled tasks over all prefixes of the events |
| Sweep.SweepMarks | agentic/harness/batch_checks.py:157-161 | the greatest running count of the sorted marks |
| Sweep.PeakIsNet | agentic/harness/batch_checks.py:153-161 | that count is the greatest net cover of any instant, ties and empty intervals included |
| Sweep.NetIsCoverWhenOrdered | agentic/harness/batch_checks.py:153-161 | the net cover is the number of intervals over an instant, everywhere, exactly when no interval ends before it starts |
| Sweep.InvertedHides | agentic/harness/batch_checks.py:153-161 | an interval recorded the wrong way round hides another |
| Sweep.ReusedTaskHides | agentic/harness/batch_checks.py:114-133 | calls, each stamped in order, whose second interval is recorded the wrong way round and hides the first |
| Sweep.PeakIsMost | agentic/harness/batch_checks.py:136-162 | the peak is the most work out at once exactly when no more commands than tasks ran at once, or some instant with the most commands has no interval recorded the wrong way round over it |
| Sweep.MostExists | agentic/harness/batch_checks.py:136-162 | there is a most: some instant has it, none has more |
| Sweep.WindowPeak | agentic/harness/batch_checks.py:136-162 | the peak is the larger of the two maxima: reached by one, exceeded by neither |
| Sweep.ResolvedPolls | agentic/harness/batch_checks.py:118-122 | each task's first resolving poll |
| Sweep.ShellIntervals | agentic/harness/batch_checks.py:114-133 | the intervals of the compute commands |
| Sweep.CommandIsOut | agentic/harness/batch_checks.py:114-133 | a command left running is out until the first poll that says how its task ended, or to the latest stamp of the run when none does; one that came back, until it did |
| Sweep.EndIsReached | agentic/harness/batch_checks.py:117 | the end of the run is the start of time or some call's own stamp |
| Sweep.StampedIntervalsAreOrdered | agentic/harness/batch_checks.py:114-133 | when calls return after they start and tasks resolve after they start, every interval is ordered |
| Sweep.Window | agentic/harness/batch_checks.py:114-162 | the window of a run, and exactly when it is the most work out at once; with stamps in order it is |
| NodeActions.ActionsSucceed | agentic/harness/node_actions.py:163-193 | an action takes effect exactly when it is one of the seven, on the one host it is for, with the argument it needs, a container answering and its command succeeding |
| NodeActions.NamesAreShort | agentic/harness/node_actions.py:79 | a QOS name is a lowercase letter and at most 31 lowercase letters, digits and underscores, and maybe a newline |
| NodeActions.EffectIs | agentic/harness/node_actions.py:62-78 | which host, QOS or daemon is away after an action |
| NodeActions.Server.Act | agentic/harness/node_actions.py:163-193 | the exit code, the world and what is left to undo after one action, refusals included |
| NodeActions.Server.AnswerNew | agentic/harness/node_actions.py:195-209 | a pass acts on the requests not answered yet, in order, each number once, each on the world the one before left, and answers each with its own exit code |
| NodeActions.Server.UndoAll | agentic/harness/node_actions.py:211-214 | exactly what fails stays to be undone; when nothing fails, the world is untouched again |
| NodeActions.ToDoIsOnce | agentic/harness/node_actions.py:195-201 | no number is acted on twice |
| NodeActions.ActKeepsCovered | agentic/harness/node_actions.py:163-193 | after every action, everything away has its restoring action booked |
| NodeActions.PassKeepsCovered | agentic/harness/node_actions.py:195-209 | a pass keeps that, and answers exactly what it acts on |
| NodeActions.UndoneMeans | agentic/harness/node_actions.py:211-214 | what the restoring actions give back: host by host, the QOS list, the daemon |
| NodeActions.UndoRestores | agentic/harness/node_actions.py:211-214 | a fully successful undo, in any order, restores the untouched world exactly when everything away was covered |
| NodeActions.EveryRunKeeps | agentic/harness/node_actions.py:195-291 | in every interleaving of the client and the server: numbers are lines, answers are outcomes, everything away is covered or about to be booked |
| NodeActions.AnswersAreOwn | agentic/harness/node_actions.py:275-291 | no request is acted on twice, and the client is told what its own request came to |
| NodeActions.StopRestores | agentic/harness/node_actions.py:225-245 | stopped anywhere, a fully successful undo restores the untouched world exactly unless a command took something away, is not booked yet, and nothing booked earlier gives that back |
| NodeActions.CoveredUnbooked | agentic/harness/node_actions.py:186-193 | between a command and its booking everything away is covered exactly when there is nothing left to book: booked already, or no QOS retired after all |
| NodeActions.UnbookedIsLost | agentic/harness/node_actions.py:186-193 | a reachable stop between a command and its booking that leaves a host closed |
| NodeActions.TwoClientsCollide | agentic/harness/node_actions.py:280-285 | two clients with the same number: only the first one's request is acted on |
| NodeGate.GateDecides | agentic/run_suite.py:286-299 | let in on a warm block exactly for its owner; unguarded without a count of idle nodes; launched exactly when they cover the need and the launches of the last five minutes |
| NodeGate.RecentCounts | agentic/harness/pool.py:155-158 | the recent launches are those less than 300 seconds old |
| NodeGate.NodeLaunches.CountRecent | agentic/harness/pool.py:155-158 | the launches inside the window |
| NodeGate.NodeLaunches.Record | agentic/harness/pool.py:160-168 | one launch more, the expired ones dropped |
| NodeGate.NodeLaunches.Step | agentic/run_suite.py:286-299 | probe, decision and claim: the outcome, and the record it leaves |
| NodeGate.NodeLaunches.Admit | agentic/run_suite.py:301-337 | whatever other suites write between its retries, an admission with an idle count covers the need and records once; any other end records nothing; a wait ends by a halt or the limit |
| NodeGate.AskIsTheGatesStep | agentic/run_suite.py:286-299 | the interleaved system's step is the gate's own |
| NodeGate.UnplacedAreKept | agentic/harness/pool.py:155-168 | every launch not placed yet still counts in the record |
| NodeGate.OneNodeKeepsSafe | agentic/run_suite.py:269-299 | every move of every suite keeps the idle nodes at least the cells launched and not placed |
| NodeGate.OneNodeRunsAreSafe | agentic/run_suite.py:269-299 | so does every run |
| NodeGate.BothLaunch | agentic/run_suite.py:286-299 | two cells of several nodes both launch on nodes for one of them |
| NodeGate.SafeForOneNodeOnly | agentic/run_suite.py:269-299 | cells of one size never oversubscribe the nodes exactly when that size is at most one |
| TextLines.LinesAre | agentic/registry_reprove.py:50 | the lines of a text, joined, are the text; each is one line, and no break is split between two |
| TextLines.LinesOfJoin | agentic/registry_reprove.py:50-87 | joined and split again, lines are the same lines, but for breaks that were split between two of them |
| Template.PlainTemplate | agentic/registry_reprove.py:76 | without a backslash a version is its own characters |
| Template.ControlsAre | agentic/registry_reprove.py:76 | the letters that escape a character of their own, and no others |
| Template.DoubledTemplate | agentic/registry_reprove.py:76 | with every backslash doubled any version is its own characters |
| Template.ExpandsPlain | agentic/registry_reprove.py:76 | what a template writes has as many plain characters at its head as the template, and groups begin with none |
| SeedLines.SubstitutedTwice | agentic/registry_reprove.py:74-76 | writing any version over itself leaves a line alone or makes it longer: longer exactly when there is a value to write over and the version's head is plain and the rest is not |
| SeedLines.SubstitutedKeepsShape | agentic/registry_reprove.py:74-76 | rewriting a version changes no line into another kind of line |
| SeedEdit.SeedFile.Record | agentic/registry_reprove.py:46-87 | the text after the edit, or unchanged with the reason |
| SeedEdit.RecordBody | agentic/registry_reprove.py:57-86 | the entry's lines after the edit, none without a date |
| SeedEdit.DropBlock | agentic/registry_reprove.py:59-72 | the loop cuts exactly the old block |
| SeedEdit.OutsideStays | agentic/registry_reprove.py:46-87 | every line outside the entry stays |
| SeedEdit.TextOutsideStays | agentic/registry_reprove.py:46-87 | so does the text, split and joined: only the entry's changes |
| SeedEdit.OldBlockIs | agentic/registry_reprove.py:59-72 | what goes is the block's key, lines of its depth, and blank lines or comments between those |
| SeedReading.ShapesAre | agentic/registry_reprove.py:55-79 | the kinds of lines exclude each other: each line is read as what it starts as, of a block's depth, or skipped |
| SeedEdit.InsideStays | agentic/registry_reprove.py:73-86 | inside the entry every other line stays, in order, but for the version and the date; the new block stands right after the date |
| SeedEdit.KeptOrder | agentic/registry_reprove.py:59-72 | kept lines keep their order |
| SeedReading.BlockReads | agentic/registry_reprove.py:80-84 | read back, the new block is its key, the date, and each of the five values that is not empty, once, under its own key, in the source's order |
| SeedReading.RecordedOnce | agentic/registry_reprove.py:80-84 | no key is said twice |
| SeedReading.DateReads | agentic/registry_reprove.py:80 | the date line reads back the proof's date |
| SeedReading.EntryReads | agentic/registry_reprove.py:57-86 | in the edited entry the date is where it was and reads back, with the block right after it |
| SeedReading.TextReads | agentic/registry_reprove.py:46-87 | so do the lines of the edited text, split again, for values without line breaks and a version that breaks no line |
| SeedReading.ValueIsFound | agentic/registry_reprove.py:76 | the value of a `verified_with:` key is found: plain characters after the key and white space, a quote on either side or none |
| SeedReading.FoundIsValue | agentic/registry_reprove.py:76 | nothing else is taken for one |
| SeedReading.VersionReadsBack | agentic/registry_reprove.py:74-76 | a plain version written over a value is the quoted value read back there, the rest of the line as it was |
| SeedAgain.WrittenAgain | agentic/registry_reprove.py:74-76 | a version written over lines it was written to leaves them alone or makes them longer, and says which |
| SeedAgain.CutsOwn | agentic/registry_reprove.py:59-72 | the block taken is the one written exactly when that is all of a block's depth, and nothing of that depth follows |
| SeedAgain.SecondEdit | agentic/registry_reprove.py:46-87 | what the second edit writes, entry lines in the block's values included |
| SeedTwice.TextIs | agentic/registry_reprove.py:50-87 | split again, the first edit's text is the lines it wrote, the block's values apart |
| SeedTwice.SameText | agentic/registry_reprove.py:46-87 | the second edit changes nothing exactly when it finds its own block, cuts that and no more, and writes over no value but with itself |
| SeedTwice.TwiceIsOnce | agentic/registry_reprove.py:46-87 | on the whole text: recording the same proof twice is recording it once exactly when no other block's key comes before the date, nothing of a block's depth follows the date before the next key, the new block is read back whole, and the version is, or there is no value to write it over |
| SeedBroken.ReadIs | agentic/registry_reprove.py:50-87 | split again, the first edit's text is its lines outside the entry, the date, and the rewritten lines and the block as they split, whatever the version breaks |
| SeedBroken.BrokenTwiceIsOnce | agentic/registry_reprove.py:46-87 | for any version, where the entry reads back clean: recording the same proof twice is recording it once exactly when the new block is read back whole and writing the version to the lines read back leaves them alone |
| SeedTwice.OneLineReadsBack | agentic/registry_reprove.py:80-84 | a proof whose values have no line breaks is read back whole |
| SeedCases.TwoBlocks | agentic/registry_reprove.py:59-72 | an entry with a second block before the date: twice is not once |
| SeedCases.DeepAfterDate | agentic/registry_reprove.py:66-72 | one with a line of a block's depth after the date |
| SeedCases.BreakInValue | agentic/registry_reprove.py:82-84 | one, and a proof with a line break in a value |
| SeedCases.SpacedVersion | agentic/registry_reprove.py:76 | one, and a version with a space in it |
| SeedCases.ReferenceInVersion | agentic/registry_reprove.py:76 | one, and a version with a group reference in it |
| SeedCases.BreakInVersion | agentic/registry_reprove.py:76 | one, and a version that breaks the line it is written into: the second edit finds no date |
| SeedCases.BreakInVersionRepeats | agentic/registry_reprove.py:76 | a version that breaks its line, and does no harm: twice is once |

## Left out

- Processes, containers, ssh, the clocks themselves, log-file encoding, the agent protocol's transport and the language model.
- The operators' set-up, prompts and personas, reports and dashboards, and the graders whose meaning is a regex over prose or the text of a foreign shell.
- `_loose`, a harness's coercion of argument values: a parameter of the alignment, which holds for every such coercion.
- The rounding of time stamps to milliseconds (`cli_runner.py:313-315`), and time stamps that are not numbers.
- The pairing of results with calls by id in the readers, and what a call's arguments look like after parsing.
- The duplicates a compaction leaves in the message log (`cli_runner.py:617-660`): a row is given with its new texts and calls.
- `\w` outside ASCII, where a function's body opens (`_FN_BODY`), and the walk over the words of a piece (keywords, wrappers, options, `find -exec`): parameters of `ShellSkeleton`, so its theorems hold for every such walk.
- SeedBroken.BrokenTwiceIsOnce: says nothing when a break in the version makes a line that starts an entry, a date or a block of its own, when a line of a block's depth follows the date, or when writing over a line read back shortens it.
- Template groups spelled other than by digits (`\g<+1>`), which Python before 3.12 takes and later ones refuse.
- Reading and writing the seed file itself, where Python translates line endings.
- The regexes of the simulated user (`asks_for_code`, spend questions, declines), `rekey_answers`, the notes of an exchange, and the computation of one-time codes.
- The label and capacity a window reports beside its peak (`batch_checks.py:145-150`).
- Python's falsy values other than the missing and the empty one: a field is a string, empty when missing.
- Stamping.Recorded.Stamp: a call index is a natural number, as both readers produce it; a negative one in a hand-made record is not modelled.
- NodeActions.AnswersAreOwn: for one client; what two clients do to each other is `TwoClientsCollide`.
- HumanSim.HumanSim.Next: takes a turn's text without the white space around it, which the source strips first (`human_sim.py:430`).
- BuildTrace.Build: the result fields of a call (`_journal_call`, the refusal's words) stay those of its row or event and are not spelled out.
- The process-wide pool of users (`PoolClaims`) and the staggering of launches.
