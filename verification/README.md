# Verified models of the acquisition and recovery core

The repository keeps market data complete and its deployments reversible through programs that
can be cut off at any moment: an installer that moves credentials and an env file under root, a
file hand-off between a runner and a native QMT model, transactional writers, resumable database
repairs, and screen checks that decide whether a password may be typed. The files beside this one
model that core in Dafny and prove what it promises, for every input, every run and every point at
which a process may die.

| file | what it models |
|---|---|
| `Basics.dfy` | optional values and two facts about finite sets |
| `EnvRewrite.dfy` | the rewrite of the `.env` file, down to Python's line splitting |
| `StateLine.dfy` | the one-word state file and what a reader makes of a torn line |
| `InstallDisk.dfy`, `InstallHost.dfy` | the crash-safe install transaction: the disk, its invariant, and the installer that changes it one durable operation at a time |
| `Handoff.dfy`, `HandoffRunner.dfy` | the QMT hand-off: two crashing actors and a transactional progress table |
| `BatchCommit.dfy`, `HandoffCommit.dfy` | one committed batch over business tables and progress, and what the hand-off sees of it |
| `NativeResult.dfy` | what the model publishes for a native answer and what the normaliser makes of it |
| `MinuteUpsert.dfy`, `MinuteBulk.dfy` | the minute writer, row by row and in bulk |
| `FlowPublication.dfy` | whole-date publication of the daily capital flow |
| `FinanceRevisions.dfy` | the finance history and the display row promoted from it |
| `MinuteGrid.dfy` | the bitmap evidence of a minute inventory |
| `DayPlanning.dfy` | key fingerprints and the choice of candidate days |
| `CollationMigration.dfy` | the collation migration whose markers live in a table it converts |
| `SchedulerRestore.dfy`, `SchedulerStore.dfy` | the exact restore of sealed scheduler rows |
| `ScreenImage.dfy`, `InputScan.dfy`, `Caret.dfy`, `CaretDetector.dfy`, `CaptureChecks.dfy` | the search for an unknown input field and the blinking-caret detector, on pixels and on captured bytes |
| `LoginGuard.dfy` | the guard that keeps a credential from being submitted twice |

How crashes are modelled. A durable operation (link, rename, unlink, chown, one byte written, one
committed transaction) is one assignment to a field that stands for the disk or the database, and
a call before it may end the run: the installer's `Step` consumes a list of fates (go on, be
signalled, lose power), the runner's `Yield` a list of turns in which the model takes any number of
steps of its own or dies, the migration's `Commit` a list of deaths; a recovery of the login has so
many effects left to live. All of these are universally quantified, so every cut-off point is
covered. A signal unwinds like an exception and runs the handlers; a power loss runs nothing more.
Whatever follows starts again from the disk alone.

Parameters. The option-file policy, the env rewrite, the umask's effect on a new file, the verdict
of the normaliser, native answers, credential revisions, clocks and row defaults are parameters, so
the results hold for all of them. SHA-256 and canonical digests are injective constructors. A SQL
transaction is all or nothing.

## Where the code does less than one might expect

* A prepare that loses power between creating the env temporary and giving it its mode leaves a file
  with the mode the umask allowed. `_replace_env` and `_remove_env_temp` refuse it, so no later
  rollback completes. The exact condition is the mode of a fresh file (`freshEnvMode == ENV_MODE`,
  that is, a umask that keeps 0640): `Host.LosePowerInEnvWrite` proves that rollback completes if
  and only if it holds, whatever runs come between, and `Host.RecoverAfter` that under it rollback
  always completes.
* The login guard compares a credential revision with the last one recorded only. If a credential
  comes back after another one, it can be submitted twice without an authenticated window between:
  `GuardReach` proves that this is so for exactly the revision sequences in which one comes back,
  and `Recovery.CredentialReturns` is the shortest such run.
* A committed success is not final on the minute period. If the retained rows are normalised to an
  error later on, or to another proof, the stored outcome is replaced; the business rows stay.
  `KeptExactly` states which outcomes stay and which are taken back.
* The caret detector's comment asks for a dark visible caret. The code asks for darkness only when
  exactly one of the two patches is of one colour; `IsCaret` follows the code.
* A flow date is published with fewer rows than expected securities if two of them share a bare code
  and one staged row is about another date (`PublishedShort`). The normaliser stages no such row; it
  takes one staged by other means. `Publisher.Publish` states the exact condition (as many bare
  codes as securities) and that staged rows about their own security are never published otherwise.
* A grid without any allowed time is the one case in which minute evidence is not accepted back
  (`EmptyGridIsNeverAccepted`).
* Recovery of the hand-off stops with a stale request if a prepared request wants a unit that runs
  under another one; `Runner.RecoverPrepared` and `Runner.RecoverQmt` state this as an if and only
  if, and that disjoint requests never stop it.

## Model

| member | source | states |
|---|---|---|
| EnvRewrite.RenderEnv | deploy/production_db_boundary_bootstrap.py:254-282 | the one-pass loop returns the specified rewrite or the first error it meets, after the NUL check and before the count of the two settings |
| EnvRewrite.RenderKeepsLines | deploy/production_db_boundary_bootstrap.py:254-282 | on success the joined output splits back into as many lines; unrelated lines stay byte for byte with their terminators and each setting occurs exactly once |
| EnvRewrite.RenderSucceeds | deploy/production_db_boundary_bootstrap.py:254-282 | the rewrite succeeds if and only if the text has no NUL, sets each of the two names on exactly one line, TLS to `true` and the authority to one of two paths |
| EnvRewrite.RenderRefuses | deploy/production_db_boundary_bootstrap.py:271-277 | otherwise the first refused value decides the error, whatever comes after it |
| EnvRewrite.RenderMeans | deploy/production_db_boundary_bootstrap.py:278-282 | on success the authority line names the pinned path under its own terminator, and every other line of the file, the TLS line included, is what it was |
| EnvRewrite.RenderIdempotent | deploy/production_db_boundary_bootstrap.py:1053-1058 | rewriting a rewritten file changes nothing, which is what lets later validation accept what prepare wrote |
| EnvRewrite.JoinSplit | deploy/production_db_boundary_bootstrap.py:254-282 | joining the split lines gives the text back, for every text |
| EnvRewrite.SplitJoin | deploy/production_db_boundary_bootstrap.py:254-282 | splitting joined lines gives the lines back, provided no terminator fuses with the next line |
| EnvRewrite.SplitLinesIs | deploy/production_db_boundary_bootstrap.py:261-261 | the lines are the only ones that join to the text and end at Python's ten line breaks, a carriage return and line feed being one of them |
| StateLine.TornStateIsNewOrNothing | deploy/production_db_boundary_bootstrap.py:417-461 | every prefix of the line of a new state reads as that state or as nothing, never as a third state |
| StateLine.ReadsAsText | deploy/production_db_boundary_bootstrap.py:432-472 | the compact line the installer model uses reads exactly as the text on disk does |
| InstallDisk.RenderPins | deploy/production_db_boundary_bootstrap.py:254-282 | the real rewrite satisfies the only property the transaction proofs need of it |
| InstallDisk.LoadAccepts | deploy/production_db_boundary_bootstrap.py:637-710 | between any two operations of any runs, loading the transaction succeeds and yields the original snapshot |
| InstallDisk.LoadedIsSealed | deploy/production_db_boundary_bootstrap.py:637-710 | whatever directory is loaded, what comes out was sealed: this machine's identities, every file under its recorded hash, both options accepted, the prepared env the rewrite of the original, nothing half written |
| InstallDisk.LinksOfOption | deploy/production_db_boundary_bootstrap.py:849-883 | the link count of a snapshot option file is one, or two exactly when its target exists |
| InstallDisk.LiveIsValid | deploy/production_db_boundary_bootstrap.py:1033-1058 | a decided installation passes its validation, with link counts 1 or 2 while the purge is unfinished and 1 after it |
| InstallDisk.OutcomesExclusive | deploy/production_db_boundary_bootstrap.py:1265-1299 | with no transaction on disk the machine is exactly the original or exactly installed, never both, and the option targets tell which |
| InstallDisk.TransactionMoves | deploy/production_db_boundary_bootstrap.py:1061-1086 | a run that keeps or lawfully ends its transaction undoes no decision already on disk |
| InstallDisk.PendingKeepsInv | deploy/production_db_boundary_bootstrap.py:417-429 | any prefix of an allowed state's line may be pending when the machine stops |
| InstallDisk.PromoteKeepsInv | deploy/production_db_boundary_bootstrap.py:432-461 | a readable pending line, with or without its newline, may take effect |
| InstallDisk.UmaskKeepsTempUsable | deploy/production_db_boundary_bootstrap.py:928-998 | when a fresh file keeps mode 0640, a leftover env temporary is always acceptable to the clean-up |
| InstallHost.Host.WriteState | deploy/production_db_boundary_bootstrap.py:417-429 | wherever the write is cut off, the state that a later load acts on is the old or the new one, and only the two state files change |
| InstallHost.Host.RecoverPending | deploy/production_db_boundary_bootstrap.py:432-461 | recovery of the pending file never changes the state that a load acts on |
| InstallHost.Host.Load | deploy/production_db_boundary_bootstrap.py:637-710 | a load returns the snapshot of the original machine and the state in effect, and breaks no decision |
| InstallHost.Host.ClaimStage | deploy/production_db_boundary_bootstrap.py:762-808 | the stage directory, same inode and payloads, is inside the transaction under root when the state says claimed |
| InstallHost.Host.EnsureOptionTargets | deploy/production_db_boundary_bootstrap.py:849-883 | both targets exist afterwards as hard links of the snapshot's copies, and nothing else moves |
| InstallHost.Host.ReplaceEnv | deploy/production_db_boundary_bootstrap.py:928-961 | the env file is the old one or the new one, never a mixture; uninterrupted it succeeds exactly when a leftover temporary has the expected mode |
| InstallHost.Host.ResumePrepare | deploy/production_db_boundary_bootstrap.py:1009-1030 | from any undecided state prepare ends in `prepared` with everything in place; decided states are refused untouched |
| InstallHost.Host.Purge | deploy/production_db_boundary_bootstrap.py:475-510 | entry-by-entry deletion in any order keeps the invariant at every cut and touches only that directory |
| InstallHost.Host.RecoverCommitted | deploy/production_db_boundary_bootstrap.py:1061-1072 | past the decision only root's duplicates go; uninterrupted it ends installed exactly when the commit was decided |
| InstallHost.Host.FinishCommit | deploy/production_db_boundary_bootstrap.py:1075-1086 | the commit is decided by the durable state and the rename; success means installed with the snapshot's bytes and single links |
| InstallHost.Host.RemoveTargets | deploy/production_db_boundary_bootstrap.py:1089-1111 | no option target is left, and nothing else changed |
| InstallHost.Host.RebuildClaim | deploy/production_db_boundary_bootstrap.py:1114-1165 | the same stage directory is back at its old path with the snapshot's payloads and owner, from any half-emptied content |
| InstallHost.Host.RestoreEnv | deploy/production_db_boundary_bootstrap.py:977-998 | original bytes, owner and mode are back and no temporary is left; uninterrupted it succeeds exactly when the temporary is acceptable |
| InstallHost.Host.FinishRollback | deploy/production_db_boundary_bootstrap.py:1168-1206 | success, and any disk without the transaction, is exactly the original machine |
| InstallHost.Host.CreateTransaction | deploy/production_db_boundary_bootstrap.py:564-628 | until the rename the machine is the original one; after it a complete snapshot is on disk in state `snapshot` |
| InstallHost.Host.RunVerify | deploy/production_db_boundary_bootstrap.py:1268-1278 | succeeds, uninterrupted, exactly when a commit is decided; an undecided machine it leaves alone, wherever it is cut off: same transaction in the same state in effect, same env, application, stage, targets and claim |
| InstallHost.Host.RunRollback | deploy/production_db_boundary_bootstrap.py:1280-1299 | ends installed if a commit was decided and original otherwise; uninterrupted it succeeds exactly when the env temporary is acceptable |
| InstallHost.Host.RunCommit | deploy/production_db_boundary_bootstrap.py:1301-1311 | succeeds, uninterrupted, exactly when a commit is decided, or none is rolled back, the prepared env is in place and the stage is claimed under root; without a transaction or over a decided rollback it touches nothing, and cut off anywhere it has moved at most the application directory, the targets and its own decision |
| InstallHost.Host.RunPrepare | deploy/production_db_boundary_bootstrap.py:1313-1393 | ends prepared, or installed if a commit was decided; an exception on the way is rolled back; an undecided one succeeds, uninterrupted, exactly when the original machine passes the preflight and a leftover temporary is acceptable |
| InstallHost.Host.Run | deploy/production_db_boundary_bootstrap.py:1246-1393 | one run of any action, cut off anywhere: the invariant holds, no decision is undone, a verify or commit that may not act leaves env, application, stage, targets, claim and the state in effect alone, a prepare goes on with the transaction it finds unless that is being rolled back, a normal return delivers what its mode says, and the exact success condition of an uninterrupted run |
| InstallHost.Host.RunAll | deploy/production_db_boundary_bootstrap.py:1246-1393 | the invariant and the irrevocability of decisions over every sequence of interrupted runs |
| InstallHost.Host.RecoverAfter | deploy/production_db_boundary_bootstrap.py:1246-1393 | crash atomicity: after any runs and crashes one rollback lands on exactly the original or exactly the installation, as already decided on disk |
| InstallHost.Host.LosePowerInEnvWrite | deploy/production_db_boundary_bootstrap.py:928-961 | the failing case and its exact condition: rollback completes if and only if a fresh file keeps mode 0640 |
| Handoff.NoExecutionAfterResult | acquisition/qmt_model.py:588-637 | in every lawful history a request is never executed again once it has a result, and has at most one |
| Handoff.TurnsAreComplete | acquisition/qmt_transport.py:102-187 | between two activations the first request was executed, published, committed and released, in this order |
| Handoff.ModelStepKeepsInv | acquisition/qmt_model.py:588-637 | every step of `poll` keeps the invariant, however long ago its earlier reads were; that the steps lead to an answer is the next row |
| Handoff.ModelAnswers | acquisition/qmt_model.py:588-637 | progress: from an active request without a result five steps of an idle model execute it once and publish one outcome for each of its units and no other, what the native side answered or a fault, and change nothing else |
| HandoffRunner.BeginTwice | acquisition/store.py:311-327 | beginning a request is idempotent |
| HandoffRunner.SettleNext | acquisition/store.py:369-459 | one turn of the commit loop, as the hand-off sees it, settles one unit and counts the outcome that the progress table then holds |
| HandoffRunner.NoResultNotCommitted | acquisition/runner.py:246-283 | a request without a result has never been committed |
| HandoffRunner.ResultNeverChanges | acquisition/qmt_transport.py:128-145 | once published, a result is what every later reader finds, in the root or under processed |
| HandoffRunner.PublishedIsWhole | acquisition/qmt_transport.py:49-73 | at any moment of any run a published result answers the request prepared under its id, with one outcome for each unit and no other |
| HandoffRunner.InvIsSafe | acquisition/runner.py:246-283 | a running unit's request is still in the root, an active request has durably begun all its units, and the model works only on the active request while it has no result |
| HandoffRunner.Runner.Prepare | acquisition/qmt_transport.py:86-100 | an archived id or another request under the same id is refused; otherwise the immutable request is in the root |
| HandoffRunner.Runner.ClaimRows | acquisition/store.py:311-327 | the transaction claims every unit, or raises exactly when a unit runs under another request |
| HandoffRunner.Runner.BeginRequest | acquisition/store.py:311-327 | all units are begun or none, and nothing else in the world moves |
| HandoffRunner.Runner.Activate | acquisition/qmt_transport.py:102-117 | only a prepared request with begun units becomes active, and only when none is |
| HandoffRunner.Runner.ReadResult | acquisition/qmt_transport.py:128-145 | a result found always validates against its prepared request, during every stage of an archive |
| HandoffRunner.Runner.SettleUnits | acquisition/store.py:369-459 | the commit loop, as the hand-off sees it, succeeds exactly when the request owns every unit, and returns the settled progress and the counts of the outcomes |
| HandoffRunner.Runner.Consume | acquisition/runner.py:151-166 | committing the active request's result is never stale, and leaves none of its units running |
| HandoffRunner.Runner.Archive | acquisition/qmt_transport.py:147-187 | cut off anywhere it can be resumed; active is released last, after both files are kept and the result was committed |
| HandoffRunner.Runner.RecoverQmt | acquisition/runner.py:246-283 | returning true means nothing is prepared, active or running; a stale request stops it only at a prepared request with a unit that runs under another one; undisturbed it goes through exactly when, the active result committed, the first request listed can begin |
| HandoffRunner.Runner.RecoverPrepared | acquisition/runner.py:264-282 | uninterrupted it goes through if and only if no unit runs under another request |
| HandoffRunner.Runner.AcquireQmt | acquisition/runner.py:300-357 | it waits, changing nothing, exactly when a request is active; a stale heartbeat raises before anything is prepared; success means committed and released with every unit owned and settled; without a model it times out, its request active, exactly when the request may be prepared and begun |
| HandoffRunner.Runner.AnsweredLater | acquisition/runner.py:246-357 | a request that timed out is not lost: the model answers it, and the next recovery commits that answer and releases the request |
| HandoffRunner.Runner.Live | acquisition/runner.py:246-357 | over all interleavings and crashes of both actors every state is safe and the history lawful |
| BatchCommit.CommitTwice | acquisition/store.py:340-460 | committing the same batch again leaves business tables, ledger and progress as they are and reports the same outcomes: minute, flow, finance and any other dataset |
| BatchCommit.SecondIsReplayed | acquisition/store.py:376-403 | for what the normaliser makes, the second commit recognises every success as its own, so no row is written again |
| BatchCommit.StoredIsVerified | acquisition/store.py:376-394 | a committed complete minute unit leaves a progress row that every reader of minute evidence verifies, and that the next commit finds again |
| BatchCommit.KeptExactly | acquisition/store.py:369-459 | with another verdict: off the minute period every stored success stays; a minute success stays exactly when status and proof or reason are found again, and becomes an error exactly when the batch says error; every other unit takes the new verdict, field by field |
| BatchCommit.CommitWrites | acquisition/store.py:411-452 | a commit that ran leaves the table that row-by-row writing makes of the values, in order, of all complete units that were not replayed; every finance fact of such a unit is recorded and the ledger follows the old one; flow and finance batches write no other table |
| BatchCommit.UnitNotes | acquisition/store.py:444-451 | the notes stored with a finance unit say exactly whether some fact was not promoted in its turn, and whether some fact set a first version |
| BatchCommit.GoesThrough | acquisition/store.py:340-460 | a commit goes through if and only if every unit is owned, its outcome is allowed and its evidence there, or it is replayed, minute identities are distinct, and the table takes the due values |
| BatchCommit.OthersUntouched | acquisition/store.py:369-459 | progress rows outside the batch never move |
| BatchCommit.KnownFactsStay | acquisition/store.py:444-452 | finance rows recorded before change neither history nor display, under whatever request |
| BatchCommit.CountsAddUp | acquisition/store.py:347-460 | the outcomes counted are as many as the units |
| BatchCommit.BatchStore.Commit | acquisition/store.py:340-460 | the loop in one transaction meets its specification: bulk for minute rows, one by one otherwise, nothing kept if anything raises; what that specification writes is `CommitWrites` |
| HandoffCommit.BeginIsSeen | acquisition/store.py:311-327 | beginning a request on whole progress rows is, as the hand-off sees it, what it takes it to be |
| HandoffCommit.CommitIsSeen | acquisition/store.py:340-460 | a commit that goes through is a settlement by its own verdicts, and only of a request that owns every unit |
| HandoffCommit.LostUnitFails | acquisition/store.py:373-375 | a batch whose request has lost a unit writes nothing at all |
| HandoffCommit.CommitCounts | acquisition/store.py:347-460 | the counts reported are those of the outcomes that the hand-off then sees |
| NativeResult.ReadContainers | acquisition/qmt_model.py:408-415 | goes through exactly when no container raises what it does not expect, and then each requested code, and no other, has the outcome of its own container |
| NativeResult.ProveSuspensions | acquisition/qmt_model.py:416-446 | a code becomes no data exactly when a single daily row of the very day with the flag is reached before any container that raises; every other outcome stays |
| NativeResult.ExecuteRequest | acquisition/qmt_model.py:369-483 | for every native behaviour each requested code, and no other, has exactly what it is owed |
| NativeResult.DueValidates | acquisition/qmt_transport.py:49-73 | such a result validates against its own request; its data is what the native side gave, and no data is proven by a daily row of the very day |
| NativeResult.NoRowIsLost | acquisition/qmt_model.py:408-415 | unless the whole request fails, every code with readable rows has them all, as data |
| NativeResult.SuspensionIsNoData | acquisition/qmt_model.py:398-446 | a requested code is published as no data if and only if the first reader that answers with a map leaves its container empty and the daily answer, about empty codes only, is reached with one flagged row of the very day |
| NativeResult.PublishedResult | acquisition/qmt_model.py:588-637 | what is published validates against its own request and is what is due to each code, on low disk and oversize too |
| NativeResult.NormalizeBatch | acquisition/normalize.py:265-353 | one unit per requested code in order: complete, with all converted rows, exactly when they have distinct business keys, are consistent and, on the minute period, are a complete inventory, whose proof it then carries; empty exactly on an allowed reason; an error otherwise |
| NativeResult.TakesMeans | acquisition/normalize.py:265-353 | rows are taken exactly when there are some, every one has its business key, no two share one, they are consistent and a minute product's have their evidence |
| NativeResult.RequestToCommit | acquisition/store.py:383-410 | from the native call to the commit no outcome guard and no check of minute evidence can fire; a unit is complete exactly when the rows due to its code are taken, and empty only on a proven suspension |
| MinuteUpsert.UpsertRow | acquisition/store.py:654-683 | it succeeds exactly when the row names its key, at most one row stands there and every required column is known; then each named column holds the row's cell, except keys, the id and required metadata that a null would erase, and every other column and every other key is as it was |
| MinuteUpsert.EachIsCarriedOut | acquisition/store.py:654-683 | for distinct keys, row-by-row writing succeeds exactly when every row's plan on the initial table does, and carries out exactly those plans |
| MinuteUpsert.EachIsTaken | acquisition/store.py:654-683 | the same column by column: it succeeds exactly when every row is acceptable over what its key held, and then every key holds one row with the cells it should have, and no other key has moved |
| MinuteUpsert.KeyTells | acquisition/store.py:654-660 | two rows have one key exactly when they agree in every key column |
| MinuteUpsert.EachInAnyOrder | acquisition/store.py:654-744 | the order of the rows never matters for distinct keys |
| MinuteUpsert.CarriedOutIsUnique | acquisition/store.py:654-744 | the description of the written table determines it |
| MinuteUpsert.EachTwice | acquisition/store.py:654-683 | writing rows with distinct keys a second time changes nothing |
| MinuteBulk.FetchPrevious | acquisition/store.py:697-709 | fetching one row more than there are keys never misses a duplicate, whichever rows the database leaves out |
| MinuteBulk.PlanChunk | acquisition/store.py:710-732 | the statements, grouped by their columns, contain every changing row exactly once; refusal exactly when a row is refused |
| MinuteBulk.RunGroups | acquisition/store.py:733-744 | the row counts always agree, and the groups write disjoint keys in any order |
| MinuteBulk.UpsertChunk | acquisition/store.py:695-744 | one chunk does what writing its rows one by one does |
| MinuteBulk.UpsertMinuteRows | acquisition/store.py:685-744 | the chunked bulk writer succeeds on the same inputs and leaves the same table as the row-by-row one; column by column, every key holds the cells its row named, and no other key has moved |
| MinuteBulk.KeysAreDistinct | acquisition/store.py:350-368 | the check before any write accepts exactly batches whose keys are present and distinct |
| MinuteBulk.CommitMinuteRows | acquisition/store.py:350-368 | a batch is written, column by column as its rows say, exactly when its identities are distinct and every row is acceptable, or the table is left alone |
| MinuteBulk.EachKeepsWellKeyed | acquisition/store.py:654-683 | no stored row's business key ever changes |
| FlowPublication.RestagedIsPlannable | acquisition/plan.py:60-85 | a mixture of generations makes every expected security plannable from then on |
| FlowPublication.ReadBack | acquisition/store.py:544-553 | the read-back settles the date: all staged rows landed on it exactly when no two securities share a bare code |
| FlowPublication.ReplacementHolds | acquisition/store.py:531-562 | the replaced partition holds one row for each expected bare code and one generation; no other date moves |
| FlowPublication.ReplacesStands | acquisition/store.py:531-562 | if no two securities share a bare code, every expected security's staged row stands in it with its code, date, content and completeness, its own source and batch or else the one source and its request, and nothing else does |
| FlowPublication.Publisher.CollectStaged | acquisition/store.py:531-543 | the rows are the staged rows of all expected securities, or the publication raises because one is missing or incomplete |
| FlowPublication.CollectedDecide | acquisition/store.py:531-553 | the checks on the collected and read-back rows hold exactly when the staged rows are publishable, whatever order they are collected in |
| FlowPublication.DeclinedIsPlannable | acquisition/store.py:492-530 | a date with all securities that is not published either is complete with a matching partition, or can be planned again as a whole |
| FlowPublication.MatchesIsPublished | acquisition/store.py:495-505 | a completed partition matches exactly when it holds one row for each expected bare code and no other, all from the one source, if no two securities share a code |
| FlowPublication.PublishedShort | acquisition/store.py:531-562 | the exception: a date published with fewer rows than securities |
| FlowPublication.Publisher.Publish | acquisition/store.py:462-562 | it publishes exactly when every staged row is there, complete and publishable: the date is replaced as a whole by the staged rows, field by field, and every state is complete; it declines exactly when some security is not staged, saying how many and what became of the states; it raises otherwise, and then nothing moves |
| FinanceRevisions.NewerIsStrictOrder | acquisition/store.py:786-799 | the source-version comparison is a strict partial order |
| FinanceRevisions.NotNewerMeans | acquisition/store.py:786-799 | a version is passed over exactly when the shown one is of a later day, or of the same day and not known to be earlier by the second |
| FinanceRevisions.FinanceStore.AppendRevision | acquisition/store.py:746-783 | a known fingerprint changes nothing; a new one gets the next number and names the last revision exactly when the display row follows it; it promotes exactly when there is no display version or it is newer |
| FinanceRevisions.FinanceStore.CommitFact | acquisition/store.py:444-452 | the display row changes exactly on promotion, to this fact |
| FinanceRevisions.FactsKeep | acquisition/store.py:444-452 | over any rows the numbers stay 1 to n, no fingerprint repeats, history only grows, every fact is recorded, and a display version once set only moves strictly up |
| FinanceRevisions.LatestIsShown | acquisition/store.py:444-452 | from an empty ledger on, whatever facts are committed and in whatever order, each display row shows one of its own facts and none of the others is known to be later |
| FinanceRevisions.FinanceStore.CommitFacts | acquisition/store.py:444-452 | committing any rows one after another has just these effects |
| FinanceRevisions.FinanceStore.Replay | acquisition/store.py:746-760 | rows committed before change neither history nor display |
| MinuteGrid.DecodeMask | acquisition/minute_grid.py:58-98 | the mask of the observed times decodes to exactly those times |
| MinuteGrid.HexRoundTrip | acquisition/minute_grid.py:58-95 | written in hex and read back the mask is itself, at the full width |
| MinuteGrid.ProvableMeans | acquisition/minute_grid.py:43-64 | rows have a proof if and only if the code is canonical, every row is aligned and of the unit's day and code, every required time is there, every time is allowed and none is there twice |
| MinuteGrid.ProofTells | acquisition/minute_grid.py:43-64 | two proofs are equal exactly when product, code, day, grids and rows are |
| MinuteGrid.EvidenceRoundTrip | acquisition/minute_grid.py:43-104 | for any accepted rows the bitmap stands for exactly their times and the stored state is verified complete |
| MinuteGrid.EvidenceIsComplete | acquisition/minute_grid.py:67-104 | an accepted state is complete without gaps or strays and names a complete set of allowed times, as many as rows were written |
| MinuteGrid.EvidenceIsOwn | acquisition/minute_grid.py:67-104 | evidence made for one inventory is accepted for no other product, code, day or grids, and then names the times of its own rows |
| MinuteGrid.BitmapIsFaithful | acquisition/minute_grid.py:43-64 | two bitmaps are equal exactly when the observed times are |
| MinuteGrid.EmptyGridIsNeverAccepted | acquisition/minute_grid.py:91-94 | the exception: an empty allowed grid |
| DayPlanning.KeyFingerprint | acquisition/models.py:55-65 | one loop computes the fingerprint that `FingerprintMeans` explains |
| DayPlanning.FingerprintMeans | acquisition/models.py:55-65 | a fingerprint counts the keys, adds up both checksums and has exactly the bits that an odd number of them has |
| DayPlanning.OfJoin | acquisition/models.py:55-65 | fingerprints of parts merge into the fingerprint of the whole |
| DayPlanning.OfAnyOrder | acquisition/models.py:55-65 | the fingerprint does not depend on the order of the keys |
| DayPlanning.MatchesMeansExact | acquisition/plan.py:99-114 | a day matches if and only if its states are terminal and stand under exactly the expected keys |
| DayPlanning.KeptThoughComplete | acquisition/plan.py:190-213 | a matching day is one the full summary calls complete; a complete day is kept exactly when it has stale extra states |
| DayPlanning.LooksAreRight | acquisition/plan.py:99-150 | the test on counts and fingerprints passes exactly on finished days: a healthy flow day of complete states only, any other day whose states stand under exactly the expected keys with none missing, a minute day never |
| DayPlanning.CandidateDays | acquisition/plan.py:117-150 | exactly the latest day, the refresh overlap of event data other than the flow and the days that are not finished are kept: no dropped day hides a gap |
| CollationMigration.OwnMarkerLeavesProof | tools/attest_qmt_daily_kline.py:825-860 | inserting a table's own markers leaves its row proof alone, also for the table that stores them |
| CollationMigration.ProofTellsRows | tools/attest_qmt_daily_kline.py:825-885 | two proofs of a table are equal exactly when its rows are, all of them and in order, or for the marker table all markers but its own two; proofs of different tables never are |
| CollationMigration.OthersUnmoved | tools/attest_qmt_daily_kline.py:998-1184 | a marker of one table moves no other table's stage, because the marker table comes last |
| CollationMigration.PendingKeepsInv | tools/attest_qmt_daily_kline.py:1077-1087 | recording a pending proof keeps the migration resumable |
| CollationMigration.ConvertKeepsInv | tools/attest_qmt_daily_kline.py:1091-1123 | converting over an unchanged proof keeps it resumable |
| CollationMigration.CompleteKeepsInv | tools/attest_qmt_daily_kline.py:1124-1167 | completing keeps it resumable |
| CollationMigration.MarkerWasProved | tools/attest_qmt_daily_kline.py:998-1184 | after any runs, every completion marker that was not there at first was inserted over a pending proof equal to the proof of that moment |
| CollationMigration.Server.RecordProof | tools/attest_qmt_daily_kline.py:1007-1087 | on any database a completion marker appears only over a pending proof equal to the present one |
| CollationMigration.Server.Finish | tools/attest_qmt_daily_kline.py:1124-1167 | the same for the third transaction, and the table is done |
| CollationMigration.Server.Convert | tools/attest_qmt_daily_kline.py:1091-1123 | a table is converted only from a recorded, unchanged proof |
| CollationMigration.Server.Migrate | tools/attest_qmt_daily_kline.py:982-1184 | from every cut-off point an uninterrupted run brings all tables to the target; rows and foreign markers never change, and every completion marker is inserted by the rule; a run over converted tables changes nothing |
| CollationMigration.Server.MigrateAfterCrashes | tools/attest_qmt_daily_kline.py:982-1184 | the same from a fresh schema on, after any number of runs that died anywhere |
| SchedulerRestore.ClaimsApart | deploy/production_governance_contract_recovery.py:698-758 | once the identity checks pass, no row and no id is claimed by two identities |
| SchedulerRestore.RestoredMeetsPromise | deploy/production_governance_contract_recovery.py:1019-1118 | each identity has exactly its sealed row or none, and no other row changes |
| SchedulerRestore.SealedByColumn | deploy/production_governance_contract_recovery.py:1019-1118 | after a restore each sealed job's row has the sealed value in every column, with null in a column the snapshot did not know |
| SchedulerRestore.OnlySealedLeft | deploy/production_governance_contract_recovery.py:698-758 | and no other row is left under a job's sealed id, with one of its names or with its script |
| SchedulerRestore.OthersAsTheyWere | deploy/production_governance_contract_recovery.py:1019-1118 | and a row about none of the jobs is as it was |
| SchedulerRestore.CheckByColumn | deploy/production_governance_contract_recovery.py:698-758 | the check before it passes exactly when at most one row is about the job, under the sealed id, with its own name and script, and with nothing in a column the snapshot did not know |
| SchedulerRestore.RestoreTwice | deploy/production_governance_contract_recovery.py:949-1127 | a restored table passes the checks again and a second restore changes nothing |
| SchedulerStore.UpdateSeals | deploy/production_governance_contract_recovery.py:1061-1108 | the assignments of changed columns, with the update time preserved, turn the live row into the sealed one |
| SchedulerStore.AlreadySealed | deploy/production_governance_contract_recovery.py:1062-1075 | no changed column means the row already is the sealed one, so the identity error cannot fire |
| SchedulerStore.IsRestoredUnique | deploy/production_governance_contract_recovery.py:1019-1118 | the promise determines the restored table |
| SchedulerStore.Scheduler.LiveRow | deploy/production_governance_contract_recovery.py:734-785 | the lookup accepts exactly a unique row under the sealed id with the identity's own name and script |
| SchedulerStore.Scheduler.Verify | deploy/production_governance_contract_recovery.py:788-835 | verification accepts exactly the sealed state |
| SchedulerStore.Scheduler.Restore | deploy/production_governance_contract_recovery.py:991-1127 | restore succeeds exactly when the checks before it pass, its closing verification never trips, and it reports no change exactly when there was none |
| SchedulerStore.Scheduler.RestoreAgain | deploy/production_governance_contract_recovery.py:991-1127 | restoring twice: the second time nothing changes |
| InputScan.RunMeansField | integrations/qmt_login_profile.py:178-193 | a run of 32 tall columns is the bottom edge of a 32 by 12 blank block, and the other way round |
| InputScan.HasExtraInput | integrations/qmt_login_profile.py:178-193 | the sweep raises if and only if such a block lies in the form body, for every frame |
| Caret.CyclesAreTransitions | integrations/qmt_login_profile.py:303-312 | with two patches, four transitions are exactly an A-B-A-B-A subsequence |
| Caret.FullWhenCounted | integrations/qmt_login_profile.py:294-298 | the changed pixels fill their bounding rectangle exactly when there are as many of them as its area |
| Caret.FindChanges | integrations/qmt_login_profile.py:280-291 | the first pass finds all pixels that ever change, or stops for an unsteady pixel or too many changes |
| CaretDetector.CollectPatches | integrations/qmt_login_profile.py:299-311 | the second pass collects the distinct patches and counts the transitions, or finds a third patch |
| CaretDetector.PatchesDecide | integrations/qmt_login_profile.py:299-317 | the conditions on frames are the conditions on what they show at the changed pixels |
| CaretDetector.BlinkCaret | integrations/qmt_login_profile.py:259-317 | returns a rectangle if and only if it is a caret: a steady bar, alone in changing, through two cycles of exactly two patches |
| CaptureChecks.CheckCapture | integrations/qmt_login_profile.py:36-193 | on a captured form: the search raises if and only if some 32 by 12 block of columns 13 to 612 and rows 198 to 431, off the two input boxes and the two buttons, has all its colour bytes at 255 |
| CaptureChecks.LocateCaret | integrations/qmt_login_profile.py:36-317 | on captures, in bytes: a rectangle is returned if and only if there is a caret, and it is one: exactly where any colour byte of the region ever changes, never by less than 90 at a pixel, one or two wide and 8 to 24 high, through two cycles of exactly two patches, both of one colour each or one of a colour of at most 128 |
| LoginGuard.GuardedMeans | integrations/windows_terminal_recovery.py:124-169 | in a guarded history two submissions of one revision have an authenticated window between them |
| LoginGuard.GuardReach | integrations/windows_terminal_recovery.py:124-232 | from any state file on, recoveries that read these credential revisions never submit one twice without an authenticated window between, however their locked sections interleave, whatever the drivers answer and wherever they die, if and only if no revision comes back after another one |
| LoginGuard.ScheduleCovers | integrations/windows_terminal_recovery.py:124-232 | what makes it so: the guard covers every open submission that is still to come again |
| LoginGuard.RelapseRuns | integrations/windows_terminal_recovery.py:124-232 | the failing run for every other sequence of revisions, session by session |
| LoginGuard.Recovery.Submit | integrations/windows_qmt_login.py:697-726 | the guard is durable before the click, wherever the driver stops, and marks a rejection once that is known; what the file and the history hold then, case by case |
| LoginGuard.EnteredSubmits | integrations/windows_terminal_recovery.py:124-169 | a recovery submits exactly the revision in force, exactly when it finds the login window, is prepared, the guard neither names that revision nor is unreadable, and the driver lives to click |
| LoginGuard.EnteredSees | integrations/windows_terminal_recovery.py:124-169 | it counts a session as seen only where the driver shows one, or confirms the one just opened |
| LoginGuard.Recovery.RecoverSession | integrations/windows_terminal_recovery.py:124-174 | one recovery, its two locked sections in order, dying anywhere |
| LoginGuard.Recovery.Rotate | integrations/windows_terminal_recovery.py:199-232 | a rotation withdraws the guard of the session it has seen, then recovers |
| LoginGuard.Recovery.Live | integrations/windows_terminal_recovery.py:124-232 | any interleaving of sections, carried out |
| LoginGuard.Recovery.CredentialReturns | integrations/windows_terminal_recovery.py:124-232 | the shortest failing run in whole sessions: a credential comes back after another one and is submitted again |

## Left out

- Install transaction: timestamps of the env file (a crash between the replace and the utime loses them), size limits, UTF-8 decoding, directory syncs, link and reparse checks, the certificate check and the stage's parent directory.
- Install transaction: the first prepare's individual refusal codes are one code; what a failed atomic write deletes of its own scratch file is not modelled; a machine without a stage directory is not a starting point.
- InstallDisk.LoadAccepts: the option-file policy is any predicate, its parser is not modelled.
- Hand-off: policy-rejected requests and the HTTP path, whose guarantees are weaker; the contents of the heartbeat, size limits, the live snapshot plan and the Linux ingest entry.
- BatchCommit.Committed: how event partitions are replaced and the second table of reference data are any `write` function; its imperative form covers the datasets written row by row. The upsert of a promoted finance row never refuses. Receipt times other than the batch's are left out, and so is pruning of stale states.
- HandoffRunner.Runner.RecoverQmt: a request's dataset and database are one; ids are ordered as their file names are.
- NativeResult.ExecuteRequest: the shapes of native containers are three cases (rows, a value or type error, any other exception), and a snapshot tick that is not an object counts as absent; row serialisation is not modelled.
- NativeResult.NormalizeBatch: the conversion of one row and the activity check of daily rows are parameters; wrong-request errors raised before the loop are not modelled.
- MinuteUpsert.UpsertRow: the tick branch that ignores older quotes is not modelled, since minute rows never take it; generated ids and type conversion are left to the database.
- FlowPublication.Publisher.Publish: the rows' other columns are one content field and their required columns one flag.
- FinanceRevisions.FinanceStore.AppendRevision: a source's time text is already parsed; hashes, receipt columns and publication text are not modelled.
- DayPlanning.CandidateDays: the checksum is any function, and `CollisionFree` names the key sets it must tell apart; rows of other sources are already filtered out.
- CollationMigration.Server.Migrate: other schema checks and the digest's byte encoding are not modelled; other writers are kept out, as the program demands.
- SchedulerStore.Scheduler.Restore: `IsPayload` stands for the checks that reading a sealed snapshot makes; values are already JSON-normalised; stable verification, forward snapshots and the enabled policy are not modelled.
- InputScan.HasExtraInput: the other profile checks (banner digest, perimeters, guards, checkboxes) compare fixed pixels and would only add easy members.
- CaretDetector.BlinkCaret: the changed pixels are read in any order, not sorted; capture timing belongs to the driver.
- LoginGuard.Recovery.RecoverSession: the driver is an oracle; the recovery lock excludes other processes while it is held.
- Win32 and COM drivers, SSH scripts, crawlers, one-off installers and print-only tools are not modelled.
