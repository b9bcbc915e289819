# Verification of AgentlensPro's safety-critical logic

Dafny models of the parts of AgentlensPro whose mistakes are expensive, with proofs of what they promise. Every
function of the model does what the cited code does, branch by branch; code that changes state step by step is
modelled by methods and classes that are proved against a specification, and the promises are proved about that
specification, over all inputs and all runs.

| files | part of the program |
|---|---|
| `JsonTree`, `ConfigEdit`, `ConfigDiffTheorems`, `ConfigApplyTheorems`, `ConfigEffects`, `ConfigReapply` | the transactional config editor, on values: declared operations, what each leaves behind, and the structural diff that judges their result |
| `ConfigSharing`, `ConfigSharingTheorems`, `ConfigRetry` | the same operations in place: the values they share with the tree, and what a later operation or a retry makes of that |
| `ConfigProtocol`, `ConfigTransaction`, `ConfigRuns`, `ConfigWitnesses` | the lock-snapshot-stage-recheck-replace-audit protocol as a state machine over any number of processes, what holds in its runs, and inputs on which promises fail |
| `AccountTimeline`, `AccountSegments`, `AccountRoster`, `SampleLog`, `StableSort`, `Decimal` | the change-compressed account-state timeline, its buffered writer, and its three readers: binary search, half-open segments, departure roster, each against the log of all samples |
| `IndexLine`, `JsonText`, `BodyArchive` | the crash-safe append-only body archive and its JSON-lines index |
| `BodiesActivity`, `Thrash` | the incremental directory watch and the thrash attribution over its response ring |
| `CacheBreak`, `CacheBreakVerdicts` | the cache-break classifier, and the verdicts cause by cause |
| `Admission` | the admission controller |
| `UsageWindows`, `WindowBudget`, `BudgetFigures`, `Calibration`, `CalibrationGuards`, `Sums` | rolling consumption, budgets per account and pooled, auto-calibrated capacities |
| `BurnInvestigator`, `TemporalGroups`, `StripSource`, `StripPieces` | spike clusters and burst density, replay grouping, the comment and string stripper |
| `Wrappers` | Option and Result |

Main results:

- Config editor: in every run the file is the initial content with the recorded writes replayed, each commit being what
  its process's operations, as its earlier attempts left them, make of exactly what it overwrote
  (`ConfigTransaction.FileIsReplayOfHistory`, `EditorsComposeSerially`). Every commit is as declared for lists that share
  nothing (`RunsAsDeclared`), and for a set and a second operation if and only if the two do not double
  (`RunsAsDeclaredIff`). Settings nobody declared read as the last foreign writer left them (`ForeignSettingsSurvive`).
  The structural diff protects a path if and only if it is not shadowed (`ForeignPathsProtected`) and accepts what
  admissible operations produce, in every run (`AppliedOpsAccepted`, `AdmissibleNeverRejected`). A removal leaves exactly
  what does not mention its needle, also in the content a retry finds (`RemovalKeepsTheRest`, `CommittedRemoval`).
- Timeline: the compressed log refines the full sample log (`TimelineRefinesSampleLog`), segments and binary search
  agree (`SegmentsAgreeWithBinarySearch`) and follow the samples (`SegmentsFollowSamples`), and a window is inferred empty
  exactly when it may be and the timeline has not shown this machine on the account since the reset (`RolledIffAway`);
  any other percentage is the reading's own, labelled exact or lower bound by its age (`WindowReportsTheReading`).
- Archive: after any appends and crashes exactly the visible entries are listed (`IndexListsVisible`) and each reads
  back to its original (`ListedEntriesReadBack`).
- Watch: polling and the pruning between polls equal a full scan (`BodiesActivityTracker.Poll`, `PruneRings`), and reports
  accuse exactly the sessions that thrash (`Thrash.Report`).
- Classifier: a turn is left to timing exactly when everything is carried over (`TimingIffCarriedOver`), and every cause is
  given on exactly its own condition (`TimingVerdict`, `CatalogVerdict`, `ParameterVerdict`, `ToggledToolsVerdict`,
  `StructureBeforeContent`); a spliced-in or removed block is the one blamed (`InsertedBlockBlamed`, `RemovedBlockBlamed`).
- Budgets: account figures add up to the pool (`BudgetsAddUpToPool`), each cap rules its own window
  (`CapsRuleTheirWindows`), a pooled budget borrows a capacity only from the
  sole burner (`PooledObservedIffSoleBurner`), stored capacities are order-free maxima (`StoredIsLargestMeasured`).
- Grouping: greedy groups are the fewest (`GreedyUsesFewestGroups`), clusters are the only maximal chains
  (`ClustersUnique`), the two-pointer burst is the true peak (`Burst`).
- Stripper: all code stays, and comments and literals are emptied down to their newlines (`StripsPieceByPiece`).

Where the code does not keep what its comments or documentation say, the model follows the code; one lemma states exactly
when the promise holds and another gives an input on which it fails:

- A `set` shares its value with the tree, so operations below it edit the declared value, and the next attempt starts from
  the edited one: a retry can append twice (`RetryAsDeclaredIff`, `RunsAsDeclaredIff` for two operations and any
  number of attempts; `RetryAppendsTwice`, `RetryCommitsTwice`, `ThreeOperationsShare`), and the check of a `set`
  compares the tree with the edited value (`SetPassesItsCheck`; `DeletedBelowSetIsStaged`).
- A key spelled `<empty-dict>` beside the way to a target counts as covered, so the diff does not protect it
  (`ForeignPathsProtected`; `MarkerKeyChangesUnnoticed`).
- Setting or appending through a null replaces the null, and the diff then rejects the program's own result
  (`SingleOpAcceptedIffClean`; `NullParentRejected`).
- A removal is meant to drop an element emptied of its own entries; it also drops one whose nested array was empty
  before, whoever it belongs to (`OnlyOursTakenIff`; `EmptyGroupTaken`).
- Setting a null below missing objects builds them and reports no change (`ChangeReportedIff`; `SilentNullSet`).
- An "append unique" applied twice appends twice when its needle occurs neither in its own value nor in the array
  (`ReapplyIsNoOpIff`; `AppendUniqueTwice`).
- The change key of the timeline is documented as everything except the moving parts; e-mail and lifetime source do
  not take part in it, and an absent account shares its key with one literally named `∅` (`SameKeyIffSameState`;
  `EmailAloneIsNoChange`, `SymbolTakenForNone`).
- The roster is meant never to under-report; a key that is only an e-mail is missing when none of its samples changes
  the state (`RosterCompleteIff`; `SecondEmailUnlisted`).
- A window is inferred empty because "this machine was already off the account", on a different one; a state without an
  account id counts as being off it, even with the account's own e-mail, and a state in which nobody can be identified is
  listed as an account "unknown" (`RolledMeansElsewhereIff`, `RolledMeansSampledElsewhereIff`; `UnresolvedCountsAsAway`,
  `OwnEmailCountsAsAway`).
- "None with headroom" is also the verdict when no account is known at all (`SelectAccountsWithHeadroom`; `NobodyKnown`).
- A tool catalog that repeats a name with two definitions is reported as changed when it is not, and a change of the
  second definition goes unnoticed and is put down to timing (`UnchangedToolsQuietIffCoherent`,
  `ChangesNoticedIffCoherent`, `TimingMeansUnchangedIffCoherent`; `RepeatedNameLooksChanged`, `RedefinedRepeatUnnoticed`).
- A spent lower bound is meant to say nothing about the time left; it says "0 minutes" when the cost bound is not
  passed although the token bound is, and it rounds the last seconds before the bound down to that too
  (`SpentBoundSaysZeroIff`; `SpentBoundSaysZeroWitness`, `NearlySpentSaysZero`).
- The window a calibration measured can itself be reported as exceeding it, through rounding
  (`FreshCalibrationExceededIffRoundedDown`; `ExceedsItselfWitness`).
- A line continuation in a template literal loses a line (`StrippedNewlines`; `ContinuationLosesLine`).

`dafny verify dfyconfig.toml` checks the whole project.

## Model

| member | source | states |
|---|---|---|
| JsonTree.FlattenIsLeafTable | scripts/safe_config_edit.py:99-109 | the flattened table holds, under every path, exactly the leaf an independent path-by-path definition finds there, and nothing else |
| JsonTree.FlattenDeterminesTree | scripts/safe_config_edit.py:99-109 | two trees with the same flattened table are the same tree: flattening loses nothing the diff would have to see |
| JsonTree.LeavesDetermineTree | scripts/safe_config_edit.py:99-109 | a tree is determined by its leaves |
| JsonTree.Walk | scripts/safe_config_edit.py:155-174 | following a path segment by segment through objects ends at the subtree the path names, or reports it absent |
| ConfigEdit.ApplyAllFails | scripts/safe_config_edit.py:226-337 | on values: once a prefix of the operations fails, no later operation can change the outcome |
| ConfigEdit.VerifyDiff | scripts/safe_config_edit.py:127-220 | accepts exactly when no uncovered leaf was lost, changed or invented and every operation holds its own postcondition, up to what later operations put back |
| ConfigDiffTheorems.DiffComparesLeaves | scripts/safe_config_edit.py:131-140 | the three offender lists are empty exactly when every leaf outside the operation paths is untouched |
| ConfigDiffTheorems.AcceptedDiffKeepsForeign | scripts/safe_config_edit.py:127-147 | an accepted diff of any two trees leaves the subtree at a foreign path identical, present or absent alike |
| ConfigDiffTheorems.ForeignPathsProtected | scripts/safe_config_edit.py:112-124 | a path incomparable with all operation paths is protected by every accepted diff if and only if it is not a key spelled like the empty-object marker beside the way to a target |
| ConfigDiffTheorems.AcceptedDiffGuarantee | scripts/safe_config_edit.py:127-147 | the documented guarantee: with no key spelled like the marker, nothing outside the declared paths differs |
| ConfigApplyTheorems.EditTarget | scripts/safe_config_edit.py:226-337 | the value under the target path after an edit is what the operation makes of the value before it |
| ConfigApplyTheorems.EditFrame | scripts/safe_config_edit.py:226-337 | an edit leaves every subtree at an incomparable path as it was |
| ConfigApplyTheorems.EditSpine | scripts/safe_config_edit.py:226-264 | an edit never puts a null on the way to its target, and a creating one leaves objects there |
| ConfigApplyTheorems.EditLeaves | scripts/safe_config_edit.py:226-337 | every leaf not covered by the operation path keeps its value, unless a null on the way was replaced |
| ConfigApplyTheorems.KeptMentionsNothing | scripts/safe_config_edit.py:309-323 | after a removal no element the removal answers for mentions the needle, nested arrays included |
| ConfigEffects.RemovalKeepsTheRest | scripts/safe_config_edit.py:309-334 | after a removal the target holds, in order, exactly what survives of the elements it held: unmentioned elements as they were, and of an element with the nested array all its other keys and the unmentioned part of that array; only an emptied array that was to be pruned is gone |
| ConfigEffects.RemovalCounts | scripts/safe_config_edit.py:309-322 | without a nested key every value occurs as often as before, or not at all if it mentions the needle |
| ConfigEffects.OthersStayAsTheyWere | scripts/safe_config_edit.py:312-322 | an element that survives and of which nothing mentions the needle is left unchanged |
| ConfigEffects.OnlyOursTakenIff | scripts/safe_config_edit.py:312-318 | a removal takes nothing but what mentions its needle, whatever the needle, exactly when no element of the array has an empty nested array |
| ConfigEffects.EmptyGroupTaken | scripts/safe_config_edit.py:315-318 | a hook group without hooks that is dropped although nothing of it mentions the needle |
| ConfigEffects.RemovalInList | scripts/safe_config_edit.py:226-334 | wherever it stands in a list whose other operations work elsewhere, a removal leaves exactly what survives of the array in the original |
| ConfigEffects.RemovalInAttempt | scripts/safe_config_edit.py:226-334 | the same for the operations in place, whatever values an attempt starts from |
| ConfigEffects.SetAndDeleteHold | scripts/safe_config_edit.py:229-257 | after a set the target holds its value and after a delete nothing; only a null set where nothing was leaves nothing |
| ConfigEffects.AppendAddsLast | scripts/safe_config_edit.py:258-279 | an append keeps every entry in its place and adds its value behind them, unless one of them mentions its needle |
| ConfigEffects.FailsIff | scripts/safe_config_edit.py:226-337 | an operation fails exactly when its kind or needle is bad, its path is empty, something that is no object stands in the way of what it would build, or its target has to be an array and is not |
| ConfigEffects.ChangeReportedIff | scripts/safe_config_edit.py:226-337 | a reported change is one, and an unreported one is none, except that setting a null silently builds the missing objects on its way |
| ConfigEffects.SilentNullSet | scripts/safe_config_edit.py:229-244 | a null set that builds an object and reports no change |
| ConfigDiffTheorems.RemovalAcceptedIff | scripts/safe_config_edit.py:169-220 | a removal passes the diff exactly when every element it answers for that still mentions the needle was put back by a later operation on the same path |
| ConfigApplyTheorems.AppliedOpHolds | scripts/safe_config_edit.py:149-220 | right after it ran, an operation passes its own postcondition, except exactly a null set on an absent key |
| ConfigApplyTheorems.NullLossRejected | scripts/safe_config_edit.py:127-147 | setting or appending through a null makes the diff reject the result |
| ConfigApplyTheorems.SingleOpAcceptedIffClean | scripts/safe_config_edit.py:127-337 | the result of one successful operation is accepted if and only if no null stands on the way of a creating operation and no null is set on an absent key |
| ConfigApplyTheorems.CleanStaysClean | scripts/safe_config_edit.py:226-337 | running one operation does not spoil the preconditions of a later compatible one |
| ConfigApplyTheorems.RemovalHeldAfterAppend | scripts/safe_config_edit.py:183-220 | the re-registration case: a removal followed by an append on the same path still passes the removal check on the final tree |
| ConfigApplyTheorems.HeldStaysHeld | scripts/safe_config_edit.py:149-220 | a postcondition that holds survives every compatible operation that runs later |
| ConfigApplyTheorems.AppliedOpsAccepted | scripts/safe_config_edit.py:127-337 | whatever a list of clean, pairwise compatible operations produces, the structural diff accepts |
| ConfigReapply.KeptTwice | scripts/safe_config_edit.py:312-322 | filtering an array for a needle a second time removes nothing, nested arrays and dropped husks included |
| ConfigReapply.ReapplyIsNoOpIff | scripts/safe_config_edit.py:226-337 | an applied operation applies again and reports no change, if and only if it is not an append whose needle occurs neither in its own value nor in the array it found |
| ConfigSharing.ApplyOps | scripts/safe_config_edit.py:226-337 | the loop over the operations, in place: set puts the operation's own value object into the tree, and the values are handed on as later operations left them |
| ConfigSharing.ShowEdit | scripts/safe_config_edit.py:226-337 | read as trees, an edit in place is the edit on values, carried out with the value the operation holds when its turn comes |
| ConfigSharing.AttemptIsUsed | scripts/safe_config_edit.py:226-337 | whatever values an attempt starts from, it applies operations of the declared kinds and paths to the tree |
| ConfigSharingTheorems.FirstAttemptIsDeclared | scripts/safe_config_edit.py:226-337 | an attempt on values as declared has exactly the outcome of the declared operations, for every list of operations and every tree |
| ConfigSharingTheorems.ApartKeepsValues | scripts/safe_config_edit.py:226-243 | when no operation reaches into a container set before it, an attempt leaves every value as declared for the next one |
| ConfigRetry.SetPassesItsCheck | scripts/safe_config_edit.py:152-161 | a set that changed something and is not replaced later passes its own check, whatever later operations did to the value it set |
| ConfigRetry.AttemptLeaves | scripts/safe_config_edit.py:226-337 | an attempt of two operations leaves the value of a leading set as it found it, or edited inside by the second, and surely edited when the tree did not hold it before |
| ConfigRetry.RetryAsDeclaredIff | scripts/safe_config_edit.py:631-650 | for a set followed by any operation, after any number of cancelled attempts in the same process an attempt computes what was declared and fails exactly when that fails, whatever the contents, if and only if the second is not an append into the value the first one sets that recognises neither its own value nor what it finds there |
| ConfigRetry.SettledRetry | scripts/safe_config_edit.py:631-650 | a first attempt, and every later one of a list that shares nothing or of two operations that do not double, has the outcome of the declared operations |
| ConfigWitnesses.DeletedBelowSetIsStaged | scripts/safe_config_edit.py:152-161 | a key set and deleted below its parent in one list: staged, although the declared value is not there |
| ConfigWitnesses.RetryAppendsTwice | scripts/safe_config_edit.py:631-650 | a two-operation list whose retry appends its value a second time |
| ConfigWitnesses.RetryCommitsTwice | scripts/safe_config_edit.py:428-463 | the run in which that retry passes every gate and is committed |
| ConfigWitnesses.ThreeOperationsShare | scripts/safe_config_edit.py:631-650 | a three-operation list whose retry differs although no two of its operations do so by themselves |
| ConfigWitnesses.MarkerKeyChangesUnnoticed | scripts/safe_config_edit.py:112-124 | a setting under a key spelled like the empty-object marker whose change the diff accepts |
| ConfigWitnesses.NullParentRejected | scripts/safe_config_edit.py:229-243 | setting below a null succeeds and the diff rejects the result |
| ConfigWitnesses.AppendUniqueTwice | scripts/safe_config_edit.py:258-279 | an append applied twice that leaves its value in the array twice |
| ConfigTransaction.FileIsReplayOfHistory | scripts/safe_config_edit.py:428-478 | in every run of editors and foreign writers the file equals the initial content with the recorded writes replayed in order; each commit is what its process's operations make of exactly the content it overwrote, with their values as its earlier attempts left them |
| ConfigTransaction.EarlierWasHeld | scripts/safe_config_edit.py:631-650 | the contents those earlier attempts are recorded to have edited were indeed in the file |
| ConfigTransaction.MutualExclusion | scripts/safe_config_edit.py:361-400 | at most one process is ever between taking and releasing the lock |
| ConfigTransaction.CommittedExactlyOnce | scripts/safe_config_edit.py:631-650 | a finished process wrote the file exactly once if it reported a change and never otherwise, within its attempt budget |
| ConfigTransaction.CommitEditsWhatItOverwrites | scripts/safe_config_edit.py:428-463 | the replace step puts in place an edit of the very content it finds, the outcome of a retry after the recorded attempts, verified against the values the operations then hold; the operations are the declared ones on a first attempt or when none reaches into a value set before it |
| ConfigTransaction.AdmissibleNeverRejected | scripts/safe_config_edit.py:127-220 | an editor whose operations are clean and pairwise compatible on every content it edits never ends in a failed verification, in any run |
| ConfigTransaction.AuditNeverRollsBack | scripts/safe_config_edit.py:470-478 | the post-commit audit passes in every run, so no backup is restored over somebody else's content |
| ConfigTransaction.DamagedCommitIsRolledBack | scripts/safe_config_edit.py:470-477 | a commit damaged before its audit is rolled back to exactly what it had overwritten, if there is a backup of that |
| ConfigTransaction.CancelledWhenExhausted | scripts/safe_config_edit.py:631-650 | a process gives up on concurrent changes only after the declared number of attempts, one at least |
| ConfigTransaction.AttemptsCountOvertakings | scripts/safe_config_edit.py:631-650 | every attempt after the first, and every cancellation, is due to another content found at the last look: attempts are one more than those findings, and as many once the process has given up |
| ConfigTransaction.FirstLook | scripts/safe_config_edit.py:406-440 | what a first look at the file leads to: refusal of a missing or unreadable one, the failure of the operations, no change, a rejection, or a staged edit of exactly that content |
| ConfigTransaction.CommittedRemoval | scripts/safe_config_edit.py:312-334 | a committed removal left exactly what survives of the array in the content the commit overwrote, also when that changed since an earlier attempt |
| ConfigTransaction.NoDeadlock | scripts/safe_config_edit.py:372-400 | while no process was killed, an unfinished process means some editor can take a step |
| ConfigTransaction.CommitsCompose | scripts/safe_config_edit.py:428-478 | replaying commits alone is applying the concatenated operation lists they used |
| ConfigTransaction.EditorsComposeSerially | scripts/safe_config_edit.py:428-478 | when only editors wrote, the file is the initial tree with the operation lists of all commits applied in commit order; cancelled transactions contribute nothing |
| ConfigRuns.CommittedAsDeclared | scripts/safe_config_edit.py:631-650 | those lists are the declared ones when every commit was a first attempt or of a list none of whose operations reaches into a value set before it |
| ConfigRuns.RunsAsDeclared | scripts/safe_config_edit.py:631-650 | when every retried job reaches into no value it set before, or has two operations that do not double, the file is the initial content with every commit replayed as its declared operations on what it overwrote |
| ConfigRuns.RunsAsDeclaredIff | scripts/safe_config_edit.py:631-650 | however many editors run a list of a set and a second operation, every commit of every run is what the declared operations make of the content it overwrites, if and only if the list does not double |
| ConfigRuns.SecondAttemptCommits | scripts/safe_config_edit.py:631-650 | an editor whose attempts are staged before and after a foreign write commits the second one |
| ConfigTransaction.ForeignSettingsSurvive | scripts/safe_config_edit.py:428-478 | a setting no editor declared always reads as in the last foreign write, or as in the initial file before any |
| ConfigProtocol.StepKeepsInv | scripts/safe_config_edit.py:361-478 | every step of every process, a kill and a foreign write included, keeps the protocol invariant |
| ConfigProtocol.RunKeepsInv | scripts/safe_config_edit.py:361-478 | the protocol invariant holds in every reachable state |
| ConfigProtocol.DraftIsEdit | scripts/safe_config_edit.py:428-447 | what is staged is a verified edit of the snapshot, by the declared operations on a first attempt or when none reaches into a value set before it |
| ConfigProtocol.AdmissiblePasses | scripts/safe_config_edit.py:428-447 | operations admissible on the snapshot pass the diff, on every attempt |
| AccountTimeline.JoinInjective | src/accountStateTimeline.ts:95-97 | joining fields with a separator none of them contains loses no information |
| AccountTimeline.KeyText | src/accountStateTimeline.ts:93-97 | the change key is the five fields joined by the control character 1, with the symbol for none in place of a missing account |
| AccountTimeline.SameKeyIffSameState | src/accountStateTimeline.ts:93-97 | two records have the same change key exactly when account, mode, plan, regime and cache lifetime agree; e-mail and lifetime source do not take part |
| AccountTimeline.RecordHoldsObservation | src/accountStateTimeline.ts:78-91 | a record holds what was observed, field by field; a missing e-mail is replaced by the display name, the start of the id, or "unknown" |
| AccountTimeline.AccountStateTimeline.constructor | src/accountStateTimeline.ts:121-130 | a writer started on a file continues the change log that file holds |
| AccountTimeline.AccountStateTimeline.Record | src/accountStateTimeline.ts:135-145 | file plus buffer is always the change sequence of all samples, the byte count is the size of the buffer, and a full buffer is written or kept whole |
| AccountTimeline.AccountStateTimeline.Flush | src/accountStateTimeline.ts:149-170 | a flush moves the whole buffer to the file or, when the write fails, keeps it in order with nothing lost or doubled |
| AccountTimeline.ChangesAlternate | src/accountStateTimeline.ts:135-145 | no two neighbouring timeline records describe the same state |
| AccountTimeline.KillLosesOnlyTheBuffer | src/accountStateTimeline.ts:111-190 | after a kill the file is the timeline of the sample log up to the first lost change |
| AccountTimeline.Serve | src/accountStateTimeline.ts:111-190 | over samples, timer ticks and restarts with any write failures, nothing is lost as long as the flush before each restart succeeds |
| AccountTimeline.ResolveStateAt | src/accountStateTimeline.ts:268-276 | the binary search returns the last record not later than the instant on a sorted timeline, and never a later one on any timeline |
| AccountTimeline.TimelineRefinesSampleLog | src/accountStateTimeline.ts:135-145 | the compressed timeline answers every instant with the same discrete state as the full sample log |
| AccountTimeline.FileAnswersUpToTheBuffer | src/accountStateTimeline.ts:268-276 | reading the file alone is exact for every instant before the first change still buffered |
| SampleLog.AccountAtRefines | src/accountStateTimeline.ts:135-145 | the compressed timeline names the same account at every instant as the log of all samples |
| SampleLog.SegmentsFollowSamples | src/accountBurners.ts:29-41 | before now, an instant lies in an account's segments exactly when the last sample at or before it names the account |
| SampleLog.RolledMeansNeverSampled | src/allAccounts.ts:162-203 | an inferred-empty window is sound against the full log: from its reset on no sample in force names the account |
| SampleLog.ChangesAreRecorded | src/accountStateTimeline.ts:135-145 | the timeline holds exactly the samples whose key differs from the sample before |
| SampleLog.AccountsWithIdAreListed | src/accountStateTimeline.ts:241-266 | every sampled account that has an id is in the roster |
| SampleLog.RolledMeansSampledElsewhereIff | src/allAccounts.ts:193-203 | by the log of all samples the machine was on another account ever since the reset of an inferred-empty window, if and only if every sample in force since then carries an account id |
| SampleLog.RosterCompleteIff | src/accountStateTimeline.ts:241-266 | the roster lists every sampled key if and only if each one that is only an e-mail or a label starts some change of state |
| SampleLog.SecondEmailUnlisted | src/accountStateTimeline.ts:95-97 | two accounts known by e-mail only, of which the second never reaches the roster |
| SampleLog.SymbolTakenForNone | src/accountStateTimeline.ts:95-97 | an account named like the symbol for none, which the timeline takes for no account |
| SampleLog.EmailAloneIsNoChange | src/accountStateTimeline.ts:93-97 | a sample that differs in e-mail or lifetime source only is no change |
| StableSort.SortSorts | src/accountBurners.ts:30 | the sort orders by key and keeps the multiset of elements |
| StableSort.SortStable | src/accountBurners.ts:30 | elements with equal keys keep their relative order |
| AccountSegments.SegmentsFromRecords | src/accountBurners.ts:29-41 | the loop that closes the open segment in place computes the segments of the stably sorted records |
| AccountSegments.SegmentsShape | src/accountBurners.ts:29-41 | all segments but the last are closed by the last record's instant, and the last is open exactly when the last record names its account |
| AccountSegments.SegmentDescribesItsRecord | src/accountBurners.ts:29-41 | every segment carries the account, e-mail, plan and instant of a record that opened it |
| AccountSegments.SegmentsHoldTheAccount | src/accountBurners.ts:29-41 | some segment of an account holds an instant exactly when the last record at or before it names that account |
| AccountSegments.SegmentsPartitionTime | src/accountBurners.ts:202-203 | before now, an instant lies in an account's own segments exactly when the last record at or before it names the account, so in those of at most one account |
| AccountSegments.SegmentsAgreeWithBinarySearch | src/accountBurners.ts:29-41 | on a sorted timeline the segments and the binary search name the same account |
| AccountSegments.WindowListIsBucket | src/accountBurners.ts:209-213 | an account's window list is its bucket of the events with a resolved account |
| AccountSegments.WindowsSumToResolvedEvents | src/accountBurners.ts:209-213 | whatever figure is summed, the window lists of all accounts add up to the events with a resolved account |
| AccountRoster.ListAccountRoster | src/accountStateTimeline.ts:241-266 | the nested scan computes the roster entry by entry |
| AccountRoster.RosterDescribesAccounts | src/accountStateTimeline.ts:241-266 | each account that occurs has one entry: first seen at its first record, described by its last, left at the next record that names somebody else |
| AccountRoster.RolledMeansAway | src/allAccounts.ts:162-203 | an inferred-empty window is sound: from its reset instant on, the record in force never carries that account's key |
| AccountRoster.RolledIffAway | src/allAccounts.ts:162-240 | with distinct instants, a window is inferred empty if and only if there is a trusted reading of it, it has reset, the account is not live, and the timeline has not shown this machine on it since the reset |
| AccountRoster.WindowReportsTheReading | src/allAccounts.ts:162-212 | a percentage that is not inferred is the reading's own, with its own reset instant: exact exactly while the window has not reset and the reading is younger than ten minutes, a lower bound when it is older; nothing but an inference turns it into 0 |
| AccountRoster.ReadingIsTheAccountsOwn | src/allAccounts.ts:224-262 | a reading of another account changes nothing about an account |
| AccountRoster.RolledMeansElsewhereIff | src/allAccounts.ts:193-203 | "already off the account", meant as on another one (accountStateTimeline.ts:229-235), holds of an inferred-empty window if and only if every record in force since the reset carries an account id |
| AccountRoster.UnresolvedCountsAsAway | src/accountStateTimeline.ts:75-89 | the record written while no identity can be read: a window is inferred empty although nothing names another account, and the roster lists the state as an account "unknown" |
| AccountRoster.OwnEmailCountsAsAway | src/allAccounts.ts:162-203 | a window inferred empty although the records since the reset carry the account's own e-mail |
| AccountRoster.SelectAccountsWithHeadroom | src/allAccounts.ts:365-423 | splits the accounts by standing in order; "none" is claimed exactly when every account is positively spent, "available" exactly when one passes every gate |
| AccountRoster.WithStanding | src/allAccounts.ts:365-411 | each standing list holds exactly the accounts of that standing |
| AccountRoster.StandingMeans | src/allAccounts.ts:382-411 | an account is exhausted by one gate known to be at the threshold or above, and a match exactly when every gate is known and below it and none is missing |
| AccountRoster.ExclusionIsSafe | src/allAccounts.ts:354-362 | when reported percentages are lower bounds, an excluded account truly has a gate at the threshold or above |
| AccountRoster.NobodyKnown | src/allAccounts.ts:421-423 | with no account at all the verdict is that none has headroom |
| IndexLine.EncodeShape | src/bodyArchive.ts:52 | the text of an index entry is object-shaped and holds no newline, whatever characters the name has |
| IndexLine.PrefixUnfinished | src/bodyArchive.ts:65-67 | no proper prefix of an entry's text can be a complete JSON object |
| IndexLine.GluedFragmentUnfinished | src/bodyArchive.ts:65-67 | a fragment of a new entry glued to any complete or torn text never forms a complete object |
| IndexLine.EncodeInjective | src/bodyArchive.ts:52 | an index line determines its entry: no two entries have the same text, whatever characters their names hold |
| JsonText.LineText | src/bodyArchive.ts:52 | an index line is the JSON object with the name as n and offset, compressed length, size and time as o, l, s and m |
| JsonText.NamesReadBack | src/bodyArchive.ts:52 | a name, whatever its characters, is read back from its JSON text (section 7 of RFC 8259) |
| JsonText.NumbersReadBack | src/bodyArchive.ts:52 | a number is read back from its digits, which have no leading zero (section 6 of RFC 8259) |
| BodyArchive.SoundCodecExists | src/bodyArchive.ts:43-96 | the assumptions on compression and on the index reader can be met together, by a reader that like the program's does not mind white space or a newline behind an entry |
| Decimal.RenderInjective | src/bodyArchive.ts:52 | different numbers have different decimal texts |
| BodyArchive.LoadVolumeIndex | src/bodyArchive.ts:57-69 | the loop lists the parseable non-empty lines in order and skips the rest |
| BodyArchive.SplitJoins | src/bodyArchive.ts:61 | the index is cut at its newlines and nowhere else |
| BodyArchive.ReadMeans | src/bodyArchive.ts:83-95 | reading yields what unpacks from exactly the bytes the entry names, and fails when they are not all there or do not unpack |
| BodyArchive.RunKeepsState | src/bodyArchive.ts:43-54 | after any appends and crashes the index consists of finished lines and one tail that is empty, complete or can never become complete |
| BodyArchive.IndexListsVisible | src/bodyArchive.ts:43-69 | after any run the reader lists, in append order, exactly the entries whose line is whole and starts a line, plus a last one lacking only its newline; a torn line hides itself and what is glued to it, nothing else |
| BodyArchive.VisibleAreStored | src/bodyArchive.ts:43-54 | every visible entry points at exactly the compressed bytes of the body appended under its name |
| BodyArchive.ListedEntriesReadBack | src/bodyArchive.ts:84-96 | every listed entry reads back to the original body, never short |
| BodyArchive.UninterruptedAppendsVisible | src/bodyArchive.ts:43-81 | without a crash every append is listed, one for one and in order |
| BodyArchive.Archive.AppendToArchive | src/bodyArchive.ts:43-54 | an append extends exactly its month's volume and index by what survived the crash point, at the offset of the real current size |
| BodyArchive.Archive.ListArchiveEntries | src/bodyArchive.ts:72-81 | from the directory listing in any order: every volume's index once and whole, oldest volume first, and every body listed reads back as one that was appended |
| BodiesActivity.PruneScan | src/bodiesActivity.ts:234-240 | pruning a scan to a later floor gives the scan of that floor |
| BodiesActivity.LargeRingHolds | src/bodiesActivity.ts:200-217 | the large-request ring holds exactly the known request files of at least 400 kB in the window, with their own size, session and model, those over 1 MB marked as huge |
| BodiesActivity.ResponseRingHolds | src/bodiesActivity.ts:219-226 | the response ring holds exactly the usage of the known response files of at most 5 MB in the window that parse |
| BodiesActivity.RingAcrossPass | src/bodiesActivity.ts:179-240 | one ring after a pass is the full scan of all files known so far, the seeding cut-off notwithstanding |
| BodiesActivity.UnseenMeansNeverListed | src/bodiesActivity.ts:187-188 | when names never come back, a name not in the seen set was never listed before |
| BodiesActivity.NamesAcrossPass | src/bodiesActivity.ts:179-231 | no file is known twice, also after the seen set was rebuilt from the listing |
| BodiesActivity.BodiesActivityTracker.Examine | src/bodiesActivity.ts:191-225 | one new file adds one entry to the ring that takes it, or none |
| BodiesActivity.BodiesActivityTracker.RecordUnseen | src/bodiesActivity.ts:186-226 | a pass adds exactly the new names' entries and marks every listed name seen |
| BodiesActivity.BodiesActivityTracker.PruneRings | src/bodiesActivity.ts:234-244 | pruning between polls keeps the rings equal to full scans of all known files, and exactly the entries still inside their windows |
| BodiesActivity.BodiesActivityTracker.UpdateRings | src/bodiesActivity.ts:179-231 | the incremental update leaves both rings equal to full scans of all known files |
| BodiesActivity.BodiesActivityTracker.Poll | src/bodiesActivity.ts:179-231 | after every poll each ring holds one entry per qualifying file ever listed whose time is inside the ring's window |
| Thrash.GroupsAreExact | src/bodiesActivity.ts:305-312 | each source that occurs is tallied once, over all its misses and no others, and no rewritten token is lost |
| Thrash.Summarize | src/bodiesActivity.ts:313-336 | the scan over the tallies keeps the first source with the most misses, the unattributed pool and the cold starts |
| Thrash.TokensAccountedFor | src/bodiesActivity.ts:313-336 | unattributed, cold and thrashing sources together rewrote exactly what the misses did |
| Thrash.ReportThrash | src/bodiesActivity.ts:289-339 | a session is accused exactly when some session alone missed often enough, it is one with the most misses, unattributed misses accuse nobody; the cold starts are counted, and every rewritten token is in the pool, with the cold starts or with the thrashing sessions |
| Thrash.Report | src/bodiesActivity.ts:280-339 | a report between polls judges exactly the known response files in the window that wrote more than the minimum and read less than their share, counts each for its own session, accuses exactly when one session has enough of them, and leaves the rings as full scans |
| Thrash.MissByFields | src/bodiesActivity.ts:288-292 | a miss wrote more than the minimum and read less than its share of what it read and wrote, as a product |
| Thrash.ReadingMoreIsNoMiss | src/bodiesActivity.ts:288-292 | reading more never makes a miss, and a large write that reads nothing always is one |
| Thrash.MissesAreRewriting | src/bodiesActivity.ts:288-292 | the misses in the ring are the responses of the known files with those properties, in order |
| Thrash.FilesCounted | src/bodiesActivity.ts:305-312 | the misses counted for a source are as many as its files |
| Thrash.OneMoreMiss | src/bodiesActivity.ts:294-312 | one more miss counts once for its own source and for the whole, by the tokens it wrote |
| CacheBreak.DiffBlocksByPosition | src/cacheBreakTimeline.ts:732-839 | the positional loop returns the verdict on the first divergence, or on the dropped tail |
| CacheBreak.BlocksQuietIffExtension | src/cacheBreakTimeline.ts:732-839 | the block diff is silent if and only if the old prefix, billing headers aside, is a prefix of the new one |
| CacheBreak.InsertedBlockBlamed | src/cacheBreakTimeline.ts:774-820 | a single block with a fresh fingerprint spliced in before the end is the blamed one and its cause is named, unless the two turns belong to different conversations |
| CacheBreak.RemovedBlockBlamed | src/cacheBreakTimeline.ts:821-842 | a single removed block with a unique fingerprint is itself blamed if and only if it was the tail or no more specific rule claims its successor |
| CacheBreak.ToolsQuietIffRead | src/cacheBreakTimeline.ts:669-711 | the diff of two catalogs is silent if and only if the new one is the old one with every name standing for its first definition |
| CacheBreak.ToolsQuietIffSame | src/cacheBreakTimeline.ts:669-711 | for tools of one definition per name the diff is silent if and only if both catalogs list the same names and definitions in the same order |
| CacheBreak.ChangesNoticedIffCoherent | src/cacheBreakTimeline.ts:669-711 | the diff notices every change of a catalog exactly when the catalog does not repeat a name with two definitions |
| CacheBreak.UnchangedToolsQuietIffCoherent | src/cacheBreakTimeline.ts:703-710 | an unchanged catalog is reported as changed exactly when it repeats a name with two definitions |
| CacheBreak.RepeatedNameLooksChanged | src/cacheBreakTimeline.ts:706-709 | a catalog with a repeated name that differs from itself |
| CacheBreak.RedefinedRepeatUnnoticed | src/cacheBreakTimeline.ts:706-709 | a catalog with a repeated name one of whose definitions changes unnoticed |
| CacheBreak.StructurallyQuiet | src/cacheBreakTimeline.ts:875-960 | no structural verdict means model, tools as read and both block layers are carried over |
| CacheBreak.MessagesNeverMask | src/cacheBreakTimeline.ts:902-985 | layer precedence: what the message blocks hold never changes a verdict found in a higher layer, and decides exactly when there is none |
| CacheBreak.TimingOnlyWhenUnchanged | src/cacheBreakTimeline.ts:875-1004 | expiry, lookback overflow and growth are reported only when the whole cached prefix, its catalog as read, is unchanged up to new content at the end |
| CacheBreak.TimingMeansUnchangedIffCoherent | src/cacheBreakTimeline.ts:875-960 | no changed turn is left to timing exactly when the catalog before it does not repeat a name with two definitions |
| CacheBreak.TimingIffCarriedOver | src/cacheBreakTimeline.ts:902-985 | a turn is left to timing if and only if model, tools as read and both block layers are carried over, no explicit parameter and no region of the system prompt changed, and not both catalogs were registered anew |
| CacheBreakVerdicts.TimingVerdict | src/cacheBreakTimeline.ts:973-1009 | for a turn left to timing: expiry exactly when the gap is at least four and a half minutes; else an overflown lookback exactly when nothing was read, something was written and at least 20 blocks were added; else a cold start exactly when nothing was read; else growth exactly when the message list grew |
| CacheBreakVerdicts.TimingIgnoresContent | src/cacheBreakTimeline.ts:973-1009 | such a verdict depends on the turns only through their numbers of message blocks |
| CacheBreakVerdicts.NeverCachedIff | src/cacheBreakTimeline.ts:847-868 | a turn without cache activity is called disabled exactly when it carries no marker, and too small exactly when it carries one and is below the minimum of its model; no other turn is called so |
| CacheBreakVerdicts.FirstTurnIsColdStart | src/cacheBreakTimeline.ts:884-886 | the first turn of a session is a cold start unless it was never cached |
| CacheBreakVerdicts.InterleavedStream | src/cacheBreakTimeline.ts:887-901 | a request is told to belong to the stream before the last exactly when model and tools are those and not the ones of the last |
| CacheBreakVerdicts.CatalogVerdict | src/cacheBreakTimeline.ts:902-925 | a switched model is named first, and a reload exactly when two of tools, skills and agents were registered anew, in whatever order |
| CacheBreakVerdicts.ParameterVerdict | src/cacheBreakTimeline.ts:926-961 | of thinking, effort, tool choice, speed, working directory and repository state the first that changed is named; a parameter counts only when both turns give it, a region not for its dates alone |
| CacheBreakVerdicts.ToggledToolsVerdict | src/cacheBreakTimeline.ts:669-699 | when tools come or go exactly those are named: as loaded on demand, as servers, as the harness's own, or as a changed set |
| CacheBreakVerdicts.ReorderedToolsVerdict | src/cacheBreakTimeline.ts:700-704 | with the same names in another order the first tool out of place is named |
| CacheBreakVerdicts.ShortenedToolsVerdict | src/cacheBreakTimeline.ts:700-704 | when only repetitions were dropped from the end, the first tool is |
| CacheBreakVerdicts.RedefinedToolVerdict | src/cacheBreakTimeline.ts:705-709 | with the same names in the same order the first tool that is not what its name stood for is named |
| CacheBreakVerdicts.StructureBeforeContent | src/cacheBreakTimeline.ts:747-781 | where two lists of blocks first differ: compaction, a moved clock, another conversation and an exchange of places are recognised, in this order and exactly then |
| CacheBreakVerdicts.RewrittenBlockVerdict | src/cacheBreakTimeline.ts:782-821 | a block rewritten in place is blamed and named by its new content, kind by kind |
| CacheBreakVerdicts.InsertedBlockVerdict | src/cacheBreakTimeline.ts:782-807 | a block that was spliced in is blamed and named by its content, plain text as spliced |
| CacheBreakVerdicts.DroppedTailVerdict | src/cacheBreakTimeline.ts:823-836 | the first block of a dropped tail is blamed, as trimmed exactly when it belongs to the conversation, else by its content |
| CacheBreakVerdicts.OnlyMetaDropped | src/cacheBreakTimeline.ts:733-743 | nothing but the billing header is skipped |
| Admission.QueueServe | src/admissionController.ts:78-87 | serving the head of the line keeps every ticket accounted for and passes over nobody older |
| Admission.QueueDrop | src/admissionController.ts:64-69 | a timed-out waiter leaves the line without disturbing the order of the others |
| Admission.AdmissionController.constructor | src/admissionController.ts:32-41 | a new controller is empty and meets the invariant |
| Admission.AdmissionController.Enter | src/admissionController.ts:46-75 | admits, sheds or queues exactly under the stated conditions; in flight and queue stay bounded, and calls equal admitted plus shed plus waiting |
| Admission.AdmissionController.Leave | src/admissionController.ts:78-87 | a freed slot goes to the oldest waiter, and nobody is left waiting without a running request to wake it |
| Admission.AdmissionController.FireTimer | src/admissionController.ts:64-69 | a firing timer sheds exactly its own waiter; timers of promoted waiters are gone |
| Sums.BucketsSumToWhole | src/burnMonitor.ts:666-673 | the buckets of a group-by add up to the whole for any summed figure |
| UsageWindows.WindowSum | src/burnMonitor.ts:376-400 | the single accumulating pass computes every figure of the events in the closed window |
| BudgetFigures.OneMoreEvent | src/burnMonitor.ts:376-402 | an event counts exactly when it is stamped inside the closed window; it adds its own tokens and cost, and to each bucket its own field, or its tokens to the unknown one when it gives none |
| BudgetFigures.OneMoreOfAccount | src/burnMonitor.ts:666-671 | an account's events are those that carry it, in order |
| UsageWindows.BreakdownSums | src/burnMonitor.ts:388-396 | the breakdown misses the token figure by exactly what the events' own splits miss it |
| UsageWindows.ExactSplitsSum | src/burnMonitor.ts:386-396 | when every event split is exact the buckets sum to the tokens |
| UsageWindows.WindowOfAccount | src/burnMonitor.ts:663-685 | picking an account and picking a window commute |
| UsageWindows.AccountsAddUpToPool | src/burnMonitor.ts:663-690 | tokens, cost, event count and all five buckets of the accounts add up to the pooled window |
| UsageWindows.SplitByAccount | src/burnMonitor.ts:666-672 | the insertion-ordered map holds, for each account that occurs and no other, exactly its events in order |
| UsageWindows.ObserveCapacity | src/burnMonitor.ts:713-739 | the measuring pass computes the usage of one account between the window start and the stall |
| WindowBudget.ActiveAccounts | src/burnMonitor.ts:593-597 | the scan collects exactly the accounts that burned in the window, the unattributed one included |
| WindowBudget.ObservedCapacityFor | src/burnMonitor.ts:566-602 | returns the calibrated capacity the scope may use for the window, or none |
| WindowBudget.PooledObservedIffSoleBurner | src/burnMonitor.ts:566-601 | the pooled budget claims a capacity if and only if there is no manual cap, one account alone is calibrated, and it burned everything in the window |
| WindowBudget.ComputeWindowBudget | src/burnMonitor.ts:608-644 | the budget of both windows from the accumulated usage and the capacity resolved for each window on its own |
| BudgetFigures.CapsRuleTheirWindows | src/burnMonitor.ts:608-644 | a cap set by the user is the capacity of its own window, five hours or seven days, tokens or cost, and the percentage is consumption over it; nothing observed is used and no window counts as falsified |
| BudgetFigures.OtherWindowUnaffected | src/burnMonitor.ts:618-621 | changing the caps of one window leaves the report of the other one alone |
| BudgetFigures.ObservedCapsOfAccount | src/burnMonitor.ts:566-600 | without such a cap an account is measured against its own observed figures, window by window, and events of no account against nothing |
| BudgetFigures.ObservedCapsPooled | src/burnMonitor.ts:608-644 | the pooled budget borrows each window's own figures from the account that burned alone there |
| BudgetFigures.SourceOfCaps | src/burnMonitor.ts:622-644 | where a budget says its caps come from, and that only an observed bound can be exceeded |
| BudgetFigures.TimeLeft | src/burnMonitor.ts:543-549 | a true cap that is spent leaves 0 minutes, and time is only projected from a cap and a rate, to the nearest tenth |
| BudgetFigures.RateOfFiveMinutes | src/burnMonitor.ts:413-423 | an account's rate is its last five minutes per minute, to the nearest token |
| BudgetFigures.BudgetOfAccount | src/burnMonitor.ts:663-690 | each account is measured by its own events alone, at its own rate, against its own caps |
| WindowBudget.BorrowedWindow | src/burnMonitor.ts:566-601 | where the pool borrows a capacity, the pooled window is the calibrated account's own and so is the capacity |
| WindowBudget.PooledReportsTheAccountsFill | src/burnMonitor.ts:608-644 | a pooled budget with an observed capacity reports the same usage, percentages and excess as the calibrated account's budget |
| WindowBudget.AccountBudgets | src/burnMonitor.ts:663-685 | one budget per account that occurs, computed from that account's events and its own burn rate |
| WindowBudget.BudgetsAddUpToPool | src/burnMonitor.ts:663-690 | the listed account budgets consume together exactly what the pooled budget reports, over five hours and over seven days |
| WindowBudget.ExceededIffAboveHundred | src/burnMonitor.ts:523-559 | an observed bound counts as falsified exactly when the percentage that decides is above 100 |
| WindowBudget.SpentBoundSaysZeroIff | src/burnMonitor.ts:540-549 | an observed bound is reported as "0 minutes left", in tenths as the code rounds them, if and only if the comparison that decides does not pass and the tokens reach the bound or are less than three seconds from it at the current rate |
| WindowBudget.RoundsToNearest | src/burnMonitor.ts:546-549 | the reported minutes are the nearest tenth, halves upwards |
| WindowBudget.SpentBoundSaysZeroWitness | src/burnMonitor.ts:540-549 | a window past its token bound and within its cost bound that is reported as having 0 minutes left |
| WindowBudget.NearlySpentSaysZero | src/burnMonitor.ts:546-549 | a bound with a token left that is reported so |
| Calibration.MeasuredFromWindowStart | src/capacityCalibration.ts:149-150 | measuring from the account's first event in the five hours measures the whole five hours |
| Calibration.MeasureStall | src/capacityCalibration.ts:126-165 | measures a stall exactly when the consumption guards let it through |
| CalibrationGuards.HotAccountIs | src/capacityCalibration.ts:117-124 | the stalled session's own account is measured, and the live one only when the session has none |
| CalibrationGuards.PassesIff | src/capacityCalibration.ts:103-153 | a stall measures an account exactly when it is a rate-limited stop failure without a cap from the environment, and the account burned in the five hours before and not in the half hour before those |
| CalibrationGuards.MeasuredFigures | src/capacityCalibration.ts:150-165 | the four figures are what the account burned in the five hours and in the seven days before, given when positive |
| CalibrationGuards.RoundCostNearest | src/capacityCalibration.ts:150-165 | costs are stored to the nearest ten-thousandth of a dollar |
| CalibrationGuards.StallTouchesItsAccount | src/capacityCalibration.ts:166-192 | a stall touches no entry but its account's, and dates that one by its own instant |
| CalibrationGuards.NothingHigherNothingChanged | src/capacityCalibration.ts:76-95 | an entry stays as it is, date included, exactly when no measured figure is above the stored one |
| Calibration.CalibrationStore.CalibrateFromStopFailure | src/capacityCalibration.ts:103-199 | the stored file after a stop event, and that a calibration is reported exactly when the file changed |
| Calibration.StallRaises | src/capacityCalibration.ts:79-95 | a passing stall raises each stored figure of its account to the larger value and leaves all other accounts alone |
| Calibration.StoredIsLargestMeasured | src/capacityCalibration.ts:79-199 | over any run from an empty section each stored figure is the largest measured at the account's passing stalls |
| Calibration.OrderLeavesNoTrace | src/capacityCalibration.ts:79-199 | reordering the stalls leaves the stored figures unchanged |
| Calibration.StoredNeverFalls | src/capacityCalibration.ts:79-199 | no run of stalls lowers or forgets a stored figure, whatever the file held |
| Calibration.UserFilesUntouched | src/capacityCalibration.ts:109-115 | a file with a manual cap, or one that does not parse, is never modified |
| Calibration.WeekCoversFiveHours | src/capacityCalibration.ts:154-165 | the stored weekly tokens are never below the stored five-hour tokens |
| Calibration.StallWithinStoredCapacity | src/capacityCalibration.ts:126-192 | at every measured stall of a run the account's tokens are within 100 percent of both capacities stored by the end of it |
| Calibration.FreshCalibrationExceededIffRoundedDown | src/capacityCalibration.ts:150-165 | the window a first calibration measured is itself reported as exceeding it if and only if its cost is worth at least one ten-thousandth of a dollar and ends in less than half of another |
| Calibration.ExceedsItselfWitness | src/capacityCalibration.ts:150-165 | one event of 0.00012 dollars, stored as 0.0001 and reported as exceeding it |
| BurnInvestigator.Burst | src/burnInvestigator.ts:374-379 | the two-pointer sweep over time-ordered calls finds the largest number of calls any closed 30-minute window holds |
| BurnInvestigator.GroupKeepsOrder | src/burnInvestigator.ts:364-365 | one model's calls are time-ordered because the responses are |
| BurnInvestigator.PeakOfModel | src/burnInvestigator.ts:364-379 | the peak 30-minute rate of each model |
| BurnInvestigator.ClusterSpikes | src/burnInvestigator.ts:272-287 | the clusters hold the spikes in order, split into maximal chains of gaps of at most ten minutes, with the right bounds, totals and cold counts |
| BurnInvestigator.ClustersUnique | src/burnInvestigator.ts:272-287 | no other split of the spikes into maximal chains exists |
| BurnInvestigator.ClustersConserveTokens | src/burnInvestigator.ts:272-287 | cluster token and cold-spike totals add up to those of the spikes |
| BurnInvestigator.OneMoreResponse | src/burnInvestigator.ts:116-117 | a response is a spike exactly when it wrote more than 100000 tokens, and cold exactly when it read less than a tenth of that |
| BurnInvestigator.TenMinuteGaps | src/burnInvestigator.ts:273-283 | spikes of a cluster follow each other within ten minutes, and clusters are more than that apart |
| BurnInvestigator.HalfHourCounts | src/burnInvestigator.ts:370-380 | the burst counts the calls of a closed half hour |
| TemporalGroups.GroupByTime | demo/replay.ts:644-664 | the groups concatenate to the time-sorted spans, each is non-empty and spans at most the window, and neighbouring groups start more than the window apart |
| TemporalGroups.GreedyUsesFewestGroups | demo/replay.ts:644-664 | no split of the sorted spans into groups that narrow uses fewer groups |
| StripSource.SkipString | scripts/check-no-mirrors.js:40-50 | the plain-string loop agrees with the character lexer up to the closing quote or the end of the input |
| StripSource.CopyInterpolation | scripts/check-no-mirrors.js:59-68 | the interpolation loop agrees with the character lexer up to the matching brace |
| StripSource.SkipTemplate | scripts/check-no-mirrors.js:51-74 | the template loop agrees with the character lexer up to the closing backtick |
| StripSource.SkipBlockComment | scripts/check-no-mirrors.js:34-39 | the block-comment loop agrees with the character lexer |
| StripSource.SkipLineComment | scripts/check-no-mirrors.js:30-33 | the line-comment loop stops before the newline and emits nothing |
| StripSource.StripCommentsAndStrings | scripts/check-no-mirrors.js:22-78 | the whole scanner terminates on every input and equals a character-by-character lexer with one character of lookahead |
| StripPieces.StripsPieceByPiece | scripts/check-no-mirrors.js:22-78 | of a text written as code, comments, strings and templates the stripper leaves all code as it is, of a comment its newlines, of a literal its delimiters and newlines, and the braced code of a template, and nothing else |
| StripSource.NewlinesKept | scripts/check-no-mirrors.js:22-78 | at every position the newlines emitted are those read less those swallowed in template escapes |
| StripSource.StrippedNewlines | scripts/check-no-mirrors.js:22-78 | the output has the newlines of the input less the backslash-newline pairs consumed in template bodies |
| StripSource.LineNumbersExact | scripts/check-no-mirrors.js:19-21 | line numbers are exact for every source without a backslash-newline pair |
| StripSource.ContinuationLosesLine | scripts/check-no-mirrors.js:55 | a template literal with a line continuation that loses a line |

## Left out

- Config editor, values: objects are unordered maps, so key order and the textual layout of the dump are not modelled; scalars carry their canonical text. "The needle occurs in the dump" is a parameter. Containers are told apart by where they stem from and their path; array elements are out of reach of every path and stay plain values. Missing or ill-typed fields of an operation are not modelled beyond an unknown kind, an empty substring and an empty path.
- Config editor, protocol: TOML files, the temporary file, backup names and operating-system errors. Breaking a lock older than 30 seconds is excluded, and so are foreign writes between the last look at the target and the audit: the code detects neither.
- ConfigRetry.RetryAsDeclaredIff: exact for two operations. For longer lists that no operation reaches into a value set before it is sufficient (`ApartKeepsValues`) and not necessary; looking at pairs does not decide it (`ThreeOperationsShare`).
- ConfigApplyTheorems.AppliedOpsAccepted: operations on comparable paths are covered when they are a removal or an append followed by an append, or an append followed by a removal, on one path; other overlaps (two sets below each other) can legitimately fail the final check.
- Timeline: torn lines, partial writes and a failing fsync after a complete write; the line length is a parameter. Reading the identity file; the mode, plan and lifetime that go into a record.
- AccountRoster.ListAccountRoster: the final sort of the listing by recency; likewise the best-first order and the wording of headroom matches.
- Segments: instants at or after now (nothing has been consumed there yet), resolving "current", "previous", prefixes and e-mails to an account, and the session and project rollups of the burners report.
- Archive: gzip and the JSON reader are parameters with `gunzip(gzip(d)) == d` (member format: section 2.2 of RFC 1952) and "reads back what it wrote, and of the single lines that open with a brace accepts only object-shaped ones"; the calendar month of an instant is a parameter, times are whole milliseconds, a crash cuts at character boundaries. Purging volumes and appending to a purged month.
- Watch: the message-id chain from responses to sessions is a parameter of the thrash report; file names matter by identity and suffix only; a failing stat is a listed name that has vanished. Suspect lists, the count of huge requests, premium share and the most frequent model of a report.
- Cache break: reading a request into blocks, tools and regions; text classification; summary texts, offender ids and the server names behind MCP tools; the table of minimum cacheable sizes is a parameter. Sessions, compaction hooks and rollups around the classifier.
- Admission: real time and the environment defaults. Load per core counts in whole units.
- Budgets: rounding of percentages for display and of the binary quotients, billable weights, the order of the account list. Dollar amounts are whole multiples of a fixed small unit.
- Calibration.CalibrationStore.CalibrateFromStopFailure: recognising a rate-limit error text is an input; other sections of the file and its atomic replacement are not modelled; a missing file counts as one with nothing observed.
- Investigator: attribution of clusters to sessions, capture gaps, pricing, and every finding's wording. "Less than a tenth" is compared in whole tokens.
- Replay: fresh ids and posting; times are integers.
- Mirror check: what is done with the stripped text.
- Not touched: seismic statistics, derived caches, base paths, cache expiry display, the agent gate, the burn guard, servers, storage and user interface.
