# Rygnal: a verified model of its decision and mutation paths

Rygnal runs an agent in a disposable worktree, scores the patch it leaves behind, and lets that patch
reach the trusted repository only through a chain of decisions. This project models that chain in Dafny
and proves what it promises. `dafny verify dfyconfig.toml` checks all of it.

The parts, each in the form the program has: objects that change fields are classes, loops are methods
proved against a specification, decisions made of early returns are functions, and concurrent or
crashing processes are state machines over their atomic steps.

| area | files |
|---|---|
| applying an approved patch (Python) | `ApprovedApply`, `PatchApplier`, `ReverseApproval`, `SecondLogger` |
| local review: persist, decide, apply (Go) | `LocalDecision`, `LocalReview`, `LocalCommands` |
| approval queue and authorization | `ApprovalModel`, `ApprovalAuthorization`, `ApprovalQueue`, `QueueClasses`, `QueueRuns` |
| hash-chained audit log | `AuditChain`, `AuditLoggers`, `JsonlFile`, `JsonlWitness` |
| from actions to trusted mutation | `Intent`, `ChangeRisk`, `GuardedRisk`, `SafeApply`, `Finalizer`, `GuardedRun` |
| algorithms | `Survival`, `Visibility`, `RawDiff`, `RepoPath`, `BoundedBuffer` |
| shared | `Prelude`, `Text`, `Counting`, `GitModel` |

SHA-256 is a function parameter; where a result needs it, freedom from collisions on the payloads at hand
is an explicit precondition. Times, fresh ids, receipts' JSON text and git's own computations are
parameters. A transaction, a file lock held around a command, and one `git apply` are single steps, and a
crash may happen between any two steps (for files, also in the middle of a write).

## What came out differently from the documented intent

Each of these is a theorem below; the model follows the code.

- One approval's patch can be written twice although nobody outside touches the repository: a second
  approval whose patch undoes the first restores the clean baseline, and a crash before either application
  is recorded loses the reservation (`ReverseApproval.WrittenTwiceUntouched`). What a second write needs is
  a crash and then, from whatever source, a clean tree and the baseline at HEAD
  (`ApprovedApply.SecondWriteNeeds`); once that has happened, the key is written again
  (`ApprovedApply.UnrefusedWrites`).
- The replay scan reads only the log of the logger a call is given. A patch applied and recorded through one
  logger is applied again through another, once the process is gone and the target is back at a clean
  baseline, although the first log holds it (`SecondLogger.WrittenThroughBoth`). A recorded key is final for
  calls with the logger that holds it (`ApprovedApply.RecordedIsFinal`), and for all calls where they share
  one (`ApprovedApply.RecordedIsFinalInOneLog`).
- Applying an approved patch compares the digests of request, decision and patch, and never recomputes the
  patch's own from its text: under the same assessments any text that applies is accepted
  (`ApprovedApply.TextIsUnchecked`). The bytes written have the approved digest exactly when the call's text
  hashes to its digest (`ApprovedApply.WrittenBytesExactly`); the local review and the automatic apply check
  this themselves.
- The SQLite queue differs from the in-memory queue in two cases, not one: besides the identical repeat of
  a terminal decision, a decision for an unknown id that names yet another id is "not found" in memory and
  "wrong id" in SQLite (`ApprovalQueue.StepsAgree`).
- A local decision record downgraded to schema v1 is accepted without its receipt, as long as run, digest
  and baseline still match, and even with the status turned around (`LocalDecision.EditAcceptedExactly`). A
  build with an empty version string writes records it will not accept
  (`LocalDecision.WrittenRecordAccepted`).
- The Rust analysis can take a block away. The subjective layer drops every reason it found, lock markers
  included, when the kernel fails on one file, and puts one HIGH reason in their place; the kernel is asked
  only about files above LOW, and a Rust criticality signal can lift a file there. So a patch with a locked
  file can be blocked without the signal and only sent to approval with it
  (`GuardedRisk.SignalUnblocks`, with an instance in `GuardedRisk.SignalUnblocksReadme`). It stays blocked
  exactly while nothing fails or another reason is CRITICAL (`GuardedRisk.GuardedBlocksExactly`); Rust never
  causes a block (`GuardedRisk.RustNeverBlocks`), and a locked file never lands unapproved
  (`GuardedRun.LockedNeverLands`).
- The JSONL mirror can hold the events in another order than the table (`AuditLoggers.MirrorMayBeOutOfOrder`).
  It verifies on its own exactly when it is a prefix of the table (`AuditLoggers.MirrorVerifiesExactly`).
- A JSONL line cut inside its JSON makes the whole file unreadable, and no later append changes it. A line
  that lost only its end reads and verifies until the next append lands on the same line and spoils both
  (`JsonlFile.LostEndSpoilsNext`). The file reads exactly as long as neither happened, and then verifies
  (`JsonlFile.ReadsExactly`).
- A guarded run whose last audit write fails reports APPLY_FAILED although the patch is in the trusted
  repository, and an unexpected exception after classification is raised only after the patch was applied
  (`GuardedRun.Runner.RunGuarded`).
- Adding a path scope to a contract can strengthen the answer for an action without paths, from allowed to
  approval required (`Intent.PathScopeStrengthensPathless`). It does so exactly for matched actions of
  contracts that looked at no paths before (`Intent.TargetsStrengthenExactly`).
- Python trims the information separators U+001C to U+001F and Rust keeps them in the name
  (`RepoPath.SeparatorDivides`). The twins accept with the same result exactly when Python accepts, there is
  no NUL, no drive prefix, and no such separator at the ends of what Rust has trimmed
  (`RepoPath.TwinsAgreeExactly`).

## Model

| member | source | states |
|---|---|---|
| ApprovedApply.ReservationHolds | src/rygnal/approved_apply.py:212-221 | In every reachable state, whoever is past the reservation holds the key in the process's set, and at most one call does: a loser never frees the winner's key. |
| ApprovedApply.LogClosesHolds | src/rygnal/approved_apply.py:224-235 | In every reachable state, a key that some logger's durable log holds is spent until the next crash, or no call with that logger is past its scan on it. |
| ApprovedApply.RecordedIsFinal | src/rygnal/approved_apply.py:224-235 | Once a logger's log holds a key, no later call given that logger writes its patch, in any thread, process or restart. |
| ApprovedApply.RecordedIsFinalInOneLog | src/rygnal/approved_apply.py:224-235 | Over runs whose calls all use one logger, no later call at all writes a recorded key. |
| SecondLogger.WrittenThroughBoth | src/rygnal/approved_apply.py:224-235 | For any call that is accepted and any other logger there is a run, with a crash and a reset in between, in which the key is written through both although the first log holds it. |
| ApprovedApply.WatchHoldsSince | src/rygnal/approved_apply.py:134-145 | Since a key was written: while its process lives no call on it can write, and after a crash none gets past the clean and baseline checks before the tree was clean and then HEAD was at the baseline. |
| ApprovedApply.SecondWriteNeeds | src/rygnal/approved_apply.py:128-165 | Any interleaving of calls, crashes and outside changes: writing one (approval, digest, baseline) twice needs a crash in between, then a clean tree, then HEAD at the baseline, and no record of the key in the log of the second call's logger. |
| ApprovedApply.WrittenAtMostOnce | src/rygnal/approved_apply.py:84-165 | Over every run in which the written target is never brought back to a clean baseline, one key's patch is written at most once. |
| ApprovedApply.OnlyGrantedPatchesWritten | src/rygnal/approved_apply.py:84-146 | Every step of the program that changes the repository applies exactly the patch of a call covered by a granted, unexpired approval with a valid receipt, and leaves HEAD alone. |
| ApprovedApply.WrittenBytesExactly | src/rygnal/approved_apply.py:84-146 | The text a step writes hashes to the digest that request and decision approved exactly when it hashes to the digest its call declares. |
| ApprovedApply.HonestBytesWritten | src/rygnal/approved_apply.py:84-146 | In a run whose calls all declare the digest of their text, only bytes with an approved digest are written. |
| ApprovedApply.TextIsUnchecked | src/rygnal/approved_apply.py:84-146 | Another text that applies is refused or accepted exactly as the call's own, under the same assessments. |
| ApprovedApply.AdmittedExactly | src/rygnal/approved_apply.py:110-133 | The checks made before the repository is looked at pass exactly for a grant of this patch, of a request for this purpose under a known policy, where approval is required or forced. |
| ApprovedApply.LogTellsTruth | src/rygnal/approved_apply.py:158-163 | A logger's log never names a key that no call with that logger wrote before. |
| ApprovedApply.UndisturbedCall | src/rygnal/approved_apply.py:84-165 | A call nobody disturbs succeeds exactly when no check refuses it, and then writes the patch, reserves the key and records it. |
| ApprovedApply.UnrefusedWrites | src/rygnal/approved_apply.py:84-165 | From any state, an undisturbed call writes its key, whether or not it was written before, exactly when the checks, the log and the reservation do not refuse it. |
| ReverseApproval.WrittenTwiceUntouched | src/rygnal/approved_apply.py:139-165 | For any two approvals whose patches undo each other there is a run without any outside step in which one approval's patch is written twice. |
| PatchApplier.Applier.ReserveUse | src/rygnal/approved_apply.py:212-216 | Reserves exactly when the key was free; the set then holds it either way. |
| PatchApplier.Applier.ReleaseUse | src/rygnal/approved_apply.py:219-221 | Only this key is given back. |
| PatchApplier.Applier.ApplyApprovedPatch | src/rygnal/approved_apply.py:84-165 | A refusal, with the first failing check in source order, leaves set, logs and repository as they were; otherwise the patch is written and the key stays reserved, recorded by its logger unless the audit write raises, and this process refuses the same call from then on. |
| LocalReview.AppliedOnlyAsApproved | internal/cli/apply.go:70-164 | Over every run with crashes: a run that requires approval, with a digest and a baseline, is applied only on its baseline, with bytes of its digest, under an approval on disk for the same run, digest, baseline and approval, written by an earlier explicit approve command. |
| LocalReview.ApprovedRunApplies | internal/cli/apply.go:70-164 | A run persisted, approved alone or with the shared authority, and applied without disturbance applies exactly the patch it was persisted with. |
| LocalReview.RejectionIsFinal | internal/cli/decision.go:666-700 | Once a rejection is on disk, no apply of that run ever succeeds. |
| LocalReview.SecondApplyNeedsReset | internal/cli/apply.go:102-164 | Two applies at one baseline, whether of one run or of two, need an outside reset to a clean baseline in between, unless the first patch changed nothing; of one run, in any case, the first crashed before writing apply.json. |
| LocalReview.OnlyOutsideResets | internal/cli/apply.go:112-142 | No command ever brings the repository back to a clean baseline. |
| LocalReview.FilesAreFinal | internal/cli/decision.go:233-270 | Decision and apply files, torn or whole, never change once they exist. |
| LocalReview.DecisionHasOrigin | internal/cli/decision.go:233-270 | Every readable decision on disk is the record an earlier decide step made from what it saw then. |
| LocalReview.PlacedThroughout | internal/cli/local_review.go:134-208 | In every reachable state a readable summary lies in the directory named after its run. |
| LocalCommands.Workspace.PersistRunReview | internal/cli/local_review.go:134-208 | The command's writes in order, stopped at any crash point, are the persist step of the state machine. |
| LocalCommands.Workspace.WriteDecisionRecord | internal/cli/decision.go:233-270 | Creates the file exactly when there is none, not even a torn one, and touches nothing else. |
| LocalCommands.Workspace.Announce | internal/cli/decision.go:200-207 | An existing decision file stops the command; otherwise the record is written first and the audit event only after a whole record. |
| LocalCommands.Workspace.RunDecision | internal/cli/decision.go:123-231 | The command is the decide step of the state machine; it ends without a record, with a record but no audit event, or with both, and the audit log grows only by that record. |
| LocalCommands.Workspace.RunApply | internal/cli/apply.go:70-180 | The command is the apply step of the state machine; a refusal changes neither files nor repository. |
| LocalDecision.AuthorityAnswers | internal/cli/shared_approval.go:202-347 | Synchronizing yields the local authority unsynchronized, or the shared one synchronized, for a run that requires approval, and with the decider and reason that were sent. |
| LocalDecision.WrittenRecordBinds | internal/cli/decision.go:159-198 | A written record carries the run, digest, baseline and approval it was made for, all non-empty as required, a consistent authority and its own receipt; and there was no decision or application before. |
| LocalDecision.WrittenRecordAccepted | internal/cli/decision.go:509-664 | Under local or shared authority a written record is accepted for its run exactly when the build has a version, and then permits apply exactly when it approves. |
| LocalDecision.EditRejected | internal/cli/decision.go:652-663 | A schema-v2 record in which the receipt or anything else alone was edited is rejected for every run, without collisions. |
| LocalDecision.EditAcceptedExactly | internal/cli/decision.go:509-664 | With the receipt kept, the accepted edits are exactly the downgrades to schema v1 that keep run, digest and baseline and any supported status. |
| ApprovalAuthorization.RoleCheckExactly | src/rygnal/approval_authorization.py:148-235 | Role checking decides exactly when roles are configured, and passes exactly when a named, non-blank, configured role covers severity, action and environment. |
| ApprovalAuthorization.AuthorizedExactly | src/rygnal/approval_authorization.py:48-146 | A decision is authorized exactly when the request is pending and it rejects, or approves by a named second person whom the roles, else the reviewers, permit. |
| ApprovalQueue.StepsAgree | src/rygnal/approval_queue.py:122-157 | On equal queues one operation leaves equal queues and gives equal replies exactly unless it repeats the stored terminal decision or names another id for an unknown one; what each says then. |
| ApprovalQueue.SqlRefinesMem | src/rygnal/approval_queue.py:186-470 | Over every trace without resubmission the SQLite queue passes through the same states as the in-memory one, with the same replies but for the two cases, lists in the same order included. |
| ApprovalQueue.AssignStores | src/rygnal/approval_queue.py:182-183 | Storing an item in the dictionary: it is found under its id, every other id finds what it found before, ids stay unique, and their order only grows. |
| QueueClasses.InMemoryQueue.Submit | src/rygnal/approval_queue.py:81-84 | Afterwards the id finds the request, pending and undecided, whatever it found before; no other id finds anything else, and the list order is the old one, with the id last if it is new. |
| QueueClasses.InMemoryQueue.RecordDecision | src/rygnal/approval_queue.py:122-157 | Accepted exactly when the id finds a pending item, the decision names that id, and it rejects or approves as the engine allows; then the id finds that item decided, and nothing else changes. Otherwise nothing changes. |
| QueueClasses.SqliteQueue.LoadItems | src/rygnal/approval_queue.py:445-470 | Reloading rebuilds the dict as the rows in id order, whatever it held before. |
| QueueClasses.SqliteQueue.Submit | src/rygnal/approval_queue.py:205-263 | The table changes as the SQLite operation says, ids stay unique, and the object's items are the whole table afterwards. |
| QueueClasses.SqliteQueue.RecordDecision | src/rygnal/approval_queue.py:306-413 | The table changes as the SQLite operation says; the object's own items change only by the accepted one. |
| QueueClasses.SqliteQueue.ListItems | src/rygnal/approval_queue.py:265-271 | Lists the current table, also what other objects wrote. |
| QueueRuns.RowsAreFinal | src/rygnal/approval_queue.py:205-413 | Any interleaving of transactions of any number of queue objects, reads and guarded UPDATEs also split: a row's request never changes, and its status leaves PENDING at most once. |
| QueueRuns.DecisionExactlyWhenTerminal | src/rygnal/approval_queue.py:368-413 | In every reachable state a row holds a decision exactly when it is not pending, for its own id and with its status; ids are unique. |
| QueueRuns.ApprovedRowsArePermitted | src/rygnal/approval_queue.py:368-398 | In every reachable state each approved row has a named decider other than the requester whom a deployed engine's roles, else reviewers, permit. |
| QueueRuns.SoundThroughout | src/rygnal/approval_queue.py:306-413 | The invariant behind these, with decisions in flight between their read and their UPDATE. |
| AuditChain.VerifyIntegrity | src/rygnal/audit_logger.py:120-138 | The loop accepts exactly the lists in which each event carries its predecessor's hash and its own. |
| AuditChain.VerifiesSnoc | src/rygnal/audit_logger.py:120-138 | A longer list verifies exactly when the shorter does and the new event is bound to its end. |
| AuditChain.HashPinsPrefix | src/rygnal/audit_logger.py:210-228 | Without collisions, two verified lists that share one event hash anywhere share its position and every event up to it, up to the audit.v1 version field. |
| AuditChain.HeadPinsHistory | src/rygnal/audit_logger.py:120-138 | Two verified lists that end in the same hash have the same length and the same events, up to the audit.v1 version field. |
| AuditChain.EditNoticed | src/rygnal/audit_logger.py:210-228 | Replacing one event under its old hash goes unnoticed exactly when it changes nothing but the version field of an audit.v1 event. |
| JsonlFile.JsonlLog.LastHashFromHandle | src/rygnal/audit_logger.py:195-208 | The scan keeps the last event's hash, or raises exactly when some line does not read. |
| JsonlFile.JsonlLog.WriteEvent | src/rygnal/audit_logger.py:86-98 | On a file that reads, holds its events and verifies: an append written whole after an ended line adds exactly the event bound to the last one; cut anywhere, the file stays healthy exactly when the append did not tear it. |
| JsonlFile.WriteKeeps | src/rygnal/audit_logger.py:86-98 | The same of any number of characters that reach the file, with the events it then reads; a tear makes it unreadable. |
| JsonlFile.ReadsExactly | src/rygnal/audit_logger.py:103-118 | Any appends, each cut anywhere: the file reads exactly as long as none was cut inside its JSON or followed a line without its end, and whenever it reads it verifies. |
| JsonlFile.TornStays | src/rygnal/audit_logger.py:195-208 | Once the file does not read, no later append changes it. |
| JsonlFile.EventsGrow | src/rygnal/audit_logger.py:86-98 | While it reads, its events only grow. |
| JsonlFile.LostEndSpoilsNext | src/rygnal/audit_logger.py:86-98 | An append that lost only its line end reads back, and any character of the next makes the file unreadable. |
| JsonlWitness.WitnessIsLawful | src/rygnal/audit_logger.py:90-98 | The laws these results assume of an event's line can be met: an encoding no line of which begins another has them. |
| AuditLoggers.SqliteLog.AppendChainedEvent | src/rygnal/audit_storage.py:34-68 | One transaction appends the bound event or leaves the table as it was; a verified table stays verified. |
| AuditLoggers.SqliteLog.WriteEvent | src/rygnal/audit_logger.py:68-84 | The mirror gets the event only after the table holds it, so it never holds more than the table. |
| AuditLoggers.ChainAlwaysVerifies | src/rygnal/audit_logger.py:68-101 | Any interleaving of any number of loggers, each dying or rolling back before or after its whole write, in either mode: the authoritative chain verifies, and the mirror holds no event the store lacks. Lines written in part are the subject of `JsonlFile`. |
| AuditLoggers.ChainIsAppendOnly | src/rygnal/audit_storage.py:34-68 | With writes that happen whole or not at all, an earlier chain is always a prefix of a later one. |
| AuditLoggers.MirrorCatchesUp | src/rygnal/audit_logger.py:156-171 | If no mirror write is lost, mirror and pending copies together are exactly the stored events. |
| AuditLoggers.VerifiesExactly | src/rygnal/audit_logger.py:120-138 | Without collisions, a list of events of one verified chain verifies exactly when it is a prefix of that chain. |
| AuditLoggers.MirrorVerifiesExactly | src/rygnal/audit_logger.py:156-171 | In every reachable state the mirror verifies on its own exactly when it is a prefix of the store. |
| AuditLoggers.MirrorMayBeOutOfOrder | src/rygnal/audit_logger.py:156-171 | A run of two loggers whose mirror holds the stored events in the other order. |
| Intent.NormalizedActionPaths | src/rygnal/capability_matcher.py:432-453 | The loop collects the normalized paths once each, in order, and flags exactly the actions with a malformed path. |
| Intent.ActionPathsOutsideTargetScopes | src/rygnal/capability_matcher.py:463-483 | The loop collects exactly the paths no target scope covers on its own. |
| Intent.InsideExactly | src/rygnal/capability_matcher.py:195-236 | The three scope branches together let through exactly the actions all of whose paths are covered one by one, or, without paths and path scopes, that some scope matches. |
| Intent.ExactExactly | src/rygnal/capability_matcher.py:76-249 | EXACT_MATCH exactly when the resource is not sensitive, no path is malformed, the operation is listed, no excluded scope matches, and every path is covered on its own. |
| Intent.OutsideExactly | src/rygnal/capability_matcher.py:463-493 | The paths reported out of scope are exactly those no target scope covers on its own, when any scope looks at paths. |
| Intent.StatesExactly | src/rygnal/capability_matcher.py:76-249 | When an action is hard sensitive, in conflict, drifting or unknown, exactly; what is left and not exact is partial. |
| Intent.ExcludingNeverWeakens | src/rygnal/capability_matcher.py:117-135 | Excluding more scopes never weakens the hint. |
| Intent.TargetsNeverStrengthen | src/rygnal/capability_matcher.py:184-236 | For an action with paths, adding target scopes to some never strengthens the hint. |
| Intent.TargetsStrengthenExactly | src/rygnal/capability_matcher.py:184-236 | Adding target scopes to some strengthens the hint exactly for an action without paths that matched targets none of which looks at paths, when an added one does. |
| Intent.PathScopeStrengthensPathless | src/rygnal/capability_matcher.py:184-193 | Such a case: a path scope added beside matching kind scopes asks for approval. |
| Intent.StateOccurs | src/rygnal/intent_fallback_policy.py:130-186 | The state given to a non-empty group is one of its members' and carries that state's hint. |
| Intent.StateIsWeightiest | src/rygnal/intent_fallback_policy.py:130-186 | That state is the weightiest of its members', in the order hard sensitive, unknown, conflict, drift, partial, exact. |
| Intent.RecommendedIsGreatest | src/rygnal/intent_fallback_policy.py:130-186 | The hint given to a group is the greatest of its members' hints. |
| Intent.EvaluatedIsGreatest | src/rygnal/intent_fallback_policy.py:64-104 | The hint recommended for a run is the greatest of the hints its actions get one by one. |
| Intent.RecommendedIgnoresOrder | src/rygnal/intent_fallback_policy.py:130-186 | Order and repetition of the results do not matter. |
| Intent.EnforcedMeansMatched | src/rygnal/intent_fallback_policy.py:64-206 | Under ENFORCE the group is neither blocked nor sent to approval exactly when it is not empty and every action matched exactly or partially. |
| ChangeRisk.HighestRisk | src/rygnal/change_risk.py:1664-1675 | The loop returns the one level that is among them, or LOW, and at least as high as all. |
| ChangeRisk.HighestIsUnique | src/rygnal/change_risk.py:1664-1675 | There is only one such level, so order and repetition do not matter. |
| ChangeRisk.AttachExactly | src/rygnal/change_risk.py:697-812 | Attaching the Rust result keeps a file's level the highest of its reasons, keeps its reasons, and raises it exactly when one of the two signals fires on a file below HIGH, to HIGH. |
| ChangeRisk.ClassifiedConsistently | src/rygnal/change_risk.py:515-557 | In every classified report each file has a reason and its level is the highest of them. |
| ChangeRisk.ValidationNeverLowers | src/rygnal/guarded_runner.py:1426-1445 | The subjective layer's extra reasons never lower the overall level. |
| ChangeRisk.FileBlockReasons | src/rygnal/change_gate.py:189-198 | The loop collects the file's CRITICAL reasons in order. |
| ChangeRisk.CollectBlockReasons | src/rygnal/change_gate.py:174-186 | The loops collect the CRITICAL reasons of all files, then of the report. |
| ChangeRisk.GateBlocksExactly | src/rygnal/change_gate.py:113-198 | The gate names exactly the CRITICAL reasons, each with its path, and blocks exactly when there is one. |
| ChangeRisk.BlockedIsCritical | src/rygnal/change_risk.py:483-491 | For classified reports the gate blocks exactly when the overall level is CRITICAL. |
| ChangeRisk.ShadowsNeverBlock | src/rygnal/change_risk.py:697-812 | With the report's own reasons given, no Rust result attached to a file makes the patch blocked or not. |
| GuardedRisk.CollectSubjectivePatchReasons | src/rygnal/subjective_risk.py:273-328 | The loop raises exactly when some file's context cannot be collected or the kernel fails on an unlocked file above LOW; otherwise it returns the reasons in file order. |
| GuardedRisk.ValidationExactly | src/rygnal/guarded_runner.py:1469-1500 | The layer gives a CRITICAL reason exactly when a file is locked and nothing fails, and only for lock markers; a failure leaves one HIGH reason and nothing else. |
| GuardedRisk.GuardedBlocksExactly | src/rygnal/guarded_runner.py:1426-1445 | A guarded patch is blocked exactly when the classifier has a CRITICAL reason of its own, or a file is locked and nothing fails. |
| GuardedRisk.RustNeverBlocks | src/rygnal/guarded_runner.py:1426-1500 | With Rust a patch is blocked exactly when it is blocked without Rust and, unless the classifier has a CRITICAL reason of its own, nothing fails: Rust never adds a block. |
| GuardedRisk.RustDecidesExactly | src/rygnal/guarded_runner.py:1426-1500 | Two outcomes of the Rust analysis block alike exactly when the classifier has a CRITICAL reason, no file is locked, or both or neither fail. |
| GuardedRisk.LockedIsHigh | src/rygnal/subjective_risk.py:207-231 | A lock marker, or a failure, leaves the report at HIGH or CRITICAL. |
| GuardedRisk.LockHoldsWhileLow | src/rygnal/subjective_risk.py:304-318 | Of an unlocked and a locked file with a failing kernel, the patch is blocked exactly while the unlocked one is LOW after its Rust signal. |
| GuardedRisk.SignalUnblocks | src/rygnal/subjective_risk.py:304-318 | A signal on a LOW file turns the block of a locked one into a request for approval. |
| GuardedRisk.SignalUnblocksReadme | src/rygnal/subjective_risk.py:304-318 | Two documentation files and one signal for which it happens. |
| SafeApply.PlainModeExactly | src/rygnal/safe_apply.py:284-318 | No mode is objected to exactly for regular, non-executable files whose mode did not change. |
| SafeApply.DedupeReasons | src/rygnal/safe_apply.py:321-335 | The same reasons, the first of each, in order. |
| SafeApply.AutoApplySkipReasons | src/rygnal/safe_apply.py:202-273 | The list holds exactly the reasons there are, each once, and is empty exactly for an unblocked, non-empty, LOW patch of plain documentation and test files without ignored changes or diff-limit reasons. |
| SafeApply.Target.RollBack | src/rygnal/safe_apply.py:436-469 | A rollback reported safe leaves a clean tree at the baseline. |
| SafeApply.Target.AutoApply | src/rygnal/safe_apply.py:84-164 | Applied exactly when every check, the patch, the re-derived diff and the audit write succeed; in every other ending but a failed rollback the repository is untouched, and it never changes for a patch that is not eligible. |
| Finalizer.HarmlessExactly | src/rygnal/patch_approval.py:315-388 | Gate, approval requirement and skip reasons together let through exactly the patches of plain documentation and test files with nothing ignored, nothing above LOW and no diff limit touched. |
| Finalizer.AppliesExactly | src/rygnal/guarded_patch_finalizer.py:146-325 | The decision chain reaches a trusted mutation exactly for a successful command, an unopposing intent and a harmless patch with a report. |
| Finalizer.AsksExactly | src/rygnal/guarded_patch_finalizer.py:244-265 | After a successful command and without a CRITICAL reason, approval is asked for exactly when the intent asks, something is ignored or above LOW, or a file is not plain documentation or tests. |
| Finalizer.CriticalIsBlocked | src/rygnal/guarded_patch_finalizer.py:227-242 | After a successful command, a patch is blocked exactly when the intent blocks or some reason is CRITICAL. |
| Finalizer.RequestsAreUsable | src/rygnal/guarded_patch_finalizer.py:411-444 | Every approval request the finalizer makes is, once approved for the same patch and report, admitted by the approved-apply path exactly as long as the paths are safe, the approval has not expired and its receipt is valid. |
| Finalizer.Boundary.PersistPendingApproval | src/rygnal/guarded_patch_finalizer.py:328-408 | Artifact and queued request appear together or the request does not appear, whichever of opening, creating, writing, binding and submitting raises; only an unverified write or a failed deletion can leave an artifact behind; every queued request keeps the artifact of its patch. |
| Finalizer.Boundary.Finalize | src/rygnal/guarded_patch_finalizer.py:146-325 | Applied exactly for submissions that may apply on a repository where it succeeds; pending exactly when persisted; nothing after a command that failed; no other submission changes the trusted repository; a stop changes nothing. |
| GuardedRun.UnopposedExactly | src/rygnal/guarded_runner.py:985-1013 | Only an enforced contract opposes, exactly when the run has no actions or one that did not match. |
| GuardedRun.Execute | src/rygnal/guarded_runner.py:773-908 | COMPLETED only for a command that exited 0 in time in its sandbox; a classified patch reaches the end exactly when nothing raised on the way. |
| GuardedRun.Prepare | src/rygnal/guarded_runner.py:909-1045 | What the finalizer is told is what happened: success only of a successful command with its evaluated intent. |
| GuardedRun.Conclude | src/rygnal/guarded_runner.py:1073-1250 | The report repeats the finalizer's outcome unless a write or the cleanup fails; every refusal carries a reason that is also among the warnings. |
| GuardedRun.LockedNeverLands | src/rygnal/guarded_runner.py:1426-1500 | A patch with a lock marker never clears for the trusted repository, even where a failing kernel lost the marker's reason. |
| GuardedRun.Runner.RunGuarded | src/rygnal/guarded_runner.py:741-1155 | The trusted repository changes only for a run whose command succeeded, whose enforced contract matched every action and whose patch is harmless, whatever raises; APPLIED is reported exactly when the patch landed and nothing raised afterwards. |
| Survival.CountMultisetIntersection | rust-kernel/src/criticality.rs:315-338 | The decrementing scan returns the size of the multiset intersection. |
| Survival.CountMapIntersection | rust-kernel/src/ast.rs:339-350 | The fold over the count maps returns the same. |
| Survival.AddToken | rust-kernel/src/ast.rs:327-337 | The map stays the count of the tokens seen: the trimmed value under its category, and nothing for a blank one. |
| Survival.MatchedBounds | rust-kernel/src/criticality.rs:315-338 | The score is symmetric, at most both lengths, and the old length exactly when old is a sub-multiset of new. |
| Survival.MembersBoundMatched | rust-kernel/src/subjective.rs:223-246 | The membership count is never smaller than the multiset score, and equal when the old lines are distinct. |
| Survival.NormalizedIsSplit | rust-kernel/src/criticality.rs:307-313 | Whatever the line ends, the normalized lines are the trimmed non-empty pieces between newlines. |
| Survival.TrimKeepsLines | rust-kernel/src/criticality.rs:279-313 | Trimming a whole text preserves its list of normalized lines. |
| Survival.BoundedIsConservative | rust-kernel/src/criticality.rs:229-305 | For all texts the bounded fallback's ratio is 0 or 1 and at most the exact ratio, so the reported ratio is too. |
| Survival.FallbackNeverLowersCriticality | rust-kernel/src/criticality.rs:372-399 | So falling back never lowers what survival adds to a file's criticality. |
| Visibility.CountPaths | rust-kernel/src/lib.rs:189-200 | The map counts every path. |
| Visibility.PathMultisetDifference | rust-kernel/src/lib.rs:202-217 | The list is the multiset difference. |
| Visibility.DifferencesBalance | rust-kernel/src/lib.rs:146-187 | Received plus missing is expected plus unexpected, and the two never overlap. |
| Visibility.PatchVisibilityRejection | rust-kernel/src/lib.rs:146-187 | A patch passes exactly when the path multisets are equal and the declared count is their size; otherwise the two lists account for the whole difference. |
| RawDiff.ParseGitRawDiff | src/rygnal/changed_files.py:160-229 | The loop ends on every input with what the recursive parser says. |
| RawDiff.ParseUndoesRender | src/rygnal/changed_files.py:160-229 | Printing any list of reported records in raw -z form and parsing it gives back the files, using every field. |
| RawDiff.ParsedFilesAreWellFormed | src/rygnal/changed_files.py:172-229 | Whatever the input, parsed files have safe paths, an old path for renames only, a known kind and a truthful mode flag. |
| RepoPath.RustNormalizeRepoRelativePath | rust-kernel/src/path_safety.rs:209-243 | The loop over the parts computes the specification, errors in the same order. |
| RepoPath.NormalizedShape | src/rygnal/changed_files.py:239-254 | A normalized path is safe and splits back into exactly the kept segments. |
| RepoPath.PythonIsSafe | src/rygnal/changed_files.py:239-254 | A Python-normalized path is relative, not empty, and has no part that is empty, "." or "..". |
| RepoPath.RustShape | rust-kernel/src/path_safety.rs:209-243 | The same for Rust, and without NUL. |
| RepoPath.PythonFixedPoint | src/rygnal/changed_files.py:239-254 | Normalizing again changes nothing exactly when no whitespace is left at the ends. |
| RepoPath.RustFixedPoint | rust-kernel/src/path_safety.rs:209-249 | The same for Rust, exactly when there is no drive prefix either. |
| RepoPath.TwinsAgree | rust-kernel/src/path_safety.rs:209-249 | Where both trim alike, Rust accepts exactly what Python accepts without NUL and drive prefix, with the same result. |
| RepoPath.TwinsAgreeExactly | rust-kernel/src/path_safety.rs:209-249 | Rust accepts with Python's result exactly when Python accepts, there is no NUL, no drive prefix and no information separator at the ends of what Rust has trimmed. |
| RepoPath.TwinsDiffer | src/rygnal/changed_files.py:239-254 | With such a separator, where both accept, Rust's result holds strictly more separators than Python's. |
| RepoPath.SeparatorDivides | src/rygnal/changed_files.py:239-254 | Of any plain name followed by a separator, Python keeps the name and Rust both. |
| RepoPath.TrimsAgree | src/rygnal/changed_files.py:240-241 | Both trim alike exactly when what Rust leaves has no information separator at its ends. |
| RepoPath.TrimsAgreeWithout | rust-kernel/src/path_safety.rs:209-214 | So they do on every path without separators. |
| RepoPath.PrefixesComeOff | rust-kernel/src/path_safety.rs:99-112 | Either prefixed side of a normalized path validates to that path. |
| BoundedBuffer.TailOfTail | internal/engineclient/bounded_buffer.go:24-45 | Cutting before or after more arrives makes no difference. |
| BoundedBuffer.Buffer.Write | internal/engineclient/bounded_buffer.go:24-45 | The buffer holds exactly the last min(limit, total) bytes of everything written; any lost byte sets `truncated`, and `truncated` means at least the limit was written. |
| BoundedBuffer.Buffer.String | internal/engineclient/bounded_buffer.go:47-56 | Without the marker, everything ever written is shown. |

## Left out

- Git, SQLite, file locks, fsync, HTTP, process containment and command-line rendering: they appear as atomic steps or parameters.
- Outside git activity while a Go command holds its lock: outside steps fall between commands.
- The artifact service's own apply path and its operation store: not part of this model, and with them the double apply across processes.
- The patch artifact's file format, expiry and consumption.
- Redaction, taken as the identity on ids, digests and names; JSON encoding and decoding; torn lines of the JSONL mirror.
- Approval expiry and the shared approval receipt's text: two booleans of a call in `ApprovedApply`.
- Looking up a run by prefix or "latest": commands take a directory, so the results hold for whichever run the lookup finds.
- `safeRunID`: directory names are a parameter, two runs may share one.
- Reason texts and evidence; reason codes only where a branch reads them.
- The tables behind path categories, content patterns, diff limits and action intents: the reasons they produce are inputs of `ChangeRisk`.
- `fnmatch`, resource kinds by name and the symbol graph: functions of `Intent.Library`.
- Scores as floating point: survival ratios are exact; the Rust index is a real number compared with 5.0.
- Letter case beyond ASCII: `Lower` changes A to Z only.
- Resubmission of an id to the in-memory queue, which overwrites: excluded from the refinement by a premise on the trace.
- Run set-up before the workspace exists, the content of audit events, and how commands are normalized into actions.
- Lock-file mutual exclusion between guarded runs, which the code does not guarantee.
- GuardedRun.Runner.RunGuarded: the blocked reasons and warnings are kinds, not texts, and a session that cannot be created stands for every block before it.
- ApprovedApply.SecondWriteNeeds: one direction, since a reset makes a second write possible and not certain; `UnrefusedWrites` says exactly when a fresh undisturbed call then writes again.
- AuditLoggers.ChainAlwaysVerifies: writes happen whole or not at all; `JsonlFile` has the torn lines of the authoritative file, and torn lines of the mirror are not modelled.
- JsonlFile.ReadsExactly: what JSON guarantees (an object reads back, does not read when cut, nor with another object behind it on the line) is the premise `Lawful`, which `JsonlWitness` shows can be met.
- JsonlFile.JsonlLog.LastHashFromHandle: one `decode` stands for both readers of a line; the scan needs only a JSON object with its hash, reading the events needs a whole event, and they differ on a JSON line that is no event, which no append leaves behind.
- SafeApply.AutoApplySkipReasons: states which reasons there are and that each comes once, not their order.
- SafeApply.Target.AutoApply: the re-derived diff, its length, files and ignored files agreeing with the patch is one condition.
- Visibility.PathMultisetDifference: the list is not stated to be sorted, since only its content and emptiness are used.
- GuardedRisk.GuardedBlocksExactly: an exception of another kind than a collection error leaves the classification and is a fault of `GuardedRun`; history, ownership and scores are inside the kernel's answer.
