# Xray checker: verified models of its state machines

A Dafny model of the parts of the checker that keep state: the crash-safe file transactions, the
control channel of the probe agents, the announce written into a panel, diagnostic sessions and
their automation, and the bookkeeping of statuses, incidents and reachability. `dafny verify
dfyconfig.toml` checks all of it.

Classes have the fields of the program's objects, and their methods change them step by step. Each
method is proved against a function over values or against the property itself; the lemmas beside it
say what that function means over whole runs.

## How it is organised

**File transactions** (`Volume`, `TransactionSpec`, `Transactions`, `Apply`, `Recovery`, `StartupSpec`,
`Startup`).
A volume has a budget of `power`: every rename, directory creation, single deletion inside a removal
and every write spends one unit, and with none left nothing happens any more. What is proved for every
budget holds for a crash after every step, recovery included. Restores and node merges are two
packages over one set of three directories. `PreBound` and `PostBound` divide all states a crash can
leave by their fate.

**Agent channel** (`AgentProtocol`, `AgentChannel`). The first module is the protocol as steps over
one record, one identity and the network; requests stay on the wire for ever, so they may be lost,
repeated and reordered. The second holds the registry and the client as objects.

**Announce** (`AnnounceText`, `Announce`, `AnnounceRuns`, `Hysteresis`, `StatusMessages`,
`SquadReviews`, `LocationFold`). How a status line is put after the operator's text and told apart
again, the reconcile pass, what whole runs of passes keep, the recovery window of one location, the
choice of the message, and the fold of members and servers into a location's state. `SquadReviews`
composes window, message and pass, and shows that the ownership record follows the window.

**Sessions and automation** (`SessionSpec`, `SessionStore`, `Sessions`, `Controller`, `Books`,
`Coordination`, `CoordinationRuns`). The manager's four maps and its derived states; the controller
that creates a session with one job; the coordinator. Its concurrency bound rests on the manager's
terminal states being permanent, which `Evolved` carries from one module to the other. The runs
interleave the steps the coordinator takes under its lock with anything agents, operators and the sweep
do.

**Histories and documents** (`SortedLists`, `MergeHistory`, `MergeState`, `JsonSchema`). The canonical
lists a node merge rebuilds, the merge of two registry records, and the validation of a state file.

**Statuses, reachability, incidents** (`StatusClocks`, `Downtime`, `Verdicts`, `Streaks`, `Matrix`,
`Incidents`, `IncidentJournal`, `Archive`). The archive joins the incident journal with the list of
nodes and their records, which syncs and checks retire in different ways.

## What the environment is assumed to do

File operations become durable in order, and apart from power losses at most one operation of an apply
fails. Between apply and confirmation the owners overwrite installed files and files the transaction
does not cover; `RollbackSurvivesOwners` says exactly when more than that is harmless. Signatures are
ideal and token hashes are the tokens. Identifiers are fresh. Clocks are inputs and never show the zero
time, and speed probes start at times that do not go back. Texts arrive trimmed.

## Where the program falls short of what it promises

Each of these is proved below, with an input that fails and, where a caller can see it coming, the
exact condition.

- A pending merge whose instruction is lost while another replaces it is refused from then on, and so is
  every restore (`Startup.MergeIsStranded`).
- An owner that writes a file the backup excludes, before confirmation, makes recovery refuse
  (`Startup.OwnerCanBlockRollback`; exactly when, `Startup.RollbackSurvivesOwners`).
- A power loss while a staged file is rewritten in place leaves it empty, and the restore is refused
  until it is staged again (`Startup.ValidationTearsFile`; exactly when, `Apply.CutOffIsClean`).
- A reissue lets a request that was accepted before be accepted a second time, exactly while its
  timestamp is within the skew of the reissue (`AgentProtocol.ReissueReopensExactly`,
  `AgentProtocol.AcceptedTwice`).
- Without an adopted base, a status written whole becomes the operator's text once its ownership record
  is lost (`AnnounceRuns.LostOwnership`). An answer lost in transit loses the ownership exactly when the
  message had changed (`AnnounceRuns.LostAnswerLosesOwnership`, `AnnounceRuns.LostFirstAnswer`).
- A location still down is forgotten when the scenario for the present number of locations is switched
  off (`SquadReviews.ForgottenExactly`, `SquadReviews.SwitchedOffForgets`).
- One of the two checked additions misses its lower end (`MergeState.AddIntIsExact`,
  `MergeState.AddIntWrapsBelow`).
- Merging a node that left an active incident behind into one that has an active incident leaves two of
  them on one scope (`MergeState.RewriteKeepsOneActiveExactly`, `MergeState.MergeLeavesTwoActive`).
- The comment at reachability/verdict.go:107-109 asks for two sweeps that disagree with the checker, but
  a failure the checker shares is confirmed by the first answer from anywhere. A confirmed failure was
  such a disagreement exactly when the checker itself reaches the node (`Matrix.ConfirmedIsDisagreement`,
  `Matrix.TwoSweepsDownThenOneAnswer`).
- A node that a check and not a sync sees gone first keeps its active incident for ever
  (`Archive.AbsentIncidentExactly`, `Archive.NodeLeavesThroughCheck`).

## Model

| member | source | states |
|---|---|---|
| Volumes.Volume.RemoveState | backup/restore.go:234-247 | removing a directory deletes its entries one by one in any order, and may stop after any of them |
| TransactionSpec.AllOrNothing | backup/restore.go:262-312 | whatever state a power loss left, a recovery that is possible ends with the files before the transaction, or with exactly the installed ones, and the latter just when the marker had been written out |
| TransactionSpec.RecoverableExceptMarker | backup/restore.go:262-312 | recovery refuses exactly two states, a torn marker and a marker lost during cleanup, and in both the files are the installed ones |
| TransactionSpec.UndoRestores | backup/restore.go:335-396 | rolling back any half-finished transaction restores every original, empties the rollback directory and leaves the staging complete again |
| TransactionSpec.FateIsSettled | backup/restore.go:199-312 | what a recovery ends with depends only on whether the marker had been written out: the installed files if it had, the old ones if not |
| TransactionSpec.MoveKeepsMixed | backup/restore.go:166-186 | every single rename of an apply or a rollback leaves every file at one of its stations |
| TransactionSpec.OpenIsNotBlocked | backup/restore.go:371-373 | the conflict the rollback guards against cannot arise from a power loss |
| Transactions.UndoneOneMore | backup/restore.go:335-396 | rolling names back one at a time, in any order, is one rollback of all of them |
| Transactions.Undo | backup/restore.go:335-396 | the whole rollback: done if and only if nothing blocks it, and a power loss anywhere leaves a state that still ends as before the transaction |
| Apply.UndoInProcess | backup/restore.go:145-164 | the rollback closure walks both lists backwards and ends with the files before the restore and the staging complete |
| Apply.LoadPending | backup/restore.go:654-714 | every staged file is validated again and rewritten in place, and one refused file refuses the restore; cut off, it can leave one file empty and touches no refused one |
| Apply.CutOffIsClean | backup/restore.go:654-683 | after the validation of acceptable files was cut off, the next one succeeds if and only if no staged file was left empty |
| Apply.ApplyRestore | backup/restore.go:97-195 | an apply installs the whole staged set or changes nothing; a power loss anywhere leaves a state bound to the old files |
| Apply.InstallRestore | backup/restore.go:132-195 | the install loop and the final rename of the pending directory, under any single failing operation and any power loss |
| Apply.ApplyMerge | nodemerge/transaction.go:47-189 | a node merge replaces the registry and the speed results together or changes neither |
| Recovery.ConfirmRestore | backup/restore.go:199-232 | after a complete apply a confirmation commits; cut off before the marker the old files win, after it the new ones |
| Recovery.ConfirmMerge | nodemerge/transaction.go:191-215 | the stricter confirmation of a merge refuses a half-present transaction |
| Recovery.RollbackApplied | backup/restore.go:314-333 | each state is rolled back, refused with its own error and left alone, or found empty; an applied unconfirmed transaction always ends with the old files |
| Recovery.Recover | backup/restore.go:262-312 | recovery is done if and only if the directories allow it, ends in the state defined by `Recovered`, and a power loss inside it does not change the fate of the transaction |
| Startup.RecoverRepeatedly | backup/restore.go:262-312 | recovery cut off any number of times ends with the installed files exactly when the marker had been written out, else with the old ones, or refuses with the installed files in place |
| Startup.RecoveredIsSettled | backup/restore.go:262-312 | recovery leaves no transaction behind, and recovering again changes nothing |
| Startup.RestoreUnderPowerLoss | backup/restore.go:97-312 | a restore cut off anywhere and recovered by startups that are cut off themselves ends with exactly the staged set if the marker had been written out, and with the old files if not |
| Startup.MergeUnderPowerLoss | nodemerge/transaction.go:47-291 | the same for a node merge: registry and speed results together |
| Startup.RollbackSurvivesOwners | backup/restore.go:335-396 | after the owners rewrote files, rolling back restores the originals if and only if they created no covered file the transaction had not installed |
| Startup.OwnerCanBlockRollback | backup/restore.go:371-373 | the failing input: a file the backup excludes is written again before confirmation and recovery refuses it |
| Startup.StageRestoreGuarded | nodemerge/merge.go:223-238 | a restore is staged if and only if no merge directory exists |
| Startup.StageMergeInstruction | nodemerge/merge.go:133-210 | a merge is staged only without restore directories, and refused when a pending one has lost its instruction; cut off while it replaces an instruction it can leave that state |
| Startup.MergeIsStranded | nodemerge/merge.go:168-210 | the failing input: replacing the instruction is cut off after the state file is gone, and after any run of startups from then on both a restore and a merge are refused |
| Startup.LoadAndConfirm | main.go:438-448 | a rejected transaction ends with the old files, a confirmed one with the installed ones, both with what the owners wrote meanwhile |
| Startup.StartUp | main.go:75-448 | from a disk at rest, file by file: a clean staged restore is installed, overwritten by the last write of each owner and confirmed, or rolled back to the old files exactly when an owner rejects it; a refused one stays staged; and a pending merge is computed from the files as they are and installed in the same way |
| Startup.Boot | main.go:63-448 | one startup and lifetime that is not cut off did what Starts says of the files before it, and then every action of the lifetime; cut off anywhere it keeps the invariant of the data directory |
| Startup.Run | main.go:63-448 | after any startups, cut off anywhere, at most one of the two packages has directories and its transaction is bound to the files before it or to those it installed; every startup in the history is lawful; and a pending merge without its instruction stays |
| Startup.RunFromNothing | main.go:63-448 | the same for every run from an empty volume |
| Startup.RefusedStays | backup/restore.go:97-130 | a staged restore with one refused file is never applied by any number of startups, cut off anywhere, and the data stays |
| Startup.ValidationTearsFile | backup/restore.go:654-683 | the failing input: all staged files are acceptable, the power fails between truncating and writing one, and every later startup refuses the restore |
| AgentProtocol.OperationsKeepConsistent | probeagent/registry.go:675-720 | every operation of the registry leaves a record that can be loaded again |
| AgentProtocol.RunKeepsInv | probeagent/registry.go:300-597 | so does every run |
| AgentProtocol.NeverAcceptedTwice | probeagent/registry.go:495-597 | over any run with loss, duplication, reordering and crashes, no request is accepted twice under one issue, and the stored sequence never passes the saved one of the agent |
| AgentProtocol.ReplayExactly | probeagent/registry.go:522-524 | a request that passes the other checks is refused as a replay if and only if its sequence or a later one was accepted under this issue |
| AgentProtocol.SignedIsFresh | probeagent/client.go:374-398 | a newly signed request is newer than all accepted ones, so on delivery before any later one it is not a replay |
| AgentProtocol.OneEnrollmentPerIssue | probeagent/registry.go:440-493 | a token enrols one identity at most, and afterwards every offer is refused |
| AgentProtocol.RequestAcceptedExactly | probeagent/registry.go:495-597 | accepted exactly from the expected source, within the skew, signed by the enrolled key, newer than the last, and while the agent is not revoked; a revoked one is told so |
| AgentProtocol.OfferTakenExactly | probeagent/registry.go:440-473 | an offer is taken exactly when it is well formed and carries the issued token, unused and not expired, from the expected source |
| AgentProtocol.RevokedIsShutOut | probeagent/registry.go:390-412 | from a revocation on no run without a reissue accepts a request or enrols anyone |
| AgentProtocol.AcceptedInTime | probeagent/registry.go:495-597 | in every run from a new record, whatever is accepted came from the one expected source within the skew of its arrival, and found the agent not revoked |
| AgentProtocol.DeliveryInFacts | probeagent/registry.go:528-545 | an accepted delivery advances sequence, time and, for a heartbeat, health; any other changes nothing |
| AgentProtocol.AcceptedIsDeliverable | probeagent/registry.go:495-597 | what was accepted under the present issue can always be delivered again by whoever sees the network |
| AgentProtocol.ReissueReopensExactly | probeagent/registry.go:349-545 | some run that begins with a reissue accepts an earlier request once more if and only if its timestamp is at most the skew old at the reissue |
| AgentProtocol.AcceptedTwice | probeagent/registry.go:349-545 | the failing input as a run from a new record: enrol, sign, deliver, reissue, enrol the same key, deliver the same request |
| AgentChannel.Registry.Enroll | probeagent/registry.go:440-493 | refused for exactly the reasons of EnrollError in their order, otherwise the keys are taken and the token is spent |
| AgentChannel.Registry.AcceptHeartbeat | probeagent/registry.go:495-545 | refused for exactly the reasons of RequestError in their order, otherwise sequence, time and health advance |
| AgentChannel.Registry.AcceptControlRequest | probeagent/registry.go:550-597 | the same for the other control requests, which leave the health alone |
| AgentChannel.Client.SendHeartbeat | probeagent/client.go:201-221 | a heartbeat succeeds exactly when it was saved, arrived, was accepted and was answered |
| AgentChannel.Client.EnsureEnrolled | probeagent/client.go:149-193 | no false success, a token is never wasted on anyone else, and an undisturbed attempt succeeds even when an earlier one used the token without hearing so |
| AgentChannel.Client.EnrollAfterCrashes | probeagent/client.go:149-193 | after any number of attempts lost or crashed at any point, one undisturbed attempt enrols the identity saved before the first |
| AnnounceText.SplitOneInvertsCompose | remnawave/types.go:514-545 | a value splits at a message into a base exactly when it was composed from that base and message |
| AnnounceText.ComposeIsInjective | remnawave/types.go:534-545 | base and status line can both be read back from a composed value |
| AnnounceText.SplitRecoversTheBase | remnawave/types.go:514-532 | a composed value is split into its base when the message is known, and not recognised otherwise |
| AnnounceText.HeaderValue | remnawave/service.go:1402-1415 | absent, the one value, or a duplicate, however the header is spelled and whatever order headers are visited in |
| AnnounceText.WrittenReadsBack | remnawave/service.go:655-660 | what is written is read back, and every other header is unchanged |
| Announce.Service.Reconcile | remnawave/service.go:502-689 | a pass computes Reconciled for every configured or owned squad, and nothing changes for the others |
| Announce.Service.Adopt | remnawave/service.go:1584-1641 | the operator text before the checker's own status line is adopted, never the status; refused exactly when there is none to build on or the configuration cannot be saved |
| AnnounceRuns.PassKeepsBase | remnawave/service.go:564-689 | a pass keeps base and other headers, never conflicts without outside edits, and a successful one leaves exactly the base with the current message |
| AnnounceRuns.RunKeepsBase | remnawave/service.go:564-689 | over every run of passes, adoptions and releases without outside edits the base of a squad never changes |
| AnnounceRuns.ReconcileKeepsEveryBase | remnawave/service.go:502-732 | one pass over all squads keeps every recorded base |
| AnnounceRuns.WithdrawalRestoresBase | remnawave/service.go:655-673 | after any such run one withdrawal puts the text back byte for byte, or removes the header the checker created |
| AnnounceRuns.FirstStatusRecordsABase | remnawave/service.go:600-687 | the first status records a base from which RunKeepsBase holds |
| AnnounceRuns.OperatorTextBecomesBase | remnawave/service.go:605-633 | the operator's text becomes the base if and only if it is one appendable line and not itself a known status |
| AnnounceRuns.LostOwnership | remnawave/service.go:605-633 | a lost ownership record is recovered if and only if the old message is still known; otherwise a text with a base is left alone, and a status written whole is taken for the operator text |
| AnnounceRuns.AdoptedBaseSurvivesLoss | remnawave/service.go:611-617 | an adopted base survives the loss of the ownership record for every message |
| AnnounceRuns.LostAnswerLosesOwnership | remnawave/service.go:593-689 | after a pass over an owned squad whose answer was lost, the next pass gives the squad up if and only if the message had changed; otherwise nothing was written and ownership and base stay |
| AnnounceRuns.LostFirstAnswer | remnawave/service.go:605-689 | when the answer to the first status of a squad is lost, exactly what the next pass makes of it |
| Hysteresis.DecideGroups | remnawave/service.go:946-1007 | every location of a squad gets the list and the recovery time of Decide, other squads' times stay |
| Hysteresis.DecideInFacts | remnawave/service.go:955-1007 | what one pass makes of a location in each case: named at once when down or maintained, kept while nothing certain is seen or the window runs, and then dropped or called partial |
| Hysteresis.DownUntilRecovered | remnawave/service.go:979-1007 | over any run with failing writes and restarts, a location listed as down leaves the list only by maintenance or after an unbroken healthy or partial stretch of at least the window |
| Hysteresis.RecoversExactly | remnawave/service.go:979-1007 | when every write succeeds the location leaves the list exactly at the pass that completes the window |
| Hysteresis.WindowIsCalm | remnawave/service.go:981-995 | a running window began at a pass of the present unbroken stretch |
| StatusMessages.EmptyExactly | remnawave/service.go:1009-1050 | while something is down or in maintenance, the message is empty if and only if the scenarios for the present numbers of such locations are switched off |
| StatusMessages.MessageInParts | remnawave/service.go:1009-1050 | what is down and what is in maintenance are both named, joined or by the mixed text; what is partial only when nothing is either; the healthy message only when nothing is named |
| StatusMessages.OutageInParts | remnawave/messages.go:185-214 | the outage text is that of the scenario for the number of locations, with the names when they are at most three, and empty when that scenario is off |
| StatusMessages.OthersInParts | remnawave/messages.go:223-271 | the same for the maintenance and partial texts |
| SquadReviews.Reviewer.ReviewSquad | remnawave/service.go:906-1050 | deciding, choosing the message and writing together compute Reviewed, and no other squad changes |
| SquadReviews.ReviewIsStep | remnawave/service.go:946-1007 | one review takes the recorded listing and the recovery time of every evaluated location by exactly one step of the recovery window |
| SquadReviews.RunFollowsWindow | remnawave/service.go:564-1050 | so over every run of reviews, restarts, adoptions and failing writes, record and recovery time of a location follow the recovery window |
| SquadReviews.RecordedUntilRecovered | remnawave/service.go:661-1050 | a location recorded as down leaves the record only by maintenance, by a review that shows nothing, or after an unbroken healthy or partial stretch of at least the window |
| SquadReviews.LeavesRecordExactly | remnawave/service.go:946-1050 | while everything decided is written, a location recorded as down leaves the record exactly at the review that finds it maintained or completes the window |
| SquadReviews.ForgottenExactly | remnawave/service.go:670-674 | a location that is still decided to be down is forgotten if and only if the scenarios for the present numbers are switched off and the panel takes the write |
| SquadReviews.OneDownIsShown | remnawave/service.go:600-687 | the input can be reached: a first status in an empty panel records the location as down |
| SquadReviews.SwitchedOffForgets | remnawave/service.go:670-674 | the failing input: one of two locations is down, the scenario for one is switched off, and the record forgets it |
| LocationFold.Evaluate | remnawave/service.go:1072-1190 | for every order of members and servers the two folds give the flat state, and no state without a visible member |
| LocationFold.FoldIsFlat | remnawave/service.go:1163-1181 | folding the servers again is reading the members directly |
| LocationFold.OutageInFacts | remnawave/service.go:1149-1157 | reported out if and only if all visible members are confirmed down; maintenance if and only if all are paused as well |
| LocationFold.PartialInFacts | remnawave/service.go:1096-1100 | partial if and only if some member answers while all members at some address are confirmed down, and healthy if and only if some member answers and there is no such address |
| LocationFold.ShareExactly | remnawave/service.go:1122-1129 | two members are on one server exactly when they are one or have one non-empty address, or an address spelled like the stand-in for the other |
| LocationFold.OneServerIsHealthy | remnawave/service.go:1155-1157 | a location on one server is healthy as soon as one of its transports answers |
| SessionSpec.DerivedIsInv | diagnostics/manager.go:469-516 | deriving the state makes it say what the jobs say and never touches a completed job |
| SessionSpec.OverdueIsInv | diagnostics/manager.go:454-467 | expiring keeps the session right and leaves terminal sessions alone |
| SessionSpec.DoneMeansEveryAgentAnswered | diagnostics/manager.go:487-493 | completed if and only if every requested agent answered, each at most once |
| SessionSpec.PartialAndTimedOut | diagnostics/manager.go:494-506 | partial means some but not all agents answered, expired means none did |
| SessionStore.RemoveKeepsAgreement | diagnostics/manager.go:544-557 | removing a session keeps the four maps in agreement and frees no job or nonce of another session |
| SessionStore.AddKeepsAgreement | diagnostics/manager.go:235-238 | registering a job keeps index and reserved nonces a bijection onto the live jobs |
| SessionStore.AnswerKeepsAgreement | diagnostics/manager.go:341-343 | accepting an observation keeps the used nonces those of the completed jobs |
| Sessions.UsedExactly | diagnostics/manager.go:308-311 | in every reachable manager a nonce is used if and only if a completed job of a live session has that agent and that nonce |
| SessionStore.KeyIsInjective | diagnostics/manager.go:210-210 | one key stands for one agent and one nonce |
| Sessions.OverdueTwice | diagnostics/manager.go:454-467 | expiring twice at one time is expiring once, so every reading of one operation shows the same sessions |
| Sessions.Manager.CreateSession | diagnostics/manager.go:110-164 | refused exactly for a bad request, or when there is neither room nor a terminal session; never more than MaxSessions; the others only expire, and only the oldest terminal one may go |
| Sessions.CreatedInFacts | diagnostics/manager.go:110-164 | a created session asks some agents, no more than allowed, and ends within the allowed time |
| Sessions.Manager.RegisterJob | diagnostics/manager.go:166-240 | refused for exactly the reasons of RegisterError in their order, otherwise one job bound to the session |
| Sessions.RegisteredExactly | diagnostics/manager.go:177-224 | a job is registered exactly for a requested agent without one, in an open session, for a deadline still to come and within the session |
| Sessions.Manager.AcceptObservation | diagnostics/manager.go:279-346 | accepted exactly in time for the manager and the job, signed, with a fresh nonce, and bound in every field to an open job; then one observation is stored, its job completed and its nonce used |
| Sessions.Manager.CancelSession | diagnostics/manager.go:380-399 | an open session ends with all its open jobs cancelled; a terminal one is refused |
| Sessions.MovesForward | diagnostics/manager.go:250-277 | a job moves exactly when it is known, its session is open, and it moves forward |
| Controller.Controller.CreateAutomatic | remoteprobe/controller.go:432-544 | takes a session that waits for the one chosen agent exactly when the manager has room for a good request; a refused start leaves no session in flight |
| Controller.Controller.Operate | diagnostics/manager.go:110-411 | whatever agents, operators and the sweep do to sessions, no terminal session opens again and only new identifiers appear |
| Controller.Controller.OperateAll | diagnostics/manager.go:110-411 | over every run of these operations a terminal session is gone or exactly what it was, no observation is taken away, and every stored one is signed |
| Books.EvolutionKeepsBooks | agentautomation/coordinator.go:879-902 | whatever the controller, agents and operators do, the coordinator's books stay right: sessions in flight never exceed MaxConcurrent, none is forgotten, none is journaled twice |
| Coordination.Coordinator.Active | agentautomation/coordinator.go:879-902 | counts exactly the sessions the coordinator ever created that are still in flight |
| Coordination.Coordinator.StartSpeed | agentautomation/coordinator.go:380-427 | a node with a kept entry gets no second session; otherwise one starts exactly when fewer than MaxConcurrent are in flight and the controller takes it; two probes of a node start a cooldown apart unless the first was abandoned |
| Coordination.Coordinator.ResumeDeferred | agentautomation/coordinator.go:600-616 | what was refused for now is tried again exactly when it is due, and no retry starts any other probe |
| Coordination.Coordinator.StartAvailability | agentautomation/availability.go:138-180 | a probe in flight answers for every episode, an answered one for its own and, while young, for others of its kind, and anything else is asked again, with a session exactly when there is capacity and the controller takes it |
| Coordination.Coordinator.Harvest | agentautomation/availability.go:246-265 | every entry is harvested, and exactly the newly marked ones are recorded, one record each |
| Coordination.Coordinator.PruneAvailability | agentautomation/availability.go:223-241 | exactly the entries of failing nodes and those young or in flight stay; an entry nobody looked at is recorded once as it goes |
| Coordination.Coordinator.AvailabilityAnnotation | agentautomation/availability.go:337-379 | a verdict read for an alert is the kept one or else the present one, which is then kept, and journaled if it was not yet |
| Coordination.AnnotationInFacts | agentautomation/coordinator.go:630-690 | a verdict is told exactly when some agent answered, and that it is under way exactly while one still may |
| Coordination.Coordinator.Candidates | agentautomation/availability.go:111-128 | the first report of each node counts, panel-added nodes are never candidates, and the longest failing come first |
| Coordination.Coordinator.StartAvailabilityDiagnostics | agentautomation/availability.go:89-105 | in one round with nothing in between: while the check keeps reporting an episode that was answered, its entry stays and no further probe of that node starts; every other failing node of a watched kind gets an entry |
| CoordinationRuns.Run | agentautomation/coordinator.go:380-902 | over every run of the steps the coordinator takes under one hold of its lock, a round of availability probes being several, with any operations of others in between: sessions in flight never exceed MaxConcurrent and none is forgotten, no session is journaled twice, two speed probes of a node start a cooldown apart unless the first was abandoned, and an episode that was answered starts no further probe while it lasts |
| MergeHistory.MergeHistory | nodemerge/transaction.go:425-456 | the one list, newest first and without duplicates, of the relabelled results |
| MergeHistory.MergingHistoriesIsASetUnion | nodemerge/transaction.go:425-456 | for a fixed target merging is commutative, associative and idempotent |
| MergeHistory.MergeAvailability | nodemerge/transaction.go:374-395 | one sample for each time, newest first, the first list before the second |
| MergeHistory.MergingSamples | nodemerge/transaction.go:374-395 | merging samples is associative and idempotent, and the target keeps its own at a shared time |
| MergeState.AddIntIsExact | nodemerge/transaction.go:771-776 | exact if and only if the sum does not fall below the lower end, where the missing check lets it wrap around |
| MergeState.AddIntWrapsBelow | nodemerge/transaction.go:771-776 | the failing input: one below the least number becomes the greatest |
| MergeState.MergeConservesCounters | nodemerge/transaction.go:309-337 | the counters are conserved, and the merge is refused exactly when a sum does not fit |
| MergeState.TimesInFacts | nodemerge/transaction.go:325-350 | the merged times are the latest of both, the first sight the earliest known one, and name and identity the target ones |
| MergeState.MergesExactly | nodemerge/transaction.go:293-324 | refused unless a retired node goes into an active one of the same identity and every sum fits |
| MergeState.RewriteIncident | nodemerge/transaction.go:487-535 | the incident names the target instead of the source, in order and without duplicates, each node with its last non-empty name |
| MergeState.MovedIncidentForgetsSource | nodemerge/transaction.go:487-535 | no incident names the source any more, and every other node stays |
| MergeState.RewriteKeepsOneActiveExactly | nodemerge/transaction.go:336-338 | active incidents stay the only ones of their kind and scope if and only if source and target do not both have an active incident of one kind |
| MergeState.MergeLeavesTwoActive | nodemerge/transaction.go:293-372 | the failing input: the retired node left an active incident, the active one has one too, and the merge puts both on one scope |
| MergeState.Registry.Merge | nodemerge/transaction.go:293-372 | a refused merge changes nothing; otherwise only the two nodes change, lineages and samples are united and every incident is rewritten |
| MergeState.MergeSpeed | nodemerge/transaction.go:397-423 | the target's history holds both nodes' results, its latest is the first of them, the source has none, others are unchanged |
| JsonSchema.Decoder.ValidateValue | backup/schema.go:248-277 | succeeds exactly when AfterValue does and then has read exactly that value |
| JsonSchema.DecodeObjectUnique | backup/schema.go:189-209 | accepts exactly the Accepted streams |
| JsonSchema.ValueIsRead | backup/schema.go:248-277 | on a document's tokens a value call reads exactly that value, and fails if some object in it repeats a name |
| JsonSchema.ReadIsValue | backup/schema.go:248-277 | whatever is read is a value whose objects repeat no name |
| JsonSchema.AcceptedExactly | backup/schema.go:189-277 | accepted if and only if the stream is one object with nothing after it in which no object at any depth has two names equal in lower case |
| StatusClocks.Checker.Store | checker/checker.go:849-919 | the step-by-step update is one Checked step, refused for an unknown or unmonitored node |
| StatusClocks.Checker.StoreDiagnostics | checker/checker.go:953-995 | the update is one Diagnosed step; an online node is left alone |
| StatusClocks.Checker.Restore | checker/checker.go:1331-1435 | both restores set the one clock and the failure clock to the restored start |
| StatusClocks.Checker.Refresh | checker/checker.go:1018-1068 | an unknown node is not stored, an online one is left alone |
| StatusClocks.OneClock | checker/checker.go:849-995 | over every run exactly one failure clock runs, the one of the status, and none when online |
| StatusClocks.StateInFacts | checker/checker.go:849-950 | online exactly when the proxy answers; offline exactly when both host checks were made and failed, or when neither was made and the host was offline before |
| StatusClocks.FailingSinceIsTheFirstFailure | checker/checker.go:890-903 | the failure clock shows the first failed check or restored start since the node was last online, cleared or restored, whatever the reclassifications |
| StatusClocks.OutageHasOneStart | checker/checker.go:152-166 | ServiceFailureSince does not change while an outage lasts |
| StatusClocks.StateClockIsItsStart | checker/checker.go:882-900 | the clock of a state shows when that state was entered, never earlier |
| Downtime.TotalsAreTheIntervals | nodearchive/store.go:1311-1378 | downtime is the sum of the closed offline intervals in whole seconds, its longest their maximum, its count their number; proxy failures have their own account |
| Downtime.StartedIsAnInterval | nodearchive/store.go:1311-1344 | an open interval began at the first event of its state after one of another |
| Verdicts.CellFor | reachability/verdict.go:32-83 | unknown exactly without a reliable answer or a known local result, otherwise the verdict that compares both sides |
| Streaks.ConfirmingNeedsTwoSamples | reachability/matrix.go:309-313 | a streak of two needs two records of one run compared with different local samples, so repeating one local sample confirms nothing |
| Streaks.RepeatedRecord | reachability/matrix.go:299-313 | the streak is one plus the strict advances of the local sample in the present run of equal verdicts |
| Matrix.Matrix.Record | reachability/matrix.go:282-321 | one cell is replaced, and its streak and start remain those of its history |
| Matrix.Matrix.Retain | reachability/matrix.go:345-369 | exactly the cells of known nodes and registered agents stay, untouched |
| Matrix.DeriveRow | reachability/matrix.go:414-456 | alive if and only if some fresh vantage point reached the node; then exactly the fresh agents that failed are marked, and the checker exactly when only agents reached it, with its longest streak and earliest start |
| Matrix.Matrix.RowOf | reachability/matrix.go:383-407 | a row shows every agent once, ordered by name, stale exactly when the present pass has not recorded it again |
| Matrix.Matrix.Findings | reachability/matrix.go:485-526 | exactly the fresh vantage points that failed on a reached node, the checker at most once for each node, in the order shown |
| Matrix.ConfirmedIsDisagreement | reachability/verdict.go:107-120 | a confirmed failure was twice seen to disagree with the checker, against different local samples, if and only if the checker itself reaches the node |
| Matrix.TwoSweepsDownThenOneAnswer | reachability/matrix.go:436-455 | the failing input, recorded from an empty matrix: two sweeps in which everyone fails, then one answer, and the other failure is confirmed without ever having disagreed |
| Incidents.MassCandidate | nodearchive/store.go:1531-1591 | a candidate exists if and only if at least max(3, half of the nodes) fail with one cause; it is the most frequent cause, the first in order among equals, and the check endpoint is blamed exactly when a cause it can have is shared by nodes with open ports on two servers |
| Incidents.SharedInFacts | nodearchive/store.go:1593-1608 | the check endpoint is blamed exactly for a cause it can have, with every host up and two different servers |
| Incidents.Correlate | nodearchive/store.go:1493-1529 | one candidate for all nodes, or else exactly those of the subscriptions that fail together, ordered by scope |
| IncidentJournal.Journal.UpdateNode | nodearchive/store.go:1380-1428 | an outage opens one incident at its start, later checks renew its cause, its end resolves it; no other incident changes |
| IncidentJournal.Journal.UpdateMass | nodearchive/store.go:1444-1491 | the active mass scopes become exactly the correlated ones, with the data of their candidates; no node incident changes |
| IncidentJournal.Journal.Prune | nodearchive/store.go:1630-1653 | active incidents always stay, and of the resolved ones the newest that fit |
| IncidentJournal.Journal.Check | nodearchive/store.go:591-685 | after a check one active incident at most exists for each kind and scope, those of watched nodes are the offline ones with their present cause, and the mass ones are the correlated ones |
| IncidentJournal.NeverGlobalAndSubscription | nodearchive/store.go:1505-1528 | a global incident and one of a subscription are never active together |
| IncidentJournal.Journal.Pause | nodearchive/store.go:481-520 | a project pause resolves all active incidents, or none when the state cannot be saved |
| Archive.Store.Sync | nodearchive/store.go:314-372 | a sync sets the Active flags to the list and resolves the incidents of exactly those nodes that were active and are gone |
| Archive.Store.RecordAvailability | nodearchive/store.go:591-706 | a check updates the incidents of listed nodes and clears the Active flag of gone ones without touching their incidents |
| Archive.Store.Run | nodearchive/store.go:314-706 | over every run of list changes, checks, syncs and pauses each node goes its own way, one active incident at most exists for each kind and scope, and a global and a subscription incident are never active together |
| Archive.AbsentIncidentExactly | nodearchive/store.go:343-700 | the active incident of a node that is gone stays for ever if and only if a check and not a sync was the first to see it gone, short of a project pause |
| Archive.LeavesItsIncidentExactly | nodearchive/store.go:343-700 | the same from the last check that listed the node: still active exactly when that check left it active and a check came before the first sync |
| Archive.NodeLeavesThroughCheck | nodearchive/store.go:686-700 | the failing input as a run: an offline node leaves the list, a check runs before the sync, and no later check or sync ends its incident |

## Left out

- Reading archives, file permissions, links and directory syncs: only the order and the outcome of file operations matter here.
- I/O errors inside a rollback that runs in the same process, and two failing operations in one apply.
- HTTP, DNS, ICMP, TCP, Xray processes and the scheduling of goroutines; every operation under one lock is one step.
- Cryptography, randomness and hashing, and so the confirmation token of a merge.
- Texts of templates: rendering one is an input that fails or gives a status line.
- A policy that is switched off as a whole, and locations that are no longer evaluated: the recovery window is about locations every review sees.
- Lengths of texts are counted in characters that stand for bytes.
- The pairing of members with panel hosts and the visibility of hosts: `visible` is an input of the location fold.
- Two squad pairs of one external squad, and locations evaluated for several squads at once.
- Speed automation before a start: thresholds, outcomes and the order of candidates.
- Deleting all sessions of a node at once: a loop over DeleteSession.
- The geo fields of a merged node, the preview of a merge, and the checks of its identity beyond equality.
- `MergeState.Registry.Merge`: takes the identity check as one comparison and leaves the geo fields out, as above.
- Subscriptions named `(unnamed)`: they share their scope with the unnamed one, and the last candidate of a scope is the one shown.
- Rounding of durations to whole seconds through floating point: seconds are cut off exactly.
- Speed state on disk, country detection, display names, project maintenance, backups on a schedule, Telegram and the web interface.
- The cached list of squads that an adoption reads: it is taken to show what the panel holds.
- The session manager's own clock: one operation of the coordinator reads all sessions at one time.
