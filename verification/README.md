# Verified model of T-Hub's durable state and evidence rules

This project models the parts of T-Hub that decide what survives a crash, what a record
proves, and what may be removed, and proves properties of them. `dafny verify
dfyconfig.toml` checks all of it.

## What is modelled

**Crash-recoverable file replacement** (`storage.dfy`, `exchange.dfy`, `create.dfy`,
`delete.dfy`, `recovery.dfy`, `rollback.dfy`, `replacement.dfy`). The disk has directory entries (`names`), the entries as
last synced (`synced`), file contents, the intent journal and the temporary files that
interrupted writes have left in its directory. A `Run` is one process; each of its
methods is one statement of the script that touches the disk. Before every statement a
moment of an arbitrary `schedule` passes: other processes edit files in place, the process
may be killed, and the power may fail, which leaves either the current entries or those
last synced. `exchange`, `create`, `delete` and the three recoveries are methods over a
`Run`. Two invariants run through them: the files are there, each at one of its paths, and
the intent is the one of this operation (`Paired`, `Tracked`, `Named`); and the recorded
phase claims no more than is true, and nothing is lost (`Safe`, `PhaseFits`). Kills and
power losses keep both, unless a run is `Exposed`: it lost power while entries were
unsynced that it had not changed itself, because a killed process had left them or they
were so from the start. Even then the files keep their places if the last synced entries
lead to them (`Backed`). The histories in `recovery.dfy` (an operation, then any number of
recoveries, each cut anywhere) are loops over both, from every start, and state when a run
is exposed, begins, succeeds, is refused and ends. `rollback.dfy` has the three-way merge
of `claude_rollback`, `replacement.dfy` the exchange and the exception handler around it.

**The audit log** (`auditchain.dfy`, `auditverify.dfy`, `auditstate.dfy`,
`auditlog.dfy`, `audithistory.dfy`, `segments.dfy`, `rotation.dfy`, `auditscheme.dfy`,
`auditoverflow.dfy`).
`AuditLog` is one process with the fields of `Inner`; `disk` holds the files, the head
manifest, the protected checkpoint and the commit journal. Each durable step may stop, by
an I/O error or a crash, before or after its effect, and an append may stop after any
character. `Settled(s, commits)` is the disk that a history of commits determines; `Sane` describes
every disk that a stop can leave. `audithistory.dfy` runs any sequence of requests,
reports and restarts. `verify_core_mode` is a separate reader, and its verdict is
characterized independently of the writer. JSON encoding, SHA-256 and HMAC are the fields
of a `Scheme`, with the hypotheses `Valid` (a printed record is one line that reads back,
a sealed body verifies), `Separated` (no printed record is the tail of another, and no
record is sealed with the hash it links to) and, for the detection of tampering only,
`Binding` (no tag verifies for two bodies) and `Distinct` (no two head manifests have one
MAC); `auditscheme.dfy` shows that they can be met together.

**Delivery provenance** (`provenance.dfy`). The evidence slots, the two definitions
`states` and `validate`, and the `record_*` methods over whole runs.

**Parsers, printers and attribution**. `porcelain.dfy` and `leases.dfy`: `git worktree
list --porcelain`, lease attribution, prune decisions. `scanner.dfy`: the JSON object
scanner. `frames.dfy`: the response loop of the control client. `quoting.dfy`: the pane
command, read back under sections 2.2.1, 2.2.2 and 2.3 of the POSIX.1-2017 Shell Command
Language. `text.dfy` has the line and white space rules of Rust's `str`.

Inputs the code takes from outside are parameters: clocks and reads (`Turn`), git's
answers (`Git`), the results of system calls (the schedules). Where the code works on
bytes, one character of a `string` stands for one byte.

## What the proofs found

- `exchange` writes its intent before it syncs the directory. A power loss in between may
  take an entry back to another file or to none, and recovery then refuses for ever
  (`RecoverDisowned`; `EntriesTakenBack` reaches it from every ready disk of that kind).
  `DisownedIff` and `RecoverAfterPowerLoss` say when: exactly unless the entries that were
  durable lead to the two captured files, in either order. The histories of `exchange` hold
  from every start unless the first process loses power while its entries are not
  `Sheltered`, that is, durable or beside a journal directory that is yet to be made.
- No recovery syncs the directory before it records a commit or scrubs a parked file. If a
  process was killed between a rename and its sync, a power loss during or after the next
  recovery takes the rename back: an exchange is then refused as a changed commit
  (`ExchangeProtocol.RecoverTakenBack`), and a deletion leaves the target empty and is
  refused for ever (`DeleteProtocol.RecoverTakenBack`, `RecoverRuined`), in both cases
  exactly if the rename had not been durable; from durable entries every schedule of the
  next recovery can be finished (`RecoverTwice`). `CommitTakenBack` and `ScrubTakenBack`
  reach the two from every disk that is ready for the operation. Everything else the
  histories promise holds unless they are `exposed`, which takes a power loss after a kill
  (`KilledThenLost`), or over entries that were not durable at the start. The removal of a
  journal beside the target, where `default_journal` puts it, closes the window; the
  installer keeps its journals elsewhere (`CreateProtocol.RecoverAndLosePower`).
- Undisturbed recovery of an exchange refuses exactly three kinds of disks
  (`ExchangeProtocol.Fails`): the target was edited before the rename into neither of the
  two states; a recorded commit has been taken back; or a displaced file that had changed
  is back in its prestate. From what an exchange leaves, only the first and the last occur
  (`FailsFromSafe`), so after edits the intent may have to be cleared by hand.
- The exception handler of `claude_rollback` unlinks the candidate path. If `exchange`
  itself raises, that is its own candidate, and what a finished rollback discards is the
  very state it had edited (`Replacement.Replace`). An interrupt or a failing write after
  the rename reaches the same handler, which then unlinks the user's earlier file
  (`Replacement.Interrupted`).
- A durable link to a deleted file from another directory, left by an unsynced unlink, can
  come back with a power loss; the histories of `delete` say what holds beside one
  (`NoStaleLink`).
- A process killed inside `write_json` leaves a temporary file. If there was no intent yet,
  `exchange`, `create` and `delete` refuse the directory as not empty and `recover` refuses
  it as having no intent: `Ready` and `ReadIntent` are exact about both.
- An in-place edit during `recover_exchange`, between the digests and the swap, can be
  lost exactly if an earlier edit had given the target the replacement's own content:
  `RecoverBesideLateEdit` and `LateEditsKeptIff`. Hence the two theorems about edits: any
  edits beside `exchange` with an undisturbed recovery, or edits everywhere that avoid the
  replacement's bytes.
- After 999999 segments of one day the next name has seven digits and no longer matches
  the day. All later records of the day go to that one file, which no limit stops from
  growing (`NothingLimitsTheOverflow`), and a commit to it that is cut short is not
  recovered, because its journal is refused (`StuckExactlyIfUnreadable`, `Operate`).
  `ShortHistoriesAreNeverStuck` gives a bound under which that cannot occur, and
  `StuckHappens` a history in which it does.
- An `Err` of `try_record` does not mean that the record is absent: `Serves` lets an
  unacknowledged request be in the log, once, at its place.
- `validate` accepts records from before manifests were required, and there `states` lags
  behind the filled slots; `FlagsOfValidated` says exactly where.

## Model

| member | source | states |
|---|---|---|
| Storage.Run.Tick | scripts/captain/atomic-config.py:519-535 | Between two statements the run goes on after allowed edits, or it is killed, or power fails and the entries are the current or the last synced ones; it is exposed only if it had inherited unsynced entries, and not cut without kills and power losses |
| Storage.Run.SyncDirectory | scripts/captain/atomic-config.py:39-45 | Syncing a directory makes exactly its entries durable |
| Storage.Run.RenameExchange | scripts/captain/atomic-config.py:55-71 | The atomic swap of two entries, or an error if one is missing |
| Storage.Run.CopyMetadata | scripts/captain/atomic-config.py:439-453 | One system call after another, the candidate gets ownership and mode from the earlier stat and attributes from now; wherever it is cut, only metadata of the candidate has changed |
| Storage.Run.ClaimJournal | scripts/captain/atomic-config.py:455-469 | A missing journal directory is made; one that holds anything, a temporary file included, is refused |
| Storage.Run.OpenJournal | scripts/captain/atomic-config.py:455-469 | A missing journal directory is made, and the sync of its parent makes the entries beside it durable |
| Storage.Run.WriteIntent | scripts/captain/atomic-config.py:472-489 | The intent takes the place of the old one atomically; cut before that, it leaves the old one and at most one more temporary file |
| Storage.Run.SetPhase | scripts/captain/atomic-config.py:514-517 | The journal atomically holds the intent with the new phase, and nothing else changes |
| Storage.Run.ReadIntent | scripts/captain/atomic-config.py:491-512 | A journal without a readable intent is refused, otherwise its intent is returned |
| Storage.Run.RemoveJournal | scripts/captain/atomic-config.py:537-553 | Every file is truncated and unlinked, in any order, then the directory goes; a cut leaves the intent as it was, unreadable, or gone; at the end the entries beside the journal are durable |
| ExchangeProtocol.DurableExchange | scripts/captain/atomic-config.py:563-567 | The two files change places durably, or a cut leaves them in one order with no file lost; a kill between leaves the new order unsynced |
| ExchangeProtocol.Prepare | scripts/captain/atomic-config.py:869-912 | What is captured is the prestate the caller claimed, and the intent says exactly that; it fails exactly on disks that are not ready; a failure leaves the entries of both paths as they were or as last synced, new metadata on the candidate at most, and an empty journal at most |
| ExchangeProtocol.Install | scripts/captain/atomic-config.py:911-921 | From the durable intent to the durable swap, every stop, between rename and sync too, leaves the two files at the two paths |
| ExchangeProtocol.Confirm | scripts/captain/atomic-config.py:922-942 | A displaced prestate that changed, or a failed verification, is put back; otherwise the exchange commits |
| ExchangeProtocol.Exchange | scripts/captain/atomic-config.py:862-942 | From every start, however it is cut once it has begun, the two files are at the two paths in one order, edits of the target are kept and the journal says no more than is true, unless power is lost before entries are durable that were not; then they are in place or disowned. A raised error leaves the target what it was. Undisturbed, a committed target has the bytes of the candidate and, unless the candidate keeps its own, the metadata of the old target. Uncut and undisturbed, it begins and commits exactly on the disks that are ready; killed or without power at two given statements, it leaves what those say |
| ExchangeProtocol.CheckIdentities | scripts/captain/atomic-config.py:580-592 | A prepared intent demands the two original inodes in either order, later phases nothing |
| ExchangeProtocol.SwapBack | scripts/captain/atomic-config.py:638-651 | A displaced and changed prestate is put back, durably and with its phase; every stop keeps the invariant |
| ExchangeProtocol.Recorded | scripts/captain/atomic-config.py:594-609 | A recorded verdict is reported as it is and refused exactly if the target does not fit it |
| ExchangeProtocol.DecisionSuits | scripts/captain/atomic-config.py:594-653 | What recovery decides on what it has seen is borne out by every reachable disk, edits of the target or not |
| ExchangeProtocol.DecisionReports | scripts/captain/atomic-config.py:594-653 | Undisturbed, the decision never refuses or swaps, and names the file that the target is |
| ExchangeProtocol.DecisionOnDisk | scripts/captain/atomic-config.py:594-653 | On digests that agree with the disk, recovery refuses exactly in the states that Fails lists and renames exactly in those that SwapsBack lists |
| ExchangeProtocol.FailsFromSafe | scripts/captain/atomic-config.py:611-653 | From the disks that an exchange and its recoveries leave, it refuses exactly if an edit before the rename gave the target a third state, or a changed file that was displaced is back in its prestate |
| ExchangeProtocol.Resolve | scripts/captain/atomic-config.py:594-653 | Every branch keeps the invariant; on digests that agree with the disk it fails exactly in the states that Fails lists and renames exactly in those that SwapsBack lists; a refusal changes nothing |
| ExchangeProtocol.RecoverExchange | scripts/captain/atomic-config.py:570-653 | From every disk with the two files in place, synced or not, recovery keeps them and every edit unless exposed; undisturbed and uncut, it fails exactly in the states that Fails lists and renames exactly in those that SwapsBack lists; it commits exactly if the rename had happened; disowned entries are refused and stay |
| ExchangeProtocol.RecoverBesideLateEdit | scripts/captain/atomic-config.py:578-651 | One edit between the digests and the decision of recovery is kept exactly unless the target had the replacement content and recovery swaps |
| ExchangeProtocol.LateEditsKeptIff | scripts/captain/atomic-config.py:638-651 | All such edits are kept exactly if the target did not already have the replacement content |
| ExchangeProtocol.DisownedIff | scripts/captain/atomic-config.py:580-592 | A power loss before the first sync makes the identity check fail exactly unless the durable entries lead to the two captured files in either order |
| ExchangeProtocol.RecoverAfterPowerLoss | scripts/captain/atomic-config.py:909-913 | Undisturbed recovery after that power loss fails in exactly these cases |
| ExchangeProtocol.RecoverTakenBack | scripts/captain/atomic-config.py:594-628 | Killed before the sync of the rename, recovered with the journal kept, and cut off from power, the next undisturbed recovery fails exactly if the rename had not been durable |
| CreateProtocol.Prepare | scripts/captain/atomic-config.py:765-792 | A free target and a single-link candidate are captured as they are and made durable; it fails exactly on disks that are not ready, and then leaves the entries as they were or as last synced and the journal as it was or empty |
| CreateProtocol.Create | scripts/captain/atomic-config.py:765-804 | At every stop the new file is at exactly one of the two paths and no phase claims more than has happened; uncut and undisturbed, it succeeds exactly on the disks that are ready |
| CreateProtocol.Survey | scripts/captain/atomic-config.py:656-667 | The two digests tell at which path the file is |
| CreateProtocol.RecoverCreate | scripts/captain/atomic-config.py:656-678 | Recovery moves nothing, its verdict is whether the file is at the target, and undisturbed it fails exactly if another process had written the file, whatever entries a former process left unsynced |
| CreateProtocol.RecoverAndLosePower | scripts/captain/atomic-config.py:668-678 | A reported commit outlives a power loss exactly if the rename had been durable, or the journal was removed beside the target |
| DeleteProtocol.Discard | scripts/captain/atomic-config.py:1228-1240 | The parked file is scrubbed, then unlinked durably; wherever it is cut, it is gone only if it is scrubbed |
| DeleteProtocol.Release | scripts/captain/atomic-config.py:1242-1256 | The parked file is unlinked without being written, exactly if it is the expected one |
| DeleteProtocol.CleanupDeletedRecovery | scripts/captain/atomic-config.py:681-685 | Cleanup gives up only the expected state, by scrubbing or by unlinking |
| DeleteProtocol.RestoreMismatch | scripts/captain/atomic-config.py:688-710 | A parked file that is not the expected one is moved back under its own inode; every stop keeps the invariant |
| DeleteProtocol.Prepare | scripts/captain/atomic-config.py:807-838 | A single-link target in the expected state and a free recovery path are captured and made durable; it fails exactly on disks that are not ready |
| DeleteProtocol.Check | scripts/captain/atomic-config.py:842-844 | Before the deletion goes on, the parked file is the expected one, or it is put back and the journal is gone |
| DeleteProtocol.Delete | scripts/captain/atomic-config.py:807-859 | At every stop the file is at the target, parked, or gone; gone only in its expected state; the journal goes only when it is back or gone; a durable link from elsewhere matters only if power is lost; uncut and undisturbed, it succeeds exactly on the disks that are ready |
| DeleteProtocol.IsScrubbed | scripts/captain/atomic-config.py:739-742 | The zero-length test, on the captured inode |
| DeleteProtocol.Purge | scripts/captain/atomic-config.py:727-733 | With the last phase recorded, the file is looked at once more before file and journal go |
| DeleteProtocol.Finish | scripts/captain/atomic-config.py:724-734 | The deletion of an expected parked file is completed; the verdict says whether the target is there |
| DeleteProtocol.FinishScrubbed | scripts/captain/atomic-config.py:739-746 | A scrubbed but still linked file is removed as committed |
| DeleteProtocol.SettleParked | scripts/captain/atomic-config.py:739-748 | A parked file that is not the expected one is removed if it is scrubbed and otherwise put back, and never fails |
| DeleteProtocol.SettlePresent | scripts/captain/atomic-config.py:749-762 | A file at the target is reported as restored, and refused exactly if it is not the expected one and no restoration was under way |
| DeleteProtocol.Resolve | scripts/captain/atomic-config.py:724-762 | Every branch keeps the invariant and never gives up a changed file; undisturbed it fails exactly in the states that Fails lists, and changes nothing then |
| DeleteProtocol.RecoverDelete | scripts/captain/atomic-config.py:713-762 | Recovery keeps the file at one of the two paths or gone whatever cuts it, and the invariant unless exposed; the verdict is whether the target is there; undisturbed and uncut it fails exactly in the states that Fails lists, and never from a disk a deletion leaves |
| DeleteProtocol.RecoverTakenBack | scripts/captain/atomic-config.py:724-733 | Killed before the sync of the rename, recovered with a power loss right after the scrub, the next undisturbed recovery fails exactly if the rename had not been durable, and the target has none of its bytes |
| Recovery.Recover | scripts/captain/atomic-config.py:570-579 | One recovery, for all three operations, from every disk with the files in place: both invariants, the verdict is whether the rename had happened, an intent that cannot be read is refused without change, and an undisturbed readable one never |
| Recovery.RecoverUntilDone | scripts/captain/atomic-config.py:570-653 | Any number of recoveries, each cut anywhere, keep what one keeps; they end if one of them is not cut, and are exposed only by a power loss after a kill or over loose entries |
| Recovery.ExchangeAlone | scripts/captain/atomic-config.py:862-942 | With no other writer and from every start, whatever kills and power losses cut the exchange and its recoveries, the pair of paths is wholly before or wholly after (the bytes of the candidate under the metadata of the old target, or its own if it keeps them), unless power took back entries that were not durable; unless exposed, the verdict says which and only a journal that is being removed is refused; uncut it succeeds exactly on two files of one directory without other links, with the claimed target and an empty journal not below it; not begun, it leaves entries and journal alone |
| Recovery.ExchangeBesideEdits | scripts/captain/atomic-config.py:882-929 | From every start, in-place edits of the target at any moment of an exchange that may be cut anywhere are never lost if recovery runs undisturbed: the target is the file as last edited, or the new bytes replaced it and it is at the other path in the very state that was captured; an intent that stays is refused because the target is in neither state, or a displaced file returned to its captured one |
| Recovery.ExchangeAndRecoverBesideEdits | scripts/captain/atomic-config.py:605-653 | The same with edits beside the recoveries, if none writes the bytes of the replacement and the target did not have them |
| Recovery.CreateAlone | scripts/captain/atomic-config.py:765-804 | A creation, whatever cuts it and its recoveries, leaves the file at exactly one path; a verdict says which, recovery never fails on a readable intent, and uncut it succeeds exactly with a candidate without other links, a free target beside it and an empty journal |
| Recovery.DeleteAlone | scripts/captain/atomic-config.py:807-859 | Unless exposed, a deletion cut anywhere ends with the target intact or with both paths gone and the file scrubbed, or as it was if it was only to be unlinked; so it is also whenever no intent is readable; uncut it succeeds exactly with a target in the expected state without other links, a free recovery path and an empty journal, durable links from elsewhere or not |
| Recovery.DeleteBesideEdits | scripts/captain/atomic-config.py:807-859 | Unless exposed, edits of the target beside a deletion and its recoveries are never lost: whenever no intent is readable, the target is the file as last edited, or both paths are gone and what was given up is the expected state, scrubbed exactly unless it was only to be unlinked |
| Recovery.RecoverDisowned | scripts/captain/atomic-config.py:580-592 | An exchange whose entries were taken back to other files is refused by every later recovery and stays as it is |
| Recovery.RecoverRuined | scripts/captain/atomic-config.py:713-762 | A deletion in a durable state that recovery refuses is refused by every later recovery and stays as it is |
| Recovery.RecoverTwice | scripts/captain/atomic-config.py:570-653 | From durable entries, every schedule of the next recovery leaves a disk that an undisturbed one finishes with the same outcome |
| Recovery.CommitTakenBack | scripts/captain/atomic-config.py:594-628 | From every disk that is ready for it, an exchange killed right after the rename, a recovery that keeps its journal and a power loss leave an intent that is refused |
| Recovery.ScrubTakenBack | scripts/captain/atomic-config.py:724-733 | From every disk that is ready for it, a deletion killed right after the rename and a recovery without power after the scrub leave an empty target that is refused for ever |
| Recovery.EntriesTakenBack | scripts/captain/atomic-config.py:580-592 | From every ready disk whose durable entries lead to other files, an exchange that loses power right after its intent is refused for ever |
| Recovery.ReadyDisks | scripts/captain/atomic-config.py:862-912 | There are disks from which the three histories above start |
| Rollback.ClaudeRollback | scripts/captain/atomic-config.py:1132-1176 | It refuses exactly if the owned entry changed or the recovery file does not fit, and says which; otherwise only the owned entry, an emptied parent or an emptied file change |
| Rollback.RolledBackIsBefore | scripts/captain/atomic-config.py:1139-1176 | Any plan a rollback may end with undoes an untouched install |
| Rollback.RollbackUndoesInstall | scripts/captain/atomic-config.py:1132-1176 | Rolling back an untouched install is accepted and gives the earlier document, or removes the file it created |
| Replacement.DiscardDisplaced | scripts/captain/atomic-config.py:1228-1240 | The displaced file is scrubbed and unlinked, and the replacement is left alone |
| Replacement.Replace | scripts/captain/atomic-config.py:1174-1209 | Unless it is cut, the target still is the file it was, as last edited, or that file was given up in the very state whose document the rollback had edited; undisturbed, it succeeds exactly on the disks that are ready |
| Replacement.Interrupted | scripts/captain/atomic-config.py:1202-1207 | An exception that no statement raises discards the earlier file exactly if the rename had happened, and from every ready disk there is such a moment |
| AuditScheme.SchemesExist | apps/desktop/src-tauri/src/audit.rs:444-475 | The hypotheses about encoding, hashes and tags can be met together |
| AuditChain.PrintedReadsBack | apps/desktop/src-tauri/src/audit.rs:2055-2062 | The lines of a printed log read back as its records |
| AuditChain.ChainDetermined | apps/desktop/src-tauri/src/audit.rs:1655-1769 | Length and final hash determine a chain |
| AuditVerify.VerifyFile | apps/desktop/src-tauri/src/audit.rs:1620-1769 | The loop over a file computes the breaks of a left-to-right scan and of the head entry |
| AuditVerify.ScanReports | apps/desktop/src-tauri/src/audit.rs:1655-1737 | The scan reports a malformed line and a record that does not verify exactly if there is one, and nothing but these and wrong links |
| AuditVerify.ScanReportsMismatch | apps/desktop/src-tauri/src/audit.rs:1739-1750 | A wrong link is reported exactly if some record does not name the hash of the record before it |
| AuditVerify.ScanCountsKeyed | apps/desktop/src-tauri/src/audit.rs:1715-1716 | No keyed record is counted exactly if there is none |
| AuditVerify.ChainReports | apps/desktop/src-tauri/src/audit.rs:1754-1830 | On a chain, exactly one break tells a file that was cut back, one that goes on or ends otherwise than its entry says, a forged entry, and a missing one unless it may be legacy |
| AuditVerify.ScanOfChain | apps/desktop/src-tauri/src/audit.rs:1655-1769 | The scan finds nothing wrong exactly in chains, and ends at their length and last hash |
| AuditVerify.ScanWithoutBreaks | apps/desktop/src-tauri/src/audit.rs:1655-1769 | A scan without breaks has read a chain of well-formed records |
| AuditVerify.FileIntactIff | apps/desktop/src-tauri/src/audit.rs:1620-1830 | A file is without breaks exactly if it is a complete chain whose count and last hash its head entry holds under a valid MAC, or it has no entry, that is allowed, and none of its records is keyed |
| AuditVerify.VerifyCore | apps/desktop/src-tauri/src/audit.rs:1517-1618 | A kind of break is reported exactly if the head cannot be read or does not fit the checkpoint, some file has that break, or a listed file is missing; none is reported exactly if all of this is in order |
| AuditVerify.VerifyHead | apps/desktop/src-tauri/src/audit.rs:1524-1552 | A head that cannot be read, and a checkpoint without a head, are told from a head that is not the protected one |
| AuditVerify.VerifyFiles | apps/desktop/src-tauri/src/audit.rs:1554-1600 | A kind of break is reported exactly if some file has it |
| AuditVerify.IntactIff | apps/desktop/src-tauri/src/audit.rs:2610-2713 | Verification accepts exactly a head under its MAC that the checkpoint stands for, or neither, with every listed file there and every file intact; a head without a checkpoint must be an unversioned one |
| AuditVerify.CheckpointDeterminesLog | apps/desktop/src-tauri/src/audit.rs:2675-2713 | Beside one checkpoint, two directories that verify have the same entries, files and records, whatever heads they have |
| AuditVerify.VerificationDeterminesLog | apps/desktop/src-tauri/src/audit.rs:1517-1618 | Two directories that verify against one head and checkpoint have the same files with the same records |
| Segments.SegmentIdMatches | apps/desktop/src-tauri/src/audit.rs:1083-1117 | The next segment id belongs to its day, with its number, exactly up to 999999 |
| Segments.SegmentOrder | apps/desktop/src-tauri/src/audit.rs:1093-1117 | Among files of a day, a larger number is a greater name |
| Segments.BelowIff | apps/desktop/src-tauri/src/audit.rs:1093-1117 | The order of names is decided by the first characters that differ, and a proper beginning comes first |
| Segments.ActiveAuditFileId | apps/desktop/src-tauri/src/audit.rs:1093-1117 | While numbers last, the id is the greatest file if it is not full, the first of the day, or the one after a full greatest file; then it is the one name beyond the last number |
| AuditState.SettledIsIntact | apps/desktop/src-tauri/src/audit.rs:1496-1506 | Verification accepts what any history of commits leaves |
| AuditState.ProjectIsChained | apps/desktop/src-tauri/src/audit.rs:444-475 | The records of each file form a chain |
| AuditState.NotThereYet | apps/desktop/src-tauri/src/audit.rs:2062-2066 | A new line is never already the tail of the log, so recovery does not mistake the log for finished |
| AuditState.TornTail | apps/desktop/src-tauri/src/audit.rs:2062-2081 | After an append torn anywhere, the tail that recovery reads tells exactly whether the line is complete |
| AuditState.PendingIsReadable | apps/desktop/src-tauri/src/audit.rs:1859-2053 | The journal of a commit passes every check of its reader exactly if its file has a number of at most six digits |
| AuditState.ReadableIff | apps/desktop/src-tauri/src/audit.rs:1859-2053 | A journal passes exactly if its checkpoint stands for its signed head and its record, if any, is keyed, verifies and is the last of its file by that head |
| AuditState.CheckpointDeterminesPending | apps/desktop/src-tauri/src/audit.rs:1914-1966 | Two journals that pass with one checkpoint have the same entries and, for one file, the same record |
| AuditState.StuckExactlyIfUnreadable | apps/desktop/src-tauri/src/audit.rs:1859-2053 | On a disk the writer leaves, the journal is refused exactly if the last commit went beyond the last segment number |
| AuditState.RewriteStaysInFlight | apps/desktop/src-tauri/src/audit.rs:2106-2113 | Cutting the torn part and appending again, stopped anywhere, leaves the commit in flight |
| AuditState.ReadyCloses | apps/desktop/src-tauri/src/audit.rs:522-524 | Every stop between the written line and the removed journal is recoverable, and the end is the settled disk |
| AuditState.JournalOfSane | apps/desktop/src-tauri/src/audit.rs:803-815 | A journal found after any stop is the one of the last commit and starts from or arrives at the checkpoint |
| AuditLog.TailCheck | apps/desktop/src-tauri/src/audit.rs:2069-2104 | After a last complete line, a tail passes exactly if it is a part of the line to write and that line links to the last one; what is wrong is told apart |
| AuditLog.PrintedTailCheck | apps/desktop/src-tauri/src/audit.rs:2069-2104 | After printed records, the same in terms of the records |
| AuditLog.TornTailPasses | apps/desktop/src-tauri/src/audit.rs:2068-2103 | Recovery accepts the tail of every torn append |
| AuditLog.RecoveredStaysInFlight | apps/desktop/src-tauri/src/audit.rs:2055-2114 | Completing the line, stopped anywhere, leaves the commit in flight; finished, it leaves the whole line |
| AuditLog.InitializedIsIntact | apps/desktop/src-tauri/src/audit.rs:834-879 | What was accepted without a checkpoint, legacy files included, verifies strictly under the first one |
| AuditLog.StartableIsLegacy | apps/desktop/src-tauri/src/audit.rs:834-866 | Without head and checkpoint a directory is adopted exactly if every file is a chain of legacy records |
| AuditLog.KeyedLogIsNotStartable | apps/desktop/src-tauri/src/audit.rs:1754-1760 | The files of a log with commits are not adopted when head and checkpoint are gone |
| AuditLog.PreparedIsPending | apps/desktop/src-tauri/src/audit.rs:756-796 | On a settled disk the prepared journal is the one the extended history determines |
| AuditLog.CarriedIsSane | apps/desktop/src-tauri/src/audit.rs:492-524 | Every stop between the durable journal and its removal is recoverable, and the end is the settled disk of one more commit |
| AuditLog.AuditLog.Append | apps/desktop/src-tauri/src/audit.rs:498-502 | An append that stops leaves some prefix of the text |
| AuditLog.AuditLog.KeyFor | apps/desktop/src-tauri/src/audit.rs:579-610 | Key state is loaded once, and a later difference from the disk is an error |
| AuditLog.AuditLog.StoreCheckpoint | apps/desktop/src-tauri/src/audit.rs:737-754 | Memory follows the checkpoint only after the whole write |
| AuditLog.AuditLog.RecoverRecordAppend | apps/desktop/src-tauri/src/audit.rs:2055-2114 | A complete line is left alone, a torn one is cut and rewritten, any other tail is refused unchanged |
| AuditLog.AuditLog.ReadPending | apps/desktop/src-tauri/src/audit.rs:1859-1966 | A journal that fails a check is refused, any other is returned |
| AuditLog.AuditLog.RollForward | apps/desktop/src-tauri/src/audit.rs:819-828 | On any disk, a line that does not go on from the end of its file is refused without change; otherwise the line is completed, then head, checkpoint and the end of the journal follow, and every stop is on that way |
| AuditLog.AuditLog.RecoverJournalled | apps/desktop/src-tauri/src/audit.rs:803-832 | On any disk, a journal that neither starts from nor arrives at the checkpoint is refused without change, any other is rolled forward; done, the file ends in the line |
| AuditLog.RolledForwardIsSane | apps/desktop/src-tauri/src/audit.rs:803-832 | On a disk that the writer left, rolling forward is never refused, every stop is recoverable, and the end is the settled disk |
| AuditLog.AuditLog.RecoverSane | apps/desktop/src-tauri/src/audit.rs:803-832 | A journalled commit is carried out to the settled disk from any point it had reached, and nothing but I/O can fail |
| AuditLog.AuditLog.RecoverPendingCommit | apps/desktop/src-tauri/src/audit.rs:803-832 | After any stop, recovery ends in the settled disk of all journalled commits, or fails by I/O, or refuses, without change, the journal of a commit beyond the last segment number |
| AuditLog.AuditLog.LastHashAndCount | apps/desktop/src-tauri/src/audit.rs:2547-2577 | The end of a file as the scan finds it; a malformed line is an error |
| AuditLog.AuditLog.LegacyManifestEntries | apps/desktop/src-tauri/src/audit.rs:2579-2608 | One entry for every file, with its count and last hash |
| AuditLog.AuditLog.InitializeCheckpoint | apps/desktop/src-tauri/src/audit.rs:834-879 | On any directory it changes nothing if there is a checkpoint; otherwise it ends with head and checkpoint of what verified, keyed records only under a head, and every stop is on that way |
| AuditLog.AuditLog.OpenSettled | apps/desktop/src-tauri/src/audit.rs:406-438 | On a settled log opening finds no fault, and memory holds sizes and the end of the file that the rotation rule gives |
| AuditLog.AuditLog.ValidateAuditState | apps/desktop/src-tauri/src/audit.rs:541-577 | It passes exactly if head, checkpoint, sizes and the end of the file are as memory has them |
| AuditLog.ConsistentIff | apps/desktop/src-tauri/src/audit.rs:541-577 | Memory is consistent with a disk exactly if the signed head is the one of the remembered checkpoint and ends the file as remembered, and every file has its remembered length |
| AuditLog.AuditLog.ReuseWriter | apps/desktop/src-tauri/src/audit.rs:436-441 | On any disk, a strict record goes on in the open file only if memory is consistent with the disk |
| AuditLog.AuditLog.PrepareCommit | apps/desktop/src-tauri/src/audit.rs:756-796 | The journal extends the head that was read; an untrusted head or checkpoint is refused |
| AuditLog.AuditLog.CommitSteps | apps/desktop/src-tauri/src/audit.rs:481-524 | Journal, line, head, checkpoint, no journal: after any stop the disk is a prefix of these steps |
| AuditLog.AuditLog.CommitRecord | apps/desktop/src-tauri/src/audit.rs:481-524 | After any stop the record is the last commit or left no trace; done, the disk is settled |
| AuditLog.AuditLog.RecordLocked | apps/desktop/src-tauri/src/audit.rs:368-539 | The request becomes the last commit of the file that the rotation rule gives, or leaves no trace, and nothing but I/O can fail |
| AuditLog.AuditLog.TryRecord | apps/desktop/src-tauri/src/audit.rs:316-365 | Acknowledged requests are committed and leave the log settled; an undisturbed request on a readable journal is acknowledged; any failure quarantines the process; a quarantined process, and any process on a refused journal, changes nothing |
| AuditLog.AuditLog.VerifyDirectory | apps/desktop/src-tauri/src/audit.rs:892-911 | On any disk, the last step of a report is without breaks exactly if the directory verifies against the remembered checkpoint |
| AuditLog.AuditLog.VerifySelf | apps/desktop/src-tauri/src/audit.rs:882-941 | A report without breaks leaves the settled disk; breaks quarantine the process; an undisturbed fresh process finds none exactly unless the journal is refused |
| AuditHistory.ServesOneMore | apps/desktop/src-tauri/src/audit.rs:327-365 | Each event adds at most one commit, that of its own request, and an acknowledged one adds it |
| AuditHistory.Happen | apps/desktop/src-tauri/src/audit.rs:327-365 | One request, report or restart of a live or dead process keeps the log as the writer may leave it, and changes nothing under a refused journal |
| AuditHistory.Serve | apps/desktop/src-tauri/src/audit.rs:316-365 | Undisturbed, a new process on any disk a former one left, short of a refused journal, acknowledges every request and leaves the settled log with one commit for each, in order |
| AuditHistory.Operate | apps/desktop/src-tauri/src/audit.rs:316-365 | From an empty directory, over any requests, I/O errors, torn appends, crashes and restarts, one undisturbed report leaves the settled log of the served requests: every acknowledged one in order, others at most once, no breaks; only a commit beyond the last segment number, cut short, is not recovered |
| AuditOverflow.StuckHappens | apps/desktop/src-tauri/src/audit.rs:1859-1966 | There is a history whose next stop leaves a journal that is refused |
| Rotation.FileOrderIsWriteOrder | apps/desktop/src-tauri/src/audit.rs:1093-1117 | Within a day the order of file names is the order of writing |
| Rotation.OverTheLimitByOneRecord | apps/desktop/src-tauri/src/audit.rs:387-391 | No numbered file passes the size limit by more than one record |
| Rotation.AllButTheLastAreFull | apps/desktop/src-tauri/src/audit.rs:387-391 | Every file of a day but its last is full: another one is begun only then |
| Rotation.NothingLimitsTheOverflow | apps/desktop/src-tauri/src/audit.rs:1093-1117 | Once the numbers of a day have run out they stay so, and all its later records go to the one file beyond them |
| Rotation.ShortHistoriesHaveRoom | apps/desktop/src-tauri/src/audit.rs:1093-1117 | With at most as many commits as there are segments of a day, every file has a number |
| Rotation.ShortHistoriesAreNeverStuck | apps/desktop/src-tauri/src/audit.rs:1859-1966 | A history of at most that many events never leaves a refused journal |
| Rotation.NumbersFollowCommits | apps/desktop/src-tauri/src/audit.rs:1093-1117 | Segment numbers stay below the number of commits |
| Rotation.OnlyTheLogVerifies | apps/desktop/src-tauri/src/audit.rs:1517-1618 | Beside the checkpoint of a settled log nothing verifies but its own head and its own files with its own records |
| Rotation.SettledSpelledOut | apps/desktop/src-tauri/src/audit.rs:756-796 | A settled log prints its commits file by file in order, and head and checkpoint count all commits and hold length and last hash of every file |
| Rotation.RollbackIsFound | apps/desktop/src-tauri/src/audit.rs:2675-2713 | Files and head that were put back to any earlier state of the log do not verify beside its checkpoint |
| Rotation.StaleMemoryIsFound | apps/desktop/src-tauri/src/audit.rs:541-577 | A writer goes on after another process exactly if that one has left the very log that the writer remembers |
| Provenance.ValidateForSourceCommit | apps/desktop/src-tauri/src/agent_session.rs:212-262 | The loop accepts exactly the manifests with valid inputs of distinct lanes and agents, one of which results in the commit |
| Provenance.DefinitionsAgree | apps/desktop/src-tauri/src/agent_session.rs:426-526 | A record validates with its manifests exactly if its baseline is a commit and every flag says whether its slot is filled |
| Provenance.FlagsOfValidated | apps/desktop/src-tauri/src/agent_session.rs:606-770 | For validated records, flags and slots agree exactly if the manifests are there, and the lag of each flag otherwise |
| Provenance.DeliveryProvenance.constructor | apps/desktop/src-tauri/src/agent_session.rs:412-424 | A new record has no evidence |
| Provenance.DeliveryProvenance.RecordImplementation | apps/desktop/src-tauri/src/agent_session.rs:528-534 | Accepted exactly if the slot is free or equal and the result validates; otherwise nothing changes, and the error says why |
| Provenance.DeliveryProvenance.RecordReview | apps/desktop/src-tauri/src/agent_session.rs:536-542 | The same for a review |
| Provenance.DeliveryProvenance.RecordAcceptanceTest | apps/desktop/src-tauri/src/agent_session.rs:544-553 | The same for an acceptance test |
| Provenance.DeliveryProvenance.RecordIntegration | apps/desktop/src-tauri/src/agent_session.rs:555-566 | The same for an integration, which needs a fitting manifest |
| Provenance.DeliveryProvenance.RecordArtifact | apps/desktop/src-tauri/src/agent_session.rs:568-585 | The same for an artifact, which needs an integrated record and a complete manifest |
| Provenance.DeliveryProvenance.RecordInstallation | apps/desktop/src-tauri/src/agent_session.rs:587-593 | The same for an installation |
| Provenance.DeliveryProvenance.RecordLiveVerification | apps/desktop/src-tauri/src/agent_session.rs:595-604 | The same for a live verification |
| Provenance.ReplayChangesNothing | apps/desktop/src-tauri/src/agent_session.rs:528-604 | Evidence accepted once is accepted at any later point of a run, and then changes nothing |
| Provenance.GrowingFlags | apps/desktop/src-tauri/src/agent_session.rs:426-507 | Along growing records no flag falls back |
| Provenance.Deliver | apps/desktop/src-tauri/src/agent_session.rs:528-604 | Over any run of calls: flags match slots at every point, filled slots and raised flags stay, refused calls leave no trace |
| Provenance.LiveVerifiedMeansWholeChain | apps/desktop/src-tauri/src/agent_session.rs:426-507 | The last flag says exactly that the whole chain is there: one commit, distinct lanes and agents, canonical branch and commit, one artifact and target, times in order, and every field of the form it needs |
| Provenance.ValidatedIsLinked | apps/desktop/src-tauri/src/agent_session.rs:606-770 | Whatever a validated record holds, with manifests or without, is a chain from its commit on |
| Provenance.OneReason | apps/desktop/src-tauri/src/agent_session.rs:528-604 | Every refusal has exactly one reason, and accepted evidence none |
| Provenance.CommitIff | apps/desktop/src-tauri/src/agent_session.rs:813-845 | A commit or Git object is 40 or 64 hexadecimal digits, a SHA-256 hash 64 |
| Provenance.Utf8Bounds | apps/desktop/src-tauri/src/agent_session.rs:793-812 | The lengths that limit references and identifiers count bytes, equal to the characters exactly for ASCII |
| Scanner.BalancedPasses | apps/desktop/src-tauri/src/codex.rs:380-405 | Any balanced text, whatever its strings and escapes, leaves the scan where it was |
| Scanner.EndsAreObjects | apps/desktop/src-tauri/src/codex.rs:380-405 | Where the scan ends, it has read a balanced object |
| Scanner.CloseObject | apps/desktop/src-tauri/src/codex.rs:379-406 | The loop with its three variables computes the end of the scan |
| Scanner.OpensIff | apps/desktop/src-tauri/src/codex.rs:368-406 | After spaces and a brace, the scan ends exactly if a balanced object stands there, and cuts exactly that object |
| Scanner.ExtractObject | apps/desktop/src-tauri/src/codex.rs:363-407 | The result is the balanced object after the first key and spaces, whatever follows; there is no result exactly if there is no such object |
| Frames.VerdictIsFinal | apps/cli/src/control.rs:393-447 | What the stream has settled is not changed by later reads |
| Frames.VerdictIsTrue | apps/cli/src/control.rs:393-447 | Of every stream exactly one outcome is true: the frame before its first newline, that it is too long, or how it ended without one |
| Frames.ProbesAreSpaced | apps/cli/src/control.rs:400-407 | After a probe the next one is due an interval later |
| Frames.FirstProbe | apps/cli/src/control.rs:392-400 | Until a probe the first one is due at its time |
| Frames.CollectedToTheEnd | apps/cli/src/control.rs:408-446 | What is collected is the concatenation of the reads up to the end or the fault, whatever follows |
| Frames.Receive | apps/cli/src/control.rs:412-432 | One read extends the buffer within the limit, or brings the outcome that is true of the whole stream |
| Frames.ReadFrame | apps/cli/src/control.rs:393-447 | It times out exactly if the deadline passes, or a due probe finds another endpoint, before the stream is settled; otherwise the frame is exactly what stands before the first newline of the concatenated bytes, if that is at most 1 MiB, and without a newline the error is decided by length and end of the stream; the buffer never exceeds 1 MiB |
| Frames.ChunkingDoesNotMatter | apps/cli/src/control.rs:393-447 | Streams of the same bytes and end get the same verdict, however cut and delayed |
| Quoting.QuotedReads | apps/desktop/src-tauri/src/commands.rs:301-303 | A quoted string adds exactly itself to the word it stands in, whatever follows |
| Quoting.QuotingRoundTrip | apps/desktop/src-tauri/src/commands.rs:301-303 | Every string, quoted, is read back as one word equal to it |
| Quoting.PaneCommandReads | apps/desktop/src-tauri/src/commands.rs:339-367 | A named shell is used as it is; a startup command is read as four words, the last being the command without the white space around it and the login shell |
| Quoting.NoDoubleQuoteAdded | apps/desktop/src-tauri/src/commands.rs:355-366 | The wrapping adds no double quote |
| Porcelain.ParsePorcelain | apps/cli/src/worktree.rs:87-154 | The line loop computes the fold over the lines |
| Porcelain.TrimmedParsesTheSame | apps/cli/src/worktree.rs:54-66 | Trimming the output changes no result, for any text |
| Porcelain.OtherLinesAreIgnored | apps/cli/src/worktree.rs:100-149 | A line with any other key changes nothing, and neither does one before the first path |
| Porcelain.BlockReads | apps/cli/src/worktree.rs:87-154 | A printed block reads back as its entry, whatever reasons it gives |
| Porcelain.ParsingUndoesPrinting | apps/cli/src/worktree.rs:87-154 | Parsing what git prints for any list of entries gives that list, trimmed or not |
| Leases.PathWithinIff | apps/cli/src/worktree.rs:202-206 | A directory lies within a root exactly if the components of the root are its first ones |
| Leases.SiblingIsNotOwned | apps/cli/src/worktree.rs:198-224 | A session in a directory whose name merely begins with the name of a worktree neither owns nor leases it |
| Leases.OwnerIsLongest | apps/cli/src/worktree.rs:212-218 | The owner is among the longest paths that hold the directory, and missing exactly if none does |
| Leases.OwnedIffInnermost | apps/cli/src/worktree.rs:212-224 | A session owns a worktree exactly if it is the innermost that holds it |
| Leases.ExactlyOneOwner | apps/cli/src/worktree.rs:212-224 | Every session inside some worktree is owned by exactly one, up to trailing slashes |
| Leases.OrderDoesNotMatter | apps/cli/src/worktree.rs:212-224 | Ownership does not depend on the order of the list |
| Leases.LeaseIsLeast | apps/cli/src/worktree.rs:228-238 | There is a lease exactly if a live session occupies the worktree, and it is the least name |
| Leases.Sort | apps/cli/src/worktree.rs:252-252 | The same names, in order |
| Leases.Dedup | apps/cli/src/worktree.rs:253-253 | The same names, each once, in strict order |
| Leases.DeadSessionsFor | apps/cli/src/worktree.rs:242-255 | The names of exactly the dead sessions of the worktree, strictly sorted |
| Leases.ReapedIff | apps/cli/src/worktree.rs:611-739 | A worktree is reaped exactly if it is linked, unlocked, present, clean, off the default branch, innermost for no live session, and merged or forced |
| Leases.FirstReasonDecides | apps/cli/src/worktree.rs:679-739 | A skipped worktree is skipped for the first reason that applies to it, a reaped one has none, and it is forced exactly if its branch is not merged |
| Leases.LiveSessionsAreProtected | apps/cli/src/worktree.rs:679-739 | Every live session inside some worktree protects the worktree it occupies, forced or not |

## Left out

- Digests: the SHA-256 of a file description is modelled as the description itself, so two states with one digest are not modelled.
- Contents: writes to files and to the journal are durable when made, because the script syncs them at once; only directory entries can be lost. A power loss between an unlink in the journal directory and the sync after it may bring back a truncated intent or an empty directory; both are, like their absence, a journal without a readable intent.
- Other processes edit files in place; they do not rename over, link or remove the paths of an operation, and they do not touch the journal.
- Paths are regular files, and target and candidate differ.
- Storage.LosePower: a power loss takes back all unsynced entries or none; that it takes back one of two which were changed separately is not modelled.
- Replacement.Interrupted: the exception falls between two statements, as a kill does, and the handler itself is not cut.
- ExchangeProtocol.Exchange: a failed verification after the rename is undone within the run; if that undoing is cut short and the replacement is no longer the desired one, recovery refuses, and nothing is claimed of it beyond both files being in place.
- `snapshot_executable`, `verify_executable`, `verify_cortana_catalog`, `capture`, `materialize`, `publish` and `purge` of the script: file system detail.
- Rollback.ClaudeRollback: only the edit of the document; `replacement.dfy` and `delete.dfy` have the files.
- Keys, DPAPI sealing, permissions, file stamps and locks, the migration of legacy paths and the verification cache of the audit log. The log's files change only through the process that holds it, so the checks for foreign changes always pass here.
- AuditLog.AuditLog.ValidateAuditState: compares the sizes of the files, not their full stamps of device, inode and times, because no other process changes them here.
- Redaction and the fields of an audit record: a request is one string, composed with the previous hash by the `Scheme`.
- Error texts, and which of several errors `validate` reports first.
- Provenance JSON, `AgentFollowup` and the session records around the delivery record.
- Frames.ReadFrame: connecting, writing the request, the UTF-8 and JSON decoding of a frame and the retry around the call.
- Scanner.ExtractObject: the overflow of a 32-bit depth, which takes two thousand million open braces.
- Quoting.PaneCommandReads: the expansion of the bare words, double quotes and operators are outside the reader; the quoted word contains none that act.
- git, tmux and WSL calls, the gathering of leases and its `complete` flag, retirement reservations, and everything else of the CLI.
- `bounded_exec.rs`, `acl.rs`, `authz.rs`, the user interface and the build: threads and timers, or decisions that one branch settles.
