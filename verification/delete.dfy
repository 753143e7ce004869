/** `delete` and `recover_delete`: removing a file by way of a recovery path. */
module DeleteProtocol {
  import opened Common
  import opened Storage

  /* ---- what one deletion is about ---- */

  // The path and inode to delete, the path the file is parked at, and the expected state.
  datatype Deletion = Deletion(target: Path, recovery: Path, inode: Inode, expected: File, unlinkOnly: bool)

  function IntentOf(k: Deletion, phase: Phase): Intent {
    Intent(Operation.Delete, k.target, k.recovery, Of(k.expected), Absent, phase, Some(k.inode), None, k.unlinkOnly)
  }

  datatype Stage = Present | Displaced | Gone

  function StageOf(names: map<Path, Inode>, k: Deletion): Stage {
    if k.target in names then Present else if k.recovery in names then Displaced else Gone
  }

  // The file has at most one link, at the target or at the recovery path.
  predicate Located(names: map<Path, Inode>, k: Deletion) {
    var stage := StageOf(names, k);
    && (stage == Present ==> names[k.target] == k.inode && k.recovery !in names)
    && (stage == Displaced ==> names[k.recovery] == k.inode)
    && forall q | q in names && q != k.target && q != k.recovery :: names[q] != k.inode
  }

  // The disk has the file.
  predicate Held(d: Disk, k: Deletion) {
    k.target != k.recovery && Parent(k.target) == Parent(k.recovery) && k.inode in d.store
  }

  predicate Tracked(d: Disk, k: Deletion) {
    Held(d, k) && Located(d.names, k)
  }

  // It would be after a power loss.
  predicate Backed(d: Disk, k: Deletion) {
    Located(d.synced, k)
  }

  function Now(d: Disk, k: Deletion): Stage {
    StageOf(d.names, k)
  }

  // A power loss now would not change where the file is.
  predicate Agreed(d: Disk, k: Deletion) {
    Backed(d, k) && StageOf(d.names, k) == StageOf(d.synced, k)
  }

  // A run watches the two paths, and every durable link to the file.
  predicate Watches(watched: set<Path>, d: Disk, k: Deletion) {
    {k.target, k.recovery} <= watched && forall q | q in d.synced && d.synced[q] == k.inode :: q in watched
  }

  // What a run may start from or go on with: nothing to lose, or entries it inherited.
  ghost predicate Steady(run: Run, k: Deletion)
    reads run
  {
    Watches(run.watched, run.disk, k) && (Agreed(run.disk, k) || run.inherited)
  }

  // The same between a change of an entry and its sync.
  ghost predicate Covered(run: Run, k: Deletion)
    reads run
  {
    Watches(run.watched, run.disk, k) && (Backed(run.disk, k) || run.inherited)
  }

  // An intent on disk is the one of this deletion.
  predicate Named(d: Disk, k: Deletion) {
    d.journal.Holds? ==> d.journal.intent == IntentOf(k, d.journal.intent.phase)
  }

  // Where the file may be while the journal records a phase.
  predicate Fits(stage: Stage, phase: Phase) {
    match phase
    case Prepared => stage != Gone
    case Mismatch => stage != Gone
    case Restored => stage == Present
    case Verified => stage == Displaced
    case Committed => stage != Present
    case Cleanup => stage != Present
    case Exchanged => false
  }

  // The journal goes only when the file is back or gone.
  predicate Orderly(d: Disk, k: Deletion) {
    if d.journal.Holds? then Fits(Now(d, k), d.journal.intent.phase) else Now(d, k) != Displaced
  }

  // The expected state, or what scrubbing it leaves.
  predicate Spent(file: File, k: Deletion) {
    file == k.expected || (!k.unlinkOnly && file == Scrubbed(k.expected))
  }

  // What is left in the file once it is gone: its content only if it was to be released.
  function Remains(k: Deletion): File {
    if k.unlinkOnly then k.expected else Scrubbed(k.expected)
  }

  // Only the expected state is ever given up, and it is scrubbed unless it is released.
  predicate Kept(d: Disk, k: Deletion)
    requires k.inode in d.store
  {
    && (Now(d, k) == Gone ==> d.store[k.inode] == Remains(k))
    && match d.journal
       case Holds(intent) =>
         && (intent.phase in {Phase.Verified, Phase.Committed} ==> d.store[k.inode] == k.expected)
         && (intent.phase == Cleanup ==> Spent(d.store[k.inode], k))
       case _ => Now(d, k) == Present || Spent(d.store[k.inode], k)
  }

  // What every statement of a deletion and of its recovery keeps.
  predicate Safe(d: Disk, k: Deletion)
    requires k.inode in d.store
  {
    Orderly(d, k) && Kept(d, k)
  }

  // Other processes at most edit the file in place through the target path.
  predicate TargetOnly(rely: Rely, k: Deletion) {
    rely.Nothing? || (rely.Only? && rely.path == k.target && rely.inode == k.inode)
  }

  // No edit since the capture.
  predicate Clean(d: Disk, k: Deletion)
    requires k.inode in d.store
  {
    && Spent(d.store[k.inode], k)
    && (Now(d, k) == Present ==> d.store[k.inode] == k.expected)
    && (d.journal.Holds? ==>
          && d.journal.intent.phase != Mismatch
          && (d.journal.intent.phase == Prepared ==> d.store[k.inode] == k.expected))
  }

  // What the other processes did to the file in the meantime.
  predicate Touched(before: Disk, after: Disk, k: Deletion, rely: Rely)
    requires k.inode in before.store && k.inode in after.store
  {
    TargetOnly(rely, k) && (rely.Nothing? || Now(before, k) != Present) ==>
      after.store[k.inode] == before.store[k.inode]
  }

  // What no stretch of a run gives up, exposed or not: the file, and a place for it that
  // a power loss would leave. The place itself may go if it is exposed.
  twostate predicate Keeps(run: Run, k: Deletion, exposed: bool)
    reads run
  {
    && Held(run.disk, k)
    && (Watches(run.watched, old(run.disk), k) ==> Watches(run.watched, run.disk, k))
    && (Backed(old(run.disk), k) ==> Backed(run.disk, k))
    && (!exposed || Backed(old(run.disk), k) ==> Tracked(run.disk, k))
  }

  // A stretch of a run that leaves the two entries alone.
  twostate predicate Stays(run: Run, k: Deletion, cut: bool, exposed: bool)
    reads run
  {
    && Keeps(run, k, exposed)
    && (!exposed || Agreed(old(run.disk), k) ==> Now(run.disk, k) == Now(old(run.disk), k))
    && (Agreed(old(run.disk), k) ==> Agreed(run.disk, k))
    && (!cut ==>
          && StageOf(run.disk.synced, k) == StageOf(old(run.disk).synced, k)
          && (Backed(run.disk, k) <==> Backed(old(run.disk), k))
          && run.inherited == old(run.inherited))
  }

  // How a synced change of an entry ends.
  twostate predicate Secured(run: Run, k: Deletion)
    reads run
  {
    Steady(run, k) && (Backed(old(run.disk), k) ==> Agreed(run.disk, k))
  }

  // The power fails once the file is scrubbed: it is back where it was durable.
  twostate predicate LosesScrubbed(run: Run, k: Deletion, cut: bool)
    reads run
  {
    && cut && StageOf(run.disk.names, k) == StageOf(run.disk.synced, k) == StageOf(old(run.disk).synced, k)
    && k.inode in run.disk.store && k.inode in old(run.disk).store
    && run.disk.store[k.inode] == Scrubbed(old(run.disk).store[k.inode])
  }

  // The process is killed once the file is parked, before that is durable.
  twostate predicate KilledParked(run: Run, k: Deletion, crashed: bool)
    reads run
  {
    && crashed && Now(run.disk, k) == Displaced && StageOf(run.disk.synced, k) == StageOf(old(run.disk).synced, k)
    && (Backed(old(run.disk), k) ==> Backed(run.disk, k))
  }

  // Whether a recovery of this run ends with durable entries.
  twostate predicate Lasting(run: Run, k: Deletion, cleanup: bool)
    reads run
  {
    Agreed(old(run.disk), k) || (Backed(old(run.disk), k) && cleanup && Parent(run.journal) == Parent(k.target))
  }

  // Record a phase.
  method Note(run: Run, intent: Intent, phase: Phase, ghost k: Deletion) returns (r: Outcome<Intent>)
    requires run.Valid() && Tracked(run.disk, k) && Steady(run, k)
    modifies run
    ensures run.Goes(r.Crashed?, r.Exposed?) && !r.Raised?
    ensures Stays(run, k, r.Cut(), r.Exposed?) && Touched(old(run.disk), run.disk, k, run.rely)
    ensures r.Cut() ==> run.disk.journal == old(run.disk).journal
    ensures r.Done? ==> r.value == intent.(phase := phase) && run.disk.journal == Holds(r.value)
    ensures run.Spends(2, r.Done?, r.Cut())
  {
    r := run.SetPhase(intent, phase);
  }

  // Remove the journal, and with it whatever may take back an entry beside it.
  method Drop(run: Run, ghost k: Deletion) returns (r: Outcome<()>)
    requires run.Valid() && run.disk.journal.Holds? && Tracked(run.disk, k) && Steady(run, k)
    modifies run
    ensures run.Goes(r.Crashed?, r.Exposed?) && !r.Raised?
    ensures Keeps(run, k, r.Exposed?) && Touched(old(run.disk), run.disk, k, run.rely)
    ensures !r.Exposed? ==> Now(run.disk, k) == Now(old(run.disk), k)
    ensures run.disk.journal == old(run.disk).journal || !run.disk.journal.Holds?
    ensures r.Done? ==>
              && run.disk.journal == NoJournal
              && (Lasting(run, k, true) ==> Agreed(run.disk, k))
  {
    r := run.RemoveJournal();
    if r.Done? {
      SyncedKeeps(old(run.disk), run.disk, Parent(run.journal), run.watched, k);
    }
  }

  // A sync of any directory keeps what a power loss would leave.
  lemma SyncedKeeps(d: Disk, d': Disk, directory: Path, watched: set<Path>, k: Deletion)
    requires Tracked(d, k) && d'.names == d.names && d'.synced == SyncEntries(d, directory)
    ensures Watches(watched, d, k) ==> Watches(watched, d', k)
    ensures Backed(d, k) ==> Backed(d', k)
    ensures Backed(d, k) && directory == Parent(k.target) ==> Agreed(d', k)
    ensures Agreed(d, k) ==> Agreed(d', k)
  {
    forall q | q in d'.synced
      ensures Entry(d'.synced, q) in {Entry(d.names, q), Entry(d.synced, q)}
    {
    }
  }

  // Report a verdict; the journal goes with it unless it is to be kept.
  method Conclude(run: Run, cleanup: bool, verdict: Verdict, ghost k: Deletion) returns (r: Outcome<Verdict>)
    requires run.Valid() && run.disk.journal.Holds? && Tracked(run.disk, k) && Steady(run, k)
    modifies run
    ensures run.Goes(r.Crashed?, r.Exposed?) && (r.Cut() || r == Done(verdict))
    ensures Keeps(run, k, r.Exposed?) && Touched(old(run.disk), run.disk, k, run.rely)
    ensures !r.Exposed? ==> Now(run.disk, k) == Now(old(run.disk), k)
    ensures run.disk.journal == old(run.disk).journal || (cleanup && !run.disk.journal.Holds?)
    ensures r.Done? ==> (run.disk.journal == if cleanup then NoJournal else old(run.disk).journal)
    ensures r.Done? ==>
              (Lasting(run, k, cleanup) ==> Agreed(run.disk, k))
  {
    if cleanup {
      var _ :- Drop(run, k);
    }
    r := Done(verdict);
  }

  // The state of the parked file.
  method Look(run: Run, p: Path, ghost k: Deletion) returns (r: Outcome<File>)
    requires run.Valid() && p == k.recovery && Tracked(run.disk, k) && Steady(run, k) && Now(run.disk, k) == Displaced
    modifies run
    ensures run.Goes(r.Crashed?, r.Exposed?) && !r.Raised?
    ensures Stays(run, k, r.Cut(), r.Exposed?) && Touched(old(run.disk), run.disk, k, run.rely)
    ensures run.disk.journal == old(run.disk).journal
    ensures r.Done? ==> r.value == run.disk.store[k.inode]
    ensures run.Spends(1, r.Done?, r.Cut())
  {
    r := run.Describe(p);
  }

  /* ---- giving the file up ---- */

  // The entries of the directory become durable.
  method SyncBoth(run: Run, directory: Path, ghost k: Deletion) returns (r: Outcome<()>)
    requires run.Valid() && directory == Parent(k.target) && Tracked(run.disk, k) && Covered(run, k)
    modifies run
    ensures run.Goes(r.Crashed?, r.Exposed?) && !r.Raised? && run.disk.journal == old(run.disk).journal
    ensures Keeps(run, k, r.Exposed?) && Touched(old(run.disk), run.disk, k, run.rely)
    ensures !r.Exposed? ==>
              Now(run.disk, k) == Now(old(run.disk), k)
              || (!old(run.inherited) && Now(run.disk, k) == StageOf(old(run.disk).synced, k))
    ensures r.Done? ==> Secured(run, k) && Now(run.disk, k) == Now(old(run.disk), k)
    ensures Ends(old(run.schedule), 0, Killed) ==> r.Crashed? && run.disk == old(run.disk)
  {
    r := run.MeetSync(directory);
    if r.Done? {
      SyncedKeeps(old(run.disk), run.disk, directory, run.watched, k);
    }
  }

  method UnlinkParked(run: Run, p: Path, ghost k: Deletion) returns (r: Outcome<()>)
    requires run.Valid() && p == k.recovery && Tracked(run.disk, k) && Steady(run, k) && Now(run.disk, k) == Displaced
    modifies run
    ensures run.Goes(r.Crashed?, r.Exposed?) && !r.Raised? && run.disk.journal == old(run.disk).journal
    ensures Keeps(run, k, r.Exposed?) && Touched(old(run.disk), run.disk, k, run.rely)
    ensures r.Cut() && !r.Exposed? ==> Now(run.disk, k) == Displaced
    ensures r.Done? ==>
              && Now(run.disk, k) == Gone && run.inherited == old(run.inherited)
              && run.disk.synced == old(run.disk).synced
    ensures Ends(old(run.schedule), 0, PowerLoss(false)) ==> r.Cut() && run.disk == LosePower(old(run.disk), false)
  {
    r := run.Unlink(p);
  }

  method UnlinkDurably(run: Run, p: Path, ghost k: Deletion) returns (r: Outcome<()>)
    requires run.Valid() && p == k.recovery && Tracked(run.disk, k) && Steady(run, k) && Now(run.disk, k) == Displaced
    modifies run
    ensures run.Goes(r.Crashed?, r.Exposed?) && !r.Raised?
    ensures Keeps(run, k, r.Exposed?) && Touched(old(run.disk), run.disk, k, run.rely)
    ensures run.disk.journal == old(run.disk).journal
    ensures !r.Exposed? ==> Now(run.disk, k) != Present
    ensures r.Done? ==> Now(run.disk, k) == Gone && Secured(run, k)
    ensures Ends(old(run.schedule), 0, PowerLoss(false)) ==> r.Cut() && run.disk == LosePower(old(run.disk), false)
  {
    var _ :- UnlinkParked(run, p, k);
    r := SyncBoth(run, Parent(p), k);
  }

  method Scrub(run: Run, p: Path, ghost k: Deletion) returns (r: Outcome<()>)
    requires run.Valid() && p == k.recovery && Tracked(run.disk, k) && Steady(run, k) && Now(run.disk, k) == Displaced
    modifies run
    ensures run.Goes(r.Crashed?, r.Exposed?) && !r.Raised?
    ensures Stays(run, k, r.Cut(), r.Exposed?) && run.disk.journal == old(run.disk).journal
    ensures TargetOnly(run.rely, k) ==>
              var file := old(run.disk).store[k.inode];
              run.disk.store[k.inode] == if r.Done? then Scrubbed(file) else file
    ensures run.Spends(1, r.Done?, r.Cut())
  {
    r := run.Truncate(p, k.inode);
  }

  // discard: scrub, then unlink
  method Discard(run: Run, p: Path, ghost k: Deletion) returns (r: Outcome<()>)
    requires run.Valid() && p == k.recovery && Tracked(run.disk, k) && Steady(run, k) && Now(run.disk, k) == Displaced
    modifies run
    ensures run.Goes(r.Crashed?, r.Exposed?) && !r.Raised?
    ensures Keeps(run, k, r.Exposed?) && run.disk.journal == old(run.disk).journal
    ensures !r.Exposed? ==> Now(run.disk, k) != Present
    ensures r.Done? ==> Now(run.disk, k) == Gone && Secured(run, k)
    ensures TargetOnly(run.rely, k) ==>
              var file := old(run.disk).store[k.inode];
              run.disk.store[k.inode] == Scrubbed(file)
                || (r.Cut() && run.disk.store[k.inode] == file && (!r.Exposed? ==> Now(run.disk, k) == Displaced))
    ensures run.rely.Nothing? && Ends(old(run.schedule), 1, PowerLoss(false)) ==>
              LosesScrubbed(run, k, r.Cut())
  {
    var _ :- Scrub(run, p, k);
    r := UnlinkDurably(run, p, k);
  }

  // A file under one link, on the captured inode and in the expected state.
  method CheckRelease(run: Run, p: Path, expected: Digest, identity: Option<Inode>) returns (r: Outcome<()>)
    requires run.Valid()
    modifies run
    ensures run.Reads(r.Crashed?, r.Exposed?)
    ensures !r.Cut() ==>
              (r.Done? <==> && At(run.disk, p) != Absent && SingleLink(run.disk.names, p)
                            && (identity.Some? ==> identity == Some(run.disk.names[p])) && At(run.disk, p) == expected)
  {
    var _ :- run.SingleLinked(p);
    var live :- run.Identity(p);
    if identity.Some? && Some(live) != identity {
      return Raised(ReleaseRefused);
    }
    var file :- run.Describe(p);
    if Of(file) != expected {
      return Raised(ReleaseRefused);
    }
    r := Done(());
  }

  method AllowRelease(run: Run, p: Path, expected: Digest, identity: Option<Inode>, ghost k: Deletion)
    returns (r: Outcome<()>)
    requires run.Valid() && p == k.recovery && expected == Of(k.expected) && identity == Some(k.inode)
    requires Tracked(run.disk, k) && Steady(run, k) && Now(run.disk, k) == Displaced
    modifies run
    ensures run.Goes(r.Crashed?, r.Exposed?)
    ensures Stays(run, k, r.Cut(), r.Exposed?) && Touched(old(run.disk), run.disk, k, run.rely)
    ensures run.disk.journal == old(run.disk).journal
    ensures !r.Cut() ==> (r.Done? <==> run.disk.store[k.inode] == k.expected)
  {
    r := CheckRelease(run, p, expected, identity);
  }

  // release: unlink without opening the file for writing, if it is the expected one
  method Release(run: Run, p: Path, expected: Digest, identity: Option<Inode>, ghost k: Deletion)
    returns (r: Outcome<()>)
    requires run.Valid() && p == k.recovery && expected == Of(k.expected) && identity == Some(k.inode)
    requires Tracked(run.disk, k) && Steady(run, k) && Now(run.disk, k) == Displaced
    modifies run
    ensures run.Goes(r.Crashed?, r.Exposed?)
    ensures Keeps(run, k, r.Exposed?) && Touched(old(run.disk), run.disk, k, run.rely)
    ensures run.disk.journal == old(run.disk).journal
    ensures !r.Exposed? ==> Now(run.disk, k) != Present
    ensures r.Done? ==> Now(run.disk, k) == Gone && Secured(run, k)
    ensures r.Raised? ==> Now(run.disk, k) == Displaced
    ensures TargetOnly(run.rely, k) && !r.Cut() ==> (r.Done? <==> run.disk.store[k.inode] == k.expected)
  {
    var _ :- AllowRelease(run, p, expected, identity, k);
    r := UnlinkDurably(run, p, k);
  }

  method CleanupDeletedRecovery(run: Run, intent: Intent, ghost k: Deletion) returns (r: Outcome<()>)
    requires run.Valid() && intent == IntentOf(k, intent.phase)
    requires Tracked(run.disk, k) && Steady(run, k) && Now(run.disk, k) == Displaced
    modifies run
    ensures run.Goes(r.Crashed?, r.Exposed?)
    ensures Keeps(run, k, r.Exposed?) && run.disk.journal == old(run.disk).journal
    ensures !r.Exposed? ==> Now(run.disk, k) != Present
    ensures r.Done? ==> Now(run.disk, k) == Gone && Secured(run, k)
    ensures r.Raised? ==> Now(run.disk, k) == Displaced
    ensures TargetOnly(run.rely, k) && old(run.disk).store[k.inode] == k.expected ==>
              && Spent(run.disk.store[k.inode], k) && !r.Raised?
              && (!r.Exposed? && Now(run.disk, k) == Gone ==> run.disk.store[k.inode] == Remains(k))
    ensures run.rely.Nothing? && !k.unlinkOnly && Ends(old(run.schedule), 1, PowerLoss(false)) ==>
              LosesScrubbed(run, k, r.Cut())
  {
    if intent.unlinkOnly {
      r := Release(run, intent.candidate, intent.expected, intent.targetIdentity, k);
    } else {
      r := Discard(run, intent.candidate, k);
    }
  }

  /* ---- putting the file back ---- */

  method RenameBack(run: Run, intent: Intent, ghost k: Deletion) returns (r: Outcome<()>)
    requires run.Valid() && intent.target == k.target && intent.candidate == k.recovery
    requires Tracked(run.disk, k) && Steady(run, k) && Now(run.disk, k) == Displaced
    modifies run
    ensures run.Goes(r.Crashed?, r.Exposed?) && !r.Raised? && run.disk.journal == old(run.disk).journal
    ensures Keeps(run, k, r.Exposed?) && Touched(old(run.disk), run.disk, k, run.rely)
    ensures r.Cut() && !r.Exposed? ==> Now(run.disk, k) == Displaced
    ensures r.Done? ==>
              && Now(run.disk, k) == Present && run.inherited == old(run.inherited)
              && run.disk.synced == old(run.disk).synced
  {
    r := run.Rename(intent.candidate, intent.target);
  }

  // The two directory changes of a restoration.
  method MoveBack(run: Run, intent: Intent, ghost k: Deletion) returns (r: Outcome<()>)
    requires run.Valid() && intent.target == k.target && intent.candidate == k.recovery
    requires Tracked(run.disk, k) && Steady(run, k) && Now(run.disk, k) == Displaced
    modifies run
    ensures run.Goes(r.Crashed?, r.Exposed?) && !r.Raised?
    ensures Keeps(run, k, r.Exposed?) && run.disk.journal == old(run.disk).journal
    ensures !r.Exposed? ==> Now(run.disk, k) != Gone
    ensures r.Done? ==> Now(run.disk, k) == Present && Secured(run, k)
    ensures run.rely.Nothing? ==> run.disk.store[k.inode] == old(run.disk).store[k.inode]
  {
    var _ :- RenameBack(run, intent, k);
    r := SyncBoth(run, Parent(intent.target), k);
  }

  // The target is free, and the recovery path leads to the captured file.
  method CheckReturn(run: Run, intent: Intent) returns (r: Outcome<()>)
    requires run.Valid()
    modifies run
    ensures run.Reads(r.Crashed?, r.Exposed?)
    ensures !r.Cut() ==>
              (r.Done? <==> && intent.target !in run.disk.names && At(run.disk, intent.candidate) != Absent
                            && SingleLink(run.disk.names, intent.candidate)
                            && Some(run.disk.names[intent.candidate]) == intent.targetIdentity)
  {
    var recreated :- run.Exists(intent.target);
    if recreated {
      return Raised(TargetRecreated);
    }
    var _ :- run.SingleLinked(intent.candidate);
    var live :- run.Identity(intent.candidate);
    if Some(live) != intent.targetIdentity {
      return Raised(IdentityChanged);
    }
    r := Done(());
  }

  // The checks of a restoration, and its first phase.
  method AnnounceReturn(run: Run, intent: Intent, ghost k: Deletion) returns (r: Outcome<Intent>)
    requires run.Valid() && intent == IntentOf(k, intent.phase) && run.disk.journal == Holds(intent)
    requires Tracked(run.disk, k) && Steady(run, k) && Now(run.disk, k) == Displaced
    modifies run
    ensures run.Goes(r.Crashed?, r.Exposed?) && !r.Raised?
    ensures Stays(run, k, r.Cut(), r.Exposed?) && Touched(old(run.disk), run.disk, k, run.rely)
    ensures r.Cut() ==> run.disk.journal == old(run.disk).journal
    ensures r.Done? ==> r.value == IntentOf(k, Mismatch) && run.disk.journal == Holds(r.value)
  {
    var _ :- CheckReturn(run, intent);
    if intent.phase == Mismatch {
      r := Done(intent);
    } else {
      r := Note(run, intent, Mismatch, k);
    }
  }

  // restore_delete_mismatch: the parked file is not the expected one; put it back.
  method RestoreMismatch(run: Run, intent: Intent, cleanup: bool, ghost k: Deletion) returns (r: Outcome<Verdict>)
    requires run.Valid() && intent == IntentOf(k, intent.phase) && run.disk.journal == Holds(intent)
    requires Tracked(run.disk, k) && Steady(run, k) && Now(run.disk, k) == Displaced
    modifies run
    ensures run.Goes(r.Crashed?, r.Exposed?)
    ensures Keeps(run, k, r.Exposed?) && Named(run.disk, k)
    ensures r.Cut() || (r == Done(Verdict.Restored) && Now(run.disk, k) == Present)
    ensures r.Done? && Backed(old(run.disk), k) ==> Agreed(run.disk, k)
    ensures r.Done? && cleanup ==> run.disk.journal == NoJournal
    ensures !r.Exposed? && TargetOnly(run.rely, k) && Safe(old(run.disk), k) ==> Safe(run.disk, k)
    ensures !r.Exposed? && Orderly(old(run.disk), k) ==> Orderly(run.disk, k)
  {
    var current :- AnnounceReturn(run, intent, k);
    var _ :- MoveBack(run, current, k);
    current :- Note(run, current, Phase.Restored, k);
    r := Conclude(run, cleanup, Verdict.Restored, k);
  }

  /* ---- delete ---- */

  // One link, the expected state, and a free recovery path.
  predicate Capturable(d: Disk, target: Path, recovery: Path, expected: Digest) {
    && At(d, target) == expected && expected != Absent
    && SingleLink(d.names, target) && recovery !in d.names
  }

  method CaptureExpected(run: Run, target: Path, expected: Digest) returns (r: Outcome<Inode>)
    requires run.Valid() && At(run.disk, target) != Absent
    modifies run
    ensures run.Reads(r.Crashed?, r.Exposed?)
    ensures !r.Cut() ==> (r.Done? <==> At(run.disk, target) == expected)
    ensures r.Done? ==> target in run.disk.names && r.value == run.disk.names[target] && expected != Absent
    ensures run.Spends(2, r.Done?, r.Cut())
  {
    var identity :- run.Identity(target);
    var actual :- run.Describe(target);
    r := if Of(actual) == expected then Done(identity) else Raised(PrestateChanged);
  }

  // The target: one link, and the expected state.
  method CaptureTarget(run: Run, target: Path, expected: Digest) returns (r: Outcome<Inode>)
    requires run.Valid()
    modifies run
    ensures run.Reads(r.Crashed?, r.Exposed?) && run.Spends(3, r.Done?, r.Cut())
    ensures !r.Cut() ==>
              (r.Done? <==> At(run.disk, target) == expected && expected != Absent
                            && SingleLink(run.disk.names, target))
    ensures r.Done? ==> target in run.disk.names && r.value == run.disk.names[target]
  {
    var _ :- run.SingleLinked(target);
    r := CaptureExpected(run, target, expected);
  }

  method Capture(run: Run, target: Path, recovery: Path, expected: Digest) returns (r: Outcome<Inode>)
    requires run.Valid() && target != recovery
    modifies run
    ensures run.Reads(r.Crashed?, r.Exposed?)
    ensures r.Done? ==>
              && target in run.disk.names && recovery !in run.disk.names
              && SingleLink(run.disk.names, target) && r.value == run.disk.names[target]
              && expected != Absent && r.value in run.disk.store
    ensures run.rely.Nothing? && !r.Cut() ==> (r.Done? <==> Capturable(run.disk, target, recovery, expected))
    ensures run.Spends(4, r.Done?, r.Cut())
  {
    var identity :- CaptureTarget(run, target, expected);
    var parked :- run.Exists(recovery);
    if parked {
      return Raised(RecoveryPathExists);
    }
    r := Done(identity);
  }

  // Exactly the disks on which an undisturbed deletion begins.
  predicate Ready(d: Disk, target: Path, recovery: Path, expected: Digest) {
    && Capturable(d, target, recovery, expected)
    && Unused(d)
  }

  // What a deletion that has not begun may have done: an empty journal directory, and
  // no more than a power loss does by itself.
  predicate Unbegun(d: Disk, d': Disk, target: Path, recovery: Path, rely: Rely) {
    d'.journal in {d.journal, NoIntent} && Settles(d, d', target, recovery, rely)
  }

  // The durable links to the file that is to be deleted.
  function Links(d: Disk, target: Path): set<Path> {
    set q | q in d.synced && target in d.names && d.synced[q] == d.names[target]
  }

  // None of them is outside the directory.
  predicate NoStaleLink(d: Disk, target: Path) {
    forall q | q in Links(d, target) :: Parent(q) == Parent(target)
  }

  // A run that has only just started.
  ghost predicate Started(run: Run, target: Path, recovery: Path)
    reads run
  {
    && run.Valid() && run.watched == {target, recovery} + Links(run.disk, target)
    && run.inherited == Unsynced(run.disk, run.watched)
  }

  // Entries beside the target are as last synced; the others may be older.
  predicate Durable(d: Disk, earlier: map<Path, Inode>, directory: Path) {
    forall q | q in d.synced ::
      Entry(d.names, q) == Some(d.synced[q]) || (Parent(q) != directory && Entry(earlier, q) == Some(d.synced[q]))
  }

  lemma CapturedIsTracked(d: Disk, earlier: Disk, k: Deletion)
    requires Capturable(d, k.target, k.recovery, At(d, k.target)) && d.names[k.target] == k.inode
    requires earlier.names == d.names && Parent(k.target) == Parent(k.recovery) && k.target != k.recovery
    requires Entry(d.synced, k.target) == Some(k.inode) && k.recovery !in d.synced
    requires Durable(d, earlier.synced, Parent(k.target))
    ensures Tracked(d, k) && Now(d, k) == Present && Watches({k.target, k.recovery} + Links(earlier, k.target), d, k)
    ensures NoStaleLink(earlier, k.target) ==> Agreed(d, k)
    ensures !Unsynced(d, {k.target, k.recovery} + Links(earlier, k.target)) ==> Agreed(d, k)
  {
    var watched := {k.target, k.recovery} + Links(earlier, k.target);
    forall q | q in d.synced && d.synced[q] == k.inode
      ensures q in watched
    {
      assert q in Links(earlier, k.target) || Entry(d.names, q) == Some(k.inode);
    }
    if !Unsynced(d, watched) || NoStaleLink(earlier, k.target) {
      forall q | q in d.synced && q != k.target && q != k.recovery
        ensures d.synced[q] != k.inode
      {
        assert d.synced[q] == k.inode ==> q in Links(earlier, k.target) && Entry(d.names, q) == Entry(d.synced, q);
      }
    }
  }

  // The sync of the directory reaches everything that is watched.
  lemma SyncedWatched(d: Disk, d': Disk, target: Path, recovery: Path)
    requires Parent(target) == Parent(recovery)
    requires d'.names == d.names && d'.synced == SyncEntries(d, Parent(target))
    ensures NoStaleLink(d, target) ==> !Unsynced(d', {target, recovery} + Links(d, target))
  {
  }

  // A second sync of some directory adds to the first.
  lemma StaysDurable(d: Disk, d': Disk, d'': Disk, target: Path, journal: Path)
    requires d'.names == d.names && d''.names == d.names && d'.synced == SyncEntries(d, Parent(target))
    requires d''.synced in {d'.synced, SyncEntries(d', Parent(journal))}
    ensures Durable(d'', d.synced, Parent(target)) && Entry(d''.synced, target) == Entry(d.names, target)
  {
    forall q | q in d''.synced
      ensures Entry(d.names, q) == Some(d''.synced[q])
                || (Parent(q) != Parent(target) && Entry(d.synced, q) == Some(d''.synced[q]))
    {
      assert Entry(d''.synced, q) in {Entry(d.names, q), Entry(d'.synced, q)};
    }
  }

  // The directory is synced; the journal directory is made if it is missing, and must
  // be empty.
  method ClaimJournal(run: Run, target: Path, recovery: Path) returns (r: Outcome<()>)
    requires Started(run, target, recovery) && Parent(target) == Parent(recovery)
    modifies run
    ensures run.Goes(r.Crashed?, r.Exposed?)
    ensures Unbegun(old(run.disk), run.disk, target, recovery, run.rely)
    ensures !r.Cut() ==>
              (r.Done? <==> Unused(old(run.disk)))
    ensures r.Done? ==>
              && run.disk.journal == NoIntent && run.disk.names == old(run.disk).names
              && (!run.inherited ==> !Unsynced(run.disk, run.watched))
              && (NoStaleLink(old(run.disk), target) ==> !run.inherited)
              && Entry(run.disk.synced, target) == Entry(run.disk.names, target)
              && Entry(run.disk.synced, recovery) == Entry(run.disk.names, recovery)
              && Durable(run.disk, old(run.disk).synced, Parent(target))
    ensures old(run.disk).journal != NoJournal ==> run.Spends(3, r.Done?, r.Cut())
  {
    var _ :- run.SyncDirectory(Parent(target));
    ghost var synced := run.disk;
    SyncedWatched(old(run.disk), synced, target, recovery);
    r := run.ClaimJournal(target, recovery);
    if r.Done? {
      StaysDurable(old(run.disk), synced, run.disk, target, run.journal);
      StaysDurable(old(run.disk), synced, run.disk, recovery, run.journal);
    }
  }

  // Everything before the intent is written; `k` is what the run has captured.
  method Prepare(run: Run, target: Path, recovery: Path, expected: Digest, unlinkOnly: bool)
    returns (r: Outcome<Intent>, ghost k: Deletion)
    requires target != recovery && Parent(target) == Parent(recovery) && Started(run, target, recovery)
    modifies run
    ensures run.Goes(r.Crashed?, r.Exposed?)
    ensures !r.Done? ==> Unbegun(old(run.disk), run.disk, target, recovery, run.rely)
    ensures r.Done? ==>
              && r.value == IntentOf(k, Prepared) && k.target == target && k.recovery == recovery
              && Of(k.expected) == expected && k.unlinkOnly == unlinkOnly
              && run.disk.journal == NoIntent && run.disk.names == old(run.disk).names
              && Tracked(run.disk, k) && Steady(run, k) && Now(run.disk, k) == Present
              && StageOf(run.disk.synced, k) == Present
              && (NoStaleLink(old(run.disk), target) ==> !run.inherited && Agreed(run.disk, k))
              && k.inode in old(run.disk).store
              && (run.rely.Nothing? ==> run.disk.store[k.inode] == k.expected == old(run.disk).store[k.inode])
    ensures run.rely.Nothing? && !r.Cut() ==> (r.Done? <==> Ready(old(run.disk), target, recovery, expected))
    ensures old(run.disk).journal != NoJournal ==> run.Spends(7, r.Done?, r.Cut())
  {
    k := *;
    var identity :- Capture(run, target, recovery, expected);
    k := Deletion(target, recovery, identity, expected.file, unlinkOnly);
    ghost var captured := run.disk;
    var _ :- ClaimJournal(run, target, recovery);
    CapturedIsTracked(run.disk, captured, k);
    r := Done(Intent(Operation.Delete, target, recovery, expected, Absent, Prepared, Some(identity), None, unlinkOnly));
  }

  // The target still is the captured file and the recovery path is free.
  method Recheck(run: Run, intent: Intent) returns (r: Outcome<()>)
    requires run.Valid()
    modifies run
    ensures run.Reads(r.Crashed?, r.Exposed?)
    ensures !r.Cut() ==>
              (r.Done? <==>
                 && intent.target in run.disk.names && Some(run.disk.names[intent.target]) == intent.targetIdentity
                 && intent.candidate !in run.disk.names)
    ensures run.Spends(2, r.Done?, r.Cut())
  {
    var live :- run.Identity(intent.target);
    if Some(live) != intent.targetIdentity {
      return Raised(IdentityChanged);
    }
    var parked :- run.Exists(intent.candidate);
    if parked {
      return Raised(IdentityChanged);
    }
    r := Done(());
  }

  // The same, in terms of the file.
  method ConfirmFirst(run: Run, intent: Intent, ghost k: Deletion) returns (r: Outcome<()>)
    requires run.Valid() && intent == IntentOf(k, Prepared)
    requires Tracked(run.disk, k) && Steady(run, k) && Now(run.disk, k) == Present
    modifies run
    ensures run.Goes(r.Crashed?, r.Exposed?) && !r.Raised? && run.disk.journal == old(run.disk).journal
    ensures Stays(run, k, r.Cut(), r.Exposed?) && run.Spends(2, r.Done?, r.Cut())
    ensures run.rely.Nothing? ==> run.disk.store[k.inode] == old(run.disk).store[k.inode]
  {
    r := Recheck(run, intent);
  }

  method RenameAway(run: Run, intent: Intent, ghost k: Deletion) returns (r: Outcome<()>)
    requires run.Valid() && intent.target == k.target && intent.candidate == k.recovery
    requires Tracked(run.disk, k) && Steady(run, k) && Now(run.disk, k) == Present
    modifies run
    ensures run.Goes(r.Crashed?, r.Exposed?) && !r.Raised? && run.disk.journal == old(run.disk).journal
    ensures Keeps(run, k, r.Exposed?)
    ensures run.rely.Nothing? ==> run.disk.store[k.inode] == old(run.disk).store[k.inode]
    ensures r.Cut() && !r.Exposed? ==> Now(run.disk, k) == Present
    ensures r.Done? ==>
              && Now(run.disk, k) == Displaced && run.inherited == old(run.inherited)
              && run.disk.synced == old(run.disk).synced
    ensures run.Spends(1, r.Done?, r.Cut())
  {
    r := run.Rename(intent.target, intent.candidate);
  }

  // The two directory changes of a displacement.
  method MoveAway(run: Run, intent: Intent, ghost k: Deletion) returns (r: Outcome<()>)
    requires run.Valid() && intent.target == k.target && intent.candidate == k.recovery
    requires Tracked(run.disk, k) && Steady(run, k) && Now(run.disk, k) == Present
    modifies run
    ensures run.Goes(r.Crashed?, r.Exposed?) && !r.Raised?
    ensures Keeps(run, k, r.Exposed?) && run.disk.journal == old(run.disk).journal
    ensures !r.Exposed? ==> Now(run.disk, k) != Gone
    ensures r.Done? ==> Now(run.disk, k) == Displaced && Secured(run, k)
    ensures run.rely.Nothing? ==> run.disk.store[k.inode] == old(run.disk).store[k.inode]
    ensures Ends(old(run.schedule), 1, Killed) ==> KilledParked(run, k, r.Crashed?)
  {
    var _ :- RenameAway(run, intent, k);
    r := SyncBoth(run, Parent(intent.target), k);
  }

  // From writing the intent to the durable rename.
  method Park(run: Run, intent: Intent, ghost k: Deletion) returns (r: Outcome<()>)
    requires run.Valid() && intent == IntentOf(k, Prepared) && run.disk.journal == NoIntent
    requires Tracked(run.disk, k) && Steady(run, k) && Now(run.disk, k) == Present
    modifies run
    ensures run.Goes(r.Crashed?, r.Exposed?) && !r.Raised?
    ensures Keeps(run, k, r.Exposed?) && (!r.Exposed? ==> Now(run.disk, k) != Gone)
    ensures run.disk.journal == Holds(intent) || (r.Cut() && run.disk.journal == NoIntent)
    ensures !r.Exposed? && run.disk.journal == NoIntent ==> Now(run.disk, k) == Present
    ensures r.Done? ==> Now(run.disk, k) == Displaced && Secured(run, k)
    ensures run.rely.Nothing? ==> run.disk.store[k.inode] == old(run.disk).store[k.inode]
    ensures Ends(old(run.schedule), 5, Killed) ==> KilledParked(run, k, r.Crashed?) && run.disk.journal == Holds(intent)
  {
    var _ :- Note(run, intent, Prepared, k);
    var _ :- ConfirmFirst(run, intent, k);
    r := MoveAway(run, intent, k);
  }

  // The parked file must be the expected one: check it, or put it back.
  method Check(run: Run, intent: Intent, ghost k: Deletion) returns (r: Outcome<()>)
    requires run.Valid() && intent == IntentOf(k, intent.phase) && run.disk.journal == Holds(intent)
    requires Tracked(run.disk, k) && Steady(run, k) && Now(run.disk, k) == Displaced
    modifies run
    ensures run.Goes(r.Crashed?, r.Exposed?)
    ensures Keeps(run, k, r.Exposed?) && Named(run.disk, k)
    ensures r.Done? ==>
              Stays(run, k, false, false) && run.disk.journal == Holds(intent) && run.disk.store[k.inode] == k.expected
    ensures r.Raised? ==>
              r == Raised(StateRestored) && run.disk.journal == NoJournal && Now(run.disk, k) == Present
              && (Backed(old(run.disk), k) ==> Agreed(run.disk, k))
    ensures !r.Exposed? && TargetOnly(run.rely, k) && Safe(old(run.disk), k) ==> Safe(run.disk, k)
    ensures run.rely.Nothing? && old(run.disk).store[k.inode] == k.expected ==>
              && run.disk.store[k.inode] == k.expected && !r.Raised? && run.disk.journal == Holds(intent)
              && (!r.Exposed? ==> Now(run.disk, k) == Displaced)
  {
    var parked :- Look(run, intent.candidate, k);
    if Of(parked) != intent.expected {
      var _ :- RestoreMismatch(run, intent, true, k);
      return Raised(StateRestored);
    }
    r := Done(());
  }

  // From the last phase to the removal of the journal.
  method GiveUp(run: Run, intent: Intent, ghost k: Deletion) returns (r: Outcome<()>)
    requires run.Valid() && intent == IntentOf(k, Cleanup) && run.disk.journal == Holds(intent)
    requires Tracked(run.disk, k) && Steady(run, k) && Now(run.disk, k) == Displaced
    modifies run
    ensures run.Goes(r.Crashed?, r.Exposed?)
    ensures Keeps(run, k, r.Exposed?) && Named(run.disk, k)
    ensures r.Done? ==>
              && run.disk.journal == NoJournal && Now(run.disk, k) == Gone
              && (Backed(old(run.disk), k) ==> Agreed(run.disk, k))
    ensures !r.Exposed? && TargetOnly(run.rely, k) && Safe(old(run.disk), k) ==> Safe(run.disk, k)
    ensures run.rely.Nothing? && old(run.disk).store[k.inode] == k.expected ==>
              !r.Raised? && (!r.Exposed? ==> Clean(run.disk, k))
  {
    var _ :- Check(run, intent, k);
    var _ :- CleanupDeletedRecovery(run, intent, k);
    var _ :- Conclude(run, true, Verdict.Committed, k);
    r := Done(());
  }

  // The three phases between the check and the end.
  method NotePhases(run: Run, intent: Intent, ghost k: Deletion) returns (r: Outcome<Intent>)
    requires run.Valid() && intent == IntentOf(k, Prepared) && run.disk.journal == Holds(intent)
    requires Tracked(run.disk, k) && Steady(run, k) && Now(run.disk, k) == Displaced
    modifies run
    ensures run.Goes(r.Crashed?, r.Exposed?) && !r.Raised?
    ensures Keeps(run, k, r.Exposed?) && Named(run.disk, k) && (!r.Exposed? ==> Now(run.disk, k) == Displaced)
    ensures r.Done? ==> (Backed(run.disk, k) <==> Backed(old(run.disk), k))
    ensures run.disk.journal.Holds?
    ensures run.disk.journal.intent.phase in {Prepared, Phase.Verified, Phase.Committed, Cleanup}
    ensures r.Done? ==> Steady(run, k) && r.value == IntentOf(k, Cleanup) && run.disk.journal == Holds(r.value)
    ensures Touched(old(run.disk), run.disk, k, run.rely)
  {
    var current :- Note(run, intent, Phase.Verified, k);
    current :- Note(run, current, Phase.Committed, k);
    r := Note(run, current, Cleanup, k);
  }

  // From the durable rename to the removal of the journal.
  method Perform(run: Run, intent: Intent, ghost k: Deletion) returns (r: Outcome<()>)
    requires run.Valid() && intent == IntentOf(k, Prepared) && run.disk.journal == Holds(intent)
    requires Tracked(run.disk, k) && Steady(run, k) && Now(run.disk, k) == Displaced
    modifies run
    ensures run.Goes(r.Crashed?, r.Exposed?)
    ensures Keeps(run, k, r.Exposed?) && Named(run.disk, k)
    ensures r.Done? ==>
              && run.disk.journal == NoJournal && Now(run.disk, k) == Gone
              && (Backed(old(run.disk), k) ==> Agreed(run.disk, k))
    ensures !r.Exposed? && TargetOnly(run.rely, k) ==> Safe(run.disk, k)
    ensures run.rely.Nothing? && old(run.disk).store[k.inode] == k.expected ==>
              !r.Raised? && (!r.Exposed? ==> Clean(run.disk, k))
  {
    var _ :- Check(run, intent, k);
    r := Proceed(run, intent, k);
  }

  // The checked file is given up.
  method Proceed(run: Run, intent: Intent, ghost k: Deletion) returns (r: Outcome<()>)
    requires run.Valid() && intent == IntentOf(k, Prepared) && run.disk.journal == Holds(intent)
    requires Tracked(run.disk, k) && Steady(run, k) && Now(run.disk, k) == Displaced
    modifies run
    ensures run.Goes(r.Crashed?, r.Exposed?)
    ensures Keeps(run, k, r.Exposed?) && Named(run.disk, k)
    ensures r.Done? ==>
              && run.disk.journal == NoJournal && Now(run.disk, k) == Gone
              && (Backed(old(run.disk), k) ==> Agreed(run.disk, k))
    ensures !r.Exposed? && TargetOnly(run.rely, k) && old(run.disk).store[k.inode] == k.expected ==>
              Safe(run.disk, k) && (run.rely.Nothing? ==> Clean(run.disk, k) && !r.Raised?)
    ensures run.rely.Nothing? && old(run.disk).store[k.inode] == k.expected ==> !r.Raised?
  {
    var current :- NotePhases(run, intent, k);
    r := GiveUp(run, current, k);
  }

  // From writing the intent to the removal of the journal.
  method CarryOut(run: Run, intent: Intent, ghost k: Deletion) returns (r: Outcome<()>)
    requires run.Valid() && intent == IntentOf(k, Prepared) && run.disk.journal == NoIntent
    requires Tracked(run.disk, k) && Steady(run, k) && Now(run.disk, k) == Present
    modifies run
    ensures run.Goes(r.Crashed?, r.Exposed?)
    ensures Keeps(run, k, r.Exposed?) && (!r.Exposed? ==> Named(run.disk, k))
    ensures !r.Exposed? && TargetOnly(run.rely, k) ==> Safe(run.disk, k)
    ensures run.rely.Nothing? && old(run.disk).store[k.inode] == k.expected ==>
              !r.Raised? && (!r.Exposed? ==> Clean(run.disk, k))
    ensures r.Done? ==>
              && run.disk.journal == NoJournal && Now(run.disk, k) == Gone
              && (Backed(old(run.disk), k) ==> Agreed(run.disk, k))
    ensures Ends(old(run.schedule), 5, Killed) ==>
              && KilledParked(run, k, r.Crashed?) && run.disk.journal == Holds(intent)
              && (run.rely.Nothing? ==> run.disk.store[k.inode] == old(run.disk).store[k.inode])
  {
    var _ :- Park(run, intent, k);
    r := Perform(run, intent, k);
  }

  method Delete(run: Run, target: Path, recovery: Path, expected: Digest, unlinkOnly: bool)
    returns (r: Outcome<()>, ghost k: Deletion, begun: bool)
    requires target != recovery && Parent(target) == Parent(recovery) && Started(run, target, recovery)
    modifies run
    ensures run.Goes(r.Crashed?, r.Exposed?)
    ensures !begun ==> !r.Done? && Unbegun(old(run.disk), run.disk, target, recovery, run.rely)
    ensures begun ==>
              && k.target == target && k.recovery == recovery && Of(k.expected) == expected
                   && k.unlinkOnly == unlinkOnly
              && Entry(old(run.disk).names, target) == Some(k.inode) && k.inode in old(run.disk).store
              && (run.rely.Nothing? ==> !r.Raised? && old(run.disk).store[k.inode] == k.expected)
    // Only a power loss beside a durable link from elsewhere can expose it.
    ensures begun && r.Exposed? ==> !NoStaleLink(old(run.disk), target)
    // However else it is cut once it has begun, the file is in its place.
    ensures begun && !r.Exposed? ==>
              && Tracked(run.disk, k) && Named(run.disk, k) && Watches(run.watched, run.disk, k)
              && (TargetOnly(run.rely, k) ==> Safe(run.disk, k))
              && (run.rely.Nothing? ==> Clean(run.disk, k))
    ensures begun && NoStaleLink(old(run.disk), target) ==> Backed(run.disk, k)
    ensures r.Done? ==>
              && begun && run.disk.journal == NoJournal && Now(run.disk, k) == Gone
              && (NoStaleLink(old(run.disk), target) ==> Agreed(run.disk, k))
    // Killed right after the rename, it leaves the file parked and the target durable.
    ensures run.rely.Nothing? && Ready(old(run.disk), target, recovery, expected) && old(run.disk).journal == NoIntent
            && Ends(old(run.schedule), 12, Killed) ==>
              && begun && r.Crashed? && Now(run.disk, k) == Displaced && StageOf(run.disk.synced, k) == Present
              && run.disk.journal == Holds(IntentOf(k, Prepared)) && run.disk.store[k.inode] == k.expected
    // Undisturbed and uncut, it succeeds exactly on the disks that are ready for it.
    ensures run.rely.Nothing? && !r.Cut() ==>
              (r.Done? <==> Ready(old(run.disk), target, recovery, expected)) && (begun <==> r.Done?)
  {
    begun := false;
    var intent;
    intent, k :- Prepare(run, target, recovery, expected, unlinkOnly);
    begun := true;
    r := CarryOut(run, intent, k);
  }

  /* ---- recover_delete ---- */

  // Two digests that recovery read a moment ago.
  predicate Seen(targetDigest: Digest, recoveryDigest: Digest, d: Disk, k: Deletion, rely: Rely)
    requires k.inode in d.store
  {
    && (targetDigest == Absent <==> Now(d, k) != Present)
    && (recoveryDigest == Absent <==> Now(d, k) != Displaced)
    && (TargetOnly(rely, k) && Now(d, k) == Displaced ==> recoveryDigest == Of(d.store[k.inode]))
    && (rely.Nothing? && Now(d, k) == Present ==> targetDigest == Of(d.store[k.inode]))
  }

  // Exactly the states that undisturbed recovery refuses.
  predicate Fails(d: Disk, k: Deletion)
    requires k.inode in d.store
  {
    d.journal.Holds? &&
    match Now(d, k)
    case Present => d.store[k.inode] != k.expected && d.journal.intent.phase !in {Mismatch, Phase.Restored}
    case Displaced => false
    case Gone => d.journal.intent.phase !in {Phase.Committed, Cleanup}
  }

  // What a verdict says.
  predicate Reports(d: Disk, k: Deletion, verdict: Verdict) {
    verdict == if Now(d, k) == Present then Verdict.Restored else Verdict.Committed
  }

  // With the last phase recorded: look once more, then remove file and journal.
  method Purge(run: Run, intent: Intent, ghost k: Deletion) returns (r: Outcome<Verdict>)
    requires run.Valid() && intent == IntentOf(k, Cleanup) && run.disk.journal == Holds(intent)
    requires Tracked(run.disk, k) && Steady(run, k) && Now(run.disk, k) == Displaced
    modifies run
    ensures run.Goes(r.Crashed?, r.Exposed?)
    ensures Keeps(run, k, r.Exposed?) && Named(run.disk, k)
    ensures r.Done? ==>
              && Reports(run.disk, k, r.value) && run.disk.journal == NoJournal
              && (Backed(old(run.disk), k) ==> Agreed(run.disk, k))
    ensures !r.Exposed? ==> Orderly(run.disk, k)
    ensures TargetOnly(run.rely, k) && old(run.disk).store[k.inode] == k.expected ==>
              && Spent(run.disk.store[k.inode], k) && !r.Raised?
              && (!r.Exposed? ==> Now(run.disk, k) != Present && Kept(run.disk, k))
              && (run.disk.journal.Holds? ==> run.disk.journal == old(run.disk).journal)
    ensures run.rely.Nothing? && !k.unlinkOnly && old(run.disk).store[k.inode] == k.expected
            && Ends(old(run.schedule), 2, PowerLoss(false)) ==>
              LosesScrubbed(run, k, r.Cut()) && run.disk.journal == Holds(IntentOf(k, Cleanup))
  {
    var parked :- Look(run, intent.candidate, k);
    if Of(parked) != intent.expected {
      r := RestoreMismatch(run, intent, true, k);
    } else {
      r := RemoveParked(run, intent, k);
    }
  }

  // Remove the file, then the journal.
  method RemoveParked(run: Run, intent: Intent, ghost k: Deletion) returns (r: Outcome<Verdict>)
    requires run.Valid() && intent == IntentOf(k, Cleanup) && run.disk.journal == Holds(intent)
    requires Tracked(run.disk, k) && Steady(run, k) && Now(run.disk, k) == Displaced
    modifies run
    ensures run.Goes(r.Crashed?, r.Exposed?)
    ensures Keeps(run, k, r.Exposed?) && Named(run.disk, k)
    ensures r.Done? ==>
              && Reports(run.disk, k, r.value) && run.disk.journal == NoJournal
              && (Backed(old(run.disk), k) ==> Agreed(run.disk, k))
    ensures !r.Exposed? ==> Orderly(run.disk, k)
    ensures TargetOnly(run.rely, k) && old(run.disk).store[k.inode] == k.expected ==>
              && Spent(run.disk.store[k.inode], k) && !r.Raised?
              && (!r.Exposed? ==> Now(run.disk, k) != Present && Kept(run.disk, k))
              && (run.disk.journal.Holds? ==> run.disk.journal == old(run.disk).journal)
    ensures run.rely.Nothing? && !k.unlinkOnly && old(run.disk).store[k.inode] == k.expected
            && Ends(old(run.schedule), 1, PowerLoss(false)) ==>
              LosesScrubbed(run, k, r.Cut()) && run.disk.journal == Holds(IntentOf(k, Cleanup))
  {
    var _ :- CleanupDeletedRecovery(run, intent, k);
    r := Conclude(run, true, Verdict.Committed, k);
  }

  // The parked file is the expected one: finish the deletion.
  method Finish(run: Run, intent: Intent, cleanup: bool, ghost k: Deletion) returns (r: Outcome<Verdict>)
    requires run.Valid() && intent == IntentOf(k, intent.phase) && run.disk.journal == Holds(intent)
    requires Tracked(run.disk, k) && Steady(run, k) && Now(run.disk, k) == Displaced
    modifies run
    ensures run.Goes(r.Crashed?, r.Exposed?)
    ensures Keeps(run, k, r.Exposed?) && Named(run.disk, k)
    ensures r.Done? ==> Reports(run.disk, k, r.value)
    ensures r.Done? && cleanup ==> run.disk.journal == NoJournal && (Backed(old(run.disk), k) ==> Agreed(run.disk, k))
    ensures r.Done? && Agreed(old(run.disk), k) ==> Agreed(run.disk, k)
    ensures !r.Exposed? && Orderly(old(run.disk), k) ==> Orderly(run.disk, k)
    ensures TargetOnly(run.rely, k) && old(run.disk).store[k.inode] == k.expected ==>
              && Spent(run.disk.store[k.inode], k) && !r.Raised?
              && (!r.Exposed? ==> Now(run.disk, k) != Present && Kept(run.disk, k))
              && (!r.Exposed? && run.rely.Nothing? && Clean(old(run.disk), k) ==> Clean(run.disk, k))
    ensures run.rely.Nothing? && !k.unlinkOnly && old(run.disk).store[k.inode] == k.expected
            && cleanup && intent.phase == Prepared && Ends(old(run.schedule), 6, PowerLoss(false)) ==>
              LosesScrubbed(run, k, r.Cut()) && run.disk.journal == Holds(IntentOf(k, Cleanup))
  {
    var current := intent;
    if current.phase !in {Phase.Committed, Cleanup} {
      current :- Note(run, current, Phase.Committed, k);
    }
    r := FinishCommitted(run, current, cleanup, k);
  }

  method FinishCommitted(run: Run, intent: Intent, cleanup: bool, ghost k: Deletion) returns (r: Outcome<Verdict>)
    requires run.Valid() && intent == IntentOf(k, intent.phase) && run.disk.journal == Holds(intent)
    requires intent.phase in {Phase.Committed, Cleanup}
    requires Tracked(run.disk, k) && Steady(run, k) && Now(run.disk, k) == Displaced
    modifies run
    ensures run.Goes(r.Crashed?, r.Exposed?)
    ensures Keeps(run, k, r.Exposed?) && Named(run.disk, k)
    ensures r.Done? ==> Reports(run.disk, k, r.value)
    ensures r.Done? && cleanup ==> run.disk.journal == NoJournal && (Backed(old(run.disk), k) ==> Agreed(run.disk, k))
    ensures r.Done? && Agreed(old(run.disk), k) ==> Agreed(run.disk, k)
    ensures !r.Exposed? && Orderly(old(run.disk), k) ==> Orderly(run.disk, k)
    ensures TargetOnly(run.rely, k) && old(run.disk).store[k.inode] == k.expected ==>
              && Spent(run.disk.store[k.inode], k) && !r.Raised?
              && (!r.Exposed? ==> Now(run.disk, k) != Present && Kept(run.disk, k))
              && (!r.Exposed? && run.rely.Nothing? && Clean(old(run.disk), k) ==> Clean(run.disk, k))
    ensures run.rely.Nothing? && !k.unlinkOnly && old(run.disk).store[k.inode] == k.expected
            && cleanup && Ends(old(run.schedule), 4, PowerLoss(false)) ==>
              LosesScrubbed(run, k, r.Cut()) && run.disk.journal == Holds(IntentOf(k, Cleanup))
  {
    if !cleanup {
      return Done(Verdict.Committed);
    }
    var current :- Note(run, intent, Cleanup, k);
    r := Purge(run, current, k);
  }

  // One digest.
  method Glance(run: Run, p: Path, ghost k: Deletion) returns (r: Outcome<Digest>)
    requires run.Valid() && Tracked(run.disk, k) && Steady(run, k)
    modifies run
    ensures run.Goes(r.Crashed?, r.Exposed?) && !r.Raised? && run.disk.journal == old(run.disk).journal
    ensures Stays(run, k, r.Cut(), r.Exposed?) && Touched(old(run.disk), run.disk, k, run.rely)
    ensures r.Done? ==> r.value == At(run.disk, p)
    ensures run.Spends(1, r.Done?, r.Cut())
  {
    r := run.Inspect(p);
  }

  // The two digests.
  method Digests(run: Run, intent: Intent, ghost k: Deletion) returns (r: Outcome<(Digest, Digest)>)
    requires run.Valid() && intent == IntentOf(k, intent.phase) && Tracked(run.disk, k) && Steady(run, k)
    modifies run
    ensures run.Goes(r.Crashed?, r.Exposed?) && !r.Raised? && run.disk.journal == old(run.disk).journal
    ensures Stays(run, k, r.Cut(), r.Exposed?) && Touched(old(run.disk), run.disk, k, run.rely)
    ensures r.Done? ==> Seen(r.value.0, r.value.1, run.disk, k, run.rely)
    ensures run.Spends(2, r.Done?, r.Cut())
  {
    var targetDigest :- Glance(run, intent.target, k);
    var recoveryDigest :- Glance(run, intent.candidate, k);
    r := Done((targetDigest, recoveryDigest));
  }

  // With nothing parked yet, the target must be the captured file.
  method CheckIdentity(run: Run, intent: Intent, targetDigest: Digest, ghost k: Deletion) returns (r: Outcome<()>)
    requires run.Valid() && intent == IntentOf(k, intent.phase) && Tracked(run.disk, k) && Steady(run, k)
    modifies run
    ensures run.Goes(r.Crashed?, r.Exposed?) && run.disk.journal == old(run.disk).journal
    ensures Stays(run, k, r.Cut(), r.Exposed?) && Touched(old(run.disk), run.disk, k, run.rely)
    ensures !r.Cut() ==> (r.Raised? <==> targetDigest == Absent || Now(run.disk, k) != Present)
  {
    if targetDigest == Absent {
      return Raised(IdentityChanged);
    }
    var live :- run.Identity(intent.target);
    r := if Some(live) == intent.targetIdentity then Done(()) else Raised(IdentityChanged);
  }

  // What recovery reads before it decides.
  method Survey(run: Run, intent: Intent, ghost k: Deletion) returns (r: Outcome<(Digest, Digest)>)
    requires run.Valid() && intent == IntentOf(k, intent.phase) && run.disk.journal == Holds(intent)
    requires Tracked(run.disk, k) && Steady(run, k)
    modifies run
    ensures run.Goes(r.Crashed?, r.Exposed?) && run.disk.journal == old(run.disk).journal
    ensures Stays(run, k, r.Cut(), r.Exposed?) && Touched(old(run.disk), run.disk, k, run.rely)
    ensures !r.Cut() ==> (r.Raised? <==> intent.phase == Prepared && Now(run.disk, k) == Gone)
    ensures r.Done? ==> Seen(r.value.0, r.value.1, run.disk, k, run.rely)
    ensures Now(old(run.disk), k) == Displaced ==> run.Spends(2, r.Done?, r.Cut())
  {
    r := Digests(run, intent, k);
    if r.Done? && intent.phase == Prepared && r.value.1 == Absent {
      var _ :- CheckIdentity(run, intent, r.value.0, k);
    }
  }

  // The file is back at, or never left, the target.
  method RecordRestored(run: Run, intent: Intent, always: bool, cleanup: bool, ghost k: Deletion)
    returns (r: Outcome<Verdict>)
    requires run.Valid() && intent == IntentOf(k, intent.phase) && run.disk.journal == Holds(intent)
    requires Tracked(run.disk, k) && Steady(run, k) && Now(run.disk, k) == Present
    modifies run
    ensures run.Goes(r.Crashed?, r.Exposed?)
    ensures Keeps(run, k, r.Exposed?) && Named(run.disk, k)
    ensures r.Cut() || (r == Done(Verdict.Restored) && Now(run.disk, k) == Present)
    ensures r.Done? && cleanup ==> run.disk.journal == NoJournal
    ensures r.Done? && Lasting(run, k, cleanup) ==> Agreed(run.disk, k)
    ensures !r.Exposed? && Safe(old(run.disk), k) && TargetOnly(run.rely, k) ==> Safe(run.disk, k)
    ensures !r.Exposed? && Orderly(old(run.disk), k) ==> Orderly(run.disk, k)
    ensures !r.Exposed? && run.rely.Nothing? && Clean(old(run.disk), k) ==>
              Clean(run.disk, k) && Now(run.disk, k) == Present
  {
    if always || intent.phase != Phase.Restored {
      var _ :- Note(run, intent, Phase.Restored, k);
    }
    r := Conclude(run, cleanup, Verdict.Restored, k);
  }

  // A file scrubbed but not yet unlinked: finish the removal.
  method FinishScrubbed(run: Run, intent: Intent, cleanup: bool, ghost k: Deletion) returns (r: Outcome<Verdict>)
    requires run.Valid() && intent == IntentOf(k, intent.phase) && run.disk.journal == Holds(intent)
    requires Tracked(run.disk, k) && Steady(run, k) && Now(run.disk, k) == Displaced
    requires intent.phase in {Phase.Committed, Cleanup} && !intent.unlinkOnly
    modifies run
    ensures run.Goes(r.Crashed?, r.Exposed?)
    ensures Keeps(run, k, r.Exposed?) && Named(run.disk, k)
    ensures r.Cut() || (r == Done(Verdict.Committed) && Now(run.disk, k) != Present)
    ensures r.Done? && cleanup ==> run.disk.journal == NoJournal && (Backed(old(run.disk), k) ==> Agreed(run.disk, k))
    ensures r.Done? && Agreed(old(run.disk), k) ==> Agreed(run.disk, k)
    ensures !r.Exposed? ==> Orderly(run.disk, k) && Now(run.disk, k) != Present
    ensures TargetOnly(run.rely, k) && Spent(old(run.disk).store[k.inode], k) && !r.Exposed? ==>
              && Spent(run.disk.store[k.inode], k)
              && (intent.phase == Cleanup ==> Kept(run.disk, k))
              && (run.rely.Nothing? ==> Clean(run.disk, k))
  {
    if cleanup {
      var _ :- Discard(run, intent.candidate, k);
    }
    r := Conclude(run, cleanup, Verdict.Committed, k);
  }

  // The parked path holds the captured inode, scrubbed to length zero.
  method IsScrubbed(run: Run, intent: Intent, ghost k: Deletion) returns (r: Outcome<bool>)
    requires run.Valid() && intent == IntentOf(k, intent.phase)
    requires Tracked(run.disk, k) && Steady(run, k) && Now(run.disk, k) == Displaced
    modifies run
    ensures run.Goes(r.Crashed?, r.Exposed?) && !r.Raised? && run.disk.journal == old(run.disk).journal
    ensures Stays(run, k, r.Cut(), r.Exposed?) && Touched(old(run.disk), run.disk, k, run.rely)
    ensures r.Done? ==> (r.value <==> run.disk.store[k.inode].bytes == "")
  {
    var live :- run.Identity(intent.candidate);
    if Some(live) != intent.targetIdentity {
      return Done(false);
    }
    var parked :- Look(run, intent.candidate, k);
    r := Done(parked.bytes == "");
  }

  // What is done with a parked file that is not the expected one.
  method SettleParked(run: Run, intent: Intent, cleanup: bool, ghost k: Deletion) returns (r: Outcome<Verdict>)
    requires run.Valid() && intent == IntentOf(k, intent.phase) && run.disk.journal == Holds(intent)
    requires Tracked(run.disk, k) && Steady(run, k) && Now(run.disk, k) == Displaced
    modifies run
    ensures run.Goes(r.Crashed?, r.Exposed?) && !r.Raised?
    ensures Keeps(run, k, r.Exposed?) && Named(run.disk, k)
    ensures r.Done? ==> Reports(run.disk, k, r.value)
    ensures r.Done? && cleanup ==> run.disk.journal == NoJournal && (Backed(old(run.disk), k) ==> Agreed(run.disk, k))
    ensures r.Done? && Agreed(old(run.disk), k) ==> Agreed(run.disk, k)
    ensures !r.Exposed? && Orderly(old(run.disk), k) ==> Orderly(run.disk, k)
    ensures !r.Exposed? && TargetOnly(run.rely, k) && Safe(old(run.disk), k)
              && old(run.disk).store[k.inode] != k.expected ==>
              Safe(run.disk, k)
    ensures !r.Exposed? && run.rely.Nothing? && Safe(old(run.disk), k) && Clean(old(run.disk), k)
            && old(run.disk).store[k.inode] != k.expected ==>
              Clean(run.disk, k) && Now(run.disk, k) != Present
  {
    if intent.phase in {Phase.Committed, Cleanup} && !intent.unlinkOnly {
      var scrubbed :- IsScrubbed(run, intent, k);
      if scrubbed {
        r := FinishScrubbed(run, intent, cleanup, k);
        return;
      }
    }
    r := RestoreMismatch(run, intent, cleanup, k);
  }

  // Nothing has changed that matters to a deletion.
  twostate predicate Stands(run: Run, k: Deletion)
    reads run
  {
    && Stays(run, k, false, false) && run.disk.journal == old(run.disk).journal
    && k.inode in old(run.disk).store
    && (run.rely.Nothing? ==> run.disk.store[k.inode] == old(run.disk).store[k.inode])
  }

  // The file is at the target, and the recovery path is free.
  method SettlePresent(run: Run, intent: Intent, cleanup: bool, targetDigest: Digest, ghost k: Deletion)
    returns (r: Outcome<Verdict>)
    requires run.Valid() && intent == IntentOf(k, intent.phase) && run.disk.journal == Holds(intent)
    requires Tracked(run.disk, k) && Steady(run, k) && Now(run.disk, k) == Present
    modifies run
    ensures run.Goes(r.Crashed?, r.Exposed?)
    ensures Keeps(run, k, r.Exposed?) && Named(run.disk, k)
    ensures !r.Cut() ==> (r.Raised? <==> targetDigest != Of(k.expected) && intent.phase !in {Mismatch, Phase.Restored})
    ensures targetDigest != Of(k.expected) && intent.phase !in {Mismatch, Phase.Restored} ==> r.Raised?
    ensures r.Done? ==> Reports(run.disk, k, r.value)
    ensures r.Done? && cleanup ==> run.disk.journal == NoJournal
    ensures r.Done? && Lasting(run, k, cleanup) ==> Agreed(run.disk, k)
    ensures !r.Exposed? && TargetOnly(run.rely, k) && Safe(old(run.disk), k) ==> Safe(run.disk, k)
    ensures !r.Exposed? && Orderly(old(run.disk), k) ==> Orderly(run.disk, k)
    ensures !r.Exposed? && run.rely.Nothing? && Clean(old(run.disk), k) ==>
              Clean(run.disk, k) && Now(run.disk, k) == Present
    ensures r.Raised? ==> Stands(run, k)
  {
    if targetDigest == intent.expected {
      r := RecordRestored(run, intent, true, cleanup, k);
    } else if intent.phase in {Mismatch, Phase.Restored} {
      r := RecordReturned(run, intent, cleanup, k);
    } else {
      r := Raised(Unrecoverable);
    }
  }

  // A restoration was under way: the target must be the captured file.
  method RecordReturned(run: Run, intent: Intent, cleanup: bool, ghost k: Deletion) returns (r: Outcome<Verdict>)
    requires run.Valid() && intent == IntentOf(k, intent.phase) && run.disk.journal == Holds(intent)
    requires Tracked(run.disk, k) && Steady(run, k) && Now(run.disk, k) == Present
    modifies run
    ensures run.Goes(r.Crashed?, r.Exposed?)
    ensures Keeps(run, k, r.Exposed?) && Named(run.disk, k)
    ensures r.Cut() || (r == Done(Verdict.Restored) && Now(run.disk, k) == Present)
    ensures r.Done? && cleanup ==> run.disk.journal == NoJournal
    ensures r.Done? && Lasting(run, k, cleanup) ==> Agreed(run.disk, k)
    ensures !r.Exposed? && TargetOnly(run.rely, k) && Safe(old(run.disk), k) ==> Safe(run.disk, k)
    ensures !r.Exposed? && Orderly(old(run.disk), k) ==> Orderly(run.disk, k)
    ensures !r.Exposed? && run.rely.Nothing? && Clean(old(run.disk), k) ==>
              Clean(run.disk, k) && Now(run.disk, k) == Present
  {
    var live :- TargetIdentity(run, intent, k);
    if Some(live) != intent.targetIdentity {
      return Raised(Unrecoverable);
    }
    r := RecordRestored(run, intent, false, cleanup, k);
  }

  method TargetIdentity(run: Run, intent: Intent, ghost k: Deletion) returns (r: Outcome<Inode>)
    requires run.Valid() && intent == IntentOf(k, intent.phase)
    requires Tracked(run.disk, k) && Steady(run, k) && Now(run.disk, k) == Present
    modifies run
    ensures run.Goes(r.Crashed?, r.Exposed?) && !r.Raised? && run.disk.journal == old(run.disk).journal
    ensures Stays(run, k, r.Cut(), r.Exposed?) && Touched(old(run.disk), run.disk, k, run.rely)
    ensures r.Done? ==> r.value == k.inode
  {
    r := run.Identity(intent.target);
  }

  // The case analysis of recovery, on the two digests it has read.
  method Resolve(run: Run, intent: Intent, cleanup: bool, targetDigest: Digest, recoveryDigest: Digest,
                 ghost k: Deletion)
    returns (r: Outcome<Verdict>)
    requires run.Valid() && intent == IntentOf(k, intent.phase) && run.disk.journal == Holds(intent)
    requires Tracked(run.disk, k) && Steady(run, k) && Seen(targetDigest, recoveryDigest, run.disk, k, run.rely)
    modifies run
    ensures run.Goes(r.Crashed?, r.Exposed?)
    ensures Keeps(run, k, r.Exposed?) && Named(run.disk, k)
    ensures r.Done? ==> Reports(run.disk, k, r.value)
    ensures r.Done? && cleanup ==> run.disk.journal == NoJournal
    ensures r.Done? && Lasting(run, k, cleanup) ==> Agreed(run.disk, k)
    ensures run.rely.Nothing? && !r.Cut() ==> (r.Raised? <==> Fails(old(run.disk), k))
    ensures run.rely.Nothing? && r.Raised? ==> Stands(run, k)
    ensures run.rely.Nothing? && Fails(old(run.disk), k) ==> r.Raised?
    ensures !r.Exposed? && Orderly(old(run.disk), k) ==> Orderly(run.disk, k)
    ensures !r.Exposed? && TargetOnly(run.rely, k) && Safe(old(run.disk), k) ==> Safe(run.disk, k)
    ensures !r.Exposed? && run.rely.Nothing? && Safe(old(run.disk), k) && Clean(old(run.disk), k) ==>
              Clean(run.disk, k) && (Now(run.disk, k) == Present <==> Now(old(run.disk), k) == Present)
    ensures run.rely.Nothing? && !k.unlinkOnly && old(run.disk).store[k.inode] == k.expected
            && cleanup && intent.phase == Prepared && Now(old(run.disk), k) == Displaced
                 && Ends(old(run.schedule), 6, PowerLoss(false)) ==>
              LosesScrubbed(run, k, r.Cut()) && run.disk.journal == Holds(IntentOf(k, Cleanup))
  {
    if targetDigest == Absent && recoveryDigest == intent.expected {
      r := Finish(run, intent, cleanup, k);
    } else if targetDigest == Absent && recoveryDigest == Absent && intent.phase in {Phase.Committed, Cleanup} {
      r := Conclude(run, cleanup, Verdict.Committed, k);
    } else if targetDigest == Absent && recoveryDigest != Absent {
      r := SettleParked(run, intent, cleanup, k);
    } else if recoveryDigest == Absent && targetDigest != Absent {
      r := SettlePresent(run, intent, cleanup, targetDigest, k);
    } else {
      r := Raised(Unrecoverable);
    }
  }

  method RecoverDelete(run: Run, intent: Intent, cleanup: bool, ghost k: Deletion) returns (r: Outcome<Verdict>)
    requires run.Valid() && intent == IntentOf(k, intent.phase) && run.disk.journal == Holds(intent)
    requires Tracked(run.disk, k) && Steady(run, k)
    modifies run
    ensures run.Goes(r.Crashed?, r.Exposed?)
    ensures Keeps(run, k, r.Exposed?) && Named(run.disk, k)
    ensures r.Done? ==> Reports(run.disk, k, r.value)
    ensures r.Done? && cleanup ==> run.disk.journal == NoJournal
    ensures r.Done? && Lasting(run, k, cleanup) ==> Agreed(run.disk, k)
    // Undisturbed and uncut, it fails exactly in these states.
    ensures run.rely.Nothing? && !r.Cut() ==> (r.Raised? <==> Fails(old(run.disk), k))
    ensures run.rely.Nothing? && r.Raised? ==> Stands(run, k)
    // A durable state that it refuses stays.
    ensures run.rely.Nothing? && Fails(old(run.disk), k) && Agreed(old(run.disk), k) ==>
              !r.Done? && Fails(run.disk, k) && Agreed(run.disk, k)
                && At(run.disk, k.target) == At(old(run.disk), k.target)
    ensures !r.Exposed? && Orderly(old(run.disk), k) ==> Orderly(run.disk, k)
    ensures !r.Exposed? && TargetOnly(run.rely, k) && Safe(old(run.disk), k) ==> Safe(run.disk, k)
    ensures !r.Exposed? && run.rely.Nothing? && Safe(old(run.disk), k) && Clean(old(run.disk), k) ==>
              && Clean(run.disk, k) && !r.Raised?
              && (Now(run.disk, k) == Present <==> Now(old(run.disk), k) == Present)
    ensures run.rely.Nothing? && !k.unlinkOnly && old(run.disk).store[k.inode] == k.expected
            && cleanup && intent.phase == Prepared && Now(old(run.disk), k) == Displaced
                 && Ends(old(run.schedule), 8, PowerLoss(false)) ==>
              LosesScrubbed(run, k, r.Cut()) && run.disk.journal == Holds(IntentOf(k, Cleanup))
  {
    var seen :- Survey(run, intent, k);
    r := Resolve(run, intent, cleanup, seen.0, seen.1, k);
  }

  /* ---- where recovery can lose the file ---- */

  // No recovery syncs the directory before it scrubs. A process killed between the
  // rename and its sync, a recovery that loses power once it has scrubbed the parked
  // file, and an undisturbed recovery: it fails exactly if the rename had not been
  // durable, and then the target is back with none of its bytes.
  method RecoverTakenBack(d: Disk, ghost k: Deletion, journal: Path) returns (r: Outcome<Verdict>, final: Disk)
    requires Tracked(d, k) && Backed(d, k) && Now(d, k) == Displaced && d.journal == Holds(IntentOf(k, Prepared))
    requires d.store[k.inode] == k.expected && k.expected.bytes != "" && !k.unlinkOnly
    ensures !r.Cut() && k.inode in final.store
    ensures r.Raised? <==> StageOf(d.synced, k) == Present
    ensures r.Raised? ==> At(final, k.target) == Of(Scrubbed(k.expected)) && Tracked(final, k) && Named(final, k)
    ensures r.Raised? ==> Fails(final, k) && Agreed(final, k)
  {
    var intent := d.journal.intent;
    PausedEnds(8, PowerLoss(false));
    var first := new Run(d, Paused(8, PowerLoss(false)), journal, {intent.target, intent.candidate}, Nothing);
    var _ := RecoverDelete(first, intent, true, k);
    r, final := RecoverScrubbed(first.disk, k, journal);
  }

  // Undisturbed recovery of a scrubbed file fails exactly if it is at the target.
  method RecoverScrubbed(d: Disk, ghost k: Deletion, journal: Path) returns (r: Outcome<Verdict>, final: Disk)
    requires Tracked(d, k) && Agreed(d, k) && d.journal == Holds(IntentOf(k, Cleanup))
    requires d.store[k.inode] == Scrubbed(k.expected) && k.expected.bytes != ""
    ensures !r.Cut() && k.inode in final.store
    ensures r.Raised? <==> Now(d, k) == Present
    ensures r.Raised? ==> At(final, k.target) == Of(Scrubbed(k.expected)) && Tracked(final, k) && Named(final, k)
    ensures r.Raised? ==> Fails(final, k) && Agreed(final, k)
  {
    var intent := d.journal.intent;
    var run := new Run(d, [], journal, {intent.target, intent.candidate}, Nothing);
    r := RecoverDelete(run, intent, true, k);
    final := run.disk;
  }
}
