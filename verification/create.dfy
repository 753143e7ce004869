/** `create` and `recover_create`: moving a new file to a path that must be free. */
module CreateProtocol {
  import opened Common
  import opened Storage

  /* ---- what one creation is about ---- */

  datatype Creation = Creation(target: Path, candidate: Path, inode: Inode, desired: File)

  function IntentOf(k: Creation, phase: Phase): Intent {
    Intent(Operation.Create, k.target, k.candidate, Absent, Of(k.desired), phase, None, Some(k.inode), false)
  }

  // The new file is at one of the two paths and the other path is free.
  predicate Placed(names: map<Path, Inode>, k: Creation, moved: bool) {
    && Entry(names, k.target) == (if moved then Some(k.inode) else None)
    && Entry(names, k.candidate) == (if moved then None else Some(k.inode))
  }

  predicate Moved(d: Disk, k: Creation) {
    Placed(d.names, k, true)
  }

  predicate Paired(d: Disk, k: Creation) {
    && k.target != k.candidate && Parent(k.target) == Parent(k.candidate)
    && k.inode in d.store
    && (Placed(d.names, k, false) || Placed(d.names, k, true))
    && (Placed(d.synced, k, false) || Placed(d.synced, k, true))
  }

  predicate Agreed(d: Disk, k: Creation) {
    Placed(d.names, k, true) <==> Placed(d.synced, k, true)
  }

  // What a run may start from or go on with: nothing to lose, or entries it inherited.
  ghost predicate Steady(run: Run, k: Creation)
    reads run
  {
    run.watched == {k.target, k.candidate} && (Agreed(run.disk, k) || run.inherited)
  }

  // An intent on disk is the one of this creation.
  predicate Named(d: Disk, k: Creation) {
    d.journal.Holds? ==> d.journal.intent == IntentOf(k, d.journal.intent.phase)
  }

  // No phase claims more than has happened.
  predicate PhaseFits(d: Disk, k: Creation) {
    d.journal.Holds? ==>
      match d.journal.intent.phase
      case Prepared => true
      case Verified => Moved(d, k)
      case Committed => Moved(d, k)
      case Restored => !Moved(d, k)
      case _ => false
  }

  // The journal once a verdict is reported.
  function Left(k: Creation, verdict: Verdict, cleanup: bool): Journal {
    if cleanup then NoJournal
    else Holds(IntentOf(k, if verdict == Verdict.Committed then Phase.Committed else Phase.Restored))
  }

  // The new file was not written in the meantime, unless by others.
  predicate Untouched(before: Disk, after: Disk, k: Creation, rely: Rely)
    requires k.inode in before.store && k.inode in after.store
  {
    rely.Nothing? ==> after.store[k.inode] == before.store[k.inode]
  }

  // A stretch that leaves the two entries alone.
  twostate predicate Stays(run: Run, k: Creation, cut: bool, exposed: bool)
    reads run
  {
    && Paired(run.disk, k) && k.inode in old(run.disk).store && Untouched(old(run.disk), run.disk, k, run.rely)
    && (!exposed ==> (Moved(run.disk, k) <==> Moved(old(run.disk), k)))
    && (!cut ==> (Agreed(run.disk, k) <==> Agreed(old(run.disk), k)) && run.inherited == old(run.inherited))
  }

  // Record a phase.
  method Note(run: Run, intent: Intent, phase: Phase, ghost k: Creation) returns (r: Outcome<Intent>)
    requires run.Valid() && Paired(run.disk, k) && Steady(run, k)
    modifies run
    ensures run.Goes(r.Crashed?, r.Exposed?) && run.writes == old(run.writes) && !r.Raised?
    ensures Stays(run, k, r.Cut(), r.Exposed?)
    ensures r.Cut() ==> run.disk.journal == old(run.disk).journal
    ensures r.Done? ==> r.value == intent.(phase := phase) && run.disk.journal == Holds(r.value)
  {
    r := run.SetPhase(intent, phase);
  }

  // Report a verdict; the journal goes with it unless it is to be kept.
  method Conclude(run: Run, cleanup: bool, verdict: Verdict, ghost k: Creation) returns (r: Outcome<Verdict>)
    requires run.Valid() && run.disk.journal.Holds? && Paired(run.disk, k) && Steady(run, k)
    modifies run
    ensures run.Goes(r.Crashed?, r.Exposed?) && run.writes == old(run.writes)
    ensures Paired(run.disk, k) && Untouched(old(run.disk), run.disk, k, run.rely)
    ensures r.Cut() || r == Done(verdict)
    ensures !r.Exposed? ==> (Moved(run.disk, k) <==> Moved(old(run.disk), k))
    ensures run.disk.journal == old(run.disk).journal || !run.disk.journal.Holds?
    ensures r.Done? ==> (run.disk.journal == if cleanup then NoJournal else old(run.disk).journal)
    ensures r.Done? ==>
              (Agreed(run.disk, k) <==>
                 Agreed(old(run.disk), k) || (cleanup && Parent(run.journal) == Parent(k.target)))
  {
    if cleanup {
      var _ :- run.RemoveJournal();
    }
    r := Done(verdict);
  }

  /* ---- create ---- */

  method DurableRename(run: Run, source: Path, destination: Path, ghost k: Creation) returns (r: Outcome<()>)
    requires run.Valid() && source == k.candidate && destination == k.target
    requires Paired(run.disk, k) && Steady(run, k) && !Moved(run.disk, k)
    modifies run
    ensures run.Goes(r.Crashed?, r.Exposed?) && run.writes == old(run.writes) && !r.Raised?
    ensures Paired(run.disk, k) && run.disk.journal == old(run.disk).journal
    ensures r.Done? ==> Moved(run.disk, k) && Agreed(run.disk, k)
    ensures Untouched(old(run.disk), run.disk, k, run.rely)
  {
    var _ :- run.Rename(source, destination);
    var _ :- run.SyncDirectory(Parent(destination));
    r := Done(());
  }

  // A free target, and a candidate under one link.
  predicate Capturable(d: Disk, target: Path, candidate: Path) {
    target !in d.names && At(d, candidate) != Absent && SingleLink(d.names, candidate)
  }

  method Capture(run: Run, target: Path, candidate: Path) returns (r: Outcome<(Inode, File)>)
    requires run.Valid() && target != candidate
    modifies run
    ensures run.Reads(r.Crashed?, r.Exposed?)
    ensures !r.Cut() ==> (r.Done? <==> Capturable(run.disk, target, candidate))
    ensures r.Done? ==> r.value == (run.disk.names[candidate], At(run.disk, candidate).file)
  {
    var _ :- CheckPaths(run, target, candidate);
    var identity :- run.Identity(candidate);
    var desired :- run.Describe(candidate);
    r := Done((identity, desired));
  }

  method CheckPaths(run: Run, target: Path, candidate: Path) returns (r: Outcome<()>)
    requires run.Valid()
    modifies run
    ensures run.Reads(r.Crashed?, r.Exposed?)
    ensures !r.Cut() ==> (r.Done? <==> Capturable(run.disk, target, candidate))
  {
    var taken :- run.Exists(target);
    if taken {
      return Raised(TargetExists);
    }
    var _ :- run.SingleLinked(candidate);
    r := Done(());
  }

  // Exactly the disks on which an undisturbed creation begins.
  predicate Ready(d: Disk, target: Path, candidate: Path) {
    && Parent(target) == Parent(candidate)
    && Capturable(d, target, candidate)
    && Unused(d)
  }

  // What a creation that has not begun may have done: an empty journal directory, and
  // no more than a power loss does by itself.
  predicate Unbegun(d: Disk, d': Disk, target: Path, candidate: Path, rely: Rely) {
    d'.journal in {d.journal, NoIntent} && Settles(d, d', target, candidate, rely)
  }

  // The directory is synced; the journal directory is made if it is missing, and must
  // be empty.
  method ClaimJournal(run: Run, target: Path, candidate: Path) returns (r: Outcome<()>)
    requires run.Valid() && run.watched == {target, candidate} && Parent(target) == Parent(candidate)
    modifies run
    ensures run.Goes(r.Crashed?, r.Exposed?) && run.writes == old(run.writes)
    ensures Unbegun(old(run.disk), run.disk, target, candidate, run.rely)
    ensures !r.Cut() ==>
              (r.Done? <==> Unused(old(run.disk)))
    ensures r.Done? ==>
              && run.disk.journal == NoIntent && run.disk.names == old(run.disk).names && !run.inherited
              && Entry(run.disk.synced, target) == Entry(run.disk.names, target)
              && Entry(run.disk.synced, candidate) == Entry(run.disk.names, candidate)
  {
    var _ :- run.SyncDirectory(Parent(target));
    r := run.ClaimJournal(target, candidate);
  }

  // Everything before the intent is written; `k` is what the run has captured.
  method Prepare(run: Run, target: Path, candidate: Path) returns (r: Outcome<Intent>, ghost k: Creation)
    requires run.Valid() && target != candidate && run.watched == {target, candidate}
    modifies run
    ensures run.Goes(r.Crashed?, r.Exposed?) && run.writes == old(run.writes)
    ensures !r.Done? ==> Unbegun(old(run.disk), run.disk, target, candidate, run.rely)
    ensures r.Done? ==>
              && r.value == IntentOf(k, Prepared) && k.target == target && k.candidate == candidate
              && run.disk.journal == NoIntent && run.disk.names == old(run.disk).names && !run.inherited
              && Paired(run.disk, k) && Agreed(run.disk, k) && !Moved(run.disk, k)
              && k.inode in old(run.disk).store
              && (run.rely.Nothing? ==> run.disk.store[k.inode] == k.desired == old(run.disk).store[k.inode])
    ensures run.rely.Nothing? && !r.Cut() ==> (r.Done? <==> Ready(old(run.disk), target, candidate))
  {
    k := *;
    if Parent(target) != Parent(candidate) {
      return Raised(DifferentDirectories), k;
    }
    var captured :- Capture(run, target, candidate);
    k := Creation(target, candidate, captured.0, captured.1);
    var _ :- ClaimJournal(run, target, candidate);
    r := Done(Intent(Operation.Create, target, candidate, Absent, Of(captured.1), Prepared, None, Some(captured.0),
                     false));
  }

  // The target still is free and the candidate still is the captured file.
  method Recheck(run: Run, intent: Intent) returns (r: Outcome<()>)
    requires run.Valid()
    modifies run
    ensures run.Reads(r.Crashed?, r.Exposed?)
    ensures !r.Cut() ==>
              (r.Done? <==> && intent.target !in run.disk.names
                            && intent.candidate in run.disk.names
                                 && Some(run.disk.names[intent.candidate]) == intent.candidateIdentity)
  {
    var taken :- run.Exists(intent.target);
    if taken {
      return Raised(IdentityChanged);
    }
    var live :- run.Identity(intent.candidate);
    if Some(live) != intent.candidateIdentity {
      return Raised(IdentityChanged);
    }
    r := Done(());
  }

  // From writing the intent to the durable rename.
  method Install(run: Run, intent: Intent, ghost k: Creation) returns (r: Outcome<()>)
    requires run.Valid() && intent == IntentOf(k, Prepared) && run.disk.journal == NoIntent
    requires Paired(run.disk, k) && Agreed(run.disk, k) && Steady(run, k) && !Moved(run.disk, k) && !run.inherited
    modifies run
    ensures run.Goes(r.Crashed?, r.Exposed?) && run.writes == old(run.writes) && !r.Raised?
    ensures Paired(run.disk, k) && Untouched(old(run.disk), run.disk, k, run.rely)
    ensures run.disk.journal == Holds(intent) || (r.Cut() && run.disk.journal == NoIntent && !Moved(run.disk, k))
    ensures r.Done? ==> Moved(run.disk, k) && Agreed(run.disk, k)
  {
    var _ :- Note(run, intent, Prepared, k);
    var _ :- Recheck(run, intent);
    r := DurableRename(run, intent.candidate, intent.target, k);
  }

  method Create(run: Run, target: Path, candidate: Path) returns (r: Outcome<()>, ghost k: Creation, begun: bool)
    requires run.Valid() && target != candidate && run.watched == {target, candidate}
    modifies run
    ensures run.Goes(r.Crashed?, r.Exposed?) && run.writes == old(run.writes)
    ensures !begun ==> !r.Done? && Unbegun(old(run.disk), run.disk, target, candidate, run.rely)
    // However it is cut once it has begun, nothing inherited is at stake.
    ensures begun ==>
              && k.target == target && k.candidate == candidate
              && Entry(old(run.disk).names, candidate) == Some(k.inode) && target !in old(run.disk).names
              && k.inode in old(run.disk).store
              && Paired(run.disk, k) && Named(run.disk, k) && PhaseFits(run.disk, k)
              && !r.Exposed? && !r.Raised?
              && (run.rely.Nothing? ==> run.disk.store[k.inode] == k.desired == old(run.disk).store[k.inode])
    ensures r.Done? ==> begun && run.disk.journal == NoJournal && Moved(run.disk, k) && Agreed(run.disk, k)
    // Undisturbed and uncut, it succeeds exactly on the disks that are ready for it.
    ensures run.rely.Nothing? && !r.Cut() ==>
              (r.Done? <==> Ready(old(run.disk), target, candidate)) && (begun <==> r.Done?)
  {
    begun := false;
    var intent;
    intent, k :- Prepare(run, target, candidate);
    begun := true;
    var _ :- Install(run, intent, k);
    r := Commit(run, intent, k);
  }

  // Recording the commit, phase by phase, and dropping the journal.
  method Commit(run: Run, intent: Intent, ghost k: Creation) returns (r: Outcome<()>)
    requires run.Valid() && intent == IntentOf(k, Prepared) && run.disk.journal == Holds(intent) && !run.inherited
    requires Paired(run.disk, k) && Agreed(run.disk, k) && Steady(run, k) && Moved(run.disk, k)
    modifies run
    ensures run.Goes(r.Crashed?, r.Exposed?) && run.writes == old(run.writes) && !r.Raised?
    ensures Paired(run.disk, k) && Moved(run.disk, k) && Named(run.disk, k) && PhaseFits(run.disk, k)
    ensures Untouched(old(run.disk), run.disk, k, run.rely)
    ensures r.Done? ==> run.disk.journal == NoJournal && Agreed(run.disk, k)
  {
    var current :- Note(run, intent, Phase.Verified, k);
    current :- Note(run, current, Phase.Committed, k);
    var _ :- Conclude(run, true, Verdict.Committed, k);
    r := Done(());
  }

  /* ---- recover_create ---- */

  method RecoverCreate(run: Run, intent: Intent, cleanup: bool, ghost k: Creation) returns (r: Outcome<Verdict>)
    requires run.Valid() && intent == IntentOf(k, intent.phase) && run.disk.journal == Holds(intent)
    requires Paired(run.disk, k) && Steady(run, k)
    modifies run
    ensures run.Goes(r.Crashed?, r.Exposed?) && run.writes == old(run.writes)
    ensures Paired(run.disk, k) && Named(run.disk, k) && Untouched(old(run.disk), run.disk, k, run.rely)
    ensures !r.Exposed? ==> (Moved(run.disk, k) <==> Moved(old(run.disk), k))
    ensures !r.Exposed? && PhaseFits(old(run.disk), k) ==> PhaseFits(run.disk, k)
    ensures r.Done? ==> (r.value == Verdict.Committed <==> Moved(run.disk, k))
    ensures r.Done? ==> run.disk.journal == Left(k, r.value, cleanup)
    ensures r.Done? ==>
              (Agreed(run.disk, k) <==>
                 Agreed(old(run.disk), k) || (cleanup && Parent(run.journal) == Parent(k.target)))
    // Undisturbed and uncut, it fails exactly if another process had written the file.
    ensures run.rely.Nothing? && !r.Cut() ==> (r.Raised? <==> old(run.disk).store[k.inode] != k.desired)
    ensures r.Raised? ==> run.disk.journal == old(run.disk).journal
  {
    var seen :- Survey(run, intent, k);
    if seen.0 == intent.desired && seen.1 == Absent {
      if intent.phase != Phase.Committed {
        var _ :- Note(run, intent, Phase.Committed, k);
      }
      r := Conclude(run, cleanup, Verdict.Committed, k);
    } else if seen.0 == Absent && seen.1 == intent.desired {
      var _ :- Note(run, intent, Phase.Restored, k);
      r := Conclude(run, cleanup, Verdict.Restored, k);
    } else {
      r := Raised(Unrecoverable);
    }
  }

  // One digest.
  method Glance(run: Run, p: Path, ghost k: Creation) returns (r: Outcome<Digest>)
    requires run.Valid() && Paired(run.disk, k) && Steady(run, k)
    modifies run
    ensures run.Goes(r.Crashed?, r.Exposed?) && run.writes == old(run.writes) && !r.Raised?
    ensures Stays(run, k, r.Cut(), r.Exposed?) && run.disk.journal == old(run.disk).journal
    ensures r.Done? ==> r.value == At(run.disk, p)
  {
    r := run.Inspect(p);
  }

  // With no target yet, the candidate must be the captured file.
  method CheckIdentity(run: Run, intent: Intent, candidateDigest: Digest, ghost k: Creation) returns (r: Outcome<()>)
    requires run.Valid() && intent == IntentOf(k, intent.phase) && Paired(run.disk, k) && Steady(run, k)
    modifies run
    ensures run.Goes(r.Crashed?, r.Exposed?) && run.writes == old(run.writes)
    ensures Stays(run, k, r.Cut(), r.Exposed?) && run.disk.journal == old(run.disk).journal
    ensures !r.Cut() ==> (r.Raised? <==> candidateDigest == Absent || Moved(run.disk, k))
  {
    if candidateDigest == Absent {
      return Raised(IdentityChanged);
    }
    var live :- run.Identity(intent.candidate);
    r := if Some(live) == intent.candidateIdentity then Done(()) else Raised(IdentityChanged);
  }

  // What recovery reads before it decides.
  method Survey(run: Run, intent: Intent, ghost k: Creation) returns (r: Outcome<(Digest, Digest)>)
    requires run.Valid() && intent == IntentOf(k, intent.phase) && run.disk.journal == Holds(intent)
    requires Paired(run.disk, k) && Steady(run, k)
    modifies run
    ensures run.Goes(r.Crashed?, r.Exposed?) && run.writes == old(run.writes) && !r.Raised?
    ensures Stays(run, k, r.Cut(), r.Exposed?) && run.disk.journal == old(run.disk).journal
    ensures r.Done? ==>
              && (r.value.0 == Absent <==> !Moved(run.disk, k)) && (r.value.1 == Absent <==> Moved(run.disk, k))
              && (run.rely.Nothing? ==> Of(run.disk.store[k.inode]) in {r.value.0, r.value.1})
  {
    var targetDigest :- Glance(run, intent.target, k);
    var candidateDigest :- Glance(run, intent.candidate, k);
    if intent.phase == Prepared && targetDigest == Absent {
      var _ :- CheckIdentity(run, intent, candidateDigest, k);
    }
    r := Done((targetDigest, candidateDigest));
  }

  // No recovery syncs the directory before it reports a commit. What it has reported
  // outlives a power loss exactly if the rename had been durable before, or the journal
  // was removed beside the target.
  method RecoverAndLosePower(d: Disk, k: Creation, cleanup: bool, journal: Path)
    returns (r: Outcome<Verdict>, final: Disk)
    requires Paired(d, k) && Moved(d, k) && d.journal == Holds(IntentOf(k, Prepared)) && d.store[k.inode] == k.desired
    ensures r == Done(Verdict.Committed)
    ensures Moved(final, k) <==> Agreed(d, k) || (cleanup && Parent(journal) == Parent(k.target))
  {
    var run := new Run(d, [], journal, {k.target, k.candidate}, Nothing);
    r := RecoverCreate(run, IntentOf(k, Prepared), cleanup, k);
    final := LosePower(run.disk, false);
  }
}
