/** `exchange` and `recover_exchange`: replacing one file by another. */
module ExchangeProtocol {
  import opened Common
  import opened Storage

  // A caller may state the prestate by its full digest or by content alone.
  datatype Claim = StateClaim(file: File) | ContentClaim(bytes: string)

  predicate Accepts(claim: Claim, before: File) {
    match claim
    case StateClaim(file) => file == before
    case ContentClaim(bytes) => bytes == before.bytes
  }

  /* ---- what one exchange is about ---- */

  // The two paths, the two inodes and the two states an exchange has captured.
  datatype Swap = Swap(target: Path, candidate: Path, original: Inode, replacement: Inode, before: File, desired: File)

  function IntentOf(k: Swap, phase: Phase): Intent {
    Intent(Operation.Exchange, k.target, k.candidate, Of(k.before), Of(k.desired), phase,
           Some(k.original), Some(k.replacement), false)
  }

  // The two files sit at the two paths, in their original or in swapped order.
  predicate Placed(names: map<Path, Inode>, k: Swap, moved: bool) {
    && Entry(names, k.target) == Some(if moved then k.replacement else k.original)
    && Entry(names, k.candidate) == Some(if moved then k.original else k.replacement)
  }

  predicate Moved(d: Disk, k: Swap) {
    Placed(d.names, k, true)
  }

  // The disk has the two files.
  predicate Held(d: Disk, k: Swap) {
    && k.target != k.candidate && k.original != k.replacement && Parent(k.target) == Parent(k.candidate)
    && k.original in d.store && k.replacement in d.store
  }

  // The two paths hold the two files.
  predicate Paired(d: Disk, k: Swap) {
    Held(d, k) && (Placed(d.names, k, false) || Placed(d.names, k, true))
  }

  // They would after a power loss.
  predicate Backed(d: Disk, k: Swap) {
    Placed(d.synced, k, false) || Placed(d.synced, k, true)
  }

  // A power loss now would not change which file is where.
  predicate Agreed(d: Disk, k: Swap) {
    Placed(d.synced, k, Moved(d, k))
  }

  // What a run may start from or go on with: nothing to lose, or entries it inherited.
  ghost predicate Steady(run: Run, k: Swap)
    reads run
  {
    run.watched == {k.target, k.candidate} && (Agreed(run.disk, k) || run.inherited)
  }

  // The same between a rename and its sync.
  ghost predicate Covered(run: Run, k: Swap)
    reads run
  {
    run.watched == {k.target, k.candidate} && (Backed(run.disk, k) || run.inherited)
  }

  // No edit of the original file is lost: it still is the target, or it was
  // displaced with its captured content, or the target has its very content.
  predicate Settled(d: Disk, k: Swap)
    requires Paired(d, k)
  {
    !Moved(d, k) || d.store[k.original] == k.before || d.store[k.original] == k.desired
  }

  predicate PhaseFits(d: Disk, k: Swap, phase: Phase)
    requires Paired(d, k)
  {
    match phase
    case Prepared => true
    case Mismatch => true
    case Restored => Moved(d, k) ==> d.store[k.original] == k.desired
    case Cleanup => false
    case _ => if Moved(d, k) then d.store[k.original] == k.before else k.before == k.desired
  }

  // What every statement of an exchange and of its recovery keeps.
  predicate Safe(d: Disk, k: Swap)
    requires Paired(d, k)
  {
    && d.store[k.replacement] == k.desired
    && match d.journal
       case Holds(intent) => intent == IntentOf(k, intent.phase) && PhaseFits(d, k, intent.phase)
       case _ => Settled(d, k)
  }

  // An intent on disk is the one of this exchange.
  predicate Named(d: Disk, k: Swap) {
    d.journal.Holds? ==> d.journal.intent == IntentOf(k, d.journal.intent.phase)
  }

  // The journal once a verdict is reported.
  function Left(k: Swap, verdict: Verdict, cleanup: bool): Journal {
    if cleanup then NoJournal
    else Holds(IntentOf(k, if verdict == Verdict.Committed then Phase.Committed else Phase.Restored))
  }

  // Other processes at most edit the original file in place through the target path.
  predicate TargetOnly(rely: Rely, k: Swap) {
    rely.Nothing? || (rely.Only? && rely.path == k.target && rely.inode == k.original)
  }

  // Nothing was edited since the capture, and no phase claims otherwise.
  predicate Clean(d: Disk, k: Swap)
    requires Paired(d, k)
  {
    && d.store[k.original] == k.before
    && (d.journal.Holds? ==>
          && d.journal.intent.phase != Mismatch
          && (d.journal.intent.phase == Phase.Restored ==> k.before != k.desired))
  }

  // What the other processes did to the original file in the meantime.
  predicate Touched(before: Disk, after: Disk, k: Swap, rely: Rely)
    requires Held(before, k) && Held(after, k)
  {
    TargetOnly(rely, k) ==>
      && after.store[k.replacement] == before.store[k.replacement]
      && (after.store[k.original] == before.store[k.original]
          || (rely.Only? && Some(after.store[k.original].bytes) != rely.avoid))
  }

  // Edits beside a recovery are harmless if none of them, past or present, writes the
  // bytes of the replacement.
  predicate Calm(d: Disk, k: Swap, rely: Rely) {
    && TargetOnly(rely, k)
    && (rely.Only? && k.before != k.desired ==>
          && rely.avoid == Some(k.desired.bytes)
          && k.original in d.store && d.store[k.original] != k.desired)
  }

  /* ---- exchange ---- */

  // What no stretch of a run gives up, exposed or not: the two files, and a pair of
  // entries that a power loss would leave. The pair itself may go if it is exposed.
  twostate predicate Keeps(run: Run, k: Swap, exposed: bool)
    reads run
  {
    && Held(old(run.disk), k) && Held(run.disk, k) && Touched(old(run.disk), run.disk, k, run.rely)
    && (Backed(old(run.disk), k) ==> Backed(run.disk, k))
    && (!exposed || Backed(old(run.disk), k) ==> Paired(run.disk, k))
  }

  method SwapPaths(run: Run, target: Path, candidate: Path, ghost k: Swap) returns (r: Outcome<()>)
    requires run.Valid() && target == k.target && candidate == k.candidate
    requires Paired(run.disk, k) && Covered(run, k)
    modifies run
    ensures run.Goes(r.Crashed?, r.Exposed?) && run.writes == old(run.writes) && !r.Raised?
    ensures Keeps(run, k, r.Exposed?) && run.disk.journal == old(run.disk).journal
    ensures r.Done? ==> Covered(run, k) && (Moved(run.disk, k) <==> !Moved(old(run.disk), k))
    ensures run.Spends(1, r.Done?, r.Cut())
    ensures r.Done? ==> run.disk.synced == old(run.disk).synced
  {
    r := run.RenameExchange(target, candidate);
  }

  method SyncPair(run: Run, directory: Path, ghost k: Swap) returns (r: Outcome<()>)
    requires run.Valid() && Paired(run.disk, k) && Covered(run, k) && directory == Parent(k.target)
    modifies run
    ensures run.Goes(r.Crashed?, r.Exposed?) && run.writes == old(run.writes) && !r.Raised?
    ensures Keeps(run, k, r.Exposed?) && run.disk.journal == old(run.disk).journal
    ensures !r.Exposed? && (old(run.inherited) || Agreed(old(run.disk), k)) ==>
              (Moved(run.disk, k) <==> Moved(old(run.disk), k))
    ensures r.Done? ==> !run.inherited && Agreed(run.disk, k) && (Moved(run.disk, k) <==> Moved(old(run.disk), k))
    ensures run.Spends(1, r.Done?, r.Cut())
    ensures Ends(old(run.schedule), 0, Killed) ==> r.Crashed? && run.disk == old(run.disk)
    ensures Ends(old(run.schedule), 0, PowerLoss(false)) ==> r.Cut() && run.disk == LosePower(old(run.disk), false)
  {
    r := run.MeetSync(directory);
  }

  method DurableExchange(run: Run, target: Path, candidate: Path, ghost k: Swap) returns (r: Outcome<()>)
    requires run.Valid() && target == k.target && candidate == k.candidate
    requires Paired(run.disk, k) && Steady(run, k)
    modifies run
    ensures run.Goes(r.Crashed?, r.Exposed?) && run.writes == old(run.writes) && !r.Raised?
    ensures Keeps(run, k, r.Exposed?) && run.disk.journal == old(run.disk).journal
    ensures r.Done? ==> !run.inherited && Agreed(run.disk, k) && (Moved(run.disk, k) <==> !Moved(old(run.disk), k))
    ensures Ends(old(run.schedule), 1, Killed) ==>
              && r.Crashed? && (Moved(run.disk, k) <==> !Moved(old(run.disk), k))
              && run.disk.synced == old(run.disk).synced
  {
    var _ :- SwapPaths(run, target, candidate, k);
    r := SyncPair(run, Parent(target), k);
  }

  // A stretch without renames: a displaced original cannot be edited.
  predicate Rested(before: Disk, after: Disk, k: Swap, rely: Rely)
    requires Held(before, k) && Held(after, k)
  {
    && Touched(before, after, k, rely)
    && (TargetOnly(rely, k) && Moved(before, k) ==> after.store[k.original] == before.store[k.original])
  }

  // A stretch that leaves the two entries alone.
  twostate predicate Stays(run: Run, k: Swap, cut: bool, exposed: bool)
    reads run
  {
    && Keeps(run, k, exposed) && Rested(old(run.disk), run.disk, k, run.rely)
    && (!exposed ==> (Moved(run.disk, k) <==> Moved(old(run.disk), k)))
    && (!cut ==> (Agreed(run.disk, k) <==> Agreed(old(run.disk), k)) && run.inherited == old(run.inherited))
  }

  // Record a phase.
  method Note(run: Run, intent: Intent, phase: Phase, ghost k: Swap) returns (r: Outcome<Intent>)
    requires run.Valid() && Paired(run.disk, k) && Steady(run, k)
    modifies run
    ensures run.Goes(r.Crashed?, r.Exposed?) && run.writes == old(run.writes) && !r.Raised?
    ensures Stays(run, k, r.Cut(), r.Exposed?)
    ensures r.Cut() ==> run.disk.journal == old(run.disk).journal
    ensures r.Done? ==> r.value == intent.(phase := phase) && run.disk.journal == Holds(r.value)
  {
    r := run.SetPhase(intent, phase);
  }

  // Remove the journal, and with it whatever may take back an entry beside it.
  method Drop(run: Run, ghost k: Swap) returns (r: Outcome<()>)
    requires run.Valid() && run.disk.journal.Holds? && Paired(run.disk, k) && Steady(run, k)
    modifies run
    ensures run.Goes(r.Crashed?, r.Exposed?) && run.writes == old(run.writes) && !r.Raised?
    ensures Keeps(run, k, r.Exposed?) && Rested(old(run.disk), run.disk, k, run.rely)
    ensures !r.Exposed? ==> (Moved(run.disk, k) <==> Moved(old(run.disk), k))
    ensures run.disk.journal == old(run.disk).journal || !run.disk.journal.Holds?
    ensures r.Done? ==> run.disk.journal == NoJournal && Steady(run, k)
    ensures r.Done? ==>
              (Agreed(run.disk, k) <==> Agreed(old(run.disk), k) || Parent(run.journal) == Parent(k.target))
  {
    r := run.RemoveJournal();
  }

  // Both failure branches of `exchange`: swap back, drop the journal, raise.
  method Undo(run: Run, intent: Intent, error: Error, ghost k: Swap) returns (r: Outcome<()>)
    requires run.Valid() && intent == IntentOf(k, intent.phase)
    requires Paired(run.disk, k) && Agreed(run.disk, k) && Steady(run, k) && Moved(run.disk, k)
    requires run.disk.journal == Holds(intent)
    modifies run
    ensures run.Goes(r.Crashed?, r.Exposed?) && run.writes == old(run.writes)
    ensures Keeps(run, k, r.Exposed?) && Named(run.disk, k)
    ensures r.Cut() || r == Raised(error)
    ensures r.Raised? ==> !Moved(run.disk, k) && run.disk.journal == NoJournal && Agreed(run.disk, k)
    ensures !r.Exposed? && TargetOnly(run.rely, k) && Safe(old(run.disk), k) ==> Safe(run.disk, k)
    ensures Calm(old(run.disk), k, run.rely) ==> Calm(run.disk, k, run.rely)
  {
    var current :- Note(run, intent, Mismatch, k);
    var _ :- PutBack(run, current, true, k);
    r := Raised(error);
  }

  // The rename of a restoration, and the phase after it.
  method PutBack(run: Run, intent: Intent, cleanup: bool, ghost k: Swap) returns (r: Outcome<Verdict>)
    requires run.Valid() && intent == IntentOf(k, Mismatch) && run.disk.journal == Holds(intent)
    requires Paired(run.disk, k) && Steady(run, k)
    modifies run
    ensures run.Goes(r.Crashed?, r.Exposed?) && run.writes == old(run.writes)
    ensures Keeps(run, k, r.Exposed?) && Named(run.disk, k)
    ensures r.Cut() || (r == Done(Verdict.Restored) && Agreed(run.disk, k))
    ensures r.Done? ==> run.disk.journal == Left(k, r.value, cleanup)
    ensures r.Done? ==> (Moved(run.disk, k) <==> !Moved(old(run.disk), k))
    ensures !r.Exposed? && TargetOnly(run.rely, k) && Safe(old(run.disk), k)
            && (Moved(old(run.disk), k) || (run.rely.Nothing? && old(run.disk).store[k.original] == k.desired)) ==>
              Safe(run.disk, k) && (r.Done? ==> Settled(run.disk, k))
  {
    var _ :- DurableExchange(run, intent.target, intent.candidate, k);
    var _ :- Note(run, intent, Phase.Restored, k);
    r := Conclude(run, cleanup, Verdict.Restored, k);
  }

  datatype Captured = Captured(stat: Metadata, targetIdentity: Inode, candidateIdentity: Inode, before: File)

  // Two files under one link each.
  predicate Linked(d: Disk, target: Path, candidate: Path) {
    && At(d, target) != Absent && At(d, candidate) != Absent
    && SingleLink(d.names, target) && SingleLink(d.names, candidate)
  }

  // The same, and the prestate the caller expects.
  predicate Capturable(d: Disk, target: Path, candidate: Path, claim: Claim) {
    Linked(d, target, candidate) && Accepts(claim, At(d, target).file)
  }

  method CheckLinks(run: Run, target: Path, candidate: Path) returns (r: Outcome<Metadata>)
    requires run.Valid()
    modifies run
    ensures run.Reads(r.Crashed?, r.Exposed?)
    ensures !r.Cut() ==> (r.Done? <==> Linked(run.disk, target, candidate))
    ensures run.rely.Nothing? && r.Done? ==> r.value == At(run.disk, target).file.metadata
    ensures run.Spends(2, r.Done?, r.Cut())
  {
    var stat :- run.SingleLinked(target);
    var _ :- run.SingleLinked(candidate);
    r := Done(stat.metadata);
  }

  method Identities(run: Run, target: Path, candidate: Path) returns (r: Outcome<(Inode, Inode)>)
    requires run.Valid() && target in run.disk.names && candidate in run.disk.names
    modifies run
    ensures run.Reads(r.Crashed?, r.Exposed?) && !r.Raised?
    ensures r.Done? ==> r.value == (run.disk.names[target], run.disk.names[candidate])
    ensures run.Spends(2, r.Done?, r.Cut())
  {
    var targetIdentity :- run.Identity(target);
    var candidateIdentity :- run.Identity(candidate);
    r := Done((targetIdentity, candidateIdentity));
  }

  method Prestate(run: Run, target: Path, claim: Claim) returns (r: Outcome<File>)
    requires run.Valid() && At(run.disk, target) != Absent
    modifies run
    ensures run.Reads(r.Crashed?, r.Exposed?)
    ensures !r.Cut() ==>
              At(run.disk, target) != Absent && (r.Done? <==> Accepts(claim, At(run.disk, target).file))
    ensures r.Done? ==> Of(r.value) == At(run.disk, target)
    ensures run.Spends(1, r.Done?, r.Cut())
  {
    var before :- run.Describe(target);
    r := if Accepts(claim, before) then Done(before) else Raised(PrestateChanged);
  }

  method CaptureFiles(run: Run, target: Path, candidate: Path, claim: Claim, stat: Metadata)
    returns (r: Outcome<Captured>)
    requires run.Valid() && Linked(run.disk, target, candidate)
    modifies run
    ensures run.Reads(r.Crashed?, r.Exposed?)
    ensures !r.Cut() ==>
              Linked(run.disk, target, candidate) && (r.Done? <==> Accepts(claim, At(run.disk, target).file))
    ensures r.Done? ==>
              r.value == Captured(stat, run.disk.names[target], run.disk.names[candidate], At(run.disk, target).file)
    ensures run.Spends(3, r.Done?, r.Cut())
  {
    var identities :- Identities(run, target, candidate);
    var before :- Prestate(run, target, claim);
    r := Done(Captured(stat, identities.0, identities.1, before));
  }

  method Capture(run: Run, target: Path, candidate: Path, claim: Claim) returns (r: Outcome<Captured>)
    requires run.Valid() && target != candidate
    modifies run
    ensures run.Reads(r.Crashed?, r.Exposed?)
    ensures !r.Cut() ==> (r.Done? <==> Capturable(run.disk, target, candidate, claim))
    ensures r.Done? ==>
              && r.value.targetIdentity == run.disk.names[target]
                   && r.value.candidateIdentity == run.disk.names[candidate]
              && r.value.before == At(run.disk, target).file
    ensures run.rely.Nothing? && r.Done? ==> r.value.stat == r.value.before.metadata
    ensures run.Spends(5, r.Done?, r.Cut())
  {
    var stat :- CheckLinks(run, target, candidate);
    r := CaptureFiles(run, target, candidate, claim, stat);
  }

  // The candidate takes on the target's metadata unless it is to keep its own.
  method Stage(run: Run, target: Path, candidate: Path, stat: Metadata, keepMetadata: bool)
    returns (r: Outcome<File>)
    requires run.Valid() && target != candidate
    requires target in run.disk.names && candidate in run.disk.names
    requires run.disk.names[target] != run.disk.names[candidate]
    requires run.disk.names[target] in run.disk.store && run.disk.names[candidate] in run.disk.store
    modifies run
    ensures run.Stamps(old(run.disk).names[candidate], r.Crashed?, r.Exposed?)
    ensures r.Done? ==>
              var original, replacement := old(run.disk).names[target], old(run.disk).names[candidate];
              run.rely.Nothing? || (run.rely.Only? && run.rely.path == target && run.rely.inode == original) ==>
                run.disk.store[replacement] == r.value
    ensures run.rely.Nothing? ==> !r.Raised?
    ensures run.rely.Nothing? && r.Done? ==>
              var original, replacement := old(run.disk).names[target], old(run.disk).names[candidate];
              && run.disk.store[original] == old(run.disk).store[original]
              && (stat == old(run.disk).store[original].metadata ==>
                    && r.value.bytes == old(run.disk).store[replacement].bytes
                    && r.value.metadata == old(run.disk).store[if keepMetadata then replacement else original].metadata)
    ensures keepMetadata ==> run.Spends(1, r.Done?, r.Cut())
  {
    if !keepMetadata {
      var _ :- run.CopyMetadata(target, candidate, stat, run.disk.names[candidate]);
    }
    r := run.Describe(candidate);
  }

  // Whether no power loss can take the two entries back once an intent is written: they
  // are durable, or the journal directory is made beside them.
  predicate Sheltered(d: Disk, target: Path, candidate: Path, journal: Path) {
    || (Entry(d.synced, target) == Entry(d.names, target) && Entry(d.synced, candidate) == Entry(d.names, candidate))
    || (d.journal == NoJournal && Parent(journal) == Parent(target) && Parent(journal) == Parent(candidate))
  }

  // Exactly the disks on which an undisturbed exchange begins.
  predicate Ready(d: Disk, target: Path, candidate: Path, claim: Claim, journal: Path) {
    && Parent(target) == Parent(candidate) && !(target <= journal)
    && Capturable(d, target, candidate, claim)
    && Unused(d)
  }

  // A run that has only just started.
  ghost predicate Started(run: Run, target: Path, candidate: Path)
    reads run
  {
    run.Valid() && run.watched == {target, candidate} && run.inherited == Unsynced(run.disk, run.watched)
  }

  // What an exchange that has not begun may have done: new metadata for the candidate,
  // an empty journal directory, and no more than a power loss does by itself.
  predicate Unbegun(d: Disk, d': Disk, target: Path, candidate: Path, rely: Rely) {
    && d'.journal in {d.journal, NoIntent}
    && Entry(d'.names, target) in {Entry(d.names, target), Entry(d.synced, target)}
    && Entry(d'.names, candidate) in {Entry(d.names, candidate), Entry(d.synced, candidate)}
    && (if candidate in d.names then Stamped(d, d'.store, d.names[candidate], rely) else Edited(d, d'.store, rely))
  }

  // The captured files before anything is recorded, and an open journal.
  method CaptureAndStage(run: Run, target: Path, candidate: Path, claim: Claim, keepMetadata: bool)
    returns (r: Outcome<()>, ghost k: Swap, intent: Intent)
    requires run.Valid() && target != candidate && Parent(target) == Parent(candidate)
    modifies run
    ensures run.Goes(r.Crashed?, r.Exposed?) && run.inherited == old(run.inherited)
    ensures run.disk.journal == old(run.disk).journal && run.disk.litter == old(run.disk).litter
    ensures Unbegun(old(run.disk), run.disk, target, candidate, run.rely)
    ensures r.Done? ==>
              && intent == IntentOf(k, Prepared) && k.target == target && k.candidate == candidate
              && run.disk.names == old(run.disk).names && run.disk.synced == old(run.disk).synced
              && Paired(run.disk, k) && !Moved(run.disk, k) && Accepts(claim, k.before)
              && (Calm(old(run.disk), k, run.rely) ==> Calm(run.disk, k, run.rely))
              && (TargetOnly(run.rely, k) ==>
                    run.disk.store[k.replacement] == k.desired
                      && k.desired.bytes == old(run.disk).store[k.replacement].bytes)
    ensures run.rely.Nothing? && !r.Cut() ==> (r.Done? <==> Capturable(old(run.disk), target, candidate, claim))
    ensures run.rely.Nothing? && r.Done? ==>
              && run.disk.store[k.original] == k.before == old(run.disk).store[k.original]
              && k.desired.bytes == old(run.disk).store[k.replacement].bytes
              && k.desired.metadata
                   == (if keepMetadata then old(run.disk).store[k.replacement] else k.before).metadata
    ensures keepMetadata ==> run.Spends(6, r.Done?, r.Cut())
    ensures r.Raised? ==> run.disk.names == old(run.disk).names
  {
    k, intent := *, *;
    var c :- Capture(run, target, candidate, claim);
    var desired :- Stage(run, target, candidate, c.stat, keepMetadata);
    k := Swap(target, candidate, c.targetIdentity, c.candidateIdentity, c.before, desired);
    intent := Intent(Operation.Exchange, target, candidate, Of(c.before), Of(desired), Prepared,
                     Some(c.targetIdentity), Some(c.candidateIdentity), false);
    r := Done(());
  }

  // Everything before the intent is written; `k` is what the run has captured.
  method Prepare(run: Run, target: Path, candidate: Path, claim: Claim, keepMetadata: bool)
    returns (r: Outcome<()>, ghost k: Swap, intent: Intent)
    requires target != candidate && Started(run, target, candidate)
    modifies run
    ensures run.Goes(r.Crashed?, r.Exposed?)
    ensures !r.Done? ==> Unbegun(old(run.disk), run.disk, target, candidate, run.rely)
    ensures r.Done? ==>
              && intent == IntentOf(k, Prepared) && k.target == target && k.candidate == candidate
              && run.disk.names == old(run.disk).names && run.disk.journal == NoIntent
              && k.original in old(run.disk).store && k.replacement in old(run.disk).store
              && Paired(run.disk, k) && !Moved(run.disk, k) && Accepts(claim, k.before)
              && (Calm(old(run.disk), k, run.rely) ==> Calm(run.disk, k, run.rely))
              && (TargetOnly(run.rely, k) ==>
                    run.disk.store[k.replacement] == k.desired
                      && k.desired.bytes == old(run.disk).store[k.replacement].bytes)
    ensures r.Done? ==> Steady(run, k)
    ensures r.Done? && Sheltered(old(run.disk), target, candidate, run.journal) ==> !run.inherited
    ensures run.rely.Nothing? && !r.Cut() ==> (r.Done? <==> Ready(old(run.disk), target, candidate, claim, run.journal))
    ensures run.rely.Nothing? && r.Done? ==>
              && run.disk.store[k.original] == k.before == old(run.disk).store[k.original]
              && k.desired.bytes == old(run.disk).store[k.replacement].bytes
              && k.desired.metadata
                   == (if keepMetadata then old(run.disk).store[k.replacement] else k.before).metadata
    ensures keepMetadata && old(run.disk).journal != NoJournal ==>
              run.Spends(8, r.Done?, r.Cut()) && (r.Done? ==> run.disk.synced == old(run.disk).synced)
    ensures r.Raised? ==> run.disk.names == old(run.disk).names
  {
    k, intent := *, *;
    if Parent(target) != Parent(candidate) || target <= run.journal {
      return Raised(if Parent(target) != Parent(candidate) then DifferentDirectories
                    else JournalBelowTarget), k, intent;
    }
    r, k, intent := CaptureAndStage(run, target, candidate, claim, keepMetadata);
    if r.Done? {
      ghost var captured := run.disk;
      r := run.ClaimJournal(target, candidate);
      UnbegunThen(old(run.disk), captured, run.disk, target, candidate, run.rely);
    }
  }

  lemma UnbegunThen(d: Disk, d': Disk, d'': Disk, target: Path, candidate: Path, rely: Rely)
    requires Unbegun(d, d', target, candidate, rely) && d'.names == d.names && d'.synced == d.synced
    requires Settles(d', d'', target, candidate, rely) && d''.journal in {d'.journal, NoIntent}
    ensures Unbegun(d, d'', target, candidate, rely)
  {
  }

  // The two paths still lead to the captured inodes.
  method Recheck(run: Run, intent: Intent) returns (r: Outcome<()>)
    requires run.Valid()
    modifies run
    ensures run.Reads(r.Crashed?, r.Exposed?)
    ensures !r.Cut() ==>
              (r.Done? <==>
                 && intent.target in run.disk.names && intent.candidate in run.disk.names
                 && Some(run.disk.names[intent.target]) == intent.targetIdentity
                 && Some(run.disk.names[intent.candidate]) == intent.candidateIdentity)
    ensures run.Spends(2, r.Done?, r.Cut())
  {
    var live :- run.Identity(intent.target);
    if Some(live) != intent.targetIdentity {
      return Raised(IdentityChanged);
    }
    live :- run.Identity(intent.candidate);
    if Some(live) != intent.candidateIdentity {
      return Raised(IdentityChanged);
    }
    r := Done(());
  }

  // The same, in terms of the two files.
  method ConfirmFirst(run: Run, intent: Intent, ghost k: Swap) returns (r: Outcome<()>)
    requires run.Valid() && intent == IntentOf(k, Prepared) && Paired(run.disk, k) && Steady(run, k)
    requires !Moved(run.disk, k)
    modifies run
    ensures run.Goes(r.Crashed?, r.Exposed?) && run.writes == old(run.writes) && !r.Raised?
    ensures Stays(run, k, r.Cut(), r.Exposed?) && run.disk.journal == old(run.disk).journal
    ensures run.Spends(2, r.Done?, r.Cut())
  {
    r := Recheck(run, intent);
  }

  // The intent becomes durable.
  method WriteFirst(run: Run, intent: Intent, ghost k: Swap) returns (r: Outcome<()>)
    requires run.Valid() && intent == IntentOf(k, Prepared) && run.disk.journal == NoIntent
    requires Paired(run.disk, k) && Steady(run, k)
    modifies run
    ensures run.Goes(r.Crashed?, r.Exposed?) && run.writes == old(run.writes) && !r.Raised?
    ensures Stays(run, k, r.Cut(), r.Exposed?)
    ensures if r.Done? then run.disk.journal == Holds(intent) else run.disk.journal == NoIntent
    ensures run.Spends(2, r.Done?, r.Cut())
    ensures r.Done? ==> run.disk.synced == old(run.disk).synced
  {
    r := run.WriteIntent(intent);
  }

  // The intent becomes durable, then the entries it speaks of.
  method Announce(run: Run, intent: Intent, ghost k: Swap) returns (r: Outcome<()>)
    requires run.Valid() && intent == IntentOf(k, Prepared) && run.disk.journal == NoIntent
    requires Paired(run.disk, k) && Steady(run, k) && !Moved(run.disk, k)
    modifies run
    ensures run.Goes(r.Crashed?, r.Exposed?) && run.writes == old(run.writes) && !r.Raised?
    ensures Keeps(run, k, r.Exposed?)
    ensures run.disk.journal == Holds(intent) || (r.Cut() && run.disk.journal == NoIntent)
    ensures !r.Exposed? ==> !Moved(run.disk, k)
    ensures r.Done? ==> !run.inherited && Agreed(run.disk, k)
    ensures run.Spends(3, r.Done?, r.Cut())
    ensures Ends(old(run.schedule), 2, PowerLoss(false)) ==>
              r.Cut() && run.disk.names == run.disk.synced == old(run.disk).synced && run.disk.journal == Holds(intent)
  {
    var _ :- WriteFirst(run, intent, k);
    r := SyncPair(run, Parent(intent.target), k);
  }

  // From writing the intent to the durable rename.
  method Install(run: Run, intent: Intent, ghost k: Swap) returns (r: Outcome<()>)
    requires run.Valid() && intent == IntentOf(k, Prepared) && run.disk.journal == NoIntent
    requires Paired(run.disk, k) && Steady(run, k) && !Moved(run.disk, k)
    modifies run
    ensures run.Goes(r.Crashed?, r.Exposed?) && run.writes == old(run.writes) && !r.Raised?
    ensures Keeps(run, k, r.Exposed?)
    ensures run.disk.journal == Holds(intent) || (r.Cut() && run.disk.journal == NoIntent)
    ensures !r.Exposed? && run.disk.journal == NoIntent ==> !Moved(run.disk, k)
    ensures r.Done? ==> !run.inherited && Agreed(run.disk, k) && Moved(run.disk, k)
    // Killed right after the rename, or cut off from power right after the intent.
    ensures Ends(old(run.schedule), 6, Killed) ==>
              r.Crashed? && Moved(run.disk, k) && Placed(run.disk.synced, k, false) && run.disk.journal == Holds(intent)
    ensures Ends(old(run.schedule), 2, PowerLoss(false)) ==>
              r.Cut() && run.disk.names == run.disk.synced == old(run.disk).synced && run.disk.journal == Holds(intent)
  {
    var _ :- Announce(run, intent, k);
    var _ :- ConfirmFirst(run, intent, k);
    r := DurableExchange(run, intent.target, intent.candidate, k);
  }

  // A verdict is recorded; drop the journal unless it is to be kept.
  method Conclude(run: Run, cleanup: bool, verdict: Verdict, ghost k: Swap) returns (r: Outcome<Verdict>)
    requires run.Valid() && run.disk.journal.Holds? && Paired(run.disk, k) && Steady(run, k)
    modifies run
    ensures run.Goes(r.Crashed?, r.Exposed?) && run.writes == old(run.writes)
    ensures Keeps(run, k, r.Exposed?) && Rested(old(run.disk), run.disk, k, run.rely)
    ensures r.Cut() || r == Done(verdict)
    ensures !r.Exposed? ==> (Moved(run.disk, k) <==> Moved(old(run.disk), k))
    ensures run.disk.journal == old(run.disk).journal || !run.disk.journal.Holds?
    ensures r.Done? ==> (run.disk.journal == if cleanup then NoJournal else old(run.disk).journal)
    ensures r.Done? ==>
              (Agreed(run.disk, k) <==>
                 Agreed(old(run.disk), k) || (cleanup && Parent(run.journal) == Parent(k.target)))
    ensures !r.Exposed? && TargetOnly(run.rely, k) && Safe(old(run.disk), k) && Settled(old(run.disk), k) ==>
              Safe(run.disk, k) && Settled(run.disk, k)
    ensures !r.Exposed? && run.rely.Nothing? && Clean(old(run.disk), k) ==> Clean(run.disk, k)
  {
    if cleanup {
      var _ :- Drop(run, k);
    }
    r := Done(verdict);
  }

  // Recording the commit, phase by phase, and dropping the journal.
  method Commit(run: Run, intent: Intent, cleanup: bool, ghost k: Swap) returns (r: Outcome<Verdict>)
    requires run.Valid() && intent == IntentOf(k, intent.phase) && run.disk.journal == Holds(intent)
    requires Paired(run.disk, k) && Steady(run, k)
    modifies run
    ensures run.Goes(r.Crashed?, r.Exposed?) && run.writes == old(run.writes)
    ensures Keeps(run, k, r.Exposed?) && Named(run.disk, k)
    ensures r.Cut() || r == Done(Verdict.Committed)
    ensures !r.Exposed? ==> (Moved(run.disk, k) <==> Moved(old(run.disk), k))
    ensures r.Done? ==> run.disk.journal == Left(k, r.value, cleanup)
    ensures r.Done? ==>
              (Agreed(run.disk, k) <==>
                 Agreed(old(run.disk), k) || (cleanup && Parent(run.journal) == Parent(k.target)))
    ensures !r.Exposed? && TargetOnly(run.rely, k) && Safe(old(run.disk), k)
              && PhaseFits(old(run.disk), k, Phase.Committed) ==>
              Safe(run.disk, k) && Settled(run.disk, k)
    ensures !r.Exposed? && run.rely.Nothing? && Clean(old(run.disk), k) ==> Clean(run.disk, k)
    ensures r.Done? ==> Rested(old(run.disk), run.disk, k, run.rely)
  {
    var current :- Note(run, intent, Phase.Verified, k);
    current :- Note(run, current, Phase.Committed, k);
    r := Conclude(run, cleanup, Verdict.Committed, k);
  }

  // The same with the phase before.
  method CommitAll(run: Run, intent: Intent, cleanup: bool, ghost k: Swap) returns (r: Outcome<Verdict>)
    requires run.Valid() && intent == IntentOf(k, intent.phase) && run.disk.journal == Holds(intent)
    requires Paired(run.disk, k) && Steady(run, k)
    modifies run
    ensures run.Goes(r.Crashed?, r.Exposed?) && run.writes == old(run.writes)
    ensures Keeps(run, k, r.Exposed?) && Named(run.disk, k)
    ensures r.Cut() || r == Done(Verdict.Committed)
    ensures !r.Exposed? ==> (Moved(run.disk, k) <==> Moved(old(run.disk), k))
    ensures r.Done? ==> run.disk.journal == Left(k, r.value, cleanup)
    ensures r.Done? ==>
              (Agreed(run.disk, k) <==>
                 Agreed(old(run.disk), k) || (cleanup && Parent(run.journal) == Parent(k.target)))
    ensures !r.Exposed? && TargetOnly(run.rely, k) && Safe(old(run.disk), k)
              && PhaseFits(old(run.disk), k, Phase.Committed) ==>
              Safe(run.disk, k) && Settled(run.disk, k)
    ensures !r.Exposed? && run.rely.Nothing? && Clean(old(run.disk), k) ==> Clean(run.disk, k)
  {
    var current :- Note(run, intent, Exchanged, k);
    r := Commit(run, current, cleanup, k);
  }

  // From the durable rename to the removal of the journal.
  method Confirm(run: Run, intent: Intent, ghost k: Swap) returns (r: Outcome<()>)
    requires run.Valid() && !run.inherited && run.watched == {k.target, k.candidate}
    requires intent == IntentOf(k, Prepared) && run.disk.journal == Holds(intent)
    requires Paired(run.disk, k) && Agreed(run.disk, k) && Moved(run.disk, k)
    modifies run
    ensures run.Goes(r.Crashed?, r.Exposed?) && run.writes == old(run.writes)
    ensures Keeps(run, k, r.Exposed?) && Named(run.disk, k)
    ensures TargetOnly(run.rely, k) && Safe(old(run.disk), k) ==> Safe(run.disk, k)
    ensures !r.Cut() ==> run.disk.journal == NoJournal && Agreed(run.disk, k) && (r.Done? <==> Moved(run.disk, k))
    ensures Calm(old(run.disk), k, run.rely) ==> Calm(run.disk, k, run.rely)
    ensures run.rely.Nothing? && Safe(old(run.disk), k) && Clean(old(run.disk), k) ==>
              Clean(run.disk, k) && Moved(run.disk, k) && !r.Raised?
    ensures r.Done? && TargetOnly(run.rely, k) ==> run.disk.store[k.original] == k.before
  {
    var displaced :- Look(run, intent.candidate, k);
    if Of(displaced) != intent.expected {
      r := Undo(run, intent, StateRestored, k);
      return;
    }
    r := Verify(run, intent, k);
  }

  // The installed file is verified, and the commit is recorded.
  method Verify(run: Run, intent: Intent, ghost k: Swap) returns (r: Outcome<()>)
    requires run.Valid() && !run.inherited && run.watched == {k.target, k.candidate}
    requires intent == IntentOf(k, Prepared) && run.disk.journal == Holds(intent)
    requires Paired(run.disk, k) && Agreed(run.disk, k) && Moved(run.disk, k)
    modifies run
    ensures run.Goes(r.Crashed?, r.Exposed?) && run.writes == old(run.writes)
    ensures Keeps(run, k, r.Exposed?) && Named(run.disk, k)
    ensures TargetOnly(run.rely, k) && Safe(old(run.disk), k) && old(run.disk).store[k.original] == k.before ==>
              && Safe(run.disk, k) && Moved(run.disk, k) && !r.Raised?
              && (run.rely.Nothing? ==> Clean(run.disk, k))
    ensures !r.Cut() ==> run.disk.journal == NoJournal && Agreed(run.disk, k) && (r.Done? <==> Moved(run.disk, k))
    ensures Calm(old(run.disk), k, run.rely) ==> Calm(run.disk, k, run.rely)
    ensures r.Done? && TargetOnly(run.rely, k) ==> run.disk.store[k.original] == old(run.disk).store[k.original]
  {
    var current :- Note(run, intent, Exchanged, k);
    var installed :- Look(run, intent.target, k);
    if Of(installed) != intent.desired {
      r := Undo(run, current, VerificationFailed, k);
      return;
    }
    var _ :- Commit(run, current, true, k);
    r := Done(());
  }

  // The state of one of the two paths.
  method Look(run: Run, p: Path, ghost k: Swap) returns (r: Outcome<File>)
    requires run.Valid() && p in {k.target, k.candidate} && Paired(run.disk, k) && Steady(run, k)
    modifies run
    ensures run.Goes(r.Crashed?, r.Exposed?) && run.writes == old(run.writes) && !r.Raised?
    ensures Stays(run, k, r.Cut(), r.Exposed?) && run.disk.journal == old(run.disk).journal
    ensures r.Done? ==>
              r.value == run.disk.store[if Moved(run.disk, k) == (p == k.target) then k.replacement else k.original]
  {
    r := run.Describe(p);
  }

  // From writing the intent to the removal of the journal.
  method CarryOut(run: Run, intent: Intent, ghost k: Swap) returns (r: Outcome<()>)
    requires run.Valid() && intent == IntentOf(k, Prepared) && run.disk.journal == NoIntent
    requires Paired(run.disk, k) && Steady(run, k) && !Moved(run.disk, k)
    modifies run
    ensures run.Goes(r.Crashed?, r.Exposed?)
    ensures Keeps(run, k, r.Exposed?) && Named(run.disk, k)
    ensures r.Exposed? ==> run.disk.journal in {NoIntent, Holds(intent)}
    ensures !r.Exposed? && TargetOnly(run.rely, k) && Safe(old(run.disk), k) ==> Safe(run.disk, k)
    ensures Calm(old(run.disk), k, run.rely) ==> Calm(run.disk, k, run.rely)
    ensures !r.Exposed? && run.rely.Nothing? && Safe(old(run.disk), k) && Clean(old(run.disk), k) ==>
              Clean(run.disk, k) && !r.Raised?
    ensures !r.Cut() ==> run.disk.journal == NoJournal && Agreed(run.disk, k) && (r.Done? <==> Moved(run.disk, k))
    // Killed right after the rename, or cut off from power right after the intent.
    ensures Ends(old(run.schedule), 6, Killed) ==>
              r.Crashed? && Moved(run.disk, k) && Placed(run.disk.synced, k, false) && run.disk.journal == Holds(intent)
    ensures Ends(old(run.schedule), 2, PowerLoss(false)) ==>
              r.Cut() && run.disk.names == run.disk.synced == old(run.disk).synced && run.disk.journal == Holds(intent)
    ensures r.Done? && TargetOnly(run.rely, k) ==> run.disk.store[k.original] == k.before
  {
    r := Install(run, intent, k);
    if r.Done? {
      r := Confirm(run, intent, k);
    }
  }

  method Exchange(run: Run, target: Path, candidate: Path, claim: Claim, keepMetadata: bool)
    returns (r: Outcome<()>, ghost k: Swap, begun: bool)
    requires target != candidate && Started(run, target, candidate)
    modifies run
    ensures run.Goes(r.Crashed?, r.Exposed?)
    ensures !begun ==> !r.Done? && Unbegun(old(run.disk), run.disk, target, candidate, run.rely)
    ensures begun ==>
              && k.target == target && k.candidate == candidate
              && Entry(old(run.disk).names, target) == Some(k.original)
              && Entry(old(run.disk).names, candidate) == Some(k.replacement)
              && k.original in old(run.disk).store && k.replacement in old(run.disk).store
              && Accepts(claim, k.before)
    // Only a power loss before the entries are durable can expose it.
    ensures begun && r.Exposed? ==>
              && !Sheltered(old(run.disk), target, candidate, run.journal)
              && (run.disk.journal == NoIntent || Paired(run.disk, k) || Disowned(run.disk, k))
    // However else it is cut once it has begun, the pair is in place.
    ensures begun && !r.Exposed? ==>
              && Paired(run.disk, k) && Named(run.disk, k)
              && (TargetOnly(run.rely, k) ==>
                    Safe(run.disk, k) && k.desired.bytes == old(run.disk).store[k.replacement].bytes)
              && (Calm(old(run.disk), k, run.rely) ==> Calm(run.disk, k, run.rely))
              && (!r.Cut() ==> run.disk.journal == NoJournal && Agreed(run.disk, k))
    ensures begun && Sheltered(old(run.disk), target, candidate, run.journal) ==> Backed(run.disk, k)
    ensures begun && !r.Exposed? && run.rely.Nothing? ==>
              && Clean(run.disk, k) && !r.Raised?
              && old(run.disk).store[k.original] == k.before
              && k.desired.bytes == old(run.disk).store[k.replacement].bytes
              && k.desired.metadata
                   == (if keepMetadata then old(run.disk).store[k.replacement] else k.before).metadata
    ensures r.Raised? && begun ==> !Moved(run.disk, k)
    ensures r.Done? ==>
              Paired(run.disk, k) && Moved(run.disk, k) && Agreed(run.disk, k) && run.disk.journal == NoJournal
    ensures r.Done? && TargetOnly(run.rely, k) ==> run.disk.store[k.original] == k.before
    // Beside no writer, a committed target has the bytes of the old candidate, and of the
    // old target the metadata, unless the candidate was to keep its own.
    ensures r.Done? && run.rely.Nothing? ==>
              && At(old(run.disk), target) != Absent && At(old(run.disk), candidate) != Absent
              && At(run.disk, candidate) == At(old(run.disk), target)
              && var before, offered := At(old(run.disk), target).file, At(old(run.disk), candidate).file;
                 At(run.disk, target) == Of(File(offered.bytes, (if keepMetadata then offered else before).metadata))
    ensures r.Raised? && !begun ==> run.disk.names == old(run.disk).names
    // Killed right after the rename, it leaves it unsynced; without power right after the
    // intent, it leaves the entries that were durable.
    ensures run.rely.Nothing? && keepMetadata && old(run.disk).journal == NoIntent
            && Ready(old(run.disk), target, candidate, claim, run.journal) ==>
              && (Ends(old(run.schedule), 14, Killed) ==>
                    && begun && r.Crashed? && Moved(run.disk, k) && Placed(run.disk.synced, k, false)
                    && run.disk.journal == Holds(IntentOf(k, Prepared)))
              && (Ends(old(run.schedule), 10, PowerLoss(false)) ==>
                    && begun && run.disk.names == run.disk.synced == old(run.disk).synced
                    && run.disk.journal == Holds(IntentOf(k, Prepared)))
    // Undisturbed and uncut, it succeeds exactly on the disks that are ready for it.
    ensures run.rely.Nothing? && !r.Cut() ==>
              (r.Done? <==> Ready(old(run.disk), target, candidate, claim, run.journal)) && (begun <==> r.Done?)
  {
    begun := false;
    var intent;
    r, k, intent := Prepare(run, target, candidate, claim, keepMetadata);
    if !r.Done? {
      return;
    }
    begun := true;
    r := CarryOut(run, intent, k);
  }

  /* ---- recover_exchange ---- */

  // Two digests that recovery read a moment ago.
  predicate Seen(targetDigest: Digest, candidateDigest: Digest, d: Disk, k: Swap, rely: Rely)
    requires Paired(d, k)
  {
    if Moved(d, k) then
      targetDigest == Of(k.desired) && candidateDigest == Of(d.store[k.original])
    else
      && candidateDigest == Of(k.desired)
      && targetDigest != Absent
      && (rely.Nothing? ==> targetDigest == Of(d.store[k.original]))
      && (rely.Only? && targetDigest == Of(k.desired) ==> k.before == k.desired)
  }

  // A prepared intent demands the two original inodes, in either order.
  predicate IdentitiesLive(names: map<Path, Inode>, intent: Intent) {
    && intent.target in names && intent.candidate in names
    && var live := (Some(names[intent.target]), Some(names[intent.candidate]));
       live == (intent.targetIdentity, intent.candidateIdentity)
         || live == (intent.candidateIdentity, intent.targetIdentity)
  }

  method CheckIdentities(run: Run, intent: Intent) returns (r: Outcome<()>)
    requires run.Valid()
    modifies run
    ensures run.Reads(r.Crashed?, r.Exposed?)
    ensures !r.Cut() ==> (r.Done? <==> intent.phase != Prepared || IdentitiesLive(run.disk.names, intent))
  {
    if intent.phase == Prepared {
      var targetNow :- run.Identity(intent.target);
      var candidateNow :- run.Identity(intent.candidate);
      var live := (Some(targetNow), Some(candidateNow));
      if live != (intent.targetIdentity, intent.candidateIdentity)
         && live != (intent.candidateIdentity, intent.targetIdentity) {
        return Raised(IdentityChanged);
      }
    }
    r := Done(());
  }

  // The phase before a restoration.
  method AnnounceReturn(run: Run, intent: Intent, ghost k: Swap) returns (r: Outcome<Intent>)
    requires run.Valid() && intent == IntentOf(k, intent.phase) && run.disk.journal == Holds(intent)
    requires Paired(run.disk, k) && Steady(run, k)
    modifies run
    ensures run.Goes(r.Crashed?, r.Exposed?) && run.writes == old(run.writes) && !r.Raised?
    ensures Stays(run, k, r.Cut(), r.Exposed?)
    ensures r.Cut() ==> run.disk.journal == old(run.disk).journal
    ensures r.Done? ==> r.value == IntentOf(k, Mismatch) && run.disk.journal == Holds(r.value)
  {
    if intent.phase == Mismatch {
      r := Done(intent);
    } else {
      r := Note(run, intent, Mismatch, k);
    }
  }

  // The exchange displaced a changed prestate: put it back.
  method SwapBack(run: Run, intent: Intent, cleanup: bool, ghost k: Swap) returns (r: Outcome<Verdict>)
    requires run.Valid() && intent == IntentOf(k, intent.phase) && run.disk.journal == Holds(intent)
    requires Paired(run.disk, k) && Steady(run, k)
    modifies run
    ensures run.Goes(r.Crashed?, r.Exposed?) && run.writes == old(run.writes)
    ensures Keeps(run, k, r.Exposed?) && Named(run.disk, k)
    ensures r.Cut() || (r == Done(Verdict.Restored) && Agreed(run.disk, k))
    ensures r.Done? ==> run.disk.journal == Left(k, r.value, cleanup)
    ensures r.Done? ==> (Moved(run.disk, k) <==> !Moved(old(run.disk), k))
    ensures !r.Exposed? && TargetOnly(run.rely, k) && Safe(old(run.disk), k)
            && (Moved(old(run.disk), k) || (run.rely.Nothing? && old(run.disk).store[k.original] == k.desired)) ==>
              Safe(run.disk, k) && (r.Done? ==> Settled(run.disk, k))
  {
    var current :- AnnounceReturn(run, intent, k);
    r := PutBack(run, current, cleanup, k);
  }

  method RecordRestored(run: Run, intent: Intent, cleanup: bool, ghost k: Swap) returns (r: Outcome<Verdict>)
    requires run.Valid() && intent == IntentOf(k, intent.phase) && run.disk.journal == Holds(intent)
    requires Paired(run.disk, k) && Steady(run, k)
    modifies run
    ensures run.Goes(r.Crashed?, r.Exposed?) && run.writes == old(run.writes)
    ensures Keeps(run, k, r.Exposed?) && Named(run.disk, k)
    ensures r.Cut() || r == Done(Verdict.Restored)
    ensures !r.Exposed? ==> (Moved(run.disk, k) <==> Moved(old(run.disk), k))
    ensures r.Done? ==> run.disk.journal == Left(k, r.value, cleanup)
    ensures r.Done? ==>
              (Agreed(run.disk, k) <==>
                 Agreed(old(run.disk), k) || (cleanup && Parent(run.journal) == Parent(k.target)))
    ensures !r.Exposed? && TargetOnly(run.rely, k) && Safe(old(run.disk), k)
              && PhaseFits(old(run.disk), k, Phase.Restored) ==>
              Safe(run.disk, k) && Settled(run.disk, k)
    ensures !r.Exposed? && run.rely.Nothing? && Clean(old(run.disk), k) && k.before != k.desired ==> Clean(run.disk, k)
  {
    var _ :- Note(run, intent, Phase.Restored, k);
    r := Conclude(run, cleanup, Verdict.Restored, k);
  }

  // The phases that already record a verdict.
  predicate Concluded(phase: Phase) {
    phase in {Phase.Verified, Phase.Committed, Phase.Restored}
  }

  // A recorded verdict that the target contradicts.
  predicate Contradicted(intent: Intent, targetDigest: Digest) {
    if intent.phase == Phase.Restored then targetDigest == Absent else targetDigest != intent.desired
  }

  method Recorded(run: Run, intent: Intent, cleanup: bool, targetDigest: Digest, ghost k: Swap)
    returns (r: Outcome<Verdict>)
    requires run.Valid() && intent == IntentOf(k, intent.phase) && run.disk.journal == Holds(intent)
    requires Concluded(intent.phase) && Paired(run.disk, k) && Steady(run, k)
    modifies run
    ensures run.Goes(r.Crashed?, r.Exposed?) && run.writes == old(run.writes)
    ensures Keeps(run, k, r.Exposed?) && Named(run.disk, k)
    ensures !r.Cut() ==> (r.Raised? <==> Contradicted(intent, targetDigest))
    ensures r.Raised? ==> run.disk == old(run.disk)
    ensures !r.Exposed? ==> (Moved(run.disk, k) <==> Moved(old(run.disk), k))
    ensures r.Done? ==> run.disk.journal == Left(k, r.value, cleanup)
    ensures r.Done? ==> (r.value == Verdict.Restored <==> intent.phase == Phase.Restored)
    ensures r.Done? ==>
              (Agreed(run.disk, k) <==>
                 Agreed(old(run.disk), k) || (cleanup && Parent(run.journal) == Parent(k.target)))
    ensures !r.Exposed? && TargetOnly(run.rely, k) && Safe(old(run.disk), k) ==>
              Safe(run.disk, k) && Settled(run.disk, k)
    ensures !r.Exposed? && run.rely.Nothing? && Clean(old(run.disk), k) ==> Clean(run.disk, k)
  {
    if intent.phase == Phase.Restored {
      if targetDigest == Absent {
        return Raised(RestoredTargetMissing);
      }
      r := Conclude(run, cleanup, Verdict.Restored, k);
    } else {
      if targetDigest != intent.desired {
        return Raised(CommittedTargetChanged);
      }
      if intent.phase == Phase.Verified {
        var _ :- Note(run, intent, Phase.Committed, k);
      }
      r := Conclude(run, cleanup, Verdict.Committed, k);
    }
  }

  datatype Decision = Conclude | Commit | Restore | SwapBack | Refuse(error: Error)

  // What recovery decides on the two digests it has read.
  function Decide(intent: Intent, targetDigest: Digest, candidateDigest: Digest): Decision {
    var expected, desired, phase := intent.expected, intent.desired, intent.phase;
    if Concluded(phase) then
      Decision.Conclude
    else if targetDigest == desired && candidateDigest == expected then
      if phase == Mismatch then Refuse(ContradictoryPhase) else Decision.Commit
    else if targetDigest == expected && candidateDigest == desired then
      Decision.Restore
    else if phase == Mismatch && candidateDigest == desired && targetDigest != Absent then
      Decision.Restore
    else if targetDigest == desired && candidateDigest != Absent then
      Decision.SwapBack
    else
      Refuse(Unrecoverable)
  }

  // Whether recovery fails on these digests.
  predicate Refuses(intent: Intent, targetDigest: Digest, candidateDigest: Digest) {
    match Decide(intent, targetDigest, candidateDigest)
    case Conclude => Contradicted(intent, targetDigest)
    case Refuse(_) => true
    case _ => false
  }

  // The states that undisturbed recovery refuses: the target was edited before the rename
  // and is neither the prestate nor the replacement; a recorded commit has been taken
  // back; or a displaced file that had changed is back in its prestate.
  predicate Fails(d: Disk, k: Swap)
    requires Paired(d, k)
  {
    var file := d.store[k.original];
    d.journal.Holds? &&
    match d.journal.intent.phase
    case Restored => false
    case Verified => !Moved(d, k) && file != k.desired
    case Committed => !Moved(d, k) && file != k.desired
    case Mismatch => file == k.before && (Moved(d, k) || k.before == k.desired)
    case _ => !Moved(d, k) && file !in {k.before, k.desired}
  }

  // The states in which it renames: the displaced file is not the captured one, or the
  // target was given the content of the replacement before the rename.
  predicate SwapsBack(d: Disk, k: Swap)
    requires Paired(d, k)
  {
    var file := d.store[k.original];
    d.journal.Holds? && !Concluded(d.journal.intent.phase) && file != k.before
    && if d.journal.intent.phase == Mismatch then Moved(d, k) && file != k.desired else Moved(d, k) || file == k.desired
  }

  lemma DecisionOnDisk(d: Disk, k: Swap)
    requires Paired(d, k) && Named(d, k) && d.journal.Holds? && d.store[k.replacement] == k.desired
    ensures Refuses(d.journal.intent, At(d, k.target), At(d, k.candidate)) <==> Fails(d, k)
    ensures Decide(d.journal.intent, At(d, k.target), At(d, k.candidate)) == Decision.SwapBack <==> SwapsBack(d, k)
  {
  }

  // From the disks that an exchange and its recoveries leave, two of these are left: an
  // edit before the rename, and one after the rename back that a power loss took back.
  lemma FailsFromSafe(d: Disk, k: Swap)
    requires Paired(d, k) && Safe(d, k) && d.journal.Holds? && k.before != k.desired
    ensures var phase, file := d.journal.intent.phase, d.store[k.original];
            Fails(d, k) <==>
              || (phase == Prepared && !Moved(d, k) && file !in {k.before, k.desired})
              || (phase == Mismatch && Moved(d, k) && file == k.before)
  {
  }

  // A decision that the disk bears out.
  predicate Suits(decision: Decision, d: Disk, k: Swap, rely: Rely)
    requires Paired(d, k)
  {
    match decision
    case Conclude => true
    case Commit => PhaseFits(d, k, Phase.Committed)
    case Restore => PhaseFits(d, k, Phase.Restored)
    case SwapBack => Moved(d, k) || (rely.Nothing? && d.store[k.original] == k.desired)
    case Refuse(_) => Settled(d, k)
  }

  // A decision that only reports, truly, which of the two files is the target.
  predicate Reports(decision: Decision, intent: Intent, d: Disk, k: Swap) {
    match decision
    case Conclude => intent.phase == Phase.Restored <==> !Moved(d, k) && k.before != k.desired
    case Commit => Moved(d, k) || k.before == k.desired
    case Restore => !Moved(d, k) && k.before != k.desired
    case SwapBack => false
    case Refuse(_) => false
  }

  // What recovery decides on what it has seen is borne out by the disk.
  lemma DecisionSuits(d: Disk, k: Swap, targetDigest: Digest, candidateDigest: Digest, rely: Rely)
    requires Paired(d, k) && Safe(d, k) && d.journal.Holds? && Calm(d, k, rely)
    requires Seen(targetDigest, candidateDigest, d, k, rely)
    ensures Suits(Decide(d.journal.intent, targetDigest, candidateDigest), d, k, rely)
  {
  }

  // Undisturbed, it neither refuses nor swaps, and its verdict is that of the disk.
  lemma DecisionReports(d: Disk, k: Swap, targetDigest: Digest, candidateDigest: Digest, rely: Rely)
    requires Paired(d, k) && Safe(d, k) && Clean(d, k) && d.journal.Holds? && rely.Nothing?
    requires Seen(targetDigest, candidateDigest, d, k, rely)
    ensures !Refuses(d.journal.intent, targetDigest, candidateDigest)
    ensures Reports(Decide(d.journal.intent, targetDigest, candidateDigest), d.journal.intent, d, k)
  {
  }

  // What each decision does.
  method Act(run: Run, intent: Intent, cleanup: bool, targetDigest: Digest, candidateDigest: Digest, ghost k: Swap)
    returns (r: Outcome<Verdict>)
    requires run.Valid() && intent == IntentOf(k, intent.phase) && run.disk.journal == Holds(intent)
    requires Paired(run.disk, k) && Steady(run, k)
    modifies run
    ensures run.Goes(r.Crashed?, r.Exposed?) && run.writes == old(run.writes)
    ensures Keeps(run, k, r.Exposed?) && Named(run.disk, k)
    ensures !r.Cut() ==> (r.Raised? <==> Refuses(intent, targetDigest, candidateDigest))
    ensures r.Raised? ==> run.disk == old(run.disk)
    ensures !r.Cut() ==>
              (Moved(run.disk, k) <==>
                 Moved(old(run.disk), k) != (Decide(intent, targetDigest, candidateDigest) == Decision.SwapBack))
    ensures r.Done? ==> run.disk.journal == Left(k, r.value, cleanup)
    ensures r.Done? ==>
              (Agreed(run.disk, k) <==>
                 || Agreed(old(run.disk), k) || (cleanup && Parent(run.journal) == Parent(k.target))
                                        || Decide(intent, targetDigest, candidateDigest) == Decision.SwapBack)
    ensures !r.Exposed? && Calm(old(run.disk), k, run.rely) && Safe(old(run.disk), k)
            && Suits(Decide(intent, targetDigest, candidateDigest), old(run.disk), k, run.rely) ==>
              Safe(run.disk, k) && (!r.Cut() ==> Settled(run.disk, k))
    ensures Calm(old(run.disk), k, run.rely) ==> Calm(run.disk, k, run.rely)
    ensures !r.Exposed? && run.rely.Nothing? && Clean(old(run.disk), k)
            && Reports(Decide(intent, targetDigest, candidateDigest), intent, old(run.disk), k) ==>
              && Clean(run.disk, k) && Moved(run.disk, k) == Moved(old(run.disk), k)
              && (r.Done? ==> (r.value == Verdict.Committed <==> Moved(run.disk, k) || k.before == k.desired))
  {
    match Decide(intent, targetDigest, candidateDigest) {
      case Conclude =>
        r := Recorded(run, intent, cleanup, targetDigest, k);
      case Commit =>
        r := CommitAll(run, intent, cleanup, k);
      case Restore =>
        r := RecordRestored(run, intent, cleanup, k);
      case SwapBack =>
        r := SwapBack(run, intent, cleanup, k);
      case Refuse(error) =>
        r := Raised(error);
    }
  }

  // The case analysis of recovery, on the two digests it has read.
  method Resolve(run: Run, intent: Intent, cleanup: bool, targetDigest: Digest, candidateDigest: Digest, ghost k: Swap)
    returns (r: Outcome<Verdict>)
    requires run.Valid() && intent == IntentOf(k, intent.phase) && run.disk.journal == Holds(intent)
    requires Paired(run.disk, k) && Steady(run, k)
    modifies run
    ensures run.Goes(r.Crashed?, r.Exposed?) && run.writes == old(run.writes)
    ensures Keeps(run, k, r.Exposed?) && Named(run.disk, k)
    ensures !r.Cut() ==> (r.Raised? <==> Refuses(intent, targetDigest, candidateDigest))
    ensures r.Raised? ==> run.disk == old(run.disk)
    ensures !r.Cut() ==>
              (Moved(run.disk, k) <==>
                 Moved(old(run.disk), k) != (Decide(intent, targetDigest, candidateDigest) == Decision.SwapBack))
    // On digests that agree with the disk, the disk decides.
    ensures old(run.disk).store[k.replacement] == k.desired && !r.Cut()
            && (targetDigest, candidateDigest) == (At(old(run.disk), k.target), At(old(run.disk), k.candidate)) ==>
              && (r.Raised? <==> Fails(old(run.disk), k))
              && (Moved(run.disk, k) <==> Moved(old(run.disk), k) != SwapsBack(old(run.disk), k))
    ensures r.Done? ==> run.disk.journal == Left(k, r.value, cleanup)
    ensures r.Done? ==>
              (Agreed(run.disk, k) <==>
                 || Agreed(old(run.disk), k) || (cleanup && Parent(run.journal) == Parent(k.target))
                                        || Decide(intent, targetDigest, candidateDigest) == Decision.SwapBack)
    ensures !r.Exposed? && Calm(old(run.disk), k, run.rely) && Safe(old(run.disk), k)
            && Suits(Decide(intent, targetDigest, candidateDigest), old(run.disk), k, run.rely) ==>
              Safe(run.disk, k) && (!r.Cut() ==> Settled(run.disk, k))
    ensures Calm(old(run.disk), k, run.rely) ==> Calm(run.disk, k, run.rely)
    ensures !r.Exposed? && run.rely.Nothing? && Clean(old(run.disk), k)
            && Reports(Decide(intent, targetDigest, candidateDigest), intent, old(run.disk), k) ==>
              && Clean(run.disk, k) && Moved(run.disk, k) == Moved(old(run.disk), k)
              && (r.Done? ==> (r.value == Verdict.Committed <==> Moved(run.disk, k) || k.before == k.desired))
  {
    if run.disk.store[k.replacement] == k.desired {
      DecisionOnDisk(run.disk, k);
    }
    r := Act(run, intent, cleanup, targetDigest, candidateDigest, k);
  }

  // A power loss took one of the entries back to another file, or to none: the prepared
  // intent names inodes that are not there, now or after any further power loss.
  predicate Disowned(d: Disk, k: Swap) {
    var intent := IntentOf(k, Prepared);
    && d.journal == Holds(intent) && Parent(k.target) == Parent(k.candidate)
    && !IdentitiesLive(d.names, intent) && !IdentitiesLive(d.synced, intent)
  }

  // One digest.
  method Glance(run: Run, p: Path, ghost k: Swap) returns (r: Outcome<Digest>)
    requires run.Valid() && p in {k.target, k.candidate}
    requires (Paired(run.disk, k) && Steady(run, k)) || Disowned(run.disk, k)
    modifies run
    ensures run.Goes(r.Crashed?, r.Exposed?) && run.writes == old(run.writes) && !r.Raised?
    ensures run.disk.journal == old(run.disk).journal
    ensures if Disowned(old(run.disk), k) then Disowned(run.disk, k) else Stays(run, k, r.Cut(), r.Exposed?)
    ensures r.Done? ==> r.value == At(run.disk, p)
  {
    r := run.Inspect(p);
  }

  // The identities, in terms of the two files.
  method ConfirmIdentities(run: Run, intent: Intent, ghost k: Swap) returns (r: Outcome<()>)
    requires run.Valid() && intent == IntentOf(k, intent.phase) && run.disk.journal == Holds(intent)
    requires (Paired(run.disk, k) && Steady(run, k)) || Disowned(run.disk, k)
    modifies run
    ensures run.Goes(r.Crashed?, r.Exposed?) && run.writes == old(run.writes)
    ensures run.disk.journal == old(run.disk).journal
    ensures if Disowned(old(run.disk), k) then Disowned(run.disk, k) && !r.Done?
            else Stays(run, k, r.Cut(), r.Exposed?) && !r.Raised?
  {
    r := CheckIdentities(run, intent);
  }

  // The two digests, then the identities they are checked against.
  method Survey(run: Run, intent: Intent, ghost k: Swap) returns (r: Outcome<(Digest, Digest)>)
    requires run.Valid() && intent == IntentOf(k, intent.phase) && run.disk.journal == Holds(intent)
    requires (Paired(run.disk, k) && Steady(run, k)) || Disowned(run.disk, k)
    modifies run
    ensures run.Goes(r.Crashed?, r.Exposed?) && run.writes == old(run.writes)
    ensures run.disk.journal == old(run.disk).journal
    ensures Disowned(old(run.disk), k) ==> Disowned(run.disk, k) && !r.Done?
    ensures !Disowned(old(run.disk), k) ==>
              && Stays(run, k, r.Cut(), r.Exposed?) && !r.Raised?
              && (r.Done? && Calm(old(run.disk), k, run.rely) && old(run.disk).store[k.replacement] == k.desired ==>
                    Seen(r.value.0, r.value.1, run.disk, k, run.rely))
              && (r.Done? && run.rely.Nothing? ==> r.value == (At(run.disk, k.target), At(run.disk, k.candidate)))
  {
    var targetDigest :- Glance(run, intent.target, k);
    var candidateDigest :- Glance(run, intent.candidate, k);
    var _ :- ConfirmIdentities(run, intent, k);
    r := Done((targetDigest, candidateDigest));
  }

  // The same, with what the decision on them is worth.
  method Judge(run: Run, intent: Intent, ghost k: Swap) returns (r: Outcome<(Digest, Digest)>)
    requires run.Valid() && intent == IntentOf(k, intent.phase) && run.disk.journal == Holds(intent)
    requires (Paired(run.disk, k) && Steady(run, k)) || Disowned(run.disk, k)
    modifies run
    ensures run.Goes(r.Crashed?, r.Exposed?) && run.writes == old(run.writes)
    ensures run.disk.journal == old(run.disk).journal
    ensures if Disowned(old(run.disk), k) then Disowned(run.disk, k) && !r.Done?
            else Stays(run, k, r.Cut(), r.Exposed?) && !r.Raised?
    ensures !Disowned(old(run.disk), k) && r.Done? && Calm(old(run.disk), k, run.rely) && Safe(old(run.disk), k) ==>
              && Safe(run.disk, k) && Calm(run.disk, k, run.rely)
              && Suits(Decide(intent, r.value.0, r.value.1), run.disk, k, run.rely)
              && (run.rely.Nothing? && Clean(run.disk, k) ==>
                    Reports(Decide(intent, r.value.0, r.value.1), intent, run.disk, k))
    ensures !Disowned(old(run.disk), k) && r.Done? && run.rely.Nothing? ==>
              r.value == (At(run.disk, k.target), At(run.disk, k.candidate))
  {
    r := Survey(run, intent, k);
    if r.Done? && Calm(run.disk, k, run.rely) && Safe(run.disk, k)
      && Seen(r.value.0, r.value.1, run.disk, k, run.rely) {
      DecisionSuits(run.disk, k, r.value.0, r.value.1, run.rely);
      if run.rely.Nothing? && Clean(run.disk, k) {
        DecisionReports(run.disk, k, r.value.0, r.value.1, run.rely);
      }
    }
  }

  method RecoverExchange(run: Run, intent: Intent, cleanup: bool, ghost k: Swap) returns (r: Outcome<Verdict>)
    requires run.Valid() && intent == IntentOf(k, intent.phase) && run.disk.journal == Holds(intent)
    requires (Paired(run.disk, k) && Steady(run, k)) || Disowned(run.disk, k)
    modifies run
    ensures run.Goes(r.Crashed?, r.Exposed?) && run.writes == old(run.writes)
    ensures Disowned(old(run.disk), k) ==> Disowned(run.disk, k) && !r.Done?
    ensures !Disowned(old(run.disk), k) ==>
              && Keeps(run, k, r.Exposed?) && Named(run.disk, k)
              && (Calm(old(run.disk), k, run.rely) ==> Calm(run.disk, k, run.rely))
    ensures r.Done? ==> run.disk.journal == Left(k, r.value, cleanup)
    ensures r.Done? && (Agreed(old(run.disk), k) || (cleanup && Parent(run.journal) == Parent(k.target))) ==>
              Agreed(run.disk, k)
    // Undisturbed and uncut, the disk decides whether it fails, and whether it renames.
    ensures !Disowned(old(run.disk), k) && run.rely.Nothing? && !r.Cut()
            && old(run.disk).store[k.replacement] == k.desired ==>
              && (r.Raised? <==> Fails(old(run.disk), k))
              && (Moved(run.disk, k) <==> Moved(old(run.disk), k) != SwapsBack(old(run.disk), k))
    ensures r.Raised? ==> run.disk.journal == old(run.disk).journal
    ensures !r.Exposed? && !Disowned(old(run.disk), k) && Calm(old(run.disk), k, run.rely) && Safe(old(run.disk), k) ==>
              Safe(run.disk, k) && (!r.Cut() ==> Settled(run.disk, k))
    ensures !r.Exposed? && !Disowned(old(run.disk), k) && run.rely.Nothing? && Safe(old(run.disk), k)
              && Clean(old(run.disk), k) ==>
              && Clean(run.disk, k) && Moved(run.disk, k) == Moved(old(run.disk), k)
              && !r.Raised?
              && (r.Done? ==> (r.value == Verdict.Committed <==> Moved(run.disk, k) || k.before == k.desired))
              && (r.Done? ==>
                    (Agreed(run.disk, k) <==>
                       Agreed(old(run.disk), k) || (cleanup && Parent(run.journal) == Parent(k.target))))
  {
    var target, candidate := intent.target, intent.candidate;
    if Parent(target) != Parent(candidate) {
      return Raised(DifferentDirectories);
    }
    var seen :- Judge(run, intent, k);
    r := Resolve(run, intent, cleanup, seen.0, seen.1, k);
  }

  /* ---- where recovery can fail or lose an edit ---- */

  // The target leads to the latest content of the file it began with, or nobody
  // has (on balance) changed that file and it has been replaced.
  predicate EditKept(d: Disk, k: Swap) {
    k.original in d.store
    && (At(d, k.target) == Of(d.store[k.original])
        || (d.store[k.original] == k.before && At(d, k.target) == Of(k.desired)))
  }

  // The same, told from outside: the file that was the target still is, as last edited,
  // or the bytes of the candidate have replaced it and it is at the other path, in the
  // very state in which it was captured.
  predicate KeepsEdits(disk: Disk, final: Disk, target: Path, candidate: Path, captured: File)
    requires target in disk.names
  {
    var original := disk.names[target];
    && original in final.store
    && (At(final, target) == Of(final.store[original])
        || (&& final.store[original] == captured && At(final, candidate) == Of(captured)
            && At(final, target) != Absent && At(disk, candidate) != Absent
            && At(final, target).file.bytes == At(disk, candidate).file.bytes))
  }

  // An intent that recovery refuses, told from outside: the target has become neither of
  // the two states, or a file that was displaced as changed is back in its captured one.
  predicate RefusedFor(final: Disk, target: Path, candidate: Path, captured: File) {
    final.journal.Holds? &&
    if final.journal.intent.phase == Mismatch then Of(captured) in {At(final, target), At(final, candidate)}
    else At(final, target) !in {Of(captured), At(final, candidate)}
  }

  // Whether a late edit that writes `file` over the state `stored` is kept.
  predicate LateEditKept(stored: File, file: File, k: Swap) {
    stored != k.desired || k.before == k.desired || file in {k.before, k.desired}
  }

  // A recovery beside one edit of the target, which lands once the two digests are read.
  method RecoverBesideLateEdit(d: Disk, k: Swap, file: File, cleanup: bool, journal: Path)
    returns (r: Outcome<Verdict>, final: Disk)
    requires Paired(d, k) && !Moved(d, k) && d.store[k.replacement] == k.desired
    requires d.journal == Holds(IntentOf(k, Prepared))
    ensures !r.Cut() && k.original in final.store && final.store[k.original] == file
    ensures EditKept(final, k) <==> LateEditKept(d.store[k.original], file, k)
  {
    var reader := new Run(d, [], journal, {k.target, k.candidate}, Nothing);
    var seen := Survey(reader, IntentOf(k, Prepared), k);
    var edited := ApplyEdit(reader.disk, Through(k.target, k.original, file));
    var writer := new Run(edited, [], journal, {k.target, k.candidate}, Nothing);
    r := Resolve(writer, IntentOf(k, Prepared), cleanup, seen.value.0, seen.value.1, k);
    final := writer.disk;
  }

  // Before the rename, recovery keeps every such edit exactly unless an earlier edit
  // had already given the target the replacement's own content: then it renames,
  // and an edit in between ends up at the candidate path.
  lemma LateEditsKeptIff(stored: File, k: Swap)
    ensures (forall file :: LateEditKept(stored, file, k)) <==> (stored != k.desired || k.before == k.desired)
  {
    var file := k.before.(bytes := k.before.bytes + k.desired.bytes + "+");
    assert |file.bytes| > |k.before.bytes| && |file.bytes| > |k.desired.bytes|;
    assert LateEditKept(stored, file, k) ==> stored != k.desired || k.before == k.desired;
  }

  // The intent is written before the directory is synced, and a power loss in between
  // may take the two entries back. The identity check then fails exactly unless the
  // entries that were durable lead to the same two files, in either order.
  lemma DisownedIff(d: Disk, k: Swap)
    requires Parent(k.target) == Parent(k.candidate)
    requires Placed(d.names, k, false) && d.journal == Holds(IntentOf(k, Prepared))
    ensures (exists kept :: Disowned(LosePower(d, kept), k)) <==> !Backed(d, k)
  {
    if !Backed(d, k) {
      assert Disowned(LosePower(d, false), k);
    }
  }

  // Undisturbed recovery after such a power loss fails in exactly these cases.
  method RecoverAfterPowerLoss(d: Disk, kept: bool, k: Swap, cleanup: bool, journal: Path) returns (r: Outcome<Verdict>)
    requires Paired(d, k) && !Moved(d, k) && d.journal == Holds(IntentOf(k, Prepared))
    requires d.store[k.original] == k.before && d.store[k.replacement] == k.desired
    ensures !r.Cut()
    ensures r.Raised? <==> !kept && !Backed(d, k)
  {
    var run := new Run(LosePower(d, kept), [], journal, {k.target, k.candidate}, Nothing);
    r := RecoverExchange(run, IntentOf(k, Prepared), cleanup, k);
  }

  // No recovery syncs the directory before it records a commit. A process killed between
  // the rename and its sync, a recovery that keeps its journal, and a power loss: the
  // next undisturbed recovery fails exactly if the rename had not been durable.
  method RecoverTakenBack(d: Disk, ghost k: Swap, cleanup: bool, journal: Path) returns (r: Outcome<Verdict>)
    requires Paired(d, k) && Backed(d, k) && Moved(d, k)
    requires d.journal == Holds(IntentOf(k, Prepared)) && k.before != k.desired
    requires d.store[k.original] == k.before && d.store[k.replacement] == k.desired
    ensures !r.Cut()
    ensures r.Raised? <==> !Agreed(d, k)
  {
    var intent := d.journal.intent;
    var first := new Run(d, [], journal, {intent.target, intent.candidate}, Nothing);
    var verdict := RecoverExchange(first, intent, false, k);
    var second := new Run(LosePower(first.disk, false), [], journal, {intent.target, intent.candidate}, Nothing);
    r := RecoverExchange(second, first.disk.journal.intent, cleanup, k);
  }
}
