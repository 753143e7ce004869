/** `recover`, and whole histories: an operation cut short anywhere, then recoveries
    that may themselves be cut short anywhere, any number of times. */
module Recovery {
  import opened Common
  import opened Storage
  import E = ExchangeProtocol
  import C = CreateProtocol
  import D = DeleteProtocol

  datatype Job = ExchangeJob(swap: E.Swap) | CreateJob(creation: C.Creation) | DeleteJob(deletion: D.Deletion)

  // The paths to watch for a job.
  predicate Watches(watched: set<Path>, d: Disk, job: Job) {
    match job
    case ExchangeJob(k) => watched == {k.target, k.candidate}
    case CreateJob(k) => watched == {k.target, k.candidate}
    case DeleteJob(k) => D.Watches(watched, d, k)
  }

  // What holds whenever no process is running: the files are there, each at one of its
  // paths, and an intent on disk is the one of this job.
  predicate AtRest(d: Disk, job: Job) {
    match job
    case ExchangeJob(k) => E.Paired(d, k) && E.Named(d, k)
    case CreateJob(k) => C.Paired(d, k) && C.Named(d, k)
    case DeleteJob(k) => D.Tracked(d, k) && D.Named(d, k)
  }

  // The recorded phase claims no more than is true, and nothing has been lost.
  predicate Safe(d: Disk, job: Job)
    requires AtRest(d, job)
  {
    match job
    case ExchangeJob(k) => E.Safe(d, k)
    case CreateJob(k) => C.PhaseFits(d, k)
    case DeleteJob(k) => D.Safe(d, k)
  }

  // The files would be there after a power loss as well.
  predicate Backed(d: Disk, job: Job) {
    match job
    case ExchangeJob(k) => E.Backed(d, k)
    case CreateJob(k) => true
    case DeleteJob(k) => D.Backed(d, k)
  }

  // The entries of the job are durable.
  predicate Durable(d: Disk, job: Job) {
    match job
    case ExchangeJob(k) => E.Agreed(d, k)
    case CreateJob(k) => C.Agreed(d, k)
    case DeleteJob(k) => D.Agreed(d, k)
  }

  // Removing a journal beside the target makes the entries durable as well.
  predicate Beside(journal: Path, job: Job) {
    match job
    case ExchangeJob(k) => Parent(journal) == Parent(k.target)
    case CreateJob(k) => Parent(journal) == Parent(k.target)
    case DeleteJob(k) => Parent(journal) == Parent(k.target)
  }

  // Whether a recovery from this disk ends with durable entries.
  predicate Lasts(d: Disk, journal: Path, cleanup: bool, job: Job) {
    Durable(d, job) || (cleanup && Beside(journal, job) && (job.DeleteJob? ==> Backed(d, job)))
  }

  // The other processes only do what the operation can survive.
  predicate Bearable(d: Disk, job: Job, rely: Rely) {
    match job
    case ExchangeJob(k) => E.Calm(d, k, rely)
    case CreateJob(k) => true
    case DeleteJob(k) => D.TargetOnly(rely, k)
  }

  // No other process has written, or will write, the files of this job.
  predicate Undisturbed(d: Disk, job: Job, rely: Rely)
    requires AtRest(d, job)
  {
    rely.Nothing? &&
    match job
    case ExchangeJob(k) => E.Safe(d, k) && E.Clean(d, k)
    case CreateJob(k) => d.store[k.inode] == k.desired
    case DeleteJob(k) => D.Safe(d, k) && D.Clean(d, k)
  }

  // The two files of an exchange are whole, wherever they are.
  predicate Whole(d: Disk, job: Job)
    requires AtRest(d, job)
  {
    match job
    case ExchangeJob(k) => d.store[k.original] == k.before && d.store[k.replacement] == k.desired
    case CreateJob(k) => d.store[k.inode] == k.desired
    case DeleteJob(k) => true
  }

  // The one rename that decides the operation has happened.
  predicate Renamed(d: Disk, job: Job) {
    match job
    case ExchangeJob(k) => E.Moved(d, k) || k.before == k.desired
    case CreateJob(k) => C.Moved(d, k)
    case DeleteJob(k) => D.Now(d, k) != D.Present
  }

  // No edit has been lost and nothing is half done.
  predicate Sound(d: Disk, job: Job)
    requires AtRest(d, job)
  {
    match job
    case ExchangeJob(k) => E.Settled(d, k)
    case CreateJob(k) => true
    case DeleteJob(k) => !d.journal.Holds? ==>
      D.Now(d, k) == D.Present || (D.Now(d, k) == D.Gone && d.store[k.inode] == D.Remains(k))
  }

  // What a recovery has to answer for: it is not exposed, or the job cannot be harmed by that.
  predicate Answerable(exposed: bool, job: Job) {
    !exposed || job.CreateJob?
  }

  // How an undisturbed recovery ends: only a journal that is being removed is refused,
  // and a verdict is true.
  predicate Reports(r: Outcome<Verdict>, d: Disk, job: Job) {
    && (r.Raised? ==> r.error == IntentUnreadable && !d.journal.Holds?)
    && (r.Done? ==> (r.value == Verdict.Committed <==> Renamed(d, job)))
  }

  // What recovery refuses beside no other writer.
  predicate Fails(d: Disk, job: Job)
    requires AtRest(d, job)
  {
    match job
    case ExchangeJob(k) => E.Fails(d, k)
    case CreateJob(k) => d.journal.Holds? && d.store[k.inode] != k.desired
    case DeleteJob(k) => D.Fails(d, k)
  }

  // What any number of recoveries keep, from the disk `d` on, and how the last one ends.
  // Only a power loss that a run is exposed to can take the files from their places, and
  // only if they would not have been there after it.
  predicate Kept(d: Disk, d': Disk, r: Outcome<Verdict>, exposed: bool, job: Job, rely: Rely)
    requires AtRest(d, job)
  {
    && Bearable(d', job, rely)
    && (Backed(d, job) ==> Backed(d', job))
    && (!exposed || Backed(d, job) ==> AtRest(d', job) && Left(d, d', r, exposed, job, rely))
  }

  predicate Left(d: Disk, d': Disk, r: Outcome<Verdict>, exposed: bool, job: Job, rely: Rely)
    requires AtRest(d, job) && AtRest(d', job)
  {
    && (Safe(d, job) && !exposed ==> Safe(d', job) && (!r.Cut() ==> Sound(d', job)))
    && (Safe(d, job) && !exposed && rely.Nothing? && r.Raised? && d'.journal.Holds? ==> Fails(d', job))
    && (Whole(d, job) && rely.Nothing? ==> Whole(d', job))
    && (Undisturbed(d, job, rely) && Answerable(exposed, job) ==> Undisturbed(d', job, rely) && Reports(r, d', job))
    && (Undisturbed(d, job, rely) && !exposed ==> (Renamed(d', job) <==> Renamed(d, job)))
  }

  // The disk `d'` is what a stretch that only reads leaves, cut or not.
  predicate Read(d: Disk, d': Disk, cut: bool, exposed: bool, job: Job, rely: Rely) {
    Elapsed(d, d', rely) || (cut && Lost(d, d', rely) && (exposed || Durable(d, job)))
  }

  lemma ReadKeepsExchange(d: Disk, d': Disk, r: Outcome<Verdict>, job: Job, rely: Rely)
    requires job.ExchangeJob? && AtRest(d, job) && Bearable(d, job, rely) && Read(d, d', r.Cut(), r.Exposed?, job, rely)
    requires r.Cut() || (r == Raised(IntentUnreadable) && !d.journal.Holds?)
    ensures Kept(d, d', r, r.Exposed?, job, rely)
  {
  }

  lemma ReadKeepsCreate(d: Disk, d': Disk, r: Outcome<Verdict>, job: Job, rely: Rely)
    requires job.CreateJob? && AtRest(d, job) && Read(d, d', r.Cut(), r.Exposed?, job, rely)
    requires r.Cut() || (r == Raised(IntentUnreadable) && !d.journal.Holds?)
    ensures Kept(d, d', r, r.Exposed?, job, rely)
  {
  }

  lemma ReadKeepsDelete(d: Disk, d': Disk, r: Outcome<Verdict>, job: Job, rely: Rely)
    requires job.DeleteJob? && AtRest(d, job) && Bearable(d, job, rely) && Read(d, d', r.Cut(), r.Exposed?, job, rely)
    requires r.Cut() || (r == Raised(IntentUnreadable) && !d.journal.Holds?)
    ensures Kept(d, d', r, r.Exposed?, job, rely)
  {
  }

  // read_intent
  method ReadIntent(run: Run, ghost job: Job) returns (r: Outcome<Intent>)
    requires run.Valid() && Watches(run.watched, run.disk, job) && (Durable(run.disk, job) || run.inherited)
    requires AtRest(run.disk, job) && Bearable(run.disk, job, run.rely)
    modifies run
    ensures run.Goes(r.Crashed?, r.Exposed?) && run.disk.journal == old(run.disk).journal
    ensures !r.Cut() ==>
              r == if run.disk.journal.Holds? then Done(run.disk.journal.intent) else Raised(IntentUnreadable)
    ensures Watches(run.watched, run.disk, job)
    ensures r.Done? ==>
              && (Durable(run.disk, job) <==> Durable(old(run.disk), job))
                   && (Backed(run.disk, job) <==> Backed(old(run.disk), job))
              && run.inherited == old(run.inherited)
    ensures Kept(old(run.disk), run.disk, if r.Raised? then Raised(r.error) else Crashed, r.Exposed?, job, run.rely)
  {
    r := run.ReadIntent();
    ghost var end := if r.Raised? then Raised(r.error) else if r.Exposed? then Exposed else Crashed;
    ghost var before := old(run.disk);
    match job {
      case ExchangeJob(_) => ReadKeepsExchange(before, run.disk, end, job, run.rely);
      case CreateJob(_) => ReadKeepsCreate(before, run.disk, end, job, run.rely);
      case DeleteJob(_) => ReadKeepsDelete(before, run.disk, end, job, run.rely);
    }
  }

  // recover_exchange, which serves all three operations
  method Recover(run: Run, cleanup: bool, ghost job: Job) returns (r: Outcome<Verdict>)
    requires run.Valid() && Watches(run.watched, run.disk, job) && (Durable(run.disk, job) || run.inherited)
    requires AtRest(run.disk, job) && Bearable(run.disk, job, run.rely)
    modifies run
    ensures run.Goes(r.Crashed?, r.Exposed?) && Watches(run.watched, run.disk, job)
    ensures Kept(old(run.disk), run.disk, r, r.Exposed?, job, run.rely)
    ensures r.Done? && cleanup ==> run.disk.journal == NoJournal
    ensures r.Done? && Lasts(old(run.disk), run.journal, cleanup, job) ==> Durable(run.disk, job)
    ensures r.Raised? && Undisturbed(old(run.disk), job, run.rely) ==> !old(run.disk).journal.Holds?
  {
    var intent :- ReadIntent(run, job);
    ghost var read := run.disk;
    r := Serve(run, intent, cleanup, job);
    KeptTransitive(old(run.disk), read, run.disk, false, r, r.Exposed?, job, run.rely);
  }

  lemma KeptTransitive(d: Disk, d': Disk, d'': Disk, earlier: bool, r: Outcome<Verdict>, exposed: bool, job: Job,
                       rely: Rely)
    requires AtRest(d, job) && Kept(d, d', Crashed, earlier, job, rely)
    requires (earlier ==> Backed(d, job)) && Kept(d', d'', r, exposed, job, rely)
    ensures Kept(d, d'', r, earlier || exposed, job, rely)
  {
  }

  // The dispatch on the operation.
  method Serve(run: Run, intent: Intent, cleanup: bool, ghost job: Job) returns (r: Outcome<Verdict>)
    requires run.Valid() && Watches(run.watched, run.disk, job) && (Durable(run.disk, job) || run.inherited)
    requires AtRest(run.disk, job) && Bearable(run.disk, job, run.rely) && run.disk.journal == Holds(intent)
    modifies run
    ensures run.Goes(r.Crashed?, r.Exposed?) && Watches(run.watched, run.disk, job)
    ensures Kept(old(run.disk), run.disk, r, r.Exposed?, job, run.rely)
    ensures r.Done? && cleanup ==> run.disk.journal == NoJournal
    ensures r.Done? && Lasts(old(run.disk), run.journal, cleanup, job) ==> Durable(run.disk, job)
    ensures r.Raised? ==> !Undisturbed(old(run.disk), job, run.rely)
  {
    if intent.operation == Operation.Create {
      r := ServeCreate(run, intent, cleanup, job);
    } else if intent.operation == Operation.Delete {
      r := ServeDelete(run, intent, cleanup, job);
    } else {
      r := ServeExchange(run, intent, cleanup, job);
    }
  }

  method ServeExchange(run: Run, intent: Intent, cleanup: bool, ghost job: Job) returns (r: Outcome<Verdict>)
    requires run.Valid() && Watches(run.watched, run.disk, job) && (Durable(run.disk, job) || run.inherited)
    requires job.ExchangeJob? && AtRest(run.disk, job) && Bearable(run.disk, job, run.rely)
    requires run.disk.journal == Holds(intent)
    modifies run
    ensures run.Goes(r.Crashed?, r.Exposed?) && Watches(run.watched, run.disk, job)
    ensures Kept(old(run.disk), run.disk, r, r.Exposed?, job, run.rely)
    ensures r.Done? && cleanup ==> run.disk.journal == NoJournal
    ensures r.Done? && Lasts(old(run.disk), run.journal, cleanup, job) ==> Durable(run.disk, job)
    ensures r.Raised? ==> !Undisturbed(old(run.disk), job, run.rely)
  {
    r := E.RecoverExchange(run, intent, cleanup, job.swap);
  }

  method ServeCreate(run: Run, intent: Intent, cleanup: bool, ghost job: Job) returns (r: Outcome<Verdict>)
    requires run.Valid() && Watches(run.watched, run.disk, job) && (Durable(run.disk, job) || run.inherited)
    requires job.CreateJob? && AtRest(run.disk, job) && Bearable(run.disk, job, run.rely)
    requires run.disk.journal == Holds(intent)
    modifies run
    ensures run.Goes(r.Crashed?, r.Exposed?) && Watches(run.watched, run.disk, job)
    ensures Kept(old(run.disk), run.disk, r, r.Exposed?, job, run.rely)
    ensures r.Done? && cleanup ==> run.disk.journal == NoJournal
    ensures r.Done? && Lasts(old(run.disk), run.journal, cleanup, job) ==> Durable(run.disk, job)
    ensures r.Raised? ==> !Undisturbed(old(run.disk), job, run.rely)
  {
    r := C.RecoverCreate(run, intent, cleanup, job.creation);
  }

  method ServeDelete(run: Run, intent: Intent, cleanup: bool, ghost job: Job) returns (r: Outcome<Verdict>)
    requires run.Valid() && Watches(run.watched, run.disk, job) && (Durable(run.disk, job) || run.inherited)
    requires job.DeleteJob? && AtRest(run.disk, job) && Bearable(run.disk, job, run.rely)
    requires run.disk.journal == Holds(intent)
    modifies run
    ensures run.Goes(r.Crashed?, r.Exposed?) && Watches(run.watched, run.disk, job)
    ensures Kept(old(run.disk), run.disk, r, r.Exposed?, job, run.rely)
    ensures r.Done? && cleanup ==> run.disk.journal == NoJournal
    ensures r.Done? && Lasts(old(run.disk), run.journal, cleanup, job) ==> Durable(run.disk, job)
    ensures r.Raised? ==> !Undisturbed(old(run.disk), job, run.rely)
  {
    r := D.RecoverDelete(run, intent, cleanup, job.deletion);
  }

  // Edits of the target that avoid the bytes of the candidate, which the target had not
  // to begin with.
  predicate DistinctBytes(d: Disk, target: Path, candidate: Path, rely: Rely) {
    && At(d, target) != Absent && At(d, candidate) != Absent
    && At(d, target).file.bytes != At(d, candidate).file.bytes
    && rely == Only(target, d.names[target], Some(At(d, candidate).file.bytes))
  }

  // One schedule for each process that is started.
  predicate AllObey(schedules: seq<seq<Moment>>, rely: Rely) {
    forall s | s in schedules :: Obeys(s, rely)
  }

  // Some process is killed.
  predicate AnyKilled(schedules: seq<seq<Moment>>) {
    exists s | s in schedules :: !Unkilled(s)
  }

  // A process loses power after an earlier one was killed.
  predicate KilledThenLost(schedules: seq<seq<Moment>>) {
    exists i | 0 <= i < |schedules| :: !Powered(schedules[i]) && AnyKilled(schedules[..i])
  }

  // Some process is neither killed nor loses power.
  predicate AnyUncut(schedules: seq<seq<Moment>>) {
    exists s | s in schedules :: Uncut(s)
  }

  // Some process loses power.
  predicate AnyLost(schedules: seq<seq<Moment>>) {
    exists s | s in schedules :: !Powered(s)
  }

  // Recoveries, each a new process on the disk the last one left, until one of them is
  // not cut short; `first` is the schedule of the process before them. `exposed` tells
  // whether one of them was cut by a power loss while entries were unsynced that it had
  // not changed itself: a killed process had left them, or they were `loose` from the
  // start. Unless the files would be there after that, nothing is done from then on.
  method RecoverUntilDone(disk: Disk, journal: Path, watched: set<Path>, backed: bool, ghost loose: bool,
                          ghost first: seq<Moment>, schedules: seq<seq<Moment>>, ghost rely: Rely, ghost job: Job)
    returns (r: Outcome<Verdict>, final: Disk, exposed: bool)
    requires AllObey(schedules, rely) && AtRest(disk, job) && Bearable(disk, job, rely) && Watches(watched, disk, job)
    requires Unsynced(disk, watched) ==> loose || !Unkilled(first)
    requires backed ==> Backed(disk, job)
    ensures exposed ==> KilledThenLost([first] + schedules) || (loose && AnyLost(schedules))
    ensures AnyUncut(schedules) && (backed || !exposed) ==> !r.Cut()
    ensures !r.Cut() ==> backed || !exposed
    ensures Kept(disk, final, r, exposed, job, rely)
    ensures r.Done? ==>
             final.journal == NoJournal && (Beside(journal, job) && (job.DeleteJob? ==> backed) ==> Durable(final, job))
  {
    r, final, exposed := Crashed, disk, false;
    var i := 0;
    while i < |schedules| && r.Cut() && (backed || !exposed)
      invariant 0 <= i <= |schedules|
      invariant r.Cut() && Unsynced(final, watched) ==> loose || AnyKilled([first] + schedules[..i])
      invariant exposed ==> KilledThenLost([first] + schedules) || (loose && AnyLost(schedules))
      invariant r.Cut() ==> !AnyUncut(schedules[..i])
      invariant !r.Cut() ==> backed || !exposed
      invariant Kept(disk, final, r, exposed, job, rely) && Watches(watched, final, job)
      invariant r.Done? ==>
             final.journal == NoJournal && (Beside(journal, job) && (job.DeleteJob? ==> backed) ==> Durable(final, job))
    {
      ghost var was, so := final, exposed;
      assert schedules[i] in schedules;
      r, final := RecoverOnce(final, journal, watched, schedules[i], rely, job);
      OneMore(first, schedules, i);
      KeptTransitive(disk, was, final, so, r, r.Exposed?, job, rely);
      exposed := exposed || r.Exposed?;
      i := i + 1;
    }
    assert schedules[..|schedules|] == schedules;
  }

  // One recovery, as a process of its own.
  method RecoverOnce(disk: Disk, journal: Path, watched: set<Path>, schedule: seq<Moment>, ghost rely: Rely,
                     ghost job: Job)
    returns (r: Outcome<Verdict>, final: Disk)
    requires Obeys(schedule, rely) && AtRest(disk, job) && Bearable(disk, job, rely) && Watches(watched, disk, job)
    ensures r.Exposed? ==> Unsynced(disk, watched) && !Powered(schedule)
    ensures r.Cut() ==> !Uncut(schedule)
    ensures r.Cut() && Unsynced(final, watched) ==> !Unkilled(schedule)
    ensures Kept(disk, final, r, r.Exposed?, job, rely) && Watches(watched, final, job)
    ensures r.Done? ==> final.journal == NoJournal && (Lasts(disk, journal, true, job) ==> Durable(final, job))
  {
    var run := new Run(disk, schedule, journal, watched, rely);
    DurableOrUnsynced(disk, watched, job);
    r := Recover(run, true, job);
    final := run.disk;
  }

  lemma DurableOrUnsynced(d: Disk, watched: set<Path>, job: Job)
    requires AtRest(d, job) && Watches(watched, d, job)
    ensures Durable(d, job) || Unsynced(d, watched)
  {
    if job.DeleteJob? && !D.Backed(d, job.deletion) {
      var k := job.deletion;
      if q :| q in d.synced && q != k.target && q != k.recovery && d.synced[q] == k.inode {
        assert q in watched && Entry(d.names, q) != Entry(d.synced, q);
      }
    }
  }

  // One more process among the earlier ones.
  lemma OneMore(first: seq<Moment>, schedules: seq<seq<Moment>>, i: nat)
    requires i < |schedules|
    ensures AnyKilled([first] + schedules[..i]) && !Powered(schedules[i]) ==> KilledThenLost([first] + schedules)
    ensures AnyKilled([first] + schedules[..i]) || !Unkilled(schedules[i]) ==> AnyKilled([first] + schedules[..i + 1])
    ensures AnyUncut(schedules[..i + 1]) ==> AnyUncut(schedules[..i]) || Uncut(schedules[i])
  {
    var all := [first] + schedules;
    assert all[..i + 1] == [first] + schedules[..i] && all[i + 1] == schedules[i];
    assert [first] + schedules[..i + 1] == [first] + schedules[..i] + [schedules[i]];
  }

  /* ---- exchange: whole histories ---- */

  // A power loss takes back unsynced entries that the run had not changed itself: those
  // that a killed process left, or those that the first process found.
  predicate TakenBack(first: seq<Moment>, rest: seq<seq<Moment>>, sheltered: bool) {
    KilledThenLost([first] + rest) || (!sheltered && !Powered(first))
  }

  // An exchange, and the recoveries that follow it if it was cut short.
  method ExchangeAndRecover(disk: Disk, target: Path, candidate: Path, claim: E.Claim, journal: Path,
                            keepMetadata: bool,
                            first: seq<Moment>, rest: seq<seq<Moment>>, ghost beside: Rely, ghost later: Rely)
    returns (r: Outcome<Verdict>, final: Disk, begun: bool, exposed: bool, ghost k: E.Swap)
    requires target != candidate
    requires beside in {Nothing, later} || (target in disk.names && beside == Only(target, disk.names[target], None))
    requires later.Nothing? || (beside == later && DistinctBytes(disk, target, candidate, later))
    requires Obeys(first, beside) && AllObey(rest, later)
    ensures exposed ==>
              begun && !Uncut(first) && TakenBack(first, rest, E.Sheltered(disk, target, candidate, journal))
    ensures !begun ==> !r.Done? && E.Unbegun(disk, final, target, candidate, beside)
    ensures begun ==>
              && k.target == target && k.candidate == candidate
              && Entry(disk.names, target) == Some(k.original) && Entry(disk.names, candidate) == Some(k.replacement)
              && k.original in disk.store && k.replacement in disk.store && E.Accepts(claim, k.before)
    ensures begun && (!exposed || E.Sheltered(disk, target, candidate, journal)) ==>
              && AtRest(final, ExchangeJob(k)) && (AnyUncut(rest) ==> !r.Cut())
              && k.desired.bytes == disk.store[k.replacement].bytes
              && (beside.Nothing? && later.Nothing? ==>
                    && Whole(final, ExchangeJob(k)) && disk.store[k.original] == k.before
                    && k.desired.bytes == disk.store[k.replacement].bytes
                    && k.desired.metadata == (if keepMetadata then disk.store[k.replacement] else k.before).metadata)
    ensures begun && !exposed ==>
              && E.Safe(final, k) && (!r.Cut() ==> E.Settled(final, k))
              && (beside.Nothing? && later.Nothing? ==> Reports(r, final, ExchangeJob(k)))
              && (later.Nothing? && !r.Cut() && final.journal.Holds? ==> r.Raised? && E.Fails(final, k))
    ensures !r.Cut() ==> !exposed || E.Sheltered(disk, target, candidate, journal)
    ensures r.Done? ==> begun && final.journal == NoJournal && (Beside(journal, ExchangeJob(k)) ==> E.Agreed(final, k))
    ensures Uncut(first) && beside.Nothing? ==>
              (r == Done(Verdict.Committed) <==> E.Ready(disk, target, candidate, claim, journal))
              && (r.Done? ==> E.Moved(final, k) && E.Agreed(final, k))
  {
    var run := new Run(disk, first, journal, {target, candidate}, beside);
    exposed := false;
    var outcome;
    outcome, k, begun := E.Exchange(run, target, candidate, claim, keepMetadata);
    final := run.disk;
    if outcome.Done? {
      r := Done(Verdict.Committed);
    } else if outcome.Raised? {
      r := Raised(outcome.error);
    } else if begun && outcome.Crashed? {
      var backed := E.Sheltered(disk, target, candidate, journal);
      r, final, exposed :=
        RecoverUntilDone(final, journal, {target, candidate}, backed, false, first, rest, later, ExchangeJob(k));
    } else {
      r, exposed := Crashed, begun;
    }
  }

  // With no other writer, whatever cuts an exchange and its recoveries short, each file
  // is wholly at one of the two paths, unless a power loss took back entries that were
  // not durable when the exchange began. Unless a power loss follows a kill, the outcome
  // is reported truly, and recovery fails only where the journal is being removed.
  method ExchangeAlone(disk: Disk, target: Path, candidate: Path, claim: E.Claim, journal: Path, keepMetadata: bool,
                       first: seq<Moment>, rest: seq<seq<Moment>>)
    returns (r: Outcome<Verdict>, final: Disk, begun: bool, exposed: bool)
    requires target != candidate && Obeys(first, Nothing) && AllObey(rest, Nothing)
    ensures exposed ==> TakenBack(first, rest, E.Sheltered(disk, target, candidate, journal))
    ensures !begun ==> !r.Done? && E.Unbegun(disk, final, target, candidate, Nothing)
    ensures begun && (!exposed || E.Sheltered(disk, target, candidate, journal)) ==>
              && At(disk, target) != Absent && At(disk, candidate) != Absent
              && (if claim.StateClaim? then At(disk, target).file == claim.file
                  else At(disk, target).file.bytes == claim.bytes)
              && var before, offered := At(disk, target), At(disk, candidate).file;
                 var after := Of(File(offered.bytes, if keepMetadata then offered.metadata else before.file.metadata));
                 && (At(final, target), At(final, candidate)) in {(before, after), (after, before)}
                 && (r.Done? && !exposed ==> At(final, target) == if r.value == Verdict.Committed then after
                     else before)
                 && (r.Raised? && !exposed ==> r.error == IntentUnreadable && !final.journal.Holds?)
                 && (AnyUncut(rest) ==> !r.Cut())
    ensures r.Done? ==>
             final.journal == NoJournal && (Parent(journal) == Parent(target) ==> !Unsynced(final, {target, candidate}))
    // Uncut, it succeeds exactly if target and candidate are two files of one directory with
    // no other links, the target is as claimed, and the journal is empty and not below it.
    ensures Uncut(first) ==>
              (r == Done(Verdict.Committed) <==>
                 && At(disk, target) != Absent && At(disk, candidate) != Absent
                 && Parent(target) == Parent(candidate) && !(target <= journal)
                 && disk.names[target] != disk.names[candidate]
                 && (forall p | p in disk.names && disk.names[p] in {disk.names[target], disk.names[candidate]} ::
                       p in {target, candidate})
                 && (if claim.StateClaim? then At(disk, target).file == claim.file
                     else At(disk, target).file.bytes == claim.bytes)
                 && (disk.journal == NoJournal || (disk.journal == NoIntent && disk.litter == 0)))
              && (r.Done? ==> begun && !exposed && !Unsynced(final, {target, candidate}))
  {
    ghost var k;
    r, final, begun, exposed,
        k := ExchangeAndRecover(disk, target, candidate, claim, journal, keepMetadata, first, rest, Nothing, Nothing);
  }

  // In-place edits of the target, through the target path and of any content, at any
  // moments of `exchange` are never lost if recovery then runs undisturbed. An intent is
  // refused only if the target has become neither of the two states it names, or such an
  // edit put back a displaced file's earlier state.
  method ExchangeBesideEdits(disk: Disk, target: Path, candidate: Path, claim: E.Claim, journal: Path,
                             keepMetadata: bool,
                             first: seq<Moment>, rest: seq<seq<Moment>>)
    returns (r: Outcome<Verdict>, final: Disk, begun: bool, exposed: bool, ghost captured: File)
    requires target != candidate && target in disk.names
    requires Obeys(first, Only(target, disk.names[target], None)) && AllObey(rest, Nothing)
    ensures exposed ==> !Uncut(first) && TakenBack(first, rest, E.Sheltered(disk, target, candidate, journal))
    ensures !begun ==> !r.Done? && E.Unbegun(disk, final, target, candidate, Only(target, disk.names[target], None))
    ensures begun && !r.Cut() && !exposed ==>
              && E.Accepts(claim, captured) && E.KeepsEdits(disk, final, target, candidate, captured)
              && (final.journal.Holds? ==> r.Raised? && E.RefusedFor(final, target, candidate, captured))
    ensures begun && !exposed && AnyUncut(rest) ==> !r.Cut()
  {
    ghost var k;
    r, final, begun, exposed,
        k := ExchangeAndRecover(disk, target, candidate, claim, journal, keepMetadata, first, rest,
                                                      Only(target, disk.names[target], None), Nothing);
    captured := k.before;
  }

  // The same with edits during the recoveries as well, if no edit writes the bytes
  // of the replacement and the target did not have them to begin with.
  method ExchangeAndRecoverBesideEdits(disk: Disk, target: Path, candidate: Path, claim: E.Claim, journal: Path,
                                       keepMetadata: bool, first: seq<Moment>, rest: seq<seq<Moment>>,
                                         ghost beside: Rely)
    returns (r: Outcome<Verdict>, final: Disk, begun: bool, exposed: bool, ghost captured: File)
    requires target != candidate
    requires DistinctBytes(disk, target, candidate, beside) && Obeys(first, beside) && AllObey(rest, beside)
    ensures exposed ==> !Uncut(first) && TakenBack(first, rest, E.Sheltered(disk, target, candidate, journal))
    ensures !begun ==> !r.Done? && E.Unbegun(disk, final, target, candidate, beside)
    ensures begun && !r.Cut() && !exposed ==>
              E.Accepts(claim, captured) && E.KeepsEdits(disk, final, target, candidate, captured)
    ensures begun && !exposed && AnyUncut(rest) ==> !r.Cut()
  {
    ghost var k;
    r, final, begun, exposed,
        k := ExchangeAndRecover(disk, target, candidate, claim, journal, keepMetadata, first, rest, beside, beside);
    captured := k.before;
  }

  /* ---- create and delete: whole histories ---- */

  // With no other writer, whatever cuts a creation and its recoveries short, the new
  // file is at exactly one of the two paths; a verdict tells which, and recovery fails
  // only where the journal is being removed.
  method CreateAlone(disk: Disk, target: Path, candidate: Path, journal: Path, first: seq<Moment>,
                     rest: seq<seq<Moment>>)
    returns (r: Outcome<Verdict>, final: Disk, begun: bool)
    requires target != candidate && Obeys(first, Nothing) && AllObey(rest, Nothing)
    ensures !begun ==> !r.Done? && C.Unbegun(disk, final, target, candidate, Nothing)
    ensures begun ==>
              && var file := At(disk, candidate);
              && file != Absent
              && (At(final, target), At(final, candidate)) in {(file, Absent), (Absent, file)}
              && (r.Done? ==> (r.value == Verdict.Committed <==> At(final, target) == file))
              && (r.Raised? ==> r.error == IntentUnreadable && !final.journal.Holds?)
              && (AnyUncut(rest) ==> !r.Cut())
    ensures r.Done? ==>
             final.journal == NoJournal && (Parent(journal) == Parent(target) ==> !Unsynced(final, {target, candidate}))
    // Uncut, it succeeds exactly if the candidate has no other link, the target of the same
    // directory is free, and the journal is empty.
    ensures Uncut(first) ==>
              (r == Done(Verdict.Committed) <==>
                 && At(disk, candidate) != Absent && target !in disk.names
                 && Parent(target) == Parent(candidate)
                 && (forall p | p in disk.names && disk.names[p] == disk.names[candidate] :: p == candidate)
                 && (disk.journal == NoJournal || (disk.journal == NoIntent && disk.litter == 0)))
              && (r.Done? ==> begun && !Unsynced(final, {target, candidate}))
  {
    var run := new Run(disk, first, journal, {target, candidate}, Nothing);
    var outcome, exposed;
    ghost var k;
    outcome, k, begun := C.Create(run, target, candidate);
    final := run.disk;
    if outcome.Done? {
      r := Done(Verdict.Committed);
    } else if outcome.Raised? {
      r := Raised(outcome.error);
    } else if begun {
      r, final, exposed := RecoverUntilDone(final, journal, {target, candidate}, true, false, first, rest, Nothing,
                                            CreateJob(k));
    } else {
      r := Crashed;
    }
  }

  // A power loss comes after a kill, or finds a durable link to the file from elsewhere.
  predicate EntriesLost(first: seq<Moment>, rest: seq<seq<Moment>>, linked: bool) {
    KilledThenLost([first] + rest) || (linked && AnyLost([first] + rest))
  }

  // A deletion, and the recoveries that follow it if it was cut short.
  method DeleteAndRecover(disk: Disk, target: Path, recovery: Path, expected: Digest, unlinkOnly: bool, journal: Path,
                          first: seq<Moment>, rest: seq<seq<Moment>>, ghost beside: Rely)
    returns (r: Outcome<Verdict>, final: Disk, begun: bool, exposed: bool, ghost k: D.Deletion)
    requires target != recovery && Parent(target) == Parent(recovery)
    requires beside.Nothing? || (target in disk.names && beside == Only(target, disk.names[target], None))
    requires Obeys(first, beside) && AllObey(rest, beside)
    ensures exposed ==> begun && !Uncut(first) && EntriesLost(first, rest, !D.NoStaleLink(disk, target))
    ensures !begun ==> !r.Done? && D.Unbegun(disk, final, target, recovery, beside)
    ensures begun ==>
              && k.target == target && k.recovery == recovery && Of(k.expected) == expected
                   && k.unlinkOnly == unlinkOnly
              && Entry(disk.names, target) == Some(k.inode) && k.inode in disk.store
              && (beside.Nothing? ==> disk.store[k.inode] == k.expected)
    ensures begun && (!exposed || D.NoStaleLink(disk, target)) ==>
              AtRest(final, DeleteJob(k)) && (AnyUncut(rest) ==> !r.Cut())
    ensures begun && !exposed ==>
              && D.Safe(final, k)
              && (beside.Nothing? ==> Undisturbed(final, DeleteJob(k), Nothing) && Reports(r, final, DeleteJob(k)))
    ensures r.Done? ==>
              && begun && final.journal == NoJournal
              && (Beside(journal, DeleteJob(k)) && D.NoStaleLink(disk, target) ==> D.Agreed(final, k))
    ensures Uncut(first) && beside.Nothing? ==>
              (r == Done(Verdict.Committed) <==> D.Ready(disk, target, recovery, expected))
              && (r.Done? ==> D.Now(final, k) == D.Gone && (D.NoStaleLink(disk, target) ==> D.Agreed(final, k)))
  {
    var watched := {target, recovery} + D.Links(disk, target);
    var run := new Run(disk, first, journal, watched, beside);
    exposed := false;
    var outcome;
    outcome, k, begun := D.Delete(run, target, recovery, expected, unlinkOnly);
    final := run.disk;
    if outcome.Done? {
      r := Done(Verdict.Committed);
    } else if outcome.Raised? {
      r := Raised(outcome.error);
    } else if begun && outcome.Crashed? {
      var backed := D.NoStaleLink(disk, target);
      r, final, exposed := RecoverUntilDone(final, journal, watched, backed, !backed, first, rest, beside,
                                            DeleteJob(k));
    } else {
      r, exposed := Crashed, begun;
    }
  }

  // With no other writer, a deletion that is cut short anywhere ends with the target
  // intact, or with target and recovery path both gone; and whenever no intent is
  // readable the disk is in one of these two states. Only a power loss after a kill, or
  // beside a durable link to the file from another directory, can end otherwise.
  method DeleteAlone(disk: Disk, target: Path, recovery: Path, expected: Digest, unlinkOnly: bool, journal: Path,
                     first: seq<Moment>, rest: seq<seq<Moment>>)
    returns (r: Outcome<Verdict>, final: Disk, begun: bool, exposed: bool)
    requires target != recovery && Parent(target) == Parent(recovery)
    requires Obeys(first, Nothing) && AllObey(rest, Nothing)
    ensures exposed ==> !Uncut(first) && EntriesLost(first, rest, !D.NoStaleLink(disk, target))
    ensures !begun ==> !r.Done? && D.Unbegun(disk, final, target, recovery, Nothing)
    ensures begun && !exposed ==>
              && At(disk, target) == expected
              && (r.Done? || !final.journal.Holds? ==>
                    (At(final, target), At(final, recovery)) in {(expected, Absent), (Absent, Absent)})
              // What is gone has been scrubbed, unless it was only to be unlinked.
              && ((r.Done? || !final.journal.Holds?) && At(final, target) == Absent ==>
                    && expected != Absent && target in disk.names && disk.names[target] in final.store
                    && final.store[disk.names[target]]
                         == if unlinkOnly then expected.file else File("", expected.file.metadata))
              && (r.Done? ==> (r.value == Verdict.Committed <==> At(final, target) == Absent))
              && (r.Raised? ==> r.error == IntentUnreadable && !final.journal.Holds?)
    ensures begun && AnyUncut(rest) && (!exposed || D.NoStaleLink(disk, target)) ==> !r.Cut()
    ensures r.Done? ==>
              && final.journal == NoJournal
              && (Parent(journal) == Parent(target) && D.NoStaleLink(disk, target) ==>
                    !Unsynced(final, {target, recovery}))
    // Uncut, it succeeds exactly if the target is in the expected state and has no other
    // link, the recovery path is free, and the journal is empty.
    ensures Uncut(first) ==>
              (r == Done(Verdict.Committed) <==>
                 && expected != Absent && At(disk, target) == expected && recovery !in disk.names
                 && (forall p | p in disk.names && disk.names[p] == disk.names[target] :: p == target)
                 && (disk.journal == NoJournal || (disk.journal == NoIntent && disk.litter == 0)))
              && (r.Done? ==> begun && (D.NoStaleLink(disk, target) ==> !Unsynced(final, {target, recovery})))
  {
    ghost var k;
    r, final, begun, exposed,
        k := DeleteAndRecover(disk, target, recovery, expected, unlinkOnly, journal, first, rest, Nothing);
  }

  // In-place edits of the target before the rename are never lost by a deletion: in
  // the end the target leads to the file as last edited, or the file is gone and
  // what was given up is the expected state.
  method DeleteBesideEdits(disk: Disk, target: Path, recovery: Path, expected: Digest, unlinkOnly: bool, journal: Path,
                           first: seq<Moment>, rest: seq<seq<Moment>>)
    returns (r: Outcome<Verdict>, final: Disk, begun: bool, exposed: bool)
    requires target != recovery && Parent(target) == Parent(recovery) && target in disk.names
    requires var beside := Only(target, disk.names[target], None); Obeys(first, beside) && AllObey(rest, beside)
    ensures exposed ==> !Uncut(first) && EntriesLost(first, rest, !D.NoStaleLink(disk, target))
    ensures !begun ==> !r.Done? && D.Unbegun(disk, final, target, recovery, Only(target, disk.names[target], None))
    ensures begun && !exposed && !final.journal.Holds? ==>
              && expected != Absent && disk.names[target] in final.store
              && var file := final.store[disk.names[target]];
                 || At(final, target) == Of(file)
                 || (At(final, target) == Absent && At(final, recovery) == Absent
                     && file == if unlinkOnly then expected.file else File("", expected.file.metadata))
  {
    ghost var k;
    r, final, begun, exposed, k := DeleteAndRecover(disk, target, recovery, expected, unlinkOnly, journal, first, rest,
                                                    Only(target, disk.names[target], None));
  }

  /* ---- refusals for ever ---- */

  // An exchange whose entries were taken back to other files is refused by every later
  // recovery, and stays as it is.
  method RecoverDisowned(disk: Disk, ghost k: E.Swap, cleanup: bool, journal: Path, schedules: seq<seq<Moment>>,
                         ghost rely: Rely)
    returns (served: bool, final: Disk)
    requires E.Disowned(disk, k) && AllObey(schedules, rely)
    ensures !served && E.Disowned(final, k)
  {
    served, final := false, disk;
    for i := 0 to |schedules|
      invariant !served && E.Disowned(final, k)
    {
      assert schedules[i] in schedules;
      var intent := final.journal.intent;
      var run := new Run(final, schedules[i], journal, {intent.target, intent.candidate}, rely);
      var r := E.RecoverExchange(run, intent, cleanup, k);
      served, final := r.Done?, run.disk;
    }
  }

  // A deletion in a durable state that recovery refuses is refused by every later
  // recovery beside no other writer, and the target stays as it is.
  method RecoverRuined(disk: Disk, ghost k: D.Deletion, cleanup: bool, journal: Path, schedules: seq<seq<Moment>>)
    returns (served: bool, final: Disk)
    requires D.Tracked(disk, k) && D.Named(disk, k) && D.Agreed(disk, k) && D.Fails(disk, k)
    requires AllObey(schedules, Nothing)
    ensures !served && At(final, k.target) == At(disk, k.target)
    ensures D.Tracked(final, k) && D.Named(final, k) && D.Agreed(final, k) && D.Fails(final, k)
  {
    served, final := false, disk;
    for i := 0 to |schedules|
      invariant !served && At(final, k.target) == At(disk, k.target)
      invariant D.Tracked(final, k) && D.Named(final, k) && D.Agreed(final, k) && D.Fails(final, k)
    {
      assert schedules[i] in schedules;
      var intent := final.journal.intent;
      var run := new Run(final, schedules[i], journal, {intent.target, intent.candidate}, Nothing);
      var r := D.RecoverDelete(run, intent, cleanup, k);
      served, final := r.Done?, run.disk;
    }
  }

  // From durable entries every schedule of the next recovery leaves a disk that an
  // undisturbed one finishes, with the same outcome.
  method RecoverTwice(disk: Disk, journal: Path, watched: set<Path>, schedule: seq<Moment>, ghost job: Job)
    returns (r: Outcome<Verdict>, final: Disk)
    requires AtRest(disk, job) && Undisturbed(disk, job, Nothing) && Watches(watched, disk, job)
    requires Durable(disk, job) && !Unsynced(disk, watched) && Bearable(disk, job, Nothing) && Obeys(schedule, Nothing)
    ensures AtRest(final, job) && !r.Cut() && Reports(r, final, job)
    ensures Renamed(final, job) <==> Renamed(disk, job)
  {
    var exposed;
    assert Uncut([]) && [schedule, []][1] in [schedule, []];
    r, final, exposed := RecoverUntilDone(disk, journal, watched, false, false, [], [schedule, []], Nothing, job);
    NeverKilledThenLost(schedule);
  }

  lemma NeverKilledThenLost(schedule: seq<Moment>)
    ensures !KilledThenLost([[]] + [schedule, []])
  {
    var all: seq<seq<Moment>> := [[]] + [schedule, []];
    forall i | 0 <= i < |all| && !Powered(all[i])
      ensures !AnyKilled(all[..i])
    {
      assert i == 1;
      assert all[..1] == [[]];
    }
  }

  /* ---- how a power loss after a kill is reached ---- */

  // From every disk that is ready for it: an exchange killed right after the rename, a
  // recovery that keeps its journal, and a power loss leave an intent that undisturbed
  // recovery refuses.
  method CommitTakenBack(disk: Disk, target: Path, candidate: Path, claim: E.Claim, journal: Path)
    returns (r: Outcome<Verdict>, killed: Disk, ghost k: E.Swap)
    requires target != candidate && disk.journal == NoIntent && At(disk, target) != At(disk, candidate)
    requires E.Ready(disk, target, candidate, claim, journal)
    ensures k.target == target && k.candidate == candidate
    ensures E.Paired(killed, k) && E.Moved(killed, k) && !E.Agreed(killed, k) && E.Safe(killed, k)
    ensures r.Raised?
  {
    PausedEnds(14, Killed);
    var run := new Run(disk, Paused(14, Killed), journal, {target, candidate}, Nothing);
    var outcome, begun;
    outcome, k, begun := E.Exchange(run, target, candidate, claim, true);
    killed := run.disk;
    r := E.RecoverTakenBack(killed, k, true, journal);
  }

  // From every disk that is ready for it, unless its bytes are kept: a deletion killed
  // right after the rename, and a recovery that loses power after the scrub, leave an
  // empty target that undisturbed recovery refuses for ever.
  method ScrubTakenBack(disk: Disk, target: Path, recovery: Path, expected: Digest, journal: Path,
                        schedules: seq<seq<Moment>>)
    returns (served: bool, final: Disk)
    requires target != recovery && Parent(target) == Parent(recovery) && disk.journal == NoIntent
    requires D.NoStaleLink(disk, target) && D.Ready(disk, target, recovery, expected) && expected.file.bytes != ""
    requires AllObey(schedules, Nothing)
    ensures !served && At(final, target) == Of(File("", expected.file.metadata)) && final.journal.Holds?
  {
    PausedEnds(12, Killed);
    var run := new Run(disk, Paused(12, Killed), journal, {target, recovery} + D.Links(disk, target), Nothing);
    var outcome, begun;
    ghost var k;
    outcome, k, begun := D.Delete(run, target, recovery, expected, false);
    var refused, ruined := D.RecoverTakenBack(run.disk, k, journal);
    served, final := RecoverRuined(ruined, k, true, journal, schedules);
  }

  // From every disk that is ready for it, but whose durable entries lead to other files:
  // an exchange that loses power right after its intent is refused for ever.
  method EntriesTakenBack(disk: Disk, target: Path, candidate: Path, claim: E.Claim, journal: Path,
                          schedules: seq<seq<Moment>>, ghost rely: Rely)
    returns (served: bool, final: Disk)
    requires target != candidate && disk.journal == NoIntent && E.Ready(disk, target, candidate, claim, journal)
    requires var pair := (Some(disk.names[target]), Some(disk.names[candidate]));
             (Entry(disk.synced, target), Entry(disk.synced, candidate)) !in {pair, (pair.1, pair.0)}
    requires AllObey(schedules, rely)
    ensures !served && final.journal.Holds?
  {
    PausedEnds(10, PowerLoss(false));
    var run := new Run(disk, Paused(10, PowerLoss(false)), journal, {target, candidate}, Nothing);
    var outcome, begun;
    ghost var k;
    outcome, k, begun := E.Exchange(run, target, candidate, claim, true);
    OtherPairIsDisowned(disk, run.disk, k);
    served, final := RecoverDisowned(run.disk, k, true, journal, schedules, rely);
  }

  lemma OtherPairIsDisowned(disk: Disk, d: Disk, k: E.Swap)
    requires Parent(k.target) == Parent(k.candidate)
    requires Entry(disk.names, k.target) == Some(k.original) && Entry(disk.names, k.candidate) == Some(k.replacement)
    requires var pair := (Some(k.original), Some(k.replacement));
             (Entry(disk.synced, k.target), Entry(disk.synced, k.candidate)) !in {pair, (pair.1, pair.0)}
    requires d.names == d.synced == disk.synced && d.journal == Holds(E.IntentOf(k, Prepared))
    ensures E.Disowned(d, k)
  {
  }

  // Such disks exist.
  lemma ReadyDisks() returns (disk: Disk, target: Path, candidate: Path, journal: Path)
    ensures target != candidate && Parent(target) == Parent(candidate)
    ensures disk.journal == NoIntent && At(disk, target) != At(disk, candidate)
    ensures E.Ready(disk, target, candidate, E.ContentClaim("old"), journal)
    ensures E.Ready(disk, target, candidate, E.StateClaim(At(disk, target).file), journal)
    ensures candidate !in disk.synced && D.NoStaleLink(disk, target)
    ensures D.Ready(disk.(names := disk.names - {candidate}), target, candidate, At(disk, target))
  {
    var plain := Metadata(0, 0, 0, map[]);
    target, candidate, journal := ["etc", "target"], ["etc", "other"], ["journal"];
    assert target[1][0] != candidate[1][0];
    disk := Disk(map[target := 1, candidate := 2], map[target := 1],
                 map[1 := File("old", plain), 2 := File("new", plain)],
                 NoIntent, 0);
  }
}
