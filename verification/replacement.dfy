/** The files around `claude_rollback`: the exchange, what follows it, and the handler of
    its exceptions. */
module Replacement {
  import opened Common
  import opened Storage
  import E = ExchangeProtocol

  // os.unlink, passing over a missing file
  method UnlinkIfThere(run: Run, p: Path) returns (r: Outcome<()>)
    requires run.Valid()
    modifies run
    ensures run.Goes(r.Crashed?, r.Exposed?) && !r.Raised?
    ensures r.Done? ==>
              && run.disk.names == old(run.disk).names - {p} && run.disk.journal == old(run.disk).journal
              && Edited(old(run.disk), run.disk.store, run.rely)
  {
    r := run.Unlink(p);
    if r.Raised? {
      r := Done(());
    }
  }

  method UnlinkDurably(run: Run, candidate: Path, ghost k: E.Swap) returns (r: Outcome<()>)
    requires run.Valid() && candidate == k.candidate && E.Paired(run.disk, k) && E.Moved(run.disk, k)
    modifies run
    ensures run.Goes(r.Crashed?, r.Exposed?) && !r.Raised?
    ensures r.Done? ==>
              && Entry(run.disk.names, k.target) == Some(k.replacement) && candidate !in run.disk.names
              && E.Held(run.disk, k) && E.Rested(old(run.disk), run.disk, k, run.rely)
  {
    var _ :- run.Unlink(candidate);
    r := run.SyncDirectory(Parent(candidate));
  }

  // After the exchange the candidate path holds the displaced file: scrub and remove it.
  method DiscardDisplaced(run: Run, candidate: Path, ghost k: E.Swap) returns (r: Outcome<()>)
    requires run.Valid() && candidate == k.candidate && E.Paired(run.disk, k) && E.Moved(run.disk, k)
    modifies run
    ensures run.Goes(r.Crashed?, r.Exposed?) && !r.Raised?
    ensures r.Done? ==>
              && Entry(run.disk.names, k.target) == Some(k.replacement) && candidate !in run.disk.names
              && E.Held(run.disk, k)
              && (E.TargetOnly(run.rely, k) ==>
                    && run.disk.store[k.original] == Scrubbed(old(run.disk).store[k.original])
                    && run.disk.store[k.replacement] == old(run.disk).store[k.replacement])
  {
    var _ :- run.Truncate(candidate, k.original);
    r := UnlinkDurably(run, candidate, k);
  }

  // The end of claude_rollback, beside any edits of the target. Unless it is cut, either
  // the target still is the file it was, as last edited, or that file has been given up
  // in the very state whose document the rollback had edited.
  method Replace(run: Run, target: Path, candidate: Path, live: File, keepMetadata: bool) returns (r: Outcome<()>)
    requires target != candidate && E.Started(run, target, candidate)
    requires run.rely.Nothing? || (target in run.disk.names && run.rely == Only(target, run.disk.names[target], None))
    modifies run
    ensures run.Goes(r.Crashed?, r.Exposed?)
    ensures r.Raised? ==>
              && Entry(run.disk.names, target) == Entry(old(run.disk).names, target)
              && candidate !in run.disk.names
    ensures r.Done? ==>
              && target in old(run.disk).names && candidate in old(run.disk).names && candidate !in run.disk.names
              && var original := old(run.disk).names[target];
                 && original in run.disk.store && run.disk.store[original] == File("", live.metadata)
                 && At(old(run.disk), candidate) != Absent && At(run.disk, target) != Absent
                 && At(run.disk, target).file.bytes == At(old(run.disk), candidate).file.bytes
    // Undisturbed and uncut, it succeeds exactly on the disks that are ready for it.
    ensures run.rely.Nothing? && !r.Cut() ==>
              (r.Done? <==> E.Ready(old(run.disk), target, candidate, E.StateClaim(live), run.journal))
  {
    ghost var k, begun;
    r, k, begun := Exchanged(run, target, candidate, live, keepMetadata);
    if r.Raised? {
      var error := r.error;
      var _ :- UnlinkIfThere(run, candidate);
      r := Raised(error);
    } else if r.Done? {
      r := DiscardDisplaced(run, candidate, k);
    }
  }

  // The exchange, in terms of the two files.
  method Exchanged(run: Run, target: Path, candidate: Path, live: File, keepMetadata: bool)
    returns (r: Outcome<()>, ghost k: E.Swap, ghost begun: bool)
    requires target != candidate && E.Started(run, target, candidate)
    requires run.rely.Nothing? || (target in run.disk.names && run.rely == Only(target, run.disk.names[target], None))
    modifies run
    ensures run.Goes(r.Crashed?, r.Exposed?)
    ensures r.Raised? ==> Entry(run.disk.names, target) == Entry(old(run.disk).names, target)
    ensures r.Done? ==>
              && k.target == target && k.candidate == candidate && E.Paired(run.disk, k) && E.Moved(run.disk, k)
              && Entry(old(run.disk).names, target) == Some(k.original)
              && Entry(old(run.disk).names, candidate) == Some(k.replacement)
              && k.original in old(run.disk).store && k.replacement in old(run.disk).store
              && E.TargetOnly(run.rely, k) && run.disk.store[k.original] == live
              && run.disk.store[k.replacement].bytes == old(run.disk).store[k.replacement].bytes
    ensures run.rely.Nothing? && !r.Cut() ==>
              (r.Done? <==> E.Ready(old(run.disk), target, candidate, E.StateClaim(live), run.journal))
  {
    var started;
    r, k, started := E.Exchange(run, target, candidate, E.StateClaim(live), keepMetadata);
    begun := started;
  }

  // An exception that no statement of the exchange raises by itself, an interrupt or a
  // failing write, reaches the same handler. It discards the file that was the target
  // exactly if the rename had happened, and leaves the journal as it is.
  method Interrupted(disk: Disk, target: Path, candidate: Path, live: File, keepMetadata: bool, journal: Path,
                     schedule: seq<Moment>)
    returns (cut: bool, begun: bool, killed: Disk, final: Disk, ghost k: E.Swap)
    requires target != candidate && Obeys(schedule, Nothing) && Powered(schedule)
    ensures cut && begun ==>
              && k.target == target && Entry(disk.names, target) == Some(k.original) && E.Paired(killed, k)
              && final.journal == killed.journal
              && (Entry(final.names, target) == Some(k.original) <==> !E.Moved(killed, k))
              && (E.Moved(killed, k) ==> Entry(final.names, target) == Some(k.replacement) && candidate !in final.names)
    // From every disk that is ready for it there is such a moment.
    ensures E.Ready(disk, target, candidate, E.StateClaim(live), journal) && disk.journal == NoIntent && keepMetadata
            && Ends(schedule, 14, Killed) ==>
              cut && begun && E.Moved(killed, k) && final.journal == Holds(E.IntentOf(k, Prepared))
  {
    var run := new Run(disk, schedule, journal, {target, candidate}, Nothing);
    var outcome;
    outcome, k, begun := E.Exchange(run, target, candidate, E.StateClaim(live), keepMetadata);
    cut, killed := outcome.Crashed?, run.disk;
    var handler := new Run(killed, [], journal, {target, candidate}, Nothing);
    var _ := UnlinkIfThere(handler, candidate);
    final := handler.disk;
  }
}
