/** The durable state that `scripts/captain/atomic-config.py` works on: directory
    entries, file contents and the intent journal, together with a crash model. */
module Storage {
  import opened Common

  // An absolute path, as its components.
  type Path = seq<string>
  type Inode = nat

  datatype Metadata = Metadata(uid: nat, gid: nat, mode: nat, xattrs: map<string, string>)
  datatype File = File(bytes: string, metadata: Metadata)

  // SHA-256 over the description of a file is modelled as collision free: the
  // digest of a state is the state. `Absent` is both the literal "absent" and None.
  datatype Digest = Absent | Of(file: File)

  datatype Operation = Exchange | Create | Delete
  datatype Phase = Prepared | Exchanged | Mismatch | Restored | Verified | Committed | Cleanup

  datatype Intent = Intent(
    operation: Operation,
    target: Path,
    candidate: Path,
    expected: Digest,
    desired: Digest,
    phase: Phase,
    targetIdentity: Option<Inode>,
    candidateIdentity: Option<Inode>,
    unlinkOnly: bool)

  // What the journal directory says: `Unreadable` is an intent that `remove_journal`
  // has already truncated, `NoIntent` a directory without one.
  datatype Journal = NoJournal | NoIntent | Unreadable | Holds(intent: Intent)

  // A rename or unlink changes `names` at once; it is durable once the directory
  // is synced. File contents and the journal are durable when written. `litter` counts
  // the temporary files that interrupted writes have left in the journal directory.
  datatype Disk = Disk(
    names: map<Path, Inode>,
    synced: map<Path, Inode>,
    store: map<Inode, File>,
    journal: Journal,
    litter: nat)

  function Parent(p: Path): Path {
    if p == [] then [] else p[..|p| - 1]
  }

  lemma ParentOf(directory: Path, name: string)
    ensures Parent(directory + [name]) == directory
  {
    assert (directory + [name])[..|directory|] == directory;
  }

  function Entry(names: map<Path, Inode>, p: Path): Option<Inode> {
    if p in names then Some(names[p]) else None
  }

  // The journal directory is missing or empty.
  predicate Unused(d: Disk) {
    d.journal == NoJournal || (d.journal == NoIntent && d.litter == 0)
  }

  // The state a path leads to.
  function At(d: Disk, p: Path): Digest {
    if p in d.names && d.names[p] in d.store then Of(d.store[d.names[p]]) else Absent
  }

  predicate SingleLink(names: map<Path, Inode>, p: Path)
    requires p in names
  {
    forall q | q in names :: names[q] == names[p] ==> q == p
  }

  function Scrubbed(file: File): File {
    file.(bytes := "")
  }

  function SwapEntries(names: map<Path, Inode>, a: Path, b: Path): map<Path, Inode>
    requires a in names && b in names
  {
    names[a := names[b]][b := names[a]]
  }

  function MoveEntry(names: map<Path, Inode>, source: Path, destination: Path): map<Path, Inode>
    requires source in names
  {
    (names - {source})[destination := names[source]]
  }

  // Syncing one directory makes its entries durable and no others.
  function SyncEntries(d: Disk, directory: Path): (synced: map<Path, Inode>)
    ensures forall p: Path :: Entry(synced, p) == Entry(if Parent(p) == directory then d.names else d.synced, p)
  {
    var others := map p | p in d.synced && Parent(p) != directory :: d.synced[p];
    var current := map p | p in d.names && Parent(p) == directory :: d.names[p];
    others + current
  }

  /* ---- what may happen between two statements ---- */

  // Another process writes through a descriptor it already holds, or opens a path
  // that still names the given inode and writes in place.
  datatype Edit = Held(inode: Inode, file: File) | Through(path: Path, inode: Inode, file: File)

  // The process goes on, it is killed, or the machine loses power.
  datatype Fate = Continue | Killed | PowerLoss(kept: bool)
  datatype Moment = Moment(edits: seq<Edit>, fate: Fate)

  predicate Unkilled(schedule: seq<Moment>) {
    forall m | m in schedule :: !m.fate.Killed?
  }

  predicate Powered(schedule: seq<Moment>) {
    forall m | m in schedule :: !m.fate.PowerLoss?
  }

  // Neither kills nor power losses.
  predicate Uncut(schedule: seq<Moment>) {
    Unkilled(schedule) && Powered(schedule)
  }

  const PAUSE := Moment([], Continue)

  // How many moments pass before anything happens, and what comes then.
  function Pauses(schedule: seq<Moment>): nat {
    if schedule != [] && schedule[0] == PAUSE then 1 + Pauses(schedule[1..]) else 0
  }

  function Beyond(schedule: seq<Moment>): seq<Moment> {
    if schedule != [] && schedule[0] == PAUSE then Beyond(schedule[1..]) else schedule
  }

  function Paused(n: nat, fate: Fate): seq<Moment> {
    if n == 0 then [Moment([], fate)] else [PAUSE] + Paused(n - 1, fate)
  }

  // After `n` more statements the process meets its fate.
  predicate Ends(schedule: seq<Moment>, n: nat, fate: Fate) {
    Pauses(schedule) == n && Beyond(schedule) == [Moment([], fate)]
  }

  lemma {:induction false} PausedEnds(n: nat, fate: Fate)
    requires fate != Continue
    ensures Ends(Paused(n, fate), n, fate)
    ensures Obeys(Paused(n, fate), Nothing)
  {
    if n > 0 {
      PausedEnds(n - 1, fate);
      assert Paused(n, fate)[1..] == Paused(n - 1, fate);
    }
  }

  function ApplyEdit(d: Disk, e: Edit): Disk {
    if e.inode in d.store && (e.Through? ==> Entry(d.names, e.path) == Some(e.inode))
    then d.(store := d.store[e.inode := e.file])
    else d
  }

  function ApplyEdits(d: Disk, edits: seq<Edit>): Disk
    decreases |edits|
  {
    if edits == [] then d else ApplyEdits(ApplyEdit(d, edits[0]), edits[1..])
  }

  // A power loss leaves either the entries last synced or the current ones.
  function LosePower(d: Disk, kept: bool): Disk {
    if kept then d.(synced := d.names) else d.(names := d.synced)
  }

  // What a run may assume of the other processes: anything, no edits at all, or only
  // edits of one inode through one path that avoid one content.
  datatype Rely = Anything | Nothing | Only(path: Path, inode: Inode, avoid: Option<string>)

  predicate Allowed(e: Edit, rely: Rely) {
    match rely
    case Anything => true
    case Nothing => false
    case Only(path, inode, avoid) => e.Through? && e.path == path && e.inode == inode && Some(e.file.bytes) != avoid
  }

  predicate Obeys(schedule: seq<Moment>, rely: Rely) {
    forall m, e | m in schedule && e in m.edits :: Allowed(e, rely)
  }

  // Whether the other processes may leave `file` in `inode`.
  predicate MayWrite(names: map<Path, Inode>, inode: Inode, file: File, rely: Rely) {
    rely.Anything?
    || (rely.Only? && inode == rely.inode && Entry(names, rely.path) == Some(inode) && Some(file.bytes) != rely.avoid)
  }

  // What the edits of some moments can have done to the contents.
  predicate Edited(d: Disk, store: map<Inode, File>, rely: Rely) {
    && store.Keys == d.store.Keys
    && forall i | i in d.store :: store[i] == d.store[i] || MayWrite(d.names, i, store[i], rely)
  }

  lemma EditsAreEdited(d: Disk, edits: seq<Edit>, rely: Rely)
    requires forall e | e in edits :: Allowed(e, rely)
    ensures ApplyEdits(d, edits) == d.(store := ApplyEdits(d, edits).store)
    ensures Edited(d, ApplyEdits(d, edits).store, rely)
    decreases |edits|
  {
    if edits != [] {
      assert Allowed(edits[0], rely);
      EditsAreEdited(ApplyEdit(d, edits[0]), edits[1..], rely);
    }
  }

  // Entries and contents after some moments in which no power was lost.
  predicate Passed(d: Disk, d': Disk, rely: Rely) {
    d'.names == d.names && d'.synced == d.synced && Edited(d, d'.store, rely)
  }

  // Entries and contents after some moments, in the last of which the machine lost power.
  predicate Fell(d: Disk, d': Disk, rely: Rely) {
    && d'.names == d'.synced && (d'.names == d.names || d'.names == d.synced)
    && Edited(d, d'.store, rely)
  }

  // The disk after some moments, with the journal directory as it was.
  predicate Elapsed(d: Disk, d': Disk, rely: Rely) {
    d'.journal == d.journal && d'.litter == d.litter && Passed(d, d', rely)
  }

  predicate Lost(d: Disk, d': Disk, rely: Rely) {
    d'.journal == d.journal && d'.litter == d.litter && Fell(d, d', rely)
  }

  // The disk that a cut run leaves, if no inherited entry was at stake.
  predicate Halted(d: Disk, d': Disk, inherited: bool, rely: Rely) {
    d'.journal == d.journal && d'.litter == d.litter && (Passed(d, d', rely) || (!inherited && Fell(d, d', rely)))
  }

  // A power loss may take some of these entries back.
  predicate Unsynced(d: Disk, paths: set<Path>) {
    exists p | p in paths :: Entry(d.names, p) != Entry(d.synced, p)
  }

  // What happens to two entries when nobody renames: each is as it was, or as it was
  // last synced.
  predicate Settles(d: Disk, d': Disk, a: Path, b: Path, rely: Rely) {
    && Edited(d, d'.store, rely)
    && Entry(d'.names, a) in {Entry(d.names, a), Entry(d.synced, a)}
    && Entry(d'.names, b) in {Entry(d.names, b), Entry(d.synced, b)}
  }

  datatype Error =
    | MissingPath
    | HardLinked
    | DifferentDirectories
    | JournalBelowTarget
    | TargetExists
    | RecoveryPathExists
    | PrestateChanged
    | JournalNotEmpty
    | IntentUnreadable
    | IdentityChanged
    | StateRestored
    | VerificationFailed
    | CommittedTargetChanged
    | RestoredTargetMissing
    | ContradictoryPhase
    | TargetRecreated
    | ReleaseRefused
    | Unrecoverable

  // How some statements ended: with a value, with an exception, or cut short. A run is
  // `Exposed` if power was lost while entries were unsynced that it had not changed
  // itself but inherited from a killed process; every other cut is `Crashed`.
  datatype Outcome<+T> = Done(value: T) | Raised(error: Error) | Crashed | Exposed {
    predicate IsFailure() { !Done? }

    function PropagateFailure<U>(): Outcome<U>
      requires !Done?
    {
      match this
      case Raised(e) => Raised(e)
      case Crashed => Crashed
      case Exposed => Exposed
    }

    function Extract(): T
      requires Done?
    {
      value
    }

    predicate Cut() { Crashed? || Exposed? }
  }

  // What a recovery reports.
  datatype Verdict = Committed | Restored

  // One system call of `copy_metadata`.
  datatype Change = Owner(uid: nat, gid: nat) | Mode(mode: nat) | Remove(name: string) | Set(name: string,
                                                                                             value: string)

  function Restamped(file: File, change: Change): File {
    var m := file.metadata;
    match change
    case Owner(uid, gid) => file.(metadata := m.(uid := uid, gid := gid))
    case Mode(mode) => file.(metadata := m.(mode := mode))
    case Remove(name) => WithAttributes(file, m.xattrs - {name})
    case Set(name, value) => WithAttributes(file, m.xattrs[name := value])
  }

  function WithAttributes(file: File, xattrs: map<string, string>): File {
    file.(metadata := file.metadata.(xattrs := xattrs))
  }

  // Attributes with some of them taken from others.
  function Overlaid(own: map<string, string>, given: map<string, string>, names: set<string>): map<string, string> {
    own + map name | name in names && name in given :: given[name]
  }

  lemma OverlaidEnds(own: map<string, string>, given: map<string, string>)
    ensures Overlaid(own, given, {}) == own && Overlaid(own, given, given.Keys) == own + given
  {
  }

  lemma OverlaidOneMore(own: map<string, string>, given: map<string, string>, names: set<string>, name: string)
    requires name in given
    ensures Overlaid(own, given, names)[name := given[name]] == Overlaid(own, given, names + {name})
  {
  }

  lemma OneMoreAttribute(d: Disk, inode: Inode, file: File, given: map<string, string>, names: set<string>,
                         name: string)
    requires name in given
    ensures var own := file.metadata.xattrs;
            var before := WithFile(d, inode, WithAttributes(file, Overlaid(own, given, names)));
            WithFile(before, inode, Restamped(before.store[inode], Set(name, given[name])))
            == WithFile(d, inode, WithAttributes(file, Overlaid(own, given, names + {name})))
  {
    OverlaidOneMore(file.metadata.xattrs, given, names, name);
  }

  lemma OverlaidExactly(own: map<string, string>, given: map<string, string>)
    ensures own - (own.Keys - given.Keys) + given == given
  {
  }

  function WithFile(d: Disk, inode: Inode, file: File): (d': Disk)
    ensures inode in d.store && d.store[inode] == file ==> d' == d
  {
    d.(store := d.store[inode := file])
  }

  // The disk is `d` but for some attributes that the inode has lost.
  predicate Lacks(d': Disk, d: Disk, inode: Inode, names: set<string>) {
    inode in d.store && d' == WithFile(d, inode, WithAttributes(d.store[inode], d.store[inode].metadata.xattrs - names))
  }

  // The disk is `d` but for some attributes that the inode has taken from another file.
  predicate Carries(d': Disk, d: Disk, source: Path, inode: Inode, names: set<string>) {
    && inode in d.store && At(d, source) != Absent
    && var file := d.store[inode];
       d' == WithFile(d, inode,
                      WithAttributes(file, Overlaid(file.metadata.xattrs, At(d, source).file.metadata.xattrs, names)))
  }

  // What the edits of some moments, and this run's own stamping of one file, can have
  // done to the contents.
  predicate Stamped(d: Disk, store: map<Inode, File>, inode: Inode, rely: Rely) {
    && store.Keys == d.store.Keys
    && forall i | i in d.store ::
         || store[i] == d.store[i]
         || MayWrite(d.names, i, store[i], rely)
         || (i == inode && store[i].bytes == d.store[i].bytes)
  }

  /** One run of the script. Every statement that touches the disk is one method.
      It first lets a moment of the schedule pass, so that a result that holds for
      every schedule holds for a kill, a power loss and edits between any two
      statements. */
  class Run {
    var disk: Disk
    var schedule: seq<Moment>
    // The journal directory of this run.
    const journal: Path
    // The paths whose entries the run is about, and whether a former process has left
    // one of them unsynced that no sync has reached since.
    const watched: set<Path>
    var inherited: bool
    ghost const rely: Rely
    // How often the run itself has written file contents or metadata.
    ghost var writes: nat

    ghost predicate Valid()
      reads this
    {
      Obeys(schedule, rely)
    }

    constructor (disk: Disk, schedule: seq<Moment>, journal: Path, watched: set<Path>, ghost rely: Rely)
      requires Obeys(schedule, rely)
      ensures Valid() && this.disk == disk && this.schedule == schedule && this.journal == journal
      ensures this.watched == watched && this.inherited == Unsynced(disk, watched) && this.rely == rely
    {
      this.disk, this.schedule, this.journal, this.watched, this.rely := disk, schedule, journal, watched, rely;
      this.inherited, this.writes := Unsynced(disk, watched), 0;
    }

    // What holds of every stretch of a run: inherited entries only become fewer, and only
    // they and a power loss can expose it. Without kills and power losses it is not cut,
    // and without kills it leaves no entry unsynced where it is cut.
    twostate predicate Goes(crashed: bool, exposed: bool)
      reads this
    {
      && Valid()
      && (inherited ==> old(inherited)) && (exposed ==> old(inherited) && disk.names == disk.synced)
      && (Unkilled(old(schedule)) ==> Unkilled(schedule) && (crashed || exposed ==> disk.names == disk.synced))
      && (Powered(old(schedule)) ==> Powered(schedule) && !exposed)
      && (Uncut(old(schedule)) ==> !crashed)
    }

    // A stretch that takes `n` statements if it is done, and is not cut before.
    twostate predicate Spends(n: nat, done: bool, cut: bool)
      reads this
    {
      Pauses(old(schedule)) >= n ==>
        && !cut
        && (done ==> Pauses(schedule) == Pauses(old(schedule)) - n && Beyond(schedule) == Beyond(old(schedule)))
    }

    // A stretch that syncs nothing, and where it was cut.
    twostate predicate Stops(crashed: bool, exposed: bool)
      reads this
    {
      && Goes(crashed, exposed) && inherited == old(inherited) && writes == old(writes)
      && (crashed ==> Halted(old(disk), disk, inherited, rely))
      && (exposed ==> Lost(old(disk), disk, rely))
    }

    // A stretch that only reads.
    twostate predicate Reads(crashed: bool, exposed: bool)
      reads this
    {
      Stops(crashed, exposed) && (!crashed && !exposed ==> Elapsed(old(disk), disk, rely))
    }

    // One moment of the schedule passes.
    method Meet() returns (r: Outcome<()>)
      requires Valid()
      modifies this
      ensures Spends(1, r.Done?, r.Cut())
      ensures Ends(old(schedule), 0, Killed) ==> r.Crashed? && disk == old(disk)
      ensures Ends(old(schedule), 0, PowerLoss(false)) ==> r.Cut() && disk == LosePower(old(disk), false)
      ensures Reads(r.Crashed?, r.Exposed?)
      ensures !r.Raised?
    {
      if schedule == [] {
        return Done(());
      }
      var now := schedule[0];
      assert now in schedule;
      EditsAreEdited(disk, now.edits, rely);
      disk, schedule := ApplyEdits(disk, now.edits), schedule[1..];
      match now.fate {
        case Continue =>
          r := Done(());
        case Killed =>
          r := Crashed;
        case PowerLoss(kept) =>
          disk := LosePower(disk, kept);
          r := if inherited then Exposed else Crashed;
      }
    }

    method Tick() returns (r: Outcome<()>)
      requires Valid()
      modifies this
      ensures Spends(1, r.Done?, r.Cut())
      ensures Reads(r.Crashed?, r.Exposed?)
      ensures !r.Raised?
    {
      r := Meet();
    }

    /* ---- reading ---- */

    method Identity(p: Path) returns (r: Outcome<Inode>)
      requires Valid()
      modifies this
      ensures Spends(1, r.Done?, r.Cut())
      ensures Reads(r.Crashed?, r.Exposed?)
      ensures !r.Cut() ==> r == if p in disk.names then Done(disk.names[p]) else Raised(MissingPath)
    {
      var _ :- Tick();
      if p !in disk.names {
        return Raised(MissingPath);
      }
      r := Done(disk.names[p]);
    }

    // os.path.lexists
    method Exists(p: Path) returns (r: Outcome<bool>)
      requires Valid()
      modifies this
      ensures Spends(1, r.Done?, r.Cut())
      ensures Reads(r.Crashed?, r.Exposed?)
      ensures !r.Cut() ==> r == Done(p in disk.names)
    {
      var _ :- Tick();
      r := Done(p in disk.names);
    }

    // inspect_digest
    method Inspect(p: Path) returns (r: Outcome<Digest>)
      requires Valid()
      modifies this
      ensures Spends(1, r.Done?, r.Cut())
      ensures Reads(r.Crashed?, r.Exposed?)
      ensures !r.Cut() ==> r == Done(At(disk, p))
    {
      var _ :- Tick();
      r := Done(At(disk, p));
    }

    // description and state_digest
    method Describe(p: Path) returns (r: Outcome<File>)
      requires Valid()
      modifies this
      ensures Spends(1, r.Done?, r.Cut())
      ensures Reads(r.Crashed?, r.Exposed?)
      ensures !r.Cut() ==> r == if At(disk, p) == Absent then Raised(MissingPath) else Done(At(disk, p).file)
    {
      var _ :- Tick();
      if At(disk, p) == Absent {
        return Raised(MissingPath);
      }
      r := Done(At(disk, p).file);
    }

    // require_single_link
    method SingleLinked(p: Path) returns (r: Outcome<File>)
      requires Valid()
      modifies this
      ensures Spends(1, r.Done?, r.Cut())
      ensures Reads(r.Crashed?, r.Exposed?)
      ensures !r.Cut() ==>
                r == if At(disk, p) == Absent then Raised(MissingPath)
                     else if !SingleLink(disk.names, p) then Raised(HardLinked)
                     else Done(At(disk, p).file)
    {
      var _ :- Tick();
      if At(disk, p) == Absent {
        return Raised(MissingPath);
      }
      if !SingleLink(disk.names, p) {
        return Raised(HardLinked);
      }
      r := Done(At(disk, p).file);
    }

    /* ---- writing contents ---- */

    // A stretch that at most stamps new metadata on one file.
    twostate predicate Stamps(inode: Inode, crashed: bool, exposed: bool)
      reads this
    {
      && Goes(crashed, exposed) && inherited == old(inherited)
      && disk.journal == old(disk).journal && disk.litter == old(disk).litter
      && Stamped(old(disk), disk.store, inode, rely)
      && (if crashed || exposed then disk.names == old(disk).names || disk.names == old(disk).synced
          else disk.names == old(disk).names && disk.synced == old(disk).synced)
    }

    // One system call on the metadata of a file.
    method Stamp(p: Path, ghost inode: Inode, change: Change) returns (r: Outcome<()>)
      requires Valid() && Entry(disk.names, p) == Some(inode) && inode in disk.store
      modifies this
      ensures Stamps(inode, r.Crashed?, r.Exposed?) && !r.Raised?
      ensures rely.Nothing? && r.Done? ==>
                disk == WithFile(old(disk), inode, Restamped(old(disk).store[inode], change))
    {
      var _ :- Tick();
      disk := disk.(store := disk.store[disk.names[p] := Restamped(At(disk, p).file, change)]);
      writes := writes + 1;
      r := Done(());
    }

    // os.listxattr
    method Attributes(p: Path) returns (r: Outcome<set<string>>)
      requires Valid()
      modifies this
      ensures Reads(r.Crashed?, r.Exposed?)
      ensures !r.Cut() ==>
                r == if At(disk, p) == Absent then Raised(MissingPath) else Done(At(disk, p).file.metadata.xattrs.Keys)
    {
      var _ :- Tick();
      if At(disk, p) == Absent {
        return Raised(MissingPath);
      }
      r := Done(At(disk, p).file.metadata.xattrs.Keys);
    }

    // os.getxattr
    method Attribute(p: Path, name: string) returns (r: Outcome<string>)
      requires Valid()
      modifies this
      ensures Reads(r.Crashed?, r.Exposed?)
      ensures !r.Cut() ==>
                r == if At(disk, p) == Absent || name !in At(disk, p).file.metadata.xattrs then Raised(MissingPath)
                     else Done(At(disk, p).file.metadata.xattrs[name])
    {
      var _ :- Tick();
      if At(disk, p) == Absent || name !in At(disk, p).file.metadata.xattrs {
        return Raised(MissingPath);
      }
      r := Done(At(disk, p).file.metadata.xattrs[name]);
    }

    // The attributes to copy, and those to remove first.
    method GivenAndExtra(source: Path, p: Path) returns (r: Outcome<set<string>>, extra: set<string>)
      requires Valid()
      modifies this
      ensures Reads(r.Crashed?, r.Exposed?)
      ensures !r.Cut() ==> (r.Raised? <==> At(disk, source) == Absent || At(disk, p) == Absent)
      ensures rely.Nothing? && r.Done? ==>
                && r.value == At(disk, source).file.metadata.xattrs.Keys
                && extra == At(disk, p).file.metadata.xattrs.Keys - r.value
    {
      extra := {};
      var given :- Attributes(source);
      var own :- Attributes(p);
      return Done(given), own - given;
    }

    method RemoveNext(p: Path, ghost inode: Inode, name: string, ghost d: Disk, ghost removed: set<string>)
      returns (r: Outcome<()>)
      requires Valid() && Entry(disk.names, p) == Some(inode) && inode in disk.store && inode in d.store
      modifies this
      ensures Stamps(inode, r.Crashed?, r.Exposed?) && !r.Raised?
      ensures rely.Nothing? && r.Done? && Lacks(old(disk), d, inode, removed) ==>
                Lacks(disk, d, inode, removed + {name})
    {
      ghost var own := d.store[inode].metadata.xattrs;
      r := Stamp(p, inode, Remove(name));
      assert own - removed - {name} == own - (removed + {name});
    }

    method RemoveAttributes(p: Path, ghost inode: Inode, names: set<string>) returns (r: Outcome<()>)
      requires Valid() && Entry(disk.names, p) == Some(inode) && inode in disk.store
      modifies this
      ensures Stamps(inode, r.Crashed?, r.Exposed?) && !r.Raised?
      ensures rely.Nothing? && r.Done? ==> Lacks(disk, old(disk), inode, names)
    {
      assert disk.store[inode].metadata.xattrs - {} == disk.store[inode].metadata.xattrs;
      var removed: set<string> := {};
      while !(names <= removed)
        invariant removed <= names && Stamps(inode, false, false)
        invariant rely.Nothing? ==> Lacks(disk, old(disk), inode, removed)
        decreases names - removed
      {
        var name :| name in names && name !in removed;
        var _ :- RemoveNext(p, inode, name, old(disk), removed);
        removed := removed + {name};
      }
      assert removed == names;
      r := Done(());
    }

    method CopyAttribute(source: Path, p: Path, ghost inode: Inode, name: string) returns (r: Outcome<()>)
      requires Valid() && Entry(disk.names, p) == Some(inode) && inode in disk.store
      modifies this
      ensures Stamps(inode, r.Crashed?, r.Exposed?)
      ensures rely.Nothing? && At(old(disk), source) != Absent && name in At(old(disk), source).file.metadata.xattrs ==>
                && !r.Raised?
                && (r.Done? ==>
                      var change := Set(name, At(old(disk), source).file.metadata.xattrs[name]);
                      disk == WithFile(old(disk), inode, Restamped(old(disk).store[inode], change)))
    {
      var value :- Attribute(source, name);
      r := Stamp(p, inode, Set(name, value));
    }

    // One more of the attributes that are to be copied.
    method SetNext(source: Path, p: Path, ghost inode: Inode, name: string, ghost d: Disk, ghost copied: set<string>)
      returns (r: Outcome<()>)
      requires Valid() && Entry(disk.names, p) == Some(inode) && inode in disk.store && inode in d.store
      requires source in disk.names && disk.names[source] != inode
      modifies this
      ensures Stamps(inode, r.Crashed?, r.Exposed?)
      ensures rely.Nothing? && Carries(old(disk), d, source, inode, copied)
              && name in At(d, source).file.metadata.xattrs ==>
                !r.Raised? && (r.Done? ==> Carries(disk, d, source, inode, copied + {name}))
    {
      r := CopyAttribute(source, p, inode, name);
      if rely.Nothing? && Carries(old(disk), d, source, inode, copied) && name in At(d, source).file.metadata.xattrs {
        OneMoreAttribute(d, inode, d.store[inode], At(d, source).file.metadata.xattrs, copied, name);
      }
    }

    method SetAttributes(source: Path, p: Path, ghost inode: Inode, names: set<string>) returns (r: Outcome<()>)
      requires Valid() && Entry(disk.names, p) == Some(inode) && inode in disk.store && source in disk.names
      requires disk.names[source] != inode
      modifies this
      ensures Stamps(inode, r.Crashed?, r.Exposed?)
      ensures rely.Nothing? && At(old(disk), source) != Absent
                && names == At(old(disk), source).file.metadata.xattrs.Keys ==>
                !r.Raised? && (r.Done? ==> Carries(disk, old(disk), source, inode, names))
    {
      ghost var quiet := rely.Nothing? && At(disk, source) != Absent && names == At(disk,
                                                                                    source).file.metadata.xattrs.Keys;
      if quiet {
        OverlaidEnds(disk.store[inode].metadata.xattrs, At(disk, source).file.metadata.xattrs);
      }
      var copied: set<string> := {};
      while !(names <= copied)
        invariant copied <= names && Stamps(inode, false, false)
        invariant quiet ==> Carries(disk, old(disk), source, inode, copied)
        decreases names - copied
      {
        var name :| name in names && name !in copied;
        var _ :- SetNext(source, p, inode, name, old(disk), copied);
        copied := copied + {name};
      }
      assert copied == names;
      r := Done(());
    }

    method ReplaceAttributes(source: Path, p: Path, ghost inode: Inode, given: set<string>, extra: set<string>)
      returns (r: Outcome<()>)
      requires Valid() && Entry(disk.names, p) == Some(inode) && inode in disk.store
      requires source in disk.names && disk.names[source] != inode
      modifies this
      ensures Stamps(inode, r.Crashed?, r.Exposed?)
      ensures rely.Nothing? && At(old(disk), source) != Absent
                && given == At(old(disk), source).file.metadata.xattrs.Keys ==>
                && !r.Raised?
                && (r.Done? && extra == old(disk).store[inode].metadata.xattrs.Keys - given ==>
                      disk == WithFile(old(disk), inode,
                                       WithAttributes(old(disk).store[inode],
                                                      At(old(disk), source).file.metadata.xattrs)))
    {
      if At(disk, source) != Absent {
        ghost var own, its := disk.store[inode].metadata.xattrs, At(disk, source).file.metadata.xattrs;
        OverlaidExactly(own, its);
        OverlaidEnds(own - (own.Keys - its.Keys), its);
      }
      var _ :- RemoveAttributes(p, inode, extra);
      r := SetAttributes(source, p, inode, given);
    }

    method CopyAttributes(source: Path, p: Path, ghost inode: Inode) returns (r: Outcome<()>)
      requires Valid() && Entry(disk.names, p) == Some(inode) && inode in disk.store
      requires source in disk.names && disk.names[source] != inode
      modifies this
      ensures Stamps(inode, r.Crashed?, r.Exposed?)
      ensures rely.Nothing? && At(old(disk), source) != Absent ==>
                && !r.Raised?
                && (r.Done? ==>
                      disk == WithFile(old(disk), inode,
                                       WithAttributes(old(disk).store[inode],
                                                      At(old(disk), source).file.metadata.xattrs)))
    {
      var given, extra :- GivenAndExtra(source, p);
      r := ReplaceAttributes(source, p, inode, given, extra);
    }

    // chown and chmod
    method StampStat(p: Path, ghost inode: Inode, stat: Metadata) returns (r: Outcome<()>)
      requires Valid() && Entry(disk.names, p) == Some(inode) && inode in disk.store
      modifies this
      ensures Stamps(inode, r.Crashed?, r.Exposed?) && !r.Raised?
      ensures rely.Nothing? && r.Done? ==>
                var file := old(disk).store[inode];
                disk == WithFile(old(disk), inode, file.(metadata := stat.(xattrs := file.metadata.xattrs)))
    {
      var _ :- Stamp(p, inode, Owner(stat.uid, stat.gid));
      r := Stamp(p, inode, Mode(stat.mode));
    }

    // copy_metadata: ownership and mode come from the earlier stat, attributes from now.
    method CopyMetadata(source: Path, p: Path, stat: Metadata, ghost inode: Inode) returns (r: Outcome<()>)
      requires Valid() && Entry(disk.names, p) == Some(inode) && inode in disk.store
      requires source in disk.names && disk.names[source] != inode
      modifies this
      ensures Stamps(inode, r.Crashed?, r.Exposed?)
      ensures rely.Nothing? && At(old(disk), source) != Absent ==>
                && !r.Raised?
                && (r.Done? ==>
                      var metadata := stat.(xattrs := At(old(disk), source).file.metadata.xattrs);
                      disk == WithFile(old(disk), inode, old(disk).store[inode].(metadata := metadata)))
    {
      var _ :- StampStat(p, inode, stat);
      r := CopyAttributes(source, p, inode);
    }

    method Truncate(p: Path, ghost inode: Inode) returns (r: Outcome<()>)
      requires Valid() && Entry(disk.names, p) == Some(inode) && inode in disk.store
      modifies this
      ensures Spends(1, r.Done?, r.Cut())
      ensures Goes(r.Crashed?, r.Exposed?) && inherited == old(inherited) && !r.Raised?
      ensures r.Crashed? ==> Halted(old(disk), disk, inherited, rely)
      ensures r.Exposed? ==> Lost(old(disk), disk, rely)
      ensures r.Done? ==>
                exists store: map<Inode, File> ::
                  && Edited(old(disk), store, rely)
                  && disk == old(disk).(store := store[inode := Scrubbed(store[inode])])
    {
      var _ :- Tick();
      ghost var store := disk.store;
      disk := disk.(store := disk.store[disk.names[p] := Scrubbed(At(disk, p).file)]);
      writes := writes + 1;
      assert Edited(old(disk), store, rely);
      r := Done(());
    }

    /* ---- directory entries ---- */

    method MeetSync(directory: Path) returns (r: Outcome<()>)
      requires Valid()
      modifies this
      ensures Spends(1, r.Done?, r.Cut())
      ensures Ends(old(schedule), 0, Killed) ==> r.Crashed? && disk == old(disk)
      ensures Ends(old(schedule), 0, PowerLoss(false)) ==> r.Cut() && disk == LosePower(old(disk), false)
      ensures Goes(r.Crashed?, r.Exposed?) && !r.Raised? && writes == old(writes)
      ensures r.Cut() ==> Stops(r.Crashed?, r.Exposed?)
      ensures r.Done? ==>
                && disk.names == old(disk).names && disk.journal == old(disk).journal && disk.litter == old(disk).litter
                && Edited(old(disk), disk.store, rely)
                && disk.synced == SyncEntries(old(disk), directory)
                && inherited == (old(inherited) && Unsynced(disk, watched))
    {
      var _ :- Meet();
      disk := disk.(synced := SyncEntries(disk, directory));
      inherited := inherited && Unsynced(disk, watched);
      r := Done(());
    }

    // fsync_directory
    method SyncDirectory(directory: Path) returns (r: Outcome<()>)
      requires Valid()
      modifies this
      ensures Spends(1, r.Done?, r.Cut())
      ensures Goes(r.Crashed?, r.Exposed?) && !r.Raised? && writes == old(writes)
      ensures r.Cut() ==> Stops(r.Crashed?, r.Exposed?)
      ensures r.Done? ==>
                && disk.names == old(disk).names && disk.journal == old(disk).journal && disk.litter == old(disk).litter
                && Edited(old(disk), disk.store, rely)
                && disk.synced == SyncEntries(old(disk), directory)
                && inherited == (old(inherited) && Unsynced(disk, watched))
    {
      r := MeetSync(directory);
    }

    // renameat2 with RENAME_EXCHANGE
    method RenameExchange(a: Path, b: Path) returns (r: Outcome<()>)
      requires Valid()
      modifies this
      ensures Spends(1, r.Done?, r.Cut())
      ensures Stops(r.Crashed?, r.Exposed?)
      ensures !r.Cut() ==>
                && disk.synced == old(disk).synced && disk.journal == old(disk).journal
                     && disk.litter == old(disk).litter
                && Edited(old(disk), disk.store, rely)
                && (r.Done? <==> a in old(disk).names && b in old(disk).names)
                && disk.names == if r.Done? then SwapEntries(old(disk).names, a, b) else old(disk).names
    {
      var _ :- Tick();
      if a !in disk.names || b !in disk.names {
        return Raised(MissingPath);
      }
      disk := disk.(names := SwapEntries(disk.names, a, b));
      r := Done(());
    }

    method Rename(source: Path, destination: Path) returns (r: Outcome<()>)
      requires Valid()
      modifies this
      ensures Spends(1, r.Done?, r.Cut())
      ensures Stops(r.Crashed?, r.Exposed?)
      ensures !r.Cut() ==>
                && disk.synced == old(disk).synced && disk.journal == old(disk).journal
                     && disk.litter == old(disk).litter
                && Edited(old(disk), disk.store, rely)
                && (r.Done? <==> source in old(disk).names)
                && disk.names == if r.Done? then MoveEntry(old(disk).names, source, destination) else old(disk).names
    {
      var _ :- Tick();
      if source !in disk.names {
        return Raised(MissingPath);
      }
      disk := disk.(names := MoveEntry(disk.names, source, destination));
      r := Done(());
    }

    method Unlink(p: Path) returns (r: Outcome<()>)
      requires Valid()
      modifies this
      ensures Spends(1, r.Done?, r.Cut())
      ensures Ends(old(schedule), 0, PowerLoss(false)) ==> r.Cut() && disk == LosePower(old(disk), false)
      ensures Stops(r.Crashed?, r.Exposed?)
      ensures !r.Cut() ==>
                && disk.synced == old(disk).synced && disk.journal == old(disk).journal
                     && disk.litter == old(disk).litter
                && Edited(old(disk), disk.store, rely)
                && (r.Done? <==> p in old(disk).names)
                && disk.names == if r.Done? then old(disk).names - {p} else old(disk).names
    {
      var _ :- Meet();
      if p !in disk.names {
        return Raised(MissingPath);
      }
      disk := disk.(names := disk.names - {p});
      r := Done(());
    }

    /* ---- the journal ---- */

    // A stretch that changes nothing but the journal directory: where it was cut, and
    // how it ended.
    twostate predicate Records(crashed: bool, exposed: bool)
      reads this
    {
      && Goes(crashed, exposed) && inherited == old(inherited) && writes == old(writes)
      && (crashed ==> Passed(old(disk), disk, rely) || (!inherited && Fell(old(disk), disk, rely)))
      && (exposed ==> Fell(old(disk), disk, rely))
      && (!crashed && !exposed ==> Passed(old(disk), disk, rely))
    }

    // The mkdir of restricted_directory(journal, True), which syncs the parent.
    method OpenJournal() returns (r: Outcome<()>)
      requires Valid()
      modifies this
      ensures old(disk).journal != NoJournal ==> Spends(1, r.Done?, r.Cut())
      ensures Goes(r.Crashed?, r.Exposed?) && !r.Raised? && writes == old(writes)
      ensures r.Cut() ==> Records(r.Crashed?, r.Exposed?) && disk.journal in {old(disk).journal, NoIntent}
      ensures r.Done? ==>
                && disk.names == old(disk).names && Edited(old(disk), disk.store, rely)
                && (if old(disk).journal == NoJournal then
                      && disk.journal == NoIntent && disk.litter == 0
                      && disk.synced == SyncEntries(old(disk), Parent(journal))
                      && inherited == (old(inherited) && Unsynced(disk, watched))
                    else
                      && disk.journal == old(disk).journal && disk.litter == old(disk).litter
                      && disk.synced == old(disk).synced && inherited == old(inherited))
    {
      var _ :- Tick();
      if disk.journal == NoJournal {
        disk := disk.(journal := NoIntent, litter := 0);
        var _ :- SyncDirectory(Parent(journal));
      }
      r := Done(());
    }

    // os.listdir(journal)
    method RequireEmptyJournal() returns (r: Outcome<()>)
      requires Valid()
      modifies this
      ensures Spends(1, r.Done?, r.Cut())
      ensures Reads(r.Crashed?, r.Exposed?)
      ensures !r.Cut() ==>
                r == if disk.journal == NoIntent && disk.litter == 0 then Done(()) else Raised(JournalNotEmpty)
    {
      var _ :- Tick();
      if disk.journal != NoIntent || disk.litter > 0 {
        return Raised(JournalNotEmpty);
      }
      r := Done(());
    }

    // The journal directory is made if it is missing, and must be empty.
    method ClaimJournal(ghost a: Path, ghost b: Path) returns (r: Outcome<()>)
      requires Valid() && Parent(a) == Parent(b)
      modifies this
      ensures old(disk).journal != NoJournal ==> Spends(2, r.Done?, r.Cut())
      ensures Goes(r.Crashed?, r.Exposed?) && writes == old(writes)
      ensures Settles(old(disk), disk, a, b, rely) && disk.journal in {old(disk).journal, NoIntent}
      ensures !r.Cut() ==>
                && disk.names == old(disk).names
                     && disk.synced in {old(disk).synced, SyncEntries(old(disk), Parent(journal))}
                && (r.Done? <==> Unused(old(disk)))
      ensures r.Done? ==>
                && disk.journal == NoIntent && inherited in {old(inherited), false}
                && (!inherited && (old(inherited) || !Unsynced(old(disk), watched)) ==> !Unsynced(disk, watched))
                && (old(disk).journal != NoJournal ==> disk.synced == old(disk).synced)
                && (old(disk).journal == NoJournal && Parent(journal) == Parent(a) ==>
                      disk.synced == SyncEntries(old(disk), Parent(a)) && (watched == {a, b} ==> !inherited))
    {
      var _ :- OpenJournal();
      r := RequireEmptyJournal();
    }

    // write_json: a temporary file takes the place of the old intent atomically.
    method WriteIntent(intent: Intent) returns (r: Outcome<()>)
      requires Valid()
      modifies this
      ensures Spends(2, r.Done?, r.Cut())
      ensures Records(r.Crashed?, r.Exposed?) && !r.Raised?
      ensures if r.Done? then disk.journal == Holds(intent) && disk.litter == old(disk).litter
              else disk.journal == old(disk).journal && disk.litter in {old(disk).litter, old(disk).litter + 1}
    {
      var _ :- Tick();
      disk := disk.(litter := disk.litter + 1);
      var _ :- Tick();
      disk := disk.(journal := Holds(intent), litter := disk.litter - 1);
      r := Done(());
    }

    method SetPhase(intent: Intent, phase: Phase) returns (r: Outcome<Intent>)
      requires Valid()
      modifies this
      ensures Spends(2, r.Done?, r.Cut())
      ensures Records(r.Crashed?, r.Exposed?) && !r.Raised?
      ensures if r.Done? then r.value == intent.(phase := phase) && disk.journal == Holds(r.value)
              else disk.journal == old(disk).journal
    {
      var changed := intent.(phase := phase);
      var _ :- WriteIntent(changed);
      r := Done(changed);
    }

    method ReadIntent() returns (r: Outcome<Intent>)
      requires Valid()
      modifies this
      ensures Reads(r.Crashed?, r.Exposed?)
      ensures !r.Cut() ==> r == if disk.journal.Holds? then Done(disk.journal.intent) else Raised(IntentUnreadable)
    {
      var _ :- Tick();
      if !disk.journal.Holds? {
        return Raised(IntentUnreadable);
      }
      r := Done(disk.journal.intent);
    }

    // One file of the journal directory: truncated, then unlinked.
    method RemoveFile(intentFile: bool) returns (r: Outcome<()>)
      requires Valid()
      requires if intentFile then disk.journal.Holds? || disk.journal == Unreadable else disk.litter > 0
      modifies this
      ensures Records(r.Crashed?, r.Exposed?) && !r.Raised?
      ensures if intentFile then
                && disk.litter == old(disk).litter
                && (if r.Done? then disk.journal == NoIntent else disk.journal in {old(disk).journal, Unreadable})
              else
                && disk.journal == old(disk).journal
                && disk.litter == if r.Done? then old(disk).litter - 1 else old(disk).litter
    {
      var _ :- Tick();
      if intentFile {
        disk := disk.(journal := Unreadable);
      }
      var _ :- Tick();
      disk := if intentFile then disk.(journal := NoIntent) else disk.(litter := disk.litter - 1);
      r := Done(());
    }

    // The loop of remove_journal, in whatever order the directory is listed.
    method EmptyJournal() returns (r: Outcome<()>)
      requires Valid() && disk.journal != NoJournal
      modifies this
      ensures Records(r.Crashed?, r.Exposed?) && !r.Raised?
      ensures disk.journal in {old(disk).journal, Unreadable, NoIntent}
      ensures r.Done? ==> disk.journal == NoIntent && disk.litter == 0
    {
      while disk.litter > 0 || disk.journal != NoIntent
        invariant Records(false, false) && disk.journal in {old(disk).journal, Unreadable, NoIntent}
        invariant disk.journal != NoJournal
        decreases disk.litter, disk.journal != NoIntent
      {
        var first := *;
        var _ :- RemoveFile(disk.litter == 0 || (first && disk.journal != NoIntent));
      }
      r := Done(());
    }

    // The files, then the directory.
    method EmptyAndRemove() returns (r: Outcome<()>)
      requires Valid() && disk.journal != NoJournal
      modifies this
      ensures Records(r.Crashed?, r.Exposed?) && !r.Raised?
      ensures disk.journal in {old(disk).journal, Unreadable, NoIntent, NoJournal}
      ensures r.Done? ==> disk.journal == NoJournal && disk.litter == 0
    {
      var _ :- EmptyJournal();
      var _ :- Tick();
      disk := disk.(journal := NoJournal);
      r := Done(());
    }

    // remove_journal: the files, the directory, and a sync of its parent.
    method RemoveJournal() returns (r: Outcome<()>)
      requires Valid() && disk.journal != NoJournal
      modifies this
      ensures Goes(r.Crashed?, r.Exposed?) && !r.Raised? && writes == old(writes)
      ensures r.Cut() ==>
                Records(r.Crashed?, r.Exposed?) && disk.journal in {old(disk).journal, Unreadable, NoIntent, NoJournal}
      ensures r.Done? ==>
                && disk.journal == NoJournal && disk.litter == 0
                && disk.names == old(disk).names && Edited(old(disk), disk.store, rely)
                && disk.synced == SyncEntries(old(disk), Parent(journal))
                && inherited == (old(inherited) && Unsynced(disk, watched))
    {
      var _ :- EmptyAndRemove();
      r := SyncDirectory(Parent(journal));
    }
  }
}
