/** The audit writer: `record`, its recovery, and `verify_self`. */
module AuditLog {
  import opened Common
  import opened Text
  import opened AuditChain
  import opened AuditVerify
  import opened AuditState
  import Segments

  datatype Error =
    | Io | Quarantined | KeyStateChanged | JournalUnreadable | CheckpointNotExtended
    | TailMismatch | MalformedRecord | TailNotExtended | HeadUnreadable | CheckpointMismatch
    | IntegrityFailed | StateChanged

  // How some statements ended: with a value, with an error, or with the process.
  datatype Outcome<+T> = Done(value: T) | Failed(error: Error) | Crashed {
    predicate IsFailure() { !Done? }

    function PropagateFailure<U>(): Outcome<U>
      requires !Done?
    {
      if Crashed? then Crashed else Failed(error)
    }

    function Extract(): T
      requires Done?
    {
      value
    }
  }

  // What happens at one statement that touches the disk: it goes on, or an I/O error
  // or a crash stops it; an append may stop after `torn` characters.
  datatype Fate = Continue | Stop(crash: bool, torn: nat)

  // The checks of recover_record_append: where the complete lines end, if the rest is a
  // part of `line` and the last complete record is the one that `line` links to.
  function CheckTail(s: Scheme, content: string, line: string): (r: Outcome<nat>)
    ensures r.Done? ==> r.value <= |content|
    ensures !r.Crashed? && (r.Failed? ==> r.error in {TailMismatch, MalformedRecord, TailNotExtended})
  {
    var start := LastLineStart(content);
    var parsed := s.parse(line);
    if !(content[start..] <= line) then Failed(TailMismatch)
    else if parsed.None? then Failed(MalformedRecord)
    else
      var lastLine := LastLine(content[..start]);
      var lastHash := if lastLine == "" then Some("") else s.tailHash(lastLine);
      if lastHash.None? then Failed(MalformedRecord)
      else if lastHash.value != s.prevOf(parsed.value.body) then Failed(TailNotExtended)
      else Done(start)
  }

  // What recovery says of any tail after a last complete line.
  lemma TailCheck(s: Scheme, front: string, last: string, rest: string, line: string)
    requires EndsLine(front) && last != "" && '\n' !in last && '\n' !in rest
    ensures var check := CheckTail(s, front + last + "\n" + rest, line);
            if !(rest <= line) then check == Failed(TailMismatch)
            else if s.parse(line).None? || s.tailHash(last).None? then check == Failed(MalformedRecord)
            else if s.tailHash(last).value != s.prevOf(s.parse(line).value.body) then check == Failed(TailNotExtended)
            else check == Done(|front + last + "\n"|)
  {
    var base := front + last + "\n";
    LastLineStartOf(base, rest);
    TakeOfConcat(base, rest);
    LastLineIs(front, last);
    assert (base + rest)[|base|..] == rest;
  }

  // The same of a tail without one.
  lemma FirstTailCheck(s: Scheme, rest: string, line: string)
    requires '\n' !in rest
    ensures var check := CheckTail(s, rest, line);
            if !(rest <= line) then check == Failed(TailMismatch)
            else if s.parse(line).None? then check == Failed(MalformedRecord)
            else if s.prevOf(s.parse(line).value.body) != "" then check == Failed(TailNotExtended)
            else check == Done(0)
  {
    LastLineStartOf("", rest);
    assert "" + rest == rest && rest[0..] == rest && rest[..0] == "";
  }

  // After printed records a tail passes exactly if it is a part of the line, and the line
  // links to the last of them.
  lemma PrintedTailCheck(s: Scheme, records: seq<Sealed>, rest: string, r: Sealed)
    requires s.Valid() && '\n' !in rest
    ensures var check := CheckTail(s, Printed(s, records) + rest, s.encode(r));
            if !(rest <= s.encode(r)) then check == Failed(TailMismatch)
            else if s.prevOf(r.body) != LastHash(records) then check == Failed(TailNotExtended)
            else check == Done(|Printed(s, records)|)
  {
    if records == [] {
      assert Printed(s, records) + rest == rest;
      FirstTailCheck(s, rest, s.encode(r));
    } else {
      var n := |records| - 1;
      var front, last := Printed(s, records[..n]), s.encode(records[n]);
      assert !IsBlank(last) && '\n' !in last;
      assert Printed(s, records) == front + last + "\n";
      TailCheck(s, front, last, rest, s.encode(r));
    }
  }

  lemma TornTailPasses(s: Scheme, records: seq<Sealed>, r: Sealed, torn: nat)
    requires s.Valid() && s.Separated() && torn < |LineOf(s, r)|
    requires s.prevOf(r.body) == LastHash(records) && r.hash == s.seal(r.body)
    ensures var content := Printed(s, records) + LineOf(s, r)[..torn];
            CheckTail(s, content, s.encode(r)) == Done(|Printed(s, records)|)
  {
    assert LineOf(s, r)[..torn] == s.encode(r)[..torn];
    PrintedTailCheck(s, records, s.encode(r)[..torn], r);
  }

  // On a disk in flight, recovery finds either the whole line or a tail that passes.
  lemma TailInFlight(s: Scheme, d: Disk, commits: seq<Commit>, torn: nat)
    requires s.Valid() && s.Separated() && WellFormed(s, commits)
    requires commits != [] && InFlightAt(s, d, commits, torn)
    ensures var c, base := commits[|commits| - 1],
              Printed(s, Project(commits[..|commits| - 1], commits[|commits| - 1].file));
            var content := if c.file in d.files then d.files[c.file] else "";
            && (IsTail(LineOf(s, c.record), content) <==> torn == |LineOf(s, c.record)|)
            && (torn < |LineOf(s, c.record)| ==>
                  CheckTail(s, content, s.encode(c.record)) == Done(|base|) && |base| <= |content|)
  {
    var before, c := commits[..|commits| - 1], commits[|commits| - 1];
    ContentInFlight(s, d, commits, torn);
    TornTail(s, Project(before, c.file), c.record, torn);
    if torn < |LineOf(s, c.record)| {
      TornTailPasses(s, Project(before, c.file), c.record, torn);
    }
  }

  // What completing a line may do to the files, finished or not.
  predicate LineRecovered(s: Scheme, before: map<FileId, string>, after: map<FileId, string>, file: FileId,
                          line: string,
                          cut: bool, written: nat)
    requires written <= |line + "\n"|
  {
    var complete, content := line + "\n", if file in before then before[file] else "";
    var check := CheckTail(s, content, line);
    if IsTail(complete, content) || check.Failed? then after == before && !cut
    else check.Done? && Rewritten(before, after, file, check.value, complete, cut, written)
  }

  lemma RecoveredStaysInFlightAt(s: Scheme, d: Disk, d': Disk, commits: seq<Commit>, torn: nat, cut: bool, written: nat)
    requires s.Valid() && s.Separated() && WellFormed(s, commits)
    requires commits != [] && InFlightAt(s, d, commits, torn)
    requires var c := commits[|commits| - 1];
             && written <= |LineOf(s, c.record)| && d' == d.(files := d'.files)
             && LineRecovered(s, d.files, d'.files, c.file, s.encode(c.record), cut, written)
    ensures InFlightAt(s, d', commits, if cut then written else torn)
  {
    var c := commits[|commits| - 1];
    TailInFlight(s, d, commits, torn);
    if torn < |LineOf(s, c.record)| {
      RewriteStaysInFlight(s, d, d', commits, torn, cut, written);
    } else {
      assert d' == d;
    }
  }

  // A step of completing the line leaves the disk in flight, and a finished one leaves
  // the whole line.
  lemma RecoveredStaysInFlight(s: Scheme, d: Disk, d': Disk, commits: seq<Commit>, cut: bool, written: nat)
    requires s.Valid() && s.Separated() && WellFormed(s, commits)
    requires commits != [] && InFlight(s, d, commits)
    requires var c := commits[|commits| - 1];
             && written <= |LineOf(s, c.record)| && d' == d.(files := d'.files)
             && LineRecovered(s, d.files, d'.files, c.file, s.encode(c.record), cut, written)
    ensures InFlight(s, d', commits)
    ensures var c := commits[|commits| - 1];
            var content := if c.file in d.files then d.files[c.file] else "";
            && (IsTail(LineOf(s, c.record), content) || CheckTail(s, content, s.encode(c.record)).Done?)
            && (IsTail(LineOf(s, c.record), content) || (cut && written == |LineOf(s, c.record)|) ==>
                  LineWritten(s, d', commits))
  {
    var torn :| InFlightAt(s, d, commits, torn);
    TailInFlight(s, d, commits, torn);
    RecoveredStaysInFlightAt(s, d, d', commits, torn, cut, written);
  }

  /* ---- rolling a journal forward ---- */

  function ContentOf(d: Disk, file: FileId): string {
    if file in d.files then d.files[file] else ""
  }

  // The end of the file is neither the line of the journal nor what it goes on from.
  predicate TailRefused(s: Scheme, d: Disk, p: Pending) {
    p.record.Some?
    && var content, line := ContentOf(d, p.record.value.0), p.record.value.1;
       !IsTail(line + "\n", content) && CheckTail(s, content, line).Failed?
  }

  // The line of the journal is in its file, as it was or because it has been written.
  predicate LineThere(d: Disk, p: Pending, cut: bool, written: nat) {
    p.record.Some? ==>
      var complete := p.record.value.1 + "\n";
      IsTail(complete, ContentOf(d, p.record.value.0)) || (cut && written == |complete|)
  }

  predicate FilesRecovered(s: Scheme, d: Disk, d': Disk, p: Pending, cut: bool, written: nat) {
    if p.record.None? then d'.files == d.files
    else
      && written <= |p.record.value.1 + "\n"|
      && LineRecovered(s, d.files, d'.files, p.record.value.0, p.record.value.1, cut, written)
  }

  // What carrying out a journal may do to a disk, finished or not: complete the line, and
  // after the whole line write the head, the checkpoint and the end of the journal.
  predicate RolledForward(s: Scheme, d: Disk, d': Disk, p: Pending, cut: bool, written: nat) {
    var appended := d.(files := d'.files);
    var headed := appended.(head := Head(p.head));
    var stored := headed.(checkpoint := Some(p.checkpoint));
    && FilesRecovered(s, d, d', p, cut, written)
    && (d' == appended
        || (LineThere(d, p, cut, written) && (d' == headed || d' == stored || d' == stored.(journal := None))))
  }

  // Some such disk.
  ghost predicate Forward(s: Scheme, d: Disk, d': Disk, p: Pending) {
    exists cut, written :: RolledForward(s, d, d', p, cut, written)
  }

  lemma NothingRolled(s: Scheme, d: Disk, p: Pending)
    ensures Forward(s, d, d, p)
  {
    assert RolledForward(s, d, d, p, false, 0);
  }

  lemma ForwardIsSane(s: Scheme, d: Disk, d': Disk, commits: seq<Commit>, p: Pending)
    requires s.Valid() && s.Separated() && Sane(s, d, commits) && d.journal == Some(p) && Forward(s, d, d', p)
    ensures Sane(s, d', commits) && !TailRefused(s, d, p)
    ensures d'.journal == None ==> d' == Settled(s, commits)
  {
    var cut, written :| RolledForward(s, d, d', p, cut, written);
    RolledForwardIsSane(s, d, d', commits, p, cut, written);
  }

  // The file of the journal ends in its line.
  predicate EndsInLine(d: Disk, p: Pending) {
    p.record.Some? ==> IsTail(p.record.value.1 + "\n", ContentOf(d, p.record.value.0))
  }

  lemma WrittenLineIsThere(s: Scheme, d: Disk, d': Disk, p: Pending, cut: bool, written: nat)
    requires FilesRecovered(s, d, d', p, cut, written) && LineThere(d, p, cut, written)
    ensures EndsInLine(d', p)
  {
    if p.record.Some? {
      var complete := p.record.value.1 + "\n";
      assert complete[..|complete|] == complete;
    }
  }

  // On a disk that the writer left it is never refused, and leads to the settled disk.
  lemma RolledForwardIsSane(s: Scheme, d: Disk, d': Disk, commits: seq<Commit>, p: Pending, cut: bool, written: nat)
    requires s.Valid() && s.Separated() && Sane(s, d, commits) && d.journal == Some(p)
    requires RolledForward(s, d, d', p, cut, written)
    ensures Sane(s, d', commits) && !TailRefused(s, d, p)
    ensures d'.journal == None ==> d' == Settled(s, commits)
  {
    JournalOfSane(s, d, commits);
    var appended := d.(files := d'.files);
    if commits == [] {
      assert appended == d;
      if d' != d {
        ReadyCloses(s, d, d', commits);
      }
    } else {
      RecoveredStaysInFlight(s, d, appended, commits, cut, written);
      if d' == appended {
        InFlightIsSane(s, appended, commits);
      } else {
        ReadyCloses(s, appended, d', commits);
      }
    }
  }

  /* ---- the first checkpoint ---- */

  function EntryOfText(s: Scheme, id: FileId, content: string): Entry {
    var t := Scan(s, START, Rows(s, Lines(content)));
    Entry(t.records, t.last, s.entryMac(id, t.records, t.last))
  }

  // Without a checkpoint a directory must verify, but may be all legacy if it has no head.
  ghost predicate Startable(s: Scheme, d: Disk) {
    Intact(s, d.files, d.head, None, d.head == NoHead)
  }

  // Without a head it must hold legacy records only: a keyed record is never adopted.
  lemma StartableIsLegacy(s: Scheme, d: Disk)
    requires d.head == NoHead
    ensures Startable(s, d) <==> forall id | id in d.files :: IsLegacyFile(s, d.files[id])
  {
    IntactIff(s, d.files, NoHead, None, true);
    forall id | id in d.files
      ensures (exists records :: FileIntact(s, id, d.files[id], None, true, records)) <==> IsLegacyFile(s, d.files[id])
    {
      LegacyFileIff(s, id, d.files[id]);
    }
  }

  lemma LegacyFileIff(s: Scheme, id: FileId, content: string)
    ensures (exists records :: FileIntact(s, id, content, None, true, records)) <==> IsLegacyFile(s, content)
  {
    forall records
      ensures FileIntact(s, id, content, None, true, records) <==> IsLegacyChain(s, content, records)
    {
    }
  }

  // Complete lines of a chain of records none of which is keyed.
  ghost predicate IsLegacyFile(s: Scheme, content: string) {
    exists records :: IsLegacyChain(s, content, records)
  }

  predicate IsLegacyChain(s: Scheme, content: string, records: seq<Sealed>) {
    && EndsLine(content) && Rows(s, Lines(content)) == Wrapped(records) && Chained(s, records)
    && forall r | r in records :: !s.keyed(r.body)
  }

  // So the files of a settled log are not adopted when head and checkpoint are gone.
  lemma KeyedLogIsNotStartable(s: Scheme, commits: seq<Commit>)
    requires s.Valid() && WellFormed(s, commits) && commits != []
    ensures !Startable(s, Settled(s, commits).(head := NoHead, checkpoint := None))
  {
    var d := Settled(s, commits).(head := NoHead, checkpoint := None);
    var c := commits[|commits| - 1];
    StartableIsLegacy(s, d);
    assert c in commits && c.file in d.files;
    PrintedReadsBack(s, Project(commits, c.file));
    var n := |Project(commits, c.file)| - 1;
    assert Project(commits, c.file)[n] == c.record;
    assert c.record in Project(commits, c.file);
    if records :| IsLegacyChain(s, d.files[c.file], records) {
      PresentOfWrapped(records);
      PresentOfWrapped(Project(commits, c.file));
    }
  }

  // The entries that the first checkpoint protects.
  ghost predicate InitialEntries(s: Scheme, d: Disk, entries: map<FileId, Entry>) {
    if d.head == NoHead then
      entries.Keys == d.files.Keys && forall id | id in d.files :: entries[id] == EntryOfText(s, id, d.files[id])
    else
      HeadOf(ReadHead(s, d.head)) == Some(entries)
  }

  function Initialized(d: Disk, p: Pending): Disk {
    d.(head := Head(p.head), checkpoint := Some(p.checkpoint), journal := None)
  }

  // What verifies holds no malformed line.
  lemma IntactIsGapless(s: Scheme, files: map<FileId, string>, head: HeadFile, checkpoint: Option<Checkpoint>,
                        allowLegacy: bool, id: FileId)
    requires Intact(s, files, head, checkpoint, allowLegacy)
    ensures None !in Rows(s, Lines(if id in files then files[id] else ""))
  {
    if id in files {
      var entry := Lookup(HeadOf(ReadHead(s, head)), id);
      FileIntactIff(s, id, files[id], entry, allowLegacy);
      var records :| FileIntact(s, id, files[id], entry, allowLegacy, records);
      PresentOfWrapped(records);
    }
  }

  // The first checkpoint puts a legacy directory under the strict rules: what was
  // accepted without a head is accepted with one.
  lemma InitializedIsIntact(s: Scheme, d: Disk, entries: map<FileId, Entry>)
    requires Startable(s, d) && InitialEntries(s, d, entries)
    ensures var d' := Initialized(d, InitialPending(s, entries));
            Intact(s, d'.files, d'.head, d'.checkpoint, false)
  {
    var d' := Initialized(d, InitialPending(s, entries));
    forall id | id in d.files
      ensures FileBreaks(s, id, d.files[id], Lookup(HeadOf(ReadHead(s, d'.head)), id), false) == []
    {
      var before := Lookup(HeadOf(ReadHead(s, d.head)), id);
      assert FileBreaks(s, id, d.files[id], before, d.head == NoHead) == [];
    }
  }

  // The disks on the way to the first checkpoint.
  predicate OnTheWay(d: Disk, d': Disk, p: Pending) {
    var journalled := d.(journal := Some(p));
    var headed := journalled.(head := Head(p.head));
    var stored := headed.(checkpoint := Some(p.checkpoint));
    d' == journalled || d' == headed || d' == stored || d' == stored.(journal := None)
  }

  // An empty directory starts without fault, and ends as the log of no commits.
  lemma EmptyStarts(s: Scheme)
    requires s.Valid()
    ensures Startable(s, EMPTY) && !(ReadHead(s, EMPTY.head).Tampered?)
    ensures forall entries | InitialEntries(s, EMPTY, entries) :: entries == map[]
    ensures forall d | OnTheWay(EMPTY, d, InitPending(s)) :: Sane(s, d, [])
    ensures Initialized(EMPTY, InitPending(s)) == Settled(s, [])
  {
    InitPendingHolds(s);
    assert TextsOf(s, []) == map[];
  }

  /* ---- opening and extending a settled log ---- */

  function SizesOf(files: map<FileId, string>): map<FileId, nat> {
    map f | f in files :: |files[f]|
  }

  lemma SettledTail(s: Scheme, commits: seq<Commit>, file: FileId)
    requires s.Valid() && WellFormed(s, commits)
    ensures var files := Settled(s, commits).files;
            var rows := Rows(s, Lines(if file in files then files[file] else ""));
            && Scan(s, START, rows).last == LastHash(Project(commits, file))
            && Scan(s, START, rows).records == |Project(commits, file)|
  {
    var records := Project(commits, file);
    ProjectOfAbsent(commits, file);
    PrintedReadsBack(s, records);
    ScanOfChain(s, records);
  }

  lemma SizesOfTexts(s: Scheme, commits: seq<Commit>)
    ensures SizesOf(TextsOf(s, commits)) == Sizes(s, commits)
  {
  }

  lemma SettledSizes(s: Scheme, commits: seq<Commit>)
    ensures SizesOf(Settled(s, commits).files) == Sizes(s, commits)
  {
    SizesOfTexts(s, commits);
  }

  // What validate_audit_state demands of disk and memory.
  predicate Consistent(s: Scheme, d: Disk, loaded: Option<Checkpoint>, sizes: map<FileId, nat>, file: FileId,
                       count: nat, prev: string) {
    var read := ReadHead(s, d.head);
    && read.Found? && CheckpointFits(read.anchor, loaded)
    && SizesOf(d.files) == sizes
    && read.anchor.Some? && file in read.anchor.value.entries
    && read.anchor.value.entries[file].Entry?
    && read.anchor.value.entries[file].count == count && read.anchor.value.entries[file].last == prev
  }

  // It passes exactly if the signed head is the one that memory's checkpoint stands for
  // and ends the file as memory has it, and every file has the length it had.
  lemma ConsistentIff(s: Scheme, d: Disk, checkpoint: Checkpoint, sizes: map<FileId, nat>, file: FileId, count: nat,
                      prev: string)
    ensures Consistent(s, d, Some(checkpoint), sizes, file, count, prev) <==>
              && d.head.Head? && SignedBy(s, d.head.doc) == d.head.doc.mac == checkpoint.mac
              && checkpoint.generation == (if d.head.doc.legacy then 0 else d.head.doc.generation)
              && (d.head.doc.legacy || d.head.doc.generation > 0)
              && d.files.Keys == sizes.Keys && (forall f | f in d.files :: |d.files[f]| == sizes[f])
              && file in d.head.doc.entries && d.head.doc.entries[file].Entry?
              && d.head.doc.entries[file].count == count && d.head.doc.entries[file].last == prev
  {
  }

  lemma SettledIsConsistent(s: Scheme, commits: seq<Commit>, file: FileId)
    requires file in FilesOf(commits)
    ensures var d, records := Settled(s, commits), Project(commits, file);
            Consistent(s, d, d.checkpoint, Sizes(s, commits), file, |records|, LastHash(records))
  {
    SettledSizes(s, commits);
  }

  // What prepare_commit builds from the head it finds.
  function Prepared(s: Scheme, entries: map<FileId, Entry>, checkpoint: Option<Checkpoint>, file: FileId, count: nat,
                    r: Sealed): Pending {
    var extended := entries[file := Entry(count, r.hash, s.entryMac(file, count, r.hash))];
    var generation := if checkpoint.Some? then checkpoint.value.generation + 1 else 1;
    var mac := s.manifestMac(HEAD_FORMAT_VERSION, generation, extended);
    Pending(checkpoint, Checkpoint(generation, mac), Some((file, s.encode(r))),
            HeadDoc(false, generation, extended, mac))
  }

  // The prepared journal is the one that the history determines.
  lemma PreparedIsPending(s: Scheme, before: seq<Commit>, c: Commit)
    ensures var d := Settled(s, before);
            && ReadHead(s, d.head)
                 == Found(Some(Anchor(Generation(before), EntriesOf(s, before), HeadAfter(s, before).mac)))
            && CheckpointFits(ReadHead(s, d.head).anchor, d.checkpoint)
            && Prepared(s, EntriesOf(s, before), d.checkpoint, c.file, |Project(before, c.file)| + 1, c.record)
               == PendingOf(s, before, c)
  {
    var records := Project(before, c.file);
    assert LastHash(records + [c.record]) == c.record.hash;
    EntriesOneMore(s, before, c);
  }

  // A settled disk with the journal of one more commit.
  function Journalled(s: Scheme, before: seq<Commit>, c: Commit): Disk {
    Settled(s, before).(journal := Some(PendingOf(s, before, c)))
  }

  lemma JournalledIsInFlight(s: Scheme, before: seq<Commit>, c: Commit)
    requires WellFormed(s, before + [c])
    ensures WellFormed(s, before) && InFlightAt(s, Journalled(s, before, c), before + [c], 0)
    ensures Sane(s, Journalled(s, before, c), before + [c])
  {
    var commits := before + [c];
    assert commits[..|commits| - 1] == before;
    assert InFlightAt(s, Journalled(s, before, c), commits, 0);
  }

  // What carrying out a journalled commit may do: write the line, or a part of it, and
  // after the whole line the head, the checkpoint and the end of the journal.
  predicate Carried(d: Disk, d': Disk, file: FileId, complete: string, pending: Pending, cut: bool, written: nat)
    requires written <= |complete|
  {
    var appended, content := d.(files := d'.files), if file in d.files then d.files[file] else "";
    var headed := appended.(head := Head(pending.head));
    var stored := headed.(checkpoint := Some(pending.checkpoint));
    && Rewritten(d.files, d'.files, file, |content|, complete, cut, written)
    && (d' == appended
        || (cut && written == |complete| && (d' == headed || d' == stored || d' == stored.(journal := None))))
  }

  lemma CarriedIsSane(s: Scheme, before: seq<Commit>, c: Commit, d: Disk, d': Disk, p: Pending, cut: bool, written: nat)
    requires WellFormed(s, before + [c]) && d == Journalled(s, before, c) && p == PendingOf(s, before, c)
    requires written <= |LineOf(s, c.record)| && Carried(d, d', c.file, LineOf(s, c.record), p, cut, written)
    ensures Sane(s, d', before + [c])
    ensures d'.journal == None ==> d' == Settled(s, before + [c])
  {
    var commits := before + [c];
    assert commits[..|commits| - 1] == before;
    JournalledIsInFlight(s, before, c);
    var appended := d.(files := d'.files);
    ContentInFlight(s, d, commits, 0);
    assert LineOf(s, c.record)[..0] == "";
    RewriteStaysInFlight(s, d, appended, commits, 0, cut, written);
    InFlightIsSane(s, appended, commits);
    if d' != appended {
      ReadyCloses(s, appended, d', commits);
    }
  }

  lemma CommitStepsAreSane(s: Scheme, before: seq<Commit>, after: seq<Commit>, c: Commit, d: Disk, d': Disk, p: Pending,
                           cut: bool, written: nat)
    requires WellFormed(s, before + [c])
    requires || (d' == Settled(s, before) && after == before)
             || (d' == Journalled(s, before, c) && after == before + [c])
             || (after == before + [c] && d == Journalled(s, before, c) && p == PendingOf(s, before, c)
                 && written <= |LineOf(s, c.record)| && Carried(d, d', c.file, LineOf(s, c.record), p, cut, written))
    ensures Sane(s, d', after)
    ensures after == before + [c] && d'.journal == None ==> d' == Settled(s, after) && c.file in d'.files
  {
    JournalledIsInFlight(s, before, c);
    TextsOneMore(s, before, c);
    if after != before && d' != Journalled(s, before, c) {
      CarriedIsSane(s, before, c, d, d', p, cut, written);
    }
  }

  // The commit records the request, on top of the last record of its file.
  ghost predicate Answers(s: Scheme, before: seq<Commit>, c: Commit, day: string, request: string) {
    && c.record.body == s.compose(request, LastHash(Project(before, c.file)))
    && Segments.Takes(c.file, day, Sizes(s, before))
  }

  lemma RequestExtends(s: Scheme, before: seq<Commit>, c: Commit, day: string, request: string)
    requires s.Valid() && ValidDay(day) && Segments.Takes(c.file, day, Sizes(s, before))
    requires c.record.body == s.compose(request, LastHash(Project(before, c.file)))
    requires c.record.hash == s.seal(c.record.body)
    ensures Extends(s, before, c) && Answers(s, before, c, day, request)
  {
    assert c.file[..8] == day;
  }

  lemma RequestMakesCommit(s: Scheme, before: seq<Commit>, c: Commit, day: string, request: string)
    requires s.Valid() && WellFormed(s, before) && ValidDay(day) && c.file in Segments.Taking(day, Sizes(s, before))
    requires c.record.body == s.compose(request, LastHash(Project(before, c.file)))
    requires c.record.hash == s.seal(c.record.body)
    ensures WellFormed(s, before + [c]) && Extends(s, before, c) && Answers(s, before, c, day, request)
  {
    RequestExtends(s, before, c, day, request);
    assert (before + [c])[..|before|] == before;
  }

  // The file is the greatest of its day, or beyond the last number of the day.
  ghost predicate IsActive(commits: seq<Commit>, file: FileId) {
    file in FilesOf(commits) && (ValidFile(file) ==> Segments.IsGreatest(file, file[..8], FilesOf(commits)))
  }

  lemma ActiveIsRight(s: Scheme, commits: seq<Commit>, file: FileId, day: string)
    requires IsActive(commits, file) && ValidDay(day) && Segments.MatchesDay(file, day)
    requires file in Sizes(s, commits) && Sizes(s, commits)[file] < Segments.AUDIT_SEGMENT_MAX_BYTES
    ensures Segments.Takes(file, day, Sizes(s, commits))
  {
    assert file[..8] == day;
    Segments.GreatestIsUnique(file, day, FilesOf(commits));
    assert Sizes(s, commits).Keys == FilesOf(commits);
  }

  // What one commit changes in the writer's view of the log.
  lemma ViewAfterCommit(s: Scheme, before: seq<Commit>, c: Commit, d: Disk)
    requires d == Settled(s, before + [c])
    ensures c.file in d.files
    ensures Sizes(s, before)[c.file := |d.files[c.file]|] == Sizes(s, before + [c])
    ensures c.record.hash == LastHash(Project(before + [c], c.file))
    ensures |Project(before, c.file)| + 1 == |Project(before + [c], c.file)|
  {
    ProjectsOneMore(before, c);
    SizesAfterCommit(s, before, c);
  }

  lemma SizesAfterCommit(s: Scheme, before: seq<Commit>, c: Commit)
    ensures var texts := TextsOf(s, before + [c]);
            c.file in texts && Sizes(s, before)[c.file := |texts[c.file]|] == Sizes(s, before + [c])
  {
    TextsOneMore(s, before, c);
    var text := Printed(s, Project(before, c.file)) + LineOf(s, c.record);
    SizesOfUpdate(TextsOf(s, before), c.file, text);
    SizesOfTexts(s, before);
    SizesOfTexts(s, before + [c]);
  }

  lemma SizesOfUpdate(files: map<FileId, string>, file: FileId, text: string)
    ensures SizesOf(files[file := text]) == SizesOf(files)[file := |text|]
  {
  }

  lemma ActiveAfterCommit(s: Scheme, before: seq<Commit>, c: Commit)
    requires Extends(s, before, c)
    ensures IsActive(before + [c], c.file)
  {
    FilesOneMore(before, c);
    Segments.SegmentIdMatches(c.file[..8], Segments.MAX_SEGMENT + 1);
  }

  // The errors a process may meet on a log that this program made: input and output, a
  // journal that cannot be read, and key state that another process has changed.
  predicate Expected(error: Error, stuck: bool, stale: bool) {
    error == Io || (error == JournalUnreadable && stuck) || (error == KeyStateChanged && stale)
  }

  predicate Stale(loaded: Option<Option<Checkpoint>>, d: Disk) {
    loaded.Some? && loaded.value != d.checkpoint
  }

  /** One process with the log open. The fields after `schedule` are those of `Inner`. */
  class AuditLog {
    const s: Scheme
    var disk: Disk
    var schedule: seq<Fate>

    var loaded: Option<Option<Checkpoint>>
    var writer: Option<FileId>
    var prevHash: string
    var count: nat
    var sizes: Option<map<FileId, nat>>
    var poisoned: bool

    // The commits whose journal has become durable, in order.
    ghost var commits: seq<Commit>

    // A process starts with nothing in memory, on any disk a former one has left.
    constructor (s: Scheme, disk: Disk, schedule: seq<Fate>, ghost commits: seq<Commit>)
      requires s.Valid() && s.Separated() && Sane(s, disk, commits)
      ensures Valid() && !poisoned && this.s == s
      ensures this.disk == disk && this.schedule == schedule && this.commits == commits
    {
      this.s, this.disk, this.schedule, this.commits := s, disk, schedule, commits;
      loaded, writer, prevHash, count, sizes, poisoned := None, None, "", 0, None, false;
    }

    ghost predicate Legal()
      reads `disk, `commits
    {
      s.Valid() && s.Separated() && Sane(s, disk, commits)
    }

    // Memory agrees with a settled disk, and holds the end of one file.
    ghost predicate Knows(file: FileId)
      reads `disk, `commits, `loaded, `sizes, `prevHash, `count
    {
      && disk == Settled(s, commits) && loaded == Some(disk.checkpoint)
      && sizes == Some(Sizes(s, commits))
      && prevHash == LastHash(Project(commits, file)) && count == |Project(commits, file)|
    }

    // An open writer is at the end of the greatest file of its day.
    ghost predicate WriterFits()
      reads `disk, `commits, `loaded, `sizes, `prevHash, `count, `writer
    {
      writer.Some? ==> Knows(writer.value) && IsActive(commits, writer.value)
    }

    // Unless it is quarantined, the process's memory agrees with the disk.
    ghost predicate Valid()
      reads `disk, `commits, `loaded, `sizes, `prevHash, `count, `writer, `poisoned
    {
      && Legal()
      && WriterFits()
      && (!poisoned && loaded.Some? ==> loaded.value == disk.checkpoint)
      && (poisoned ==> writer == None)
    }

    method Tick() returns (r: Outcome<()>, torn: nat)
      modifies `schedule
      ensures old(schedule) == [] ==> schedule == [] && !r.Crashed? && r != Failed(Io)
      ensures r.Done? || r.Crashed? || r == Failed(Io)
    {
      if schedule == [] {
        return Done(()), 0;
      }
      var now := schedule[0];
      schedule := schedule[1..];
      match now {
        case Continue => r, torn := Done(()), 0;
        case Stop(crash, n) => r, torn := if crash then Crashed else Failed(Io), n;
      }
    }

    /* ---- single durable steps; each may stop before or after its effect ---- */

    method PutHead(doc: HeadDoc) returns (r: Outcome<()>)
      modifies `schedule, `disk
      ensures old(schedule) == [] ==> schedule == [] && !r.Crashed? && r != Failed(Io)
      ensures r.Failed? ==> r == Failed(Io)
      ensures disk == old(disk) || disk == old(disk).(head := Head(doc))
      ensures r.Done? ==> disk == old(disk).(head := Head(doc))
    {
      var _, _ :- Tick();
      disk := disk.(head := Head(doc));
      var _, _ :- Tick();
      r := Done(());
    }

    method PutJournal(pending: Pending, ghost after: seq<Commit>) returns (r: Outcome<()>)
      modifies `schedule, `disk, `commits
      ensures old(schedule) == [] ==> schedule == [] && !r.Crashed? && r != Failed(Io)
      ensures || (disk == old(disk) && commits == old(commits))
              || (disk == old(disk).(journal := Some(pending)) && commits == after)
      ensures r.Done? ==> disk == old(disk).(journal := Some(pending)) && commits == after
      ensures r.Failed? ==> r == Failed(Io)
    {
      var _, _ :- Tick();
      disk := disk.(journal := Some(pending));
      commits := after;
      var _, _ :- Tick();
      r := Done(());
    }

    method RemoveJournal() returns (r: Outcome<()>)
      modifies `schedule, `disk
      ensures old(schedule) == [] ==> schedule == [] && !r.Crashed? && r != Failed(Io)
      ensures r.Failed? ==> r == Failed(Io)
      ensures disk == old(disk) || disk == old(disk).(journal := None)
      ensures r.Done? ==> disk == old(disk).(journal := None)
    {
      var _, _ :- Tick();
      disk := disk.(journal := None);
      var _, _ :- Tick();
      r := Done(());
    }

    // open_private_append
    method OpenFile(file: FileId) returns (r: Outcome<()>)
      modifies `schedule, `disk
      ensures old(schedule) == [] ==> schedule == [] && !r.Crashed? && r != Failed(Io)
      ensures r.Failed? ==> r == Failed(Io)
      ensures disk == old(disk)
                || (file !in old(disk).files && disk == old(disk).(files := old(disk).files[file := ""]))
      ensures r.Done? ==> file in disk.files
    {
      var _, _ :- Tick();
      if file !in disk.files {
        disk := disk.(files := disk.files[file := ""]);
      }
      var _, _ :- Tick();
      r := Done(());
    }

    method SetLength(file: FileId, length: nat) returns (r: Outcome<()>)
      requires file in disk.files && length <= |disk.files[file]|
      modifies `schedule, `disk
      ensures old(schedule) == [] ==> schedule == [] && !r.Crashed? && r != Failed(Io)
      ensures r.Failed? ==> r == Failed(Io)
      ensures !r.Done? ==> disk == old(disk)
      ensures r.Done? ==> disk == old(disk).(files := old(disk).files[file := old(disk).files[file][..length]])
    {
      var _, _ :- Tick();
      disk := disk.(files := disk.files[file := disk.files[file][..length]]);
      r := Done(());
    }

    // write_all and sync_data: a stop may leave any prefix of the text.
    method Append(file: FileId, text: string) returns (r: Outcome<()>, ghost written: nat)
      requires file in disk.files
      modifies `schedule, `disk
      ensures old(schedule) == [] ==> schedule == [] && !r.Crashed? && r != Failed(Io)
      ensures written <= |text|
      ensures disk == old(disk).(files := old(disk).files[file := old(disk).files[file] + text[..written]])
      ensures (r.Done? ==> written == |text|) && (r.Failed? ==> r == Failed(Io))
    {
      var tick, n := Tick();
      var length := if tick.Done? || n > |text| then |text| else n;
      written := length;
      disk := disk.(files := disk.files[file := disk.files[file] + text[..length]]);
      if !tick.Done? {
        return tick, written;
      }
      var _, _ :- Tick();
      r := Done(());
    }

    /* ---- key state ---- */

    // key_for: the key state is loaded once and must not change behind the process.
    method KeyFor() returns (r: Outcome<()>)
      modifies `schedule, `loaded
      ensures old(schedule) == [] ==> schedule == [] && !r.Crashed? && r != Failed(Io)
      ensures loaded == old(loaded) || (old(loaded) == None && loaded == Some(disk.checkpoint))
      ensures r.Done? ==> loaded == Some(disk.checkpoint)
      ensures r.Failed? ==> Expected(r.error, false, Stale(old(loaded), disk))
    {
      var _, _ :- Tick();
      if loaded.Some? {
        if loaded.value != disk.checkpoint {
          return Failed(KeyStateChanged);
        }
      } else {
        loaded := Some(disk.checkpoint);
      }
      r := Done(());
    }

    // store_checkpoint: memory follows the disk only if the whole write succeeded.
    method StoreCheckpoint(checkpoint: Checkpoint) returns (r: Outcome<()>)
      modifies `schedule, `loaded, `disk
      ensures old(schedule) == [] ==> schedule == [] && !r.Crashed? && r != Failed(Io)
      ensures disk == old(disk) || disk == old(disk).(checkpoint := Some(checkpoint))
      ensures r.Failed? ==> Expected(r.error, false, Stale(old(loaded), old(disk)))
      ensures r.Done? ==> disk == old(disk).(checkpoint := Some(checkpoint)) && loaded == Some(Some(checkpoint))
    {
      var _ :- KeyFor();
      var _, _ :- Tick();
      disk := disk.(checkpoint := Some(checkpoint));
      var _, _ :- Tick();
      loaded := Some(Some(checkpoint));
      r := Done(());
    }

    /* ---- recovery ---- */

    // Cut a file back to its complete lines and append one more.
    method Rewrite(file: FileId, start: nat, complete: string)
      returns (r: Outcome<()>, ghost cut: bool, ghost written: nat)
      requires start <= |if file in disk.files then disk.files[file] else ""|
      modifies `schedule, `disk
      ensures old(schedule) == [] ==> schedule == [] && !r.Crashed? && r != Failed(Io)
      ensures disk == old(disk).(files := disk.files)
      ensures written <= |complete| && (r.Done? ==> cut && written == |complete|) && (r.Failed? ==> r == Failed(Io))
      ensures Rewritten(old(disk).files, disk.files, file, start, complete, cut, written)
    {
      cut, written := false, 0;
      var _ :- OpenFile(file);
      var _ :- SetLength(file, start);
      cut := true;
      r, written := Append(file, complete);
    }

    // recover_record_append: complete the journalled line, whatever part of it is there,
    // or refuse a file whose tail is not a part of it.
    method RecoverRecordAppend(file: FileId, line: string) returns (r: Outcome<()>, ghost cut: bool, ghost written: nat)
      modifies `schedule, `disk
      ensures old(schedule) == [] ==> schedule == [] && !r.Crashed? && r != Failed(Io)
      ensures disk == old(disk).(files := disk.files)
      ensures written <= |line + "\n"| && LineRecovered(s, old(disk).files, disk.files, file, line, cut, written)
      ensures var complete, content := line + "\n", if file in old(disk).files then old(disk).files[file] else "";
              var check := CheckTail(s, content, line);
              if !IsTail(complete, content) && check.Failed? then r == Failed(check.error)
              else
                && (r.Failed? ==> r == Failed(Io))
                && (r.Done? ==> IsTail(complete, content) || (cut && written == |complete|))
    {
      cut, written := false, 0;
      var complete := line + "\n";
      var content := if file in disk.files then disk.files[file] else "";
      if IsTail(complete, content) {
        var _, _ :- Tick();
        return Done(()), cut, written;
      }
      var start :- CheckTail(s, content, line);
      r, cut, written := Rewrite(file, start, complete);
    }

    // read_pending_commit
    method ReadPending() returns (r: Outcome<Option<Pending>>)
      modifies `schedule
      ensures old(schedule) == [] ==> schedule == [] && !r.Crashed? && r != Failed(Io)
      ensures r.Done? ==> r.value == disk.journal && (disk.journal.Some? ==> Readable(s, disk.journal.value))
      ensures r.Failed? ==>
           r == Failed(Io) || (r == Failed(JournalUnreadable) && disk.journal.Some? && !Readable(s, disk.journal.value))
    {
      var _, _ :- Tick();
      if disk.journal.Some? && !Readable(s, disk.journal.value) {
        return Failed(JournalUnreadable);
      }
      r := Done(disk.journal);
    }

    // The last steps of every commit: the checkpoint after the head, then no journal.
    method FinishCommit(checkpoint: Checkpoint, store: bool) returns (r: Outcome<()>)
      requires loaded == Some(disk.checkpoint)
      requires !store ==> disk.checkpoint == Some(checkpoint)
      modifies `schedule, `loaded, `disk
      ensures old(schedule) == [] ==> schedule == [] && !r.Crashed? && r != Failed(Io)
      ensures var stored := old(disk).(checkpoint := Some(checkpoint));
              && (disk == old(disk) || disk == stored || disk == stored.(journal := None))
              && (r.Done? ==> disk == stored.(journal := None) && loaded == Some(Some(checkpoint)))
      ensures r.Failed? ==> r == Failed(Io)
    {
      if store {
        var _ :- StoreCheckpoint(checkpoint);
      }
      r := RemoveJournal();
    }

    // The steps that follow a written line: head, checkpoint, no journal.
    method PutHeadAndFinish(doc: HeadDoc, checkpoint: Checkpoint, store: bool) returns (r: Outcome<()>)
      requires loaded == Some(disk.checkpoint)
      requires !store ==> disk.checkpoint == Some(checkpoint)
      modifies `schedule, `loaded, `disk
      ensures old(schedule) == [] ==> schedule == [] && !r.Crashed? && r != Failed(Io)
      ensures var headed := old(disk).(head := Head(doc));
              var stored := headed.(checkpoint := Some(checkpoint));
              && (disk == old(disk) || disk == headed || disk == stored || disk == stored.(journal := None))
              && (r.Done? ==> disk == stored.(journal := None) && loaded == Some(Some(checkpoint)))
      ensures r.Failed? ==> r == Failed(Io)
    {
      var _ :- PutHead(doc);
      r := FinishCommit(checkpoint, store);
    }

    // Carry out what is left of a journalled commit, on any disk.
    method RollForward(pending: Pending, store: bool) returns (r: Outcome<()>)
      requires loaded == Some(disk.checkpoint) && store == (disk.checkpoint != Some(pending.checkpoint))
      modifies `schedule, `loaded, `disk
      ensures old(schedule) == [] ==> schedule == [] && !r.Crashed? && r != Failed(Io)
      ensures Forward(s, old(disk), disk, pending)
      ensures TailRefused(s, old(disk), pending) ==> r.Failed? && disk == old(disk)
      ensures r.Failed? ==>
                r == Failed(Io) || (TailRefused(s, old(disk), pending) && r.error != CheckpointNotExtended)
      ensures r.Done? ==>
                && disk == Initialized(old(disk).(files := disk.files), pending) && loaded == Some(disk.checkpoint)
                && EndsInLine(disk, pending)
    {
      ghost var was, cut, written := disk, false, 0;
      if pending.record.Some? {
        r, cut, written := RecoverRecordAppend(pending.record.value.0, pending.record.value.1);
        if !r.Done? {
          assert RolledForward(s, was, disk, pending, cut, written);
          return;
        }
      }
      assert FilesRecovered(s, was, disk, pending, cut, written) && LineThere(was, pending, cut, written);
      WrittenLineIsThere(s, was, disk, pending, cut, written);
      r := PutHeadAndFinish(pending.head, pending.checkpoint, store);
      assert RolledForward(s, was, disk, pending, cut, written);
    }

    // On a disk that the writer left, the journal reads back unless it is stuck.
    method ReadSanePending() returns (r: Outcome<Option<Pending>>)
      requires s.Valid() && Sane(s, disk, commits)
      modifies `schedule
      ensures old(schedule) == [] ==> schedule == [] && !r.Crashed? && r != Failed(Io)
      ensures r.Done? ==> r.value == disk.journal && !Stuck(disk, commits)
      ensures r.Failed? ==> r == Failed(Io) || (r == Failed(JournalUnreadable) && Stuck(disk, commits))
    {
      StuckExactlyIfUnreadable(s, disk, commits);
      r := ReadPending();
    }

    // A journal is carried out only if it starts from, or arrives at, the checkpoint, and
    // its line goes on from the end of its file; if not, nothing changes.
    method RecoverJournalled(pending: Pending) returns (r: Outcome<()>)
      requires loaded == Some(disk.checkpoint)
      modifies `schedule, `loaded, `disk
      ensures old(schedule) == [] ==> schedule == [] && !r.Crashed? && r != Failed(Io)
      ensures Forward(s, old(disk), disk, pending)
      ensures var fits := old(disk).checkpoint in {pending.previous, Some(pending.checkpoint)};
              && (r == Failed(CheckpointNotExtended) <==> !fits)
              && (!fits || TailRefused(s, old(disk), pending) ==> r.Failed? && disk == old(disk))
              && (r.Failed? ==> r == Failed(Io) || !fits || TailRefused(s, old(disk), pending))
      ensures r.Done? ==>
                && disk == Initialized(old(disk).(files := disk.files), pending) && loaded == Some(disk.checkpoint)
                && EndsInLine(disk, pending)
    {
      var current := loaded.value;
      if current != pending.previous && current != Some(pending.checkpoint) {
        NothingRolled(s, disk, pending);
        return Failed(CheckpointNotExtended);
      }
      r := RollForward(pending, current != Some(pending.checkpoint));
    }

    // On a disk that the writer left, nothing but I/O can fail.
    method RecoverSane(pending: Pending) returns (r: Outcome<()>)
      requires s.Valid() && s.Separated() && Sane(s, disk, commits)
      requires disk.journal == Some(pending) && loaded == Some(disk.checkpoint)
      modifies `schedule, `loaded, `disk
      ensures old(schedule) == [] ==> schedule == [] && !r.Crashed? && r != Failed(Io)
      ensures Sane(s, disk, commits) && (r.Failed? ==> r == Failed(Io))
      ensures r.Done? ==> disk == Settled(s, commits) && loaded == Some(disk.checkpoint)
    {
      JournalOfSane(s, disk, commits);
      ghost var was := disk;
      r := RecoverJournalled(pending);
      ForwardIsSane(s, was, disk, commits, pending);
    }

    // A recovered log is opened anew.
    method RecoverAndForget(pending: Pending) returns (r: Outcome<()>)
      requires s.Valid() && s.Separated() && Sane(s, disk, commits)
      requires disk.journal == Some(pending) && loaded == Some(disk.checkpoint) && writer == None
      modifies `schedule, `loaded, `disk, `writer, `sizes
      ensures old(schedule) == [] ==> schedule == [] && r.Done?
      ensures Sane(s, disk, commits) && (r.Failed? ==> r == Failed(Io))
      ensures r.Done? ==> disk == Settled(s, commits) && loaded == Some(disk.checkpoint)
      ensures writer == None
    {
      r := RecoverSane(pending);
      if r.Done? {
        writer, sizes := None, None;
      }
    }

    // recover_pending_commit: roll a journalled commit forward, if its journal reads back.
    method RecoverPendingCommit() returns (r: Outcome<()>)
      requires s.Valid() && s.Separated() && Sane(s, disk, commits)
      requires loaded == Some(disk.checkpoint) && WriterFits()
      modifies `schedule, `loaded, `disk, `writer, `sizes
      ensures old(schedule) == [] ==> schedule == [] && !r.Crashed? && r != Failed(Io)
      ensures Sane(s, disk, commits)
      ensures r.Failed? ==> Expected(r.error, Stuck(old(disk), old(commits)), false)
      ensures Stuck(old(disk), old(commits)) ==> !r.Done? && disk == old(disk)
      ensures r.Done? ==> loaded == Some(disk.checkpoint)
      ensures r.Done? ==> disk.journal == None && WriterFits()
      ensures old(disk).journal.None? ==> disk == old(disk)
      ensures old(disk).journal.Some? && r.Done? ==> disk == Settled(s, commits)
      ensures old(writer) == None ==> writer == None
    {
      var journal :- ReadSanePending();
      if journal.None? {
        return Done(());
      }
      r := RecoverAndForget(journal.value);
    }

    /* ---- opening the log ---- */

    // last_hash_and_count: where the chain of a file stands.
    method LastHashAndCount(file: FileId) returns (r: Outcome<(string, nat)>)
      modifies `schedule
      ensures old(schedule) == [] ==> schedule == [] && !r.Crashed? && r != Failed(Io)
      ensures var rows := Rows(s, Lines(if file in disk.files then disk.files[file] else ""));
              var t := Scan(s, START, rows);
              && (r.Done? ==> r.value == (t.last, t.records))
              && (r.Failed? ==> r == Failed(Io) || None in rows)
    {
      var _, _ :- Tick();
      if file !in disk.files {
        return Done(("", 0));
      }
      var lines := Lines(disk.files[file]);
      var last: Option<string>, number := None, 0;
      assert lines[0..] == lines;
      ghost var t := START;
      var i := 0;
      while i < |lines|
        invariant 0 <= i <= |lines| && (old(schedule) == [] ==> schedule == [])
        invariant Scan(s, t, Rows(s, lines[i..])) == Scan(s, START, Rows(s, lines))
        invariant t.records == number && t.last == if last.Some? then last.value else ""
        invariant None in Rows(s, lines[i..]) ==> None in Rows(s, lines)
      {
        NextRow(s, lines, i);
        ghost var rows := Rows(s, lines[i..]);
        var line := lines[i];
        i := i + 1;
        if IsBlank(line) {
          continue;
        }
        assert rows == [rows[0]] + rows[1..];
        var record := s.parse(line);
        if record.None? {
          return Failed(MalformedRecord);
        }
        number, last := number + 1, Some(record.value.hash);
        t := Count(s, t, record);
      }
      assert lines[i..] == [];
      r := Done((if last.Some? then last.value else "", number));
    }

    // legacy_manifest_entries: the head that an unanchored directory would have.
    method LegacyManifestEntries() returns (r: Outcome<map<FileId, Entry>>)
      modifies `schedule
      ensures old(schedule) == [] ==> schedule == [] && !r.Crashed? && r != Failed(Io)
      ensures r.Done? ==>
                && r.value.Keys == disk.files.Keys
                && forall id | id in disk.files :: r.value[id] == EntryOfText(s, id, disk.files[id])
      ensures r.Failed? ==> r == Failed(Io) || exists id | id in disk.files :: None in Rows(s, Lines(disk.files[id]))
    {
      var entries: map<FileId, Entry> := map[];
      var pending := disk.files.Keys;
      while pending != {}
        invariant pending <= disk.files.Keys && entries.Keys == disk.files.Keys - pending
        invariant old(schedule) == [] ==> schedule == []
        invariant forall id | id in entries :: entries[id] == EntryOfText(s, id, disk.files[id])
        decreases pending
      {
        var id :| id in pending;
        var tail :- LastHashAndCount(id);
        entries := entries[id := Entry(tail.1, tail.0, s.entryMac(id, tail.1, tail.0))];
        pending := pending - {id};
      }
      r := Done(entries);
    }

    // The first half of initialize_checkpoint: verify what is there, and find its entries.
    method FirstEntries() returns (r: Outcome<map<FileId, Entry>>)
      modifies `schedule
      ensures old(schedule) == [] ==> schedule == [] && !r.Crashed? && r != Failed(Io)
      ensures r.Done? ==> Startable(s, disk) && InitialEntries(s, disk, r.value)
      ensures r.Failed? ==> r == Failed(Io) || !Startable(s, disk)
    {
      var _, _ :- Tick();
      var read := ReadHead(s, disk.head);
      if read.Tampered? {
        return Failed(HeadUnreadable);
      }
      var breaks := VerifyCore(s, disk.files, disk.head, None, read.anchor.None?);
      if breaks != [] {
        return Failed(IntegrityFailed);
      }
      if read.anchor.Some? {
        return Done(read.anchor.value.entries);
      }
      forall id | id in disk.files
        ensures None !in Rows(s, Lines(disk.files[id]))
      {
        IntactIsGapless(s, disk.files, disk.head, None, disk.head == NoHead, id);
      }
      r := LegacyManifestEntries();
    }

    // initialize_checkpoint: on any directory, it ends with one that verifies strictly.
    method InitializeCheckpoint() returns (r: Outcome<()>, ghost entries: map<FileId, Entry>)
      requires loaded == Some(disk.checkpoint)
      modifies `schedule, `loaded, `disk, `commits
      ensures old(schedule) == [] ==> schedule == [] && !r.Crashed? && r != Failed(Io)
      ensures commits == old(commits) && (r.Done? ==> loaded == Some(disk.checkpoint))
      ensures disk == old(disk) || (Startable(s, old(disk)) && InitialEntries(s, old(disk), entries)
                                    && OnTheWay(old(disk), disk, InitialPending(s, entries)))
      ensures old(disk).checkpoint.Some? ==> r.Done? && disk == old(disk)
      ensures old(disk).checkpoint.None? && r.Done? ==>
                && Startable(s, old(disk)) && InitialEntries(s, old(disk), entries)
                && disk == Initialized(old(disk), InitialPending(s, entries))
      ensures r.Failed? ==> r == Failed(Io) || !Startable(s, old(disk))
    {
      entries := map[];
      if loaded.value.Some? {
        return Done(()), entries;
      }
      var first :- FirstEntries();
      entries := first;
      var pending := InitialPending(s, first);
      var _ :- PutJournal(pending, commits);
      r := PutHeadAndFinish(pending.head, pending.checkpoint, true);
    }

    // The same on a log this program made: nothing but I/O can fail.
    method InitializeSane() returns (r: Outcome<()>)
      requires s.Valid() && Sane(s, disk, commits) && disk.journal == None
      requires loaded == Some(disk.checkpoint) && WriterFits()
      modifies `schedule, `loaded, `disk, `commits
      ensures old(schedule) == [] ==> schedule == [] && r.Done?
      ensures Sane(s, disk, commits) && commits == old(commits)
      ensures r.Done? ==> disk == Settled(s, commits) && loaded == Some(disk.checkpoint)
      ensures r.Done? ==> WriterFits()
      ensures r.Failed? ==> r == Failed(Io)
    {
      EmptyStarts(s);
      ghost var entries;
      r, entries := InitializeCheckpoint();
    }

    /* ---- recording ---- */

    ghost predicate EndsWith(content: string, last: string, records: nat) {
      var t := Scan(s, START, Rows(s, Lines(content)));
      last == t.last && records == t.records
    }

    // The rest of the opening branch of record_locked: verify and take stock,
    method VerifyAndMeasure() returns (r: Outcome<()>)
      requires loaded.Some?
      modifies `schedule, `sizes
      ensures old(schedule) == [] ==> schedule == [] && !r.Crashed? && r != Failed(Io)
      ensures r.Done? ==> Intact(s, disk.files, disk.head, loaded.value, false) && sizes == Some(SizesOf(disk.files))
      ensures r.Failed? ==> r == Failed(Io) || !Intact(s, disk.files, disk.head, loaded.value, false)
    {
      var _, _ :- Tick();
      var breaks := VerifyCore(s, disk.files, disk.head, loaded.value, false);
      if breaks != [] {
        return Failed(IntegrityFailed);
      }
      sizes := Some(SizesOf(disk.files));
      r := Done(());
    }

    // then choose a file and find its end.
    method ChooseFile(day: string) returns (r: Outcome<FileId>)
      requires loaded.Some? && Intact(s, disk.files, disk.head, loaded.value, false) && sizes.Some?
      modifies `schedule, `prevHash, `count
      ensures old(schedule) == [] ==> schedule == [] && !r.Crashed? && r != Failed(Io)
      ensures r.Failed? ==> r == Failed(Io)
      ensures r.Done? ==>
                && r.value in Segments.Taking(day, sizes.value)
                && EndsWith(if r.value in disk.files then disk.files[r.value] else "", prevHash, count)
    {
      var file := Segments.ActiveAuditFileId(day, sizes.value);
      IntactIsGapless(s, disk.files, disk.head, loaded.value, false, file);
      var tail :- LastHashAndCount(file);
      prevHash, count := tail.0, tail.1;
      r := Done(file);
    }

    method OpenIntact(day: string) returns (r: Outcome<FileId>)
      requires loaded.Some? && Intact(s, disk.files, disk.head, loaded.value, false)
      modifies `schedule, `sizes, `prevHash, `count
      ensures old(schedule) == [] ==> schedule == [] && r.Done?
      ensures r.Failed? ==> r == Failed(Io)
      ensures r.Done? ==>
                && sizes == Some(SizesOf(disk.files))
                && r.value in Segments.Taking(day, SizesOf(disk.files))
                && EndsWith(if r.value in disk.files then disk.files[r.value] else "", prevHash, count)
    {
      var _ :- VerifyAndMeasure();
      r := ChooseFile(day);
    }

    method OpenSettled(day: string) returns (r: Outcome<FileId>)
      requires s.Valid() && WellFormed(s, commits) && disk == Settled(s, commits)
      requires loaded == Some(disk.checkpoint)
      modifies `schedule, `sizes, `prevHash, `count
      ensures old(schedule) == [] ==> schedule == [] && r.Done?
      ensures r.Failed? ==> r == Failed(Io)
      ensures r.Done? ==> Knows(r.value) && r.value in Segments.Taking(day, Sizes(s, commits))
    {
      SettledIsIntact(s, commits);
      SettledSizes(s, commits);
      r := OpenIntact(day);
      if r.Done? {
        SettledTail(s, commits, r.value);
      }
    }

    // validate_audit_state
    method ValidateAuditState(file: FileId) returns (r: Outcome<()>)
      requires loaded.Some? && sizes.Some?
      modifies `schedule
      ensures old(schedule) == [] ==> schedule == [] && !r.Crashed? && r != Failed(Io)
      ensures r.Done? ==> Consistent(s, disk, loaded.value, sizes.value, file, count, prevHash)
      ensures r.Failed? ==> r == Failed(Io) || !Consistent(s, disk, loaded.value, sizes.value, file, count, prevHash)
    {
      var _, _ :- Tick();
      var read := ReadHead(s, disk.head);
      if read.Tampered? {
        return Failed(HeadUnreadable);
      }
      if !CheckpointFits(read.anchor, loaded.value) {
        return Failed(CheckpointMismatch);
      }
      if SizesOf(disk.files) != sizes.value {
        return Failed(StateChanged);
      }
      if read.anchor.None? || file !in read.anchor.value.entries {
        return Failed(StateChanged);
      }
      var entry := read.anchor.value.entries[file];
      if !entry.Entry? || entry.count != count || entry.last != prevHash {
        return Failed(StateChanged);
      }
      r := Done(());
    }

    // prepare_commit
    method PrepareCommit(file: FileId, number: nat, record: Sealed) returns (r: Outcome<Pending>)
      requires loaded.Some?
      modifies `schedule
      ensures old(schedule) == [] ==> schedule == [] && !r.Crashed? && r != Failed(Io)
      ensures var read := ReadHead(s, disk.head);
              && (r.Done? ==>
                    && read.Found? && CheckpointFits(read.anchor, loaded.value)
                    && var entries := if read.anchor.Some? then read.anchor.value.entries else map[];
                       r.value == Prepared(s, entries, loaded.value, file, number, record))
              && (r.Failed? ==> r == Failed(Io) || read.Tampered? || !CheckpointFits(read.anchor, loaded.value))
    {
      var _, _ :- Tick();
      var read := ReadHead(s, disk.head);
      if read.Tampered? {
        return Failed(HeadUnreadable);
      }
      if !CheckpointFits(read.anchor, loaded.value) {
        return Failed(CheckpointMismatch);
      }
      var entries := if read.anchor.Some? then read.anchor.value.entries else map[];
      r := Done(Prepared(s, entries, loaded.value, file, number, record));
    }

    // Open the file if it is not open, and append one complete line.
    method AppendLine(file: FileId, opening: bool, complete: string)
      returns (r: Outcome<()>, ghost cut: bool, ghost written: nat)
      requires opening || (writer == Some(file) && file in disk.files)
      modifies `schedule, `disk, `writer
      ensures old(schedule) == [] ==> schedule == [] && !r.Crashed? && r != Failed(Io)
      ensures disk == old(disk).(files := disk.files)
      ensures written <= |complete| && (r.Done? ==> cut && written == |complete|) && (r.Failed? ==> r == Failed(Io))
      ensures var content := if file in old(disk).files then old(disk).files[file] else "";
              Rewritten(old(disk).files, disk.files, file, |content|, complete, cut, written)
      ensures r.Done? ==> writer == Some(file)
    {
      cut, written := false, 0;
      ghost var content := if file in disk.files then disk.files[file] else "";
      assert content[..|content|] == content;
      if opening {
        var _ :- OpenFile(file);
        writer := Some(file);
      }
      cut := true;
      r, written := Append(file, complete);
    }

    // From a durable journal to the end of the commit.
    method CarryOut(file: FileId, opening: bool, complete: string, pending: Pending)
      returns (r: Outcome<()>, ghost cut: bool, ghost written: nat)
      requires loaded == Some(disk.checkpoint) && (opening || (writer == Some(file) && file in disk.files))
      modifies `schedule, `disk, `loaded, `writer
      ensures old(schedule) == [] ==> schedule == [] && !r.Crashed? && r != Failed(Io)
      ensures written <= |complete| && Carried(old(disk), disk, file, complete, pending, cut, written)
      ensures r.Failed? ==> r == Failed(Io)
      ensures r.Done? ==>
                && disk.journal == None && loaded == Some(disk.checkpoint)
                     && disk.checkpoint == Some(pending.checkpoint)
                && writer == Some(file)
    {
      r, cut, written := AppendLine(file, opening, complete);
      if !r.Done? {
        return;
      }
      r := PutHeadAndFinish(pending.head, pending.checkpoint, true);
    }

    // The commit becomes durable with its journal.
    method JournalRecord(ghost c: Commit, file: FileId, record: Sealed) returns (r: Outcome<Pending>)
      requires Knows(file) && c == Commit(file, record)
      modifies `schedule, `disk, `commits
      ensures old(schedule) == [] ==> schedule == [] && r.Done?
      ensures || (disk == old(disk) && commits == old(commits))
              || (disk == Journalled(s, old(commits), c) && commits == old(commits) + [c])
      ensures r.Failed? ==> r == Failed(Io)
      ensures r.Done? ==> commits == old(commits) + [c] && disk == Journalled(s, old(commits), c)
      ensures r.Done? ==> r.value == PendingOf(s, old(commits), c)
    {
      PreparedIsPending(s, commits, c);
      var pending :- PrepareCommit(file, count + 1, record);
      var _ :- PutJournal(pending, commits + [c]);
      r := Done(pending);
    }

    // Journal, line, head, checkpoint, no journal.
    method CommitSteps(ghost c: Commit, file: FileId, opening: bool, record: Sealed)
      returns (r: Outcome<()>, ghost begun: Disk, ghost p: Pending, ghost cut: bool, ghost written: nat)
      requires Knows(file) && c == Commit(file, record) && (opening || (writer == Some(file) && file in disk.files))
      modifies `schedule, `disk, `commits, `loaded, `writer
      ensures old(schedule) == [] ==> schedule == [] && !r.Crashed? && r != Failed(Io)
      ensures r.Failed? ==> r == Failed(Io)
      ensures || (disk == old(disk) && commits == old(commits))
              || (disk == Journalled(s, old(commits), c) && commits == old(commits) + [c])
              || (commits == old(commits) + [c] && begun == Journalled(s, old(commits), c)
                  && p == PendingOf(s, old(commits), c)
                  && written <= |LineOf(s, record)| && Carried(begun, disk, file, LineOf(s, record), p, cut, written))
      ensures r.Done? ==>
                && commits == old(commits) + [c] && disk.journal == None && loaded == Some(disk.checkpoint)
                && writer == Some(file)
    {
      cut, written := false, 0;
      var pending := JournalRecord(c, file, record);
      begun, p := disk, PendingOf(s, old(commits), c);
      if !pending.Done? {
        return pending.PropagateFailure(), begun, p, cut, written;
      }
      r, cut, written := CarryOut(file, opening, s.encode(record) + "\n", pending.value);
    }

    method CommitRecord(ghost c: Commit, file: FileId, opening: bool, record: Sealed) returns (r: Outcome<()>)
      requires Knows(file) && c == Commit(file, record) && WellFormed(s, commits + [c])
      requires opening || (writer == Some(file) && file in disk.files)
      modifies `schedule, `disk, `commits, `loaded, `writer
      ensures old(schedule) == [] ==> schedule == [] && r.Done?
      ensures Sane(s, disk, commits) && (commits == old(commits) || commits == old(commits) + [c])
      ensures r.Failed? ==> r == Failed(Io)
      ensures r.Done? ==>
                && commits == old(commits) + [c] && writer == Some(file) && file in disk.files
                && disk == Settled(s, commits) && loaded == Some(disk.checkpoint)
    {
      ghost var before, begun, p, cut, written := commits, disk, PendingOf(s, commits, c), false, 0;
      r, begun, p, cut, written := CommitSteps(c, file, opening, record);
      CommitStepsAreSane(s, before, commits, c, begun, disk, p, cut, written);
    }

    // The branch of record_locked that keeps the open file: a strict record goes on only
    // if memory is consistent with the disk, whatever has happened to it.
    method ReuseWriter(file: FileId, strict: bool) returns (r: Outcome<()>)
      requires loaded.Some? && sizes.Some?
      modifies `schedule
      ensures old(schedule) == [] ==> schedule == [] && !r.Crashed? && r != Failed(Io)
      ensures strict && r.Done? ==> Consistent(s, disk, loaded.value, sizes.value, file, count, prevHash)
      ensures r.Failed? ==>
                strict && (r == Failed(Io) || !Consistent(s, disk, loaded.value, sizes.value, file, count, prevHash))
    {
      if strict {
        var _ :- ValidateAuditState(file);
      }
      r := Done(());
    }

    // Memory that agrees with a settled disk is consistent with it.
    method KeepOpenFile(file: FileId, strict: bool) returns (r: Outcome<()>)
      requires Knows(file) && file in disk.files
      modifies `schedule
      ensures old(schedule) == [] ==> schedule == [] && r.Done?
      ensures r.Failed? ==> r == Failed(Io)
    {
      assert file in FilesOf(commits);
      SettledIsConsistent(s, commits, file);
      r := ReuseWriter(file, strict);
    }

    // The branch that opens one.
    method Reopen(day: string) returns (r: Outcome<FileId>)
      requires Legal() && disk.journal == None && loaded == Some(disk.checkpoint)
      modifies this
      ensures old(schedule) == [] ==> schedule == [] && r.Done?
      ensures Legal() && commits == old(commits) && poisoned == old(poisoned)
      ensures r.Failed? ==> r == Failed(Io)
      ensures r.Done? ==> Knows(r.value) && r.value in Segments.Taking(day, Sizes(s, commits))
    {
      writer := None;
      var _ :- InitializeSane();
      r := OpenSettled(day);
    }

    // Whether the open file takes a record of this day.
    method CanReuse(day: string) returns (yes: bool)
      requires WriterFits() && ValidDay(day)
      ensures yes ==> writer.Some? && Knows(writer.value) && writer.value in disk.files
      ensures yes ==> writer.value in Segments.Taking(day, Sizes(s, commits))
    {
      yes := writer.Some? && sizes.Some? && writer.value in sizes.value && Segments.MatchesDay(writer.value, day)
             && sizes.value[writer.value] < Segments.AUDIT_SEGMENT_MAX_BYTES;
      if yes {
        ActiveIsRight(s, commits, writer.value, day);
      }
    }

    // Memory follows the commit.
    method Remember(file: FileId, record: Sealed)
      requires sizes.Some? && file in disk.files
      modifies `count, `prevHash, `sizes
      ensures count == old(count) + 1 && prevHash == record.hash
      ensures sizes == Some(old(sizes).value[file := |disk.files[file]|])
    {
      count, prevHash := count + 1, record.hash;
      sizes := Some(sizes.value[file := |disk.files[file]|]);
    }

    // Commit one record after the end of a file; then memory follows.
    method CommitAndRemember(ghost c: Commit, file: FileId, opening: bool, record: Sealed) returns (r: Outcome<()>)
      requires Knows(file) && c == Commit(file, record) && WellFormed(s, commits + [c])
      requires opening || (writer == Some(file) && file in disk.files)
      modifies `schedule, `disk, `commits, `loaded, `writer, `count, `prevHash, `sizes
      ensures old(schedule) == [] ==> schedule == [] && r.Done?
      ensures r.Failed? ==> r == Failed(Io)
      ensures Sane(s, disk, commits) && (commits == old(commits) || commits == old(commits) + [c])
      ensures r.Done? ==>
                commits == old(commits) + [c] && disk == Settled(s, commits) && loaded == Some(disk.checkpoint)
      ensures r.Done? ==>
                && file in disk.files && sizes == Some(old(sizes).value[file := |disk.files[file]|])
                && prevHash == record.hash && count == old(count) + 1 && writer == Some(file)
    {
      r := CommitRecord(c, file, opening, record);
      if r.Done? {
        Remember(file, record);
      }
    }

    // The same, with what the writer then knows.
    method CommitNext(ghost c: Commit, file: FileId, opening: bool, record: Sealed) returns (r: Outcome<()>)
      requires Knows(file) && c == Commit(file, record) && WellFormed(s, commits + [c]) && Extends(s, commits, c)
      requires opening || (writer == Some(file) && file in disk.files)
      modifies `schedule, `disk, `commits, `loaded, `writer, `count, `prevHash, `sizes
      ensures old(schedule) == [] ==> schedule == [] && r.Done?
      ensures r.Failed? ==> r == Failed(Io)
      ensures Sane(s, disk, commits) && (commits == old(commits) || commits == old(commits) + [c])
      ensures r.Done? ==> commits == old(commits) + [c] && WriterFits() && loaded == Some(disk.checkpoint)
      ensures r.Done? ==> disk == Settled(s, commits)
    {
      ghost var before := commits;
      r := CommitAndRemember(c, file, opening, record);
      if r.Done? {
        ActiveAfterCommit(s, before, c);
        ViewAfterCommit(s, before, c, disk);
      }
    }

    // The request became the last commit, or left no trace.
    ghost predicate Recorded(before: seq<Commit>, day: string, request: string)
      reads `commits
    {
      commits == before || exists c :: commits == before + [c] && Answers(s, before, c, day, request)
    }

    // The rest of record_locked, once a file is chosen.
    method WriteRecord(day: string, request: string, file: FileId, opening: bool, ghost before: seq<Commit>)
      returns (r: Outcome<()>)
      requires s.Valid() && commits == before && WellFormed(s, before) && ValidDay(day)
      requires Knows(file) && file in Segments.Taking(day, Sizes(s, before))
      requires opening || (writer == Some(file) && file in disk.files)
      modifies this
      ensures old(schedule) == [] ==> schedule == [] && r.Done?
      ensures Sane(s, disk, commits) && Recorded(before, day, request)
      ensures r.Failed? ==> r == Failed(Io)
      ensures r.Done? ==> commits != before && WriterFits() && loaded == Some(disk.checkpoint)
      ensures r.Done? ==> disk == Settled(s, commits)
      ensures poisoned == old(poisoned)
    {
      var body := s.compose(request, prevHash);
      var record := Sealed(body, s.seal(body));
      ghost var c := Commit(file, record);
      RequestMakesCommit(s, before, c, day, request);
      r := CommitNext(c, file, opening, record);
    }

    method RecordInOpenFile(day: string, request: string, strict: bool, file: FileId, ghost before: seq<Commit>)
      returns (r: Outcome<()>)
      requires s.Valid() && commits == before && WellFormed(s, before) && ValidDay(day)
      requires writer == Some(file) && Knows(file) && file in disk.files
      requires file in Segments.Taking(day, Sizes(s, before))
      modifies this
      ensures old(schedule) == [] ==> schedule == [] && r.Done?
      ensures Sane(s, disk, commits) && Recorded(before, day, request)
      ensures r.Failed? ==> r == Failed(Io)
      ensures r.Done? ==> commits != before && WriterFits() && loaded == Some(disk.checkpoint)
      ensures r.Done? ==> disk == Settled(s, commits)
      ensures poisoned == old(poisoned)
    {
      SettledIsSane(s, before);
      var kept := KeepOpenFile(file, strict);
      if kept.Done? {
        r := WriteRecord(day, request, file, false, before);
      } else {
        r := kept.PropagateFailure();
      }
    }

    method RecordInReopenedFile(day: string, request: string, ghost before: seq<Commit>) returns (r: Outcome<()>)
      requires Legal() && commits == before && disk.journal == None && loaded == Some(disk.checkpoint) && ValidDay(day)
      modifies this
      ensures old(schedule) == [] ==> schedule == [] && r.Done?
      ensures Sane(s, disk, commits) && Recorded(before, day, request)
      ensures r.Failed? ==> r == Failed(Io)
      ensures r.Done? ==> commits != before && WriterFits() && loaded == Some(disk.checkpoint)
      ensures r.Done? ==> disk == Settled(s, commits)
      ensures poisoned == old(poisoned)
    {
      var file :- Reopen(day);
      r := WriteRecord(day, request, file, true, before);
    }

    // record_locked
    method RecordLocked(day: string, request: string, strict: bool) returns (r: Outcome<()>)
      requires Legal() && WriterFits() && ValidDay(day)
      requires disk.journal == None && loaded == Some(disk.checkpoint)
      modifies this
      ensures old(schedule) == [] ==> schedule == [] && r.Done?
      ensures Sane(s, disk, commits) && Recorded(old(commits), day, request)
      ensures r.Failed? ==> r == Failed(Io)
      ensures r.Done? ==> commits != old(commits) && WriterFits() && loaded == Some(disk.checkpoint)
      ensures r.Done? ==> disk == Settled(s, commits)
      ensures poisoned == old(poisoned)
    {
      var _ :- KeyFor();
      var reuse := CanReuse(day);
      if reuse {
        r := RecordInOpenFile(day, request, strict, writer.value, commits);
      } else {
        r := RecordInReopenedFile(day, request, commits);
      }
    }

    // What record_inner and verify_locked do first.
    method RecoverFirst() returns (r: Outcome<()>)
      requires Legal() && WriterFits()
      modifies `schedule, `loaded, `disk, `writer, `sizes
      ensures old(schedule) == [] ==> schedule == [] && !r.Crashed? && r != Failed(Io)
      ensures Legal()
      ensures r.Failed? ==> Expected(r.error, Stuck(old(disk), old(commits)), Stale(old(loaded), old(disk)))
      ensures Stuck(old(disk), old(commits)) ==> !r.Done? && disk == old(disk)
      ensures r.Done? ==> WriterFits() && disk.journal == None && loaded == Some(disk.checkpoint)
      ensures old(writer) == None ==> writer == None
    {
      var _ :- KeyFor();
      r := RecoverPendingCommit();
    }

    // The part of record_inner that may fail: any failure quarantines the process.
    method Record(day: string, request: string, strict: bool) returns (r: Outcome<()>)
      requires Legal() && WriterFits() && ValidDay(day)
      modifies this
      ensures old(schedule) == [] ==> schedule == [] && !r.Crashed? && r != Failed(Io)
      ensures Sane(s, disk, commits) && Recorded(old(commits), day, request)
      ensures r.Failed? ==> Expected(r.error, Stuck(old(disk), old(commits)), Stale(old(loaded), old(disk)))
      ensures Stuck(old(disk), old(commits)) ==> !r.Done? && disk == old(disk) && commits == old(commits)
      ensures r.Done? ==> commits != old(commits) && WriterFits() && loaded == Some(disk.checkpoint)
      ensures r.Done? ==> disk == Settled(s, commits)
      ensures poisoned == old(poisoned)
    {
      var _ :- RecoverFirst();
      r := RecordLocked(day, request, strict);
    }

    // try_record. An error does not mean that the record is absent.
    method TryRecord(day: string, request: string, strict: bool) returns (r: Outcome<()>)
      requires Valid() && ValidDay(day)
      modifies this
      ensures old(poisoned) ==> r == Failed(Quarantined) && disk == old(disk) && commits == old(commits)
      ensures old(schedule) == [] ==> schedule == [] && (old(poisoned) || r.Done? || Stuck(old(disk), old(commits)))
      ensures Stuck(old(disk), old(commits)) ==> !r.Done? && disk == old(disk) && commits == old(commits)
      ensures Sane(s, disk, commits) && Recorded(old(commits), day, request)
      ensures r.Done? ==> commits != old(commits) && disk == Settled(s, commits) && !poisoned
      ensures r.Failed? ==>
                poisoned && (r == Failed(Quarantined) || Expected(r.error, Stuck(old(disk), old(commits)), false))
      ensures !r.Crashed? ==> Valid()
    {
      if poisoned {
        return Failed(Quarantined);
      }
      r := Record(day, request, strict);
      if r.Failed? {
        writer, poisoned := None, true;
      }
    }

    // The first two thirds of verify_locked leave a settled log.
    method Reconcile() returns (r: Outcome<()>)
      requires Legal() && WriterFits()
      modifies this
      ensures old(schedule) == [] ==> schedule == [] && !r.Crashed? && r != Failed(Io)
      ensures Legal() && commits == old(commits) && poisoned == old(poisoned)
      ensures r.Failed? ==> Expected(r.error, Stuck(old(disk), old(commits)), Stale(old(loaded), old(disk)))
      ensures Stuck(old(disk), old(commits)) ==> !r.Done? && disk == old(disk) && commits == old(commits)
      ensures r.Done? ==> WriterFits() && disk == Settled(s, commits) && loaded == Some(disk.checkpoint)
      ensures old(writer) == None ==> writer == None
    {
      var _ :- RecoverFirst();
      r := InitializeSane();
    }

    // The last third, on any disk: what is there against the checkpoint in memory.
    method VerifyDirectory() returns (sound: bool)
      requires loaded.Some?
      ensures sound <==> Intact(s, disk.files, disk.head, loaded.value, false)
    {
      var breaks := VerifyCore(s, disk.files, disk.head, loaded.value, false);
      sound := breaks == [];
    }

    // The report of verify_locked: whether it is without breaks.
    method Report() returns (r: Outcome<bool>)
      requires Legal() && WriterFits()
      modifies this
      ensures !r.Failed?
      ensures old(schedule) == [] && !Stale(old(loaded), old(disk)) ==>
                schedule == [] && (r == Done(true) || (r == Done(false) && Stuck(old(disk), old(commits))))
      ensures Stuck(old(disk), old(commits)) ==> r != Done(true) && disk == old(disk)
      ensures Legal() && commits == old(commits) && poisoned == old(poisoned)
      ensures r == Done(true) ==> WriterFits() && disk == Settled(s, commits) && loaded == Some(disk.checkpoint)
      ensures old(writer) == None ==> writer == None
    {
      var reconciled := Reconcile();
      if !reconciled.Done? {
        return if reconciled.Crashed? then Crashed else Done(false);
      }
      SettledIsIntact(s, commits);
      var sound := VerifyDirectory();
      r := Done(sound);
    }

    // verify_locked without its cache: breaks quarantine the process.
    method VerifySelf() returns (r: Outcome<bool>)
      requires Valid()
      modifies this
      ensures !r.Failed? && commits == old(commits) && Sane(s, disk, commits)
      ensures old(schedule) == [] && !old(poisoned) ==> r == Done(!Stuck(old(disk), old(commits)))
      ensures Stuck(old(disk), old(commits)) ==> r != Done(true) && disk == old(disk)
      ensures r == Done(true) ==> disk == Settled(s, commits) && poisoned == old(poisoned)
      ensures r == Done(false) ==> poisoned
      ensures !r.Crashed? ==> Valid()
    {
      r := Report();
      if r.Done? && !r.value {
        writer, poisoned := None, true;
      }
    }
  }
}
