/** What segment rotation guarantees over a whole history of commits. */
module Rotation {
  import opened Common
  import opened AuditChain
  import opened AuditVerify
  import opened AuditState
  import opened AuditLog
  import opened AuditHistory
  import opened Segments

  ghost predicate SameDay(a: FileId, b: FileId) {
    exists day :: ValidDay(day) && MatchesDay(a, day) && MatchesDay(b, day)
  }

  lemma {:induction false} WellFormedPrefix(s: Scheme, commits: seq<Commit>, n: nat)
    requires WellFormed(s, commits) && n < |commits|
    ensures WellFormed(s, commits[..n]) && Extends(s, commits[..n], commits[n])
  {
    if n < |commits| - 1 {
      TakeOfTake(commits, n);
      WellFormedPrefix(s, commits[..|commits| - 1], n);
    }
  }

  // Within a day, the order of file names is the order of writing.
  lemma FileOrderIsWriteOrder(s: Scheme, commits: seq<Commit>, i: nat, j: nat)
    requires WellFormed(s, commits) && i < j < |commits|
    requires SameDay(commits[i].file, commits[j].file)
    ensures commits[i].file == commits[j].file || Below(commits[i].file, commits[j].file)
  {
    WellFormedPrefix(s, commits, j);
    assert commits[..j][i] == commits[i];
    LaterIsGreater(s, commits[..j], commits[j], i);
  }

  // A commit to a file of its day goes to the right one.
  lemma ValidIsRight(s: Scheme, before: seq<Commit>, c: Commit)
    requires Extends(s, before, c) && ValidFile(c.file)
    ensures RightFile(c.file, c.file[..8], Sizes(s, before))
  {
    SegmentIdMatches(c.file[..8], MAX_SEGMENT + 1);
  }

  lemma LaterIsGreater(s: Scheme, before: seq<Commit>, c: Commit, i: nat)
    requires Extends(s, before, c) && i < |before| && SameDay(before[i].file, c.file)
    ensures before[i].file == c.file || Below(before[i].file, c.file)
  {
    var day :| ValidDay(day) && MatchesDay(before[i].file, day) && MatchesDay(c.file, day);
    assert c.file[..8] == day;
    assert before[i] in before && before[i].file in Sizes(s, before);
    ValidIsRight(s, before, c);
  }

  // Without its last record the file is below the limit.
  predicate BelowLimitBefore(s: Scheme, records: seq<Sealed>) {
    records != [] && |Printed(s, records[..|records| - 1])| < AUDIT_SEGMENT_MAX_BYTES
  }

  // A numbered file passes the limit by no more than one record.
  lemma {:induction false} OverTheLimitByOneRecord(s: Scheme, commits: seq<Commit>, file: FileId)
    requires WellFormed(s, commits) && file in FilesOf(commits) && ValidFile(file)
    ensures BelowLimitBefore(s, Project(commits, file))
  {
    var n := |commits| - 1;
    TakeOfTake(commits, n);
    if commits[n].file == file {
      LastBelowLimit(s, commits[..n], commits[n]);
    } else {
      OtherFile(commits[..n], commits[n], file);
      OverTheLimitByOneRecord(s, commits[..n], file);
    }
  }

  lemma LastBelowLimit(s: Scheme, before: seq<Commit>, c: Commit)
    requires Extends(s, before, c) && ValidFile(c.file)
    ensures BelowLimitBefore(s, Project(before + [c], c.file))
  {
    ProjectOneMore(before, c, c.file);
    NotYetFull(s, before, c);
    assert (Project(before, c.file) + [c.record])[..|Project(before, c.file)|] == Project(before, c.file);
  }

  lemma OtherFile(before: seq<Commit>, c: Commit, file: FileId)
    requires c.file != file && file in FilesOf(before + [c])
    ensures file in FilesOf(before) && Project(before + [c], file) == Project(before, file)
  {
    FilesOneMore(before, c);
    ProjectOneMore(before, c, file);
    assert Project(before, file) + [] == Project(before, file);
  }

  lemma NotYetFull(s: Scheme, before: seq<Commit>, c: Commit)
    requires Extends(s, before, c) && ValidFile(c.file)
    ensures |Printed(s, Project(before, c.file))| < AUDIT_SEGMENT_MAX_BYTES
  {
    ValidIsRight(s, before, c);
    ProjectOfAbsent(before, c.file);
    if c.file in FilesOf(before) {
      assert c.file in Sizes(s, before);
    }
  }

  // Every file of a day but its last is full: a new one is begun only then.
  lemma {:induction false} AllButTheLastAreFull(s: Scheme, commits: seq<Commit>, f: FileId, g: FileId)
    requires WellFormed(s, commits) && f in FilesOf(commits) && g in FilesOf(commits)
    requires SameDay(f, g) && Below(f, g)
    ensures |Printed(s, Project(commits, f))| >= AUDIT_SEGMENT_MAX_BYTES
  {
    var n := |commits| - 1;
    var before, c := commits[..n], commits[n];
    TakeOfTake(commits, n);
    EarlierIsUntouched(s, before, c, f, g);
    if g in FilesOf(before) {
      AllButTheLastAreFull(s, before, f, g);
    } else {
      var h := BeganAfterFull(s, before, c, f);
      if f != h {
        AllButTheLastAreFull(s, before, f, h);
      }
    }
  }

  // A commit goes to no file below another one of its day.
  lemma EarlierIsUntouched(s: Scheme, before: seq<Commit>, c: Commit, f: FileId, g: FileId)
    requires Extends(s, before, c) && f in FilesOf(before + [c]) && g in FilesOf(before + [c])
    requires SameDay(f, g) && Below(f, g)
    ensures f in FilesOf(before) && Project(before + [c], f) == Project(before, f)
    ensures g in FilesOf(before) || g == c.file
  {
    FilesOneMore(before, c);
    BelowIsTotal(f, g);
    if c.file == f {
      NothingAbove(s, before, c, g);
    }
    OtherFile(before, c, f);
  }

  lemma NothingAbove(s: Scheme, before: seq<Commit>, c: Commit, g: FileId)
    requires Extends(s, before, c) && g in FilesOf(before) && SameDay(c.file, g) && g != c.file
    ensures Below(g, c.file)
  {
    ValidIsRight(s, before, c);
    assert g in Sizes(s, before);
  }

  // The greatest file of the day was full when a commit began another one.
  lemma BeganAfterFull(s: Scheme, before: seq<Commit>, c: Commit, f: FileId) returns (h: FileId)
    requires Extends(s, before, c) && f in FilesOf(before) && SameDay(f, c.file) && c.file !in FilesOf(before)
    ensures h in FilesOf(before) && |Printed(s, Project(before, h))| >= AUDIT_SEGMENT_MAX_BYTES
    ensures f == h || (SameDay(f, h) && Below(f, h))
  {
    ValidIsRight(s, before, c);
    var day, sizes := c.file[..8], Sizes(s, before);
    assert f in sizes && MatchesDay(f, day);
    h :| IsGreatest(h, day, sizes.Keys) && sizes[h] >= AUDIT_SEGMENT_MAX_BYTES;
  }

  // Later records of the day all go to the file beyond its last number.
  predicate OnlyOverflow(commits: seq<Commit>, n: nat, day: string)
    requires n <= |commits|
  {
    forall i | n <= i < |commits| && day <= commits[i].file :: commits[i].file == Overflow(day)
  }

  // When the numbers of a day have run out, every later record of the day goes to one
  // more file, whatever its size.
  lemma {:induction false} NothingLimitsTheOverflow(s: Scheme, commits: seq<Commit>, n: nat, day: string)
    requires WellFormed(s, commits) && n <= |commits| && ValidDay(day)
    requires !HasRoom(day, Sizes(s, commits[..n]))
    ensures !HasRoom(day, Sizes(s, commits))
    ensures OnlyOverflow(commits, n, day)
  {
    if n == |commits| {
      assert commits[..n] == commits;
    } else {
      var before, last := commits[..|commits| - 1], commits[|commits| - 1];
      TakeOfTake(commits, n);
      NothingLimitsTheOverflow(s, before, n, day);
      FullStaysFull(s, before, last, day);
      OnlyOverflowOneMore(before, last, n, day);
    }
  }

  lemma TakeOfTake(commits: seq<Commit>, n: nat)
    requires n < |commits|
    ensures commits[..|commits| - 1][..n] == commits[..n]
    ensures commits == commits[..|commits| - 1] + [commits[|commits| - 1]]
  {
  }

  lemma OnlyOverflowOneMore(before: seq<Commit>, c: Commit, n: nat, day: string)
    requires n <= |before| && OnlyOverflow(before, n, day) && (day <= c.file ==> c.file == Overflow(day))
    ensures OnlyOverflow(before + [c], n, day)
  {
  }

  lemma FullStaysFull(s: Scheme, before: seq<Commit>, c: Commit, day: string)
    requires Extends(s, before, c) && ValidDay(day) && !HasRoom(day, Sizes(s, before))
    ensures !HasRoom(day, Sizes(s, before + [c]))
    ensures day <= c.file ==> c.file == Overflow(day)
  {
    SegmentIdMatches(day, MAX_SEGMENT + 1);
    assert day <= c.file ==> c.file[..8] == day;
    SizesAfterCommit(s, before, c);
    OtherFilesLeaveFull(day, Sizes(s, before), c.file, |TextsOf(s, before + [c])[c.file]|);
  }

  lemma OtherFilesLeaveFull(day: string, sizes: map<FileId, nat>, file: FileId, size: nat)
    requires !HasRoom(day, sizes) && !MatchesDay(file, day)
    ensures !HasRoom(day, sizes[file := size])
  {
    var g :| IsGreatest(g, day, sizes.Keys) && sizes[g] >= AUDIT_SEGMENT_MAX_BYTES
      && SegmentNumber(g, day) >= MAX_SEGMENT;
    assert IsGreatest(g, day, sizes[file := size].Keys);
  }

  // A new file of a day is numbered 0, or after one that is there.
  lemma NewFileNumber(s: Scheme, before: seq<Commit>, c: Commit, bound: nat)
    requires Extends(s, before, c) && ValidFile(c.file) && c.file !in FilesOf(before)
    requires NumbersBelow(before, bound)
    ensures SegmentNumber(c.file, c.file[..8]) <= bound
  {
    ValidIsRight(s, before, c);
    DayNumbersBelow(s, before, c.file[..8], bound);
    NumberOfNew(c.file, c.file[..8], Sizes(s, before), bound);
  }

  lemma DayNumbersBelow(s: Scheme, commits: seq<Commit>, day: string, bound: nat)
    requires ValidDay(day) && NumbersBelow(commits, bound)
    ensures forall f | f in Sizes(s, commits) && MatchesDay(f, day) :: SegmentNumber(f, day) < bound
  {
    forall f | f in Sizes(s, commits) && MatchesDay(f, day)
      ensures SegmentNumber(f, day) < bound
    {
      assert f[..8] == day;
    }
  }

  lemma NumberOfNew(id: FileId, day: string, sizes: map<FileId, nat>, bound: nat)
    requires RightFile(id, day, sizes) && id !in sizes
    requires forall f | f in sizes && MatchesDay(f, day) :: SegmentNumber(f, day) < bound
    ensures SegmentNumber(id, day) <= bound
  {
    if f :| f in sizes && MatchesDay(f, day) {
      var g :| IsGreatest(g, day, sizes.Keys) && SegmentNumber(id, day) == SegmentNumber(g, day) + 1;
    }
  }

  predicate NumbersBelow(commits: seq<Commit>, bound: nat) {
    forall f | f in FilesOf(commits) && ValidFile(f) :: SegmentNumber(f, f[..8]) < bound
  }

  // Every segment takes a commit, so their numbers stay below the number of commits.
  lemma {:induction false} NumbersFollowCommits(s: Scheme, commits: seq<Commit>)
    requires WellFormed(s, commits)
    ensures NumbersBelow(commits, |commits|)
  {
    if commits != [] {
      var n := |commits| - 1;
      TakeOfTake(commits, n);
      NumbersFollowCommits(s, commits[..n]);
      NumbersOneMore(s, commits[..n], commits[n], n);
    }
  }

  lemma NumbersOneMore(s: Scheme, before: seq<Commit>, c: Commit, bound: nat)
    requires Extends(s, before, c) && NumbersBelow(before, bound)
    ensures NumbersBelow(before + [c], bound + 1)
  {
    FilesOneMore(before, c);
    if c.file !in FilesOf(before) && ValidFile(c.file) {
      NewFileNumber(s, before, c, bound);
    }
  }

  // With no more commits than there are segments of a day, no number can run out.
  lemma ShortHistoriesHaveRoom(s: Scheme, commits: seq<Commit>, i: nat)
    requires WellFormed(s, commits) && i < |commits| <= MAX_SEGMENT + 1
    ensures ValidFile(commits[i].file)
  {
    WellFormedPrefix(s, commits, i);
    NumbersFollowCommits(s, commits[..i]);
    NextIsValid(s, commits[..i], commits[i]);
  }

  lemma NextIsValid(s: Scheme, before: seq<Commit>, c: Commit)
    requires Extends(s, before, c) && NumbersBelow(before, MAX_SEGMENT)
    ensures ValidFile(c.file)
  {
    var day := c.file[..8];
    forall f | IsGreatest(f, day, Sizes(s, before).Keys)
      ensures SegmentNumber(f, day) < MAX_SEGMENT
    {
      assert f[..8] == day;
    }
  }

  lemma {:induction false} NoMoreCommitsThanEvents(s: Scheme, events: seq<Event>, acknowledged: seq<bool>,
                                                   commits: seq<Commit>)
    requires |acknowledged| == |events| && Serves(s, events, acknowledged, commits)
    ensures |commits| <= |events|
    decreases |events|
  {
    if events != [] {
      var n := |events| - 1;
      if Serves(s, events[..n], acknowledged[..n], commits) {
        NoMoreCommitsThanEvents(s, events[..n], acknowledged[..n], commits);
      } else {
        NoMoreCommitsThanEvents(s, events[..n], acknowledged[..n], commits[..|commits| - 1]);
      }
    }
  }

  // A history of no more events than that is always recovered.
  lemma ShortHistoriesAreNeverStuck(s: Scheme, events: seq<Event>, acknowledged: seq<bool>, commits: seq<Commit>,
                                    d: Disk)
    requires |acknowledged| == |events| <= MAX_SEGMENT + 1
    requires Serves(s, events, acknowledged, commits) && WellFormed(s, commits)
    ensures !Stuck(d, commits)
  {
    NoMoreCommitsThanEvents(s, events, acknowledged, commits);
    if commits != [] {
      ShortHistoriesHaveRoom(s, commits, |commits| - 1);
    }
  }

  // The files hold these commits and nothing else.
  predicate HoldsLog(s: Scheme, commits: seq<Commit>, files: map<FileId, string>) {
    && files.Keys == FilesOf(commits)
    && forall id | id in files :: Rows(s, Text.Lines(files[id])) == Wrapped(Project(commits, id))
  }

  // Beside the checkpoint of a settled log, whatever the head, nothing else verifies.
  lemma OnlyTheLogVerifies(s: Scheme, commits: seq<Commit>, files: map<FileId, string>, head: HeadFile)
    requires s.Valid() && s.Binding() && s.Distinct() && WellFormed(s, commits)
    requires Intact(s, files, head, Some(CheckpointAfter(s, commits)), false)
    ensures HoldsLog(s, commits, files)
    ensures head == Head(HeadAfter(s, commits))
  {
    SettledDeterminesLog(s, commits, files, head);
    SettledHoldsLog(s, commits);
    SameRowsHoldLog(s, commits, Settled(s, commits).files, files);
  }

  lemma SettledDeterminesLog(s: Scheme, commits: seq<Commit>, files: map<FileId, string>, head: HeadFile)
    requires s.Valid() && s.Binding() && s.Distinct() && WellFormed(s, commits)
    requires Intact(s, files, head, Some(CheckpointAfter(s, commits)), false)
    ensures SameRows(s, files, Settled(s, commits).files)
    ensures head == Head(HeadAfter(s, commits))
  {
    SettledIsIntact(s, commits);
    var d := Settled(s, commits);
    CheckpointDeterminesLog(s, d.files, files, d.head, head, CheckpointAfter(s, commits));
    UnderCheckpoint(s, files, head, CheckpointAfter(s, commits));
  }

  // A directory that was put back to an earlier state of the log, head and all, does not
  // verify beside the checkpoint of the later one.
  lemma RollbackIsFound(s: Scheme, commits: seq<Commit>, n: nat)
    requires s.Valid() && s.Binding() && s.Distinct() && WellFormed(s, commits) && n < |commits|
    ensures var earlier := Settled(s, commits[..n]);
            !Intact(s, earlier.files, earlier.head, Settled(s, commits).checkpoint, false)
  {
    var earlier := Settled(s, commits[..n]);
    if Intact(s, earlier.files, earlier.head, Settled(s, commits).checkpoint, false) {
      OnlyTheLogVerifies(s, commits, earlier.files, earlier.head);
    }
  }

  lemma SameEntrySameRecords(s: Scheme, a: seq<Commit>, b: seq<Commit>, f: FileId)
    requires s.Valid() && s.Binding() && WellFormed(s, a) && WellFormed(s, b)
    requires EntryOf(s, f, Project(a, f)) == EntryOf(s, f, Project(b, f))
    ensures Project(a, f) == Project(b, f)
  {
    ProjectIsChained(s, a, f);
    ProjectIsChained(s, b, f);
    ChainDetermined(s, Project(a, f), Project(b, f));
  }

  lemma SameRecordsSameTexts(s: Scheme, a: seq<Commit>, b: seq<Commit>)
    requires FilesOf(a) == FilesOf(b) && forall f | f in FilesOf(a) :: Project(a, f) == Project(b, f)
    ensures TextsOf(s, a) == TextsOf(s, b)
  {
  }

  lemma FilesOfEntries(s: Scheme, commits: seq<Commit>)
    ensures EntriesOf(s, commits).Keys == FilesOf(commits)
  {
  }

  lemma SameEntriesSameTexts(s: Scheme, a: seq<Commit>, b: seq<Commit>)
    requires s.Valid() && s.Binding() && WellFormed(s, a) && WellFormed(s, b) && EntriesOf(s, a) == EntriesOf(s, b)
    ensures TextsOf(s, a) == TextsOf(s, b)
  {
    FilesOfEntries(s, a);
    FilesOfEntries(s, b);
    forall f | f in FilesOf(a)
      ensures Project(a, f) == Project(b, f)
    {
      assert EntriesOf(s, a)[f] == EntriesOf(s, b)[f];
      SameEntrySameRecords(s, a, b, f);
    }
    SameRecordsSameTexts(s, a, b);
  }

  // A writer goes on after another process exactly if that one has left the very log that
  // the writer remembers.
  lemma StaleMemoryIsFound(s: Scheme, mine: seq<Commit>, theirs: seq<Commit>, file: FileId)
    requires s.Valid() && s.Binding() && s.Distinct() && WellFormed(s, mine) && WellFormed(s, theirs)
    requires file in FilesOf(mine)
    ensures var records := Project(mine, file);
            Consistent(s, Settled(s, theirs), Settled(s, mine).checkpoint, Sizes(s, mine), file, |records|,
                       LastHash(records))
            <==> Settled(s, theirs) == Settled(s, mine)
  {
    var records := Project(mine, file);
    ConsistentIff(s, Settled(s, theirs), CheckpointAfter(s, mine), Sizes(s, mine), file, |records|, LastHash(records));
    SettledIsConsistent(s, mine, file);
    if HeadAfter(s, mine).mac == HeadAfter(s, theirs).mac {
      SameEntriesSameTexts(s, mine, theirs);
    }
  }

  predicate SameRows(s: Scheme, one: map<FileId, string>, two: map<FileId, string>) {
    one.Keys == two.Keys && forall id | id in one :: Rows(s, Text.Lines(one[id])) == Rows(s, Text.Lines(two[id]))
  }

  lemma SettledHoldsLog(s: Scheme, commits: seq<Commit>)
    requires s.Valid()
    ensures HoldsLog(s, commits, Settled(s, commits).files)
  {
    forall id | id in FilesOf(commits)
      ensures Rows(s, Text.Lines(Settled(s, commits).files[id])) == Wrapped(Project(commits, id))
    {
      PrintedReadsBack(s, Project(commits, id));
    }
  }

  // What a settled log is: every file prints its commits in order, and head and
  // checkpoint count all commits and hold length and last hash of every file.
  lemma SettledSpelledOut(s: Scheme, commits: seq<Commit>)
    requires s.Valid()
    ensures var d := Settled(s, commits);
            && HoldsLog(s, commits, d.files) && d.journal == None && d.head.Head?
            && !d.head.doc.legacy && d.head.doc.generation == |commits| + 1
            && d.head.doc.mac == SignedBy(s, d.head.doc)
            && d.checkpoint == Some(Checkpoint(|commits| + 1, d.head.doc.mac))
            && d.head.doc.entries.Keys == d.files.Keys
            && forall f | f in d.files ::
                 var records := Project(commits, f);
                 var last := if records == [] then "" else records[|records| - 1].hash;
                 d.head.doc.entries[f] == Entry(|records|, last, s.entryMac(f, |records|, last))
  {
    SettledHoldsLog(s, commits);
  }

  lemma SameRowsHoldLog(s: Scheme, commits: seq<Commit>, held: map<FileId, string>, files: map<FileId, string>)
    requires HoldsLog(s, commits, held) && SameRows(s, files, held)
    ensures HoldsLog(s, commits, files)
  {
  }
}
