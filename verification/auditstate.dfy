/** What the audit writer leaves on disk, at rest and in the middle of a commit. */
module AuditState {
  import opened Common
  import opened Text
  import opened AuditChain
  import opened AuditVerify
  import Segments

  // One record committed to one file.
  datatype Commit = Commit(file: FileId, record: Sealed)

  // The write-ahead journal: the state after a commit, and the line it appends.
  datatype Pending = Pending(previous: Option<Checkpoint>, checkpoint: Checkpoint, record: Option<(FileId, string)>,
                             head: HeadDoc)

  datatype Disk = Disk(files: map<FileId, string>, head: HeadFile, checkpoint: Option<Checkpoint>,
                       journal: Option<Pending>)

  const EMPTY := Disk(map[], NoHead, None, None)

  /* ---- the disk that a history of commits determines ---- */

  function Project(commits: seq<Commit>, file: FileId): seq<Sealed> {
    if commits == [] then []
    else
      var rest, last := Project(commits[..|commits| - 1], file), commits[|commits| - 1];
      if last.file == file then rest + [last.record] else rest
  }

  function FilesOf(commits: seq<Commit>): set<FileId> {
    set c | c in commits :: c.file
  }

  function EntryOf(s: Scheme, file: FileId, records: seq<Sealed>): Entry {
    Entry(|records|, LastHash(records), s.entryMac(file, |records|, LastHash(records)))
  }

  function EntriesOf(s: Scheme, commits: seq<Commit>): map<FileId, Entry> {
    map f | f in FilesOf(commits) :: EntryOf(s, f, Project(commits, f))
  }

  function TextsOf(s: Scheme, commits: seq<Commit>): map<FileId, string> {
    map f | f in FilesOf(commits) :: Printed(s, Project(commits, f))
  }

  // The checkpoint was made with generation 1, and every commit adds one.
  function Generation(commits: seq<Commit>): nat {
    1 + |commits|
  }

  function HeadAfter(s: Scheme, commits: seq<Commit>): HeadDoc {
    var entries := EntriesOf(s, commits);
    HeadDoc(false, Generation(commits), entries, s.manifestMac(HEAD_FORMAT_VERSION, Generation(commits), entries))
  }

  function CheckpointAfter(s: Scheme, commits: seq<Commit>): Checkpoint {
    Checkpoint(Generation(commits), HeadAfter(s, commits).mac)
  }

  function Settled(s: Scheme, commits: seq<Commit>): Disk {
    Disk(TextsOf(s, commits), Head(HeadAfter(s, commits)), Some(CheckpointAfter(s, commits)), None)
  }

  /* ---- the histories the writer makes ---- */

  predicate ValidDay(day: string) {
    |day| == 8 && Segments.AllDigits(day)
  }

  predicate ValidFile(file: FileId) {
    |file| >= 8 && ValidDay(file[..8]) && Segments.MatchesDay(file, file[..8])
  }

  function Sizes(s: Scheme, commits: seq<Commit>): map<FileId, nat> {
    map f | f in FilesOf(commits) :: |Printed(s, Project(commits, f))|
  }

  // A commit seals a new body that names the last hash of its file, and goes to the
  // file that the rotation rule gives.
  ghost predicate Extends(s: Scheme, before: seq<Commit>, c: Commit) {
    && s.keyed(c.record.body) && c.record.hash == s.seal(c.record.body)
    && s.prevOf(c.record.body) == LastHash(Project(before, c.file))
    && |c.file| >= 8 && ValidDay(c.file[..8])
    && c.file in Segments.Taking(c.file[..8], Sizes(s, before))
  }

  ghost predicate WellFormed(s: Scheme, commits: seq<Commit>) {
    commits == []
    || (WellFormed(s, commits[..|commits| - 1]) && Extends(s, commits[..|commits| - 1], commits[|commits| - 1]))
  }

  lemma {:induction false} ProjectOfAbsent(commits: seq<Commit>, file: FileId)
    ensures file in FilesOf(commits) <==> Project(commits, file) != []
  {
    if commits != [] {
      var n := |commits| - 1;
      ProjectOfAbsent(commits[..n], file);
      assert commits == commits[..n] + [commits[n]];
    }
  }

  lemma {:induction false} ProjectIsChained(s: Scheme, commits: seq<Commit>, file: FileId)
    requires s.Valid() && WellFormed(s, commits)
    ensures Chained(s, Project(commits, file))
  {
    if commits != [] {
      var n := |commits| - 1;
      ProjectIsChained(s, commits[..n], file);
      var rest, all := Project(commits[..n], file), Project(commits, file);
      if commits[n].file == file {
        forall i | 0 <= i < |all|
          ensures s.accepts(all[i].body, all[i].hash) && s.prevOf(all[i].body) == LastHash(all[..i])
        {
          if i < |rest| {
            assert all[i] == rest[i] && all[..i] == rest[..i];
          } else {
            assert all[..i] == rest;
          }
        }
      }
    }
  }

  // Verification accepts what a history of commits leaves.
  lemma SettledIsIntact(s: Scheme, commits: seq<Commit>)
    requires s.Valid() && WellFormed(s, commits)
    ensures var d := Settled(s, commits); Intact(s, d.files, d.head, d.checkpoint, false)
  {
    var d := Settled(s, commits);
    var entries := HeadOf(ReadHead(s, d.head));
    forall id | id in d.files
      ensures FileBreaks(s, id, d.files[id], Lookup(entries, id), false) == []
    {
      var records := Project(commits, id);
      ProjectIsChained(s, commits, id);
      PrintedReadsBack(s, records);
      FileIntactIff(s, id, d.files[id], Lookup(entries, id), false);
      assert FileIntact(s, id, d.files[id], Lookup(entries, id), false, records);
    }
  }

  /* ---- one more commit ---- */

  lemma ProjectOneMore(before: seq<Commit>, c: Commit, file: FileId)
    ensures Project(before + [c], file) == Project(before, file) + (if c.file == file then [c.record] else [])
  {
    assert (before + [c])[..|before|] == before;
  }

  lemma PrintedOneMore(s: Scheme, records: seq<Sealed>, r: Sealed)
    ensures Printed(s, records + [r]) == Printed(s, records) + LineOf(s, r)
  {
    assert (records + [r])[..|records|] == records;
  }

  lemma FilesOneMore(before: seq<Commit>, c: Commit)
    ensures FilesOf(before + [c]) == FilesOf(before) + {c.file}
  {
    assert forall x | x in before + [c] :: x in before || x == c;
    assert c in before + [c];
    forall x | x in before
      ensures x in before + [c]
    {
    }
  }

  // Only the projection to its own file sees a commit.
  lemma ProjectsOneMore(before: seq<Commit>, c: Commit)
    ensures Project(before + [c], c.file) == Project(before, c.file) + [c.record]
    ensures forall file | file != c.file :: Project(before + [c], file) == Project(before, file)
    ensures FilesOf(before + [c]) == FilesOf(before) + {c.file}
  {
    FilesOneMore(before, c);
    ProjectOneMore(before, c, c.file);
    forall file | file != c.file
      ensures Project(before + [c], file) == Project(before, file)
    {
      ProjectOneMore(before, c, file);
    }
  }

  lemma TextsOneMore(s: Scheme, before: seq<Commit>, c: Commit)
    ensures TextsOf(s, before + [c])
            == TextsOf(s, before)[c.file := Printed(s, Project(before, c.file)) + LineOf(s, c.record)]
  {
    ProjectsOneMore(before, c);
    PrintedOneMore(s, Project(before, c.file), c.record);
  }

  lemma EntriesOneMore(s: Scheme, before: seq<Commit>, c: Commit)
    ensures EntriesOf(s, before + [c])
            == EntriesOf(s, before)[c.file := EntryOf(s, c.file, Project(before, c.file) + [c.record])]
  {
    ProjectsOneMore(before, c);
  }

  function PendingOf(s: Scheme, before: seq<Commit>, c: Commit): Pending {
    var commits := before + [c];
    Pending(Some(CheckpointAfter(s, before)), CheckpointAfter(s, commits), Some((c.file, s.encode(c.record))),
            HeadAfter(s, commits))
  }

  // The journal of the first checkpoint, over the entries that verification accepted.
  function InitialPending(s: Scheme, entries: map<FileId, Entry>): Pending {
    var mac := s.manifestMac(HEAD_FORMAT_VERSION, 1, entries);
    Pending(None, Checkpoint(1, mac), None, HeadDoc(false, 1, entries, mac))
  }

  function InitPending(s: Scheme): Pending {
    InitialPending(s, map[])
  }

  // The last commit is journalled, and `torn` bytes of its line are in the file. The
  // head follows the full line, and the checkpoint follows the head.
  predicate InFlightAt(s: Scheme, d: Disk, commits: seq<Commit>, torn: nat)
    requires commits != []
  {
    var before, c := commits[..|commits| - 1], commits[|commits| - 1];
    var base, line := Printed(s, Project(before, c.file)), LineOf(s, c.record);
    && d.journal == Some(PendingOf(s, before, c))
    && torn <= |line|
    && (d.files == TextsOf(s, before)[c.file := base + line[..torn]] || (torn == 0 && d.files == TextsOf(s, before)))
    && d.head in {Head(HeadAfter(s, before)), Head(HeadAfter(s, commits))}
    && d.checkpoint in {Some(CheckpointAfter(s, before)), Some(CheckpointAfter(s, commits))}
    && (d.head == Head(HeadAfter(s, before)) || torn == |line|)
    && (d.checkpoint == Some(CheckpointAfter(s, before)) || d.head == Head(HeadAfter(s, commits)))
  }

  ghost predicate InFlight(s: Scheme, d: Disk, commits: seq<Commit>)
    requires commits != []
  {
    exists torn :: InFlightAt(s, d, commits, torn)
  }

  // The whole line is in the file.
  predicate LineWritten(s: Scheme, d: Disk, commits: seq<Commit>)
    requires commits != []
  {
    InFlightAt(s, d, commits, |LineOf(s, commits[|commits| - 1].record)|)
  }

  // The first checkpoint of an empty log is being made.
  predicate Initializing(s: Scheme, d: Disk) {
    && d.files == map[] && d.journal == Some(InitPending(s))
    && d.head in {NoHead, Head(HeadAfter(s, []))}
    && d.checkpoint in {None, Some(CheckpointAfter(s, []))}
    && (d.checkpoint == None || d.head != NoHead)
  }

  lemma InitPendingHolds(s: Scheme)
    ensures InitPending(s).checkpoint == CheckpointAfter(s, []) && InitPending(s).head == HeadAfter(s, [])
  {
    assert EntriesOf(s, []) == map[];
  }

  // Every disk that a crash, a failure or a normal end can leave.
  ghost predicate Sane(s: Scheme, d: Disk, commits: seq<Commit>) {
    && WellFormed(s, commits)
    && (d == Settled(s, commits)
        || (if commits == [] then d == EMPTY || Initializing(s, d) else InFlight(s, d, commits)))
  }

  /* ---- the tail of a file that an append may have left torn ---- */

  function TrimNewlines(text: string): string {
    if text != "" && text[|text| - 1] == '\n' then TrimNewlines(text[..|text| - 1]) else text
  }

  // The last nonempty line of a text whose lines are complete.
  function LastLine(text: string): string {
    var trimmed := TrimNewlines(text);
    trimmed[LastLineStart(trimmed)..]
  }

  lemma TrimOneNewline(text: string)
    requires text != "" && text[|text| - 1] != '\n'
    ensures TrimNewlines(text + "\n") == text
  {
    assert (text + "\n")[..|text|] == text;
  }

  lemma LastLineIs(front: string, last: string)
    requires EndsLine(front) && last != "" && '\n' !in last
    ensures LastLine(front + last + "\n") == last
  {
    assert (front + last)[|front + last| - 1] == last[|last| - 1];
    TrimOneNewline(front + last);
    LastLineStartOf(front, last);
    assert (front + last)[|front|..] == last;
  }

  lemma LastLineOfPrinted(s: Scheme, records: seq<Sealed>)
    requires s.Valid() && records != []
    ensures LastLine(Printed(s, records)) == s.encode(records[|records| - 1])
  {
    var n := |records| - 1;
    var rest, line := Printed(s, records[..n]), s.encode(records[n]);
    assert !IsBlank(line) && '\n' !in line;
    assert Printed(s, records) == rest + line + "\n";
    LastLineIs(rest, line);
  }

  lemma TailOfLine(rest: string, last: string, line: string)
    requires EndsLine(rest) && '\n' !in line
    requires IsTail(line + "\n", rest + last + "\n")
    ensures IsTail(line, last)
  {
    var text, full := rest + last + "\n", line + "\n";
    var at := |text| - |full|;
    assert forall i | 0 <= i < |line| :: text[at + i] == text[at..][i] == line[i];
    assert rest == "" || text[|rest| - 1] == '\n';
    if |line| <= |last| {
      assert last[|last| - |line|..] == line;
    }
  }

  // The new line is not already there: a log that ends in it would end in a record
  // sealed with the hash it links to.
  lemma NotThereYet(s: Scheme, records: seq<Sealed>, r: Sealed)
    requires s.Valid() && s.Separated()
    requires s.prevOf(r.body) == LastHash(records) && r.hash == s.seal(r.body)
    ensures !IsTail(LineOf(s, r), Printed(s, records))
  {
    if records != [] {
      var n := |records| - 1;
      var rest, last := Printed(s, records[..n]), s.encode(records[n]);
      assert Printed(s, records) == rest + last + "\n";
      assert s.seal(r.body) != s.prevOf(r.body);
      if IsTail(LineOf(s, r), Printed(s, records)) {
        TailOfLine(rest, last, s.encode(r));
      }
    }
  }

  // What recovery reads off the tail, however much of the line was written.
  lemma TornTail(s: Scheme, records: seq<Sealed>, r: Sealed, torn: nat)
    requires s.Valid() && s.Separated() && torn <= |LineOf(s, r)|
    requires s.prevOf(r.body) == LastHash(records) && r.hash == s.seal(r.body)
    ensures var content := Printed(s, records) + LineOf(s, r)[..torn];
            && (IsTail(LineOf(s, r), content) <==> torn == |LineOf(s, r)|)
            && (torn < |LineOf(s, r)| ==>
                  && LastLineStart(content) == |Printed(s, records)|
                  && content[|Printed(s, records)|..] <= s.encode(r))
  {
    var base, line := Printed(s, records), s.encode(r);
    var full := LineOf(s, r);
    var content := base + full[..torn];
    assert '\n' !in line;
    if torn == |full| {
      assert full[..torn] == full && content[|base|..] == full;
    } else {
      assert full[..torn] == line[..torn];
      LastLineStartOf(base, line[..torn]);
      if torn == 0 {
        assert content == base;
        NotThereYet(s, records, r);
      } else {
        assert content[|content| - 1] == line[torn - 1] != '\n';
      }
    }
  }

  /* ---- the journal reads back ---- */

  // What read_pending_commit demands of a journal beyond its own MAC.
  predicate Readable(s: Scheme, p: Pending) {
    var read := DecodeHead(s, p.head);
    && read.Found? && read.anchor.Some?
    && read.anchor.value.generation == p.checkpoint.generation && read.anchor.value.mac == p.checkpoint.mac
    && (p.record.Some? ==>
          ValidFile(p.record.value.0) && RecordReads(s, p.record.value.0, p.record.value.1, read.anchor.value.entries))
  }

  // validate_pending_record
  predicate RecordReads(s: Scheme, file: FileId, line: string, entries: map<FileId, Entry>) {
    var parsed := s.parse(line);
    && parsed.Some? && s.keyed(parsed.value.body) && s.accepts(parsed.value.body, parsed.value.hash)
    && file in entries && entries[file].Entry? && entries[file].last == parsed.value.hash
  }

  // A journal passes exactly if its checkpoint stands for its signed head, and its record,
  // if it has one, is keyed, verifies, and is the last of its file according to the head.
  lemma ReadableIff(s: Scheme, p: Pending)
    ensures Readable(s, p) <==>
              && p.head.mac == SignedBy(s, p.head)
              && (if p.head.legacy then p.checkpoint == Checkpoint(0, p.head.mac)
                  else p.head.generation > 0 && p.checkpoint == Checkpoint(p.head.generation, p.head.mac))
              && (p.record.Some? ==>
                    var file, line := p.record.value.0, p.record.value.1;
                    && |file| >= 8 && Segments.AllDigits(file[..8])
                    && (|file| == 8 || (|file| == 15 && file[8] == '-' && Segments.AllDigits(file[9..])))
                    && s.parse(line).Some?
                    && var r := s.parse(line).value;
                       && s.keyed(r.body) && s.accepts(r.body, r.hash)
                       && file in p.head.entries && p.head.entries[file].Entry? && p.head.entries[file].last == r.hash)
  {
  }

  // So one checkpoint lets one record of a file pass, beside one account of the log.
  lemma CheckpointDeterminesPending(s: Scheme, p: Pending, q: Pending)
    requires s.Binding() && s.Distinct() && Readable(s, p) && Readable(s, q) && p.checkpoint == q.checkpoint
    ensures p.head.entries == q.head.entries && p.head.mac == q.head.mac
    ensures p.record.Some? && q.record.Some? && p.record.value.0 == q.record.value.0 ==>
              s.parse(p.record.value.1) == s.parse(q.record.value.1)
  {
    ReadableIff(s, p);
    ReadableIff(s, q);
  }

  // The journal of a commit reads back exactly if the name of its file has a number of
  // no more than six digits.
  lemma PendingIsReadable(s: Scheme, before: seq<Commit>, c: Commit)
    requires s.Valid() && Extends(s, before, c)
    ensures Readable(s, PendingOf(s, before, c)) <==> ValidFile(c.file)
  {
    CommittedReads(s, before, c);
  }

  lemma CommittedReads(s: Scheme, before: seq<Commit>, c: Commit)
    requires s.Valid() && Extends(s, before, c)
    ensures RecordReads(s, c.file, s.encode(c.record), EntriesOf(s, before + [c]))
  {
    EntriesOneMore(s, before, c);
    var records := Project(before, c.file);
    assert (records + [c.record])[|records|] == c.record;
    assert s.parse(s.encode(c.record)) == Some(c.record);
  }

  // The file in flight holds its settled text and the written part of the line.
  lemma ContentInFlight(s: Scheme, d: Disk, commits: seq<Commit>, torn: nat)
    requires commits != [] && InFlightAt(s, d, commits, torn)
    ensures var before, c := commits[..|commits| - 1], commits[|commits| - 1];
            var content := if c.file in d.files then d.files[c.file] else "";
            content == Printed(s, Project(before, c.file)) + LineOf(s, c.record)[..torn]
  {
    var before, c := commits[..|commits| - 1], commits[|commits| - 1];
    ProjectOfAbsent(before, c.file);
    if d.files != TextsOf(s, before)[c.file := Printed(s, Project(before, c.file)) + LineOf(s, c.record)[..torn]] {
      assert LineOf(s, c.record)[..torn] == "";
      assert Printed(s, Project(before, c.file)) + "" == Printed(s, Project(before, c.file));
    }
  }

  // The effect of rewriting the tail of a file.
  predicate Rewritten(before: map<FileId, string>, after: map<FileId, string>, file: FileId, start: nat,
                      complete: string,
                      cut: bool, written: nat)
    requires start <= |if file in before then before[file] else ""| && written <= |complete|
  {
    var content := if file in before then before[file] else "";
    if cut then after == before[file := content[..start] + complete[..written]]
    else after == before || (file !in before && after == before[file := ""])
  }

  lemma TakeOfConcat(a: string, b: string)
    ensures (a + b)[..|a|] == a
  {
  }

  lemma RewriteStaysInFlight(s: Scheme, d: Disk, d': Disk, commits: seq<Commit>, torn: nat, cut: bool, written: nat)
    requires commits != [] && InFlightAt(s, d, commits, torn)
    requires var c := commits[|commits| - 1];
             && torn < |LineOf(s, c.record)| && written <= |LineOf(s, c.record)|
             && d' == d.(files := d'.files)
             && var start := |Printed(s, Project(commits[..|commits| - 1], c.file))|;
             && start <= |if c.file in d.files then d.files[c.file] else ""|
             && Rewritten(d.files, d'.files, c.file, start, LineOf(s, c.record), cut, written)
    ensures InFlightAt(s, d', commits, if cut then written else torn)
  {
    var before, c := commits[..|commits| - 1], commits[|commits| - 1];
    var base, line := Printed(s, Project(before, c.file)), LineOf(s, c.record);
    var content := if c.file in d.files then d.files[c.file] else "";
    ContentInFlight(s, d, commits, torn);
    TakeOfConcat(base, line[..torn]);
    var settled := TextsOf(s, before);
    FilesInFlight(settled, d.files, d'.files, c.file, base, line, torn, content, cut, written);
  }

  // What a rewrite leaves of a file, as a map of texts.
  lemma FilesInFlight(settled: map<FileId, string>, files: map<FileId, string>, files': map<FileId, string>,
                      file: FileId,
                      base: string, line: string, torn: nat, content: string, cut: bool, written: nat)
    requires torn <= |line| && written <= |line| && |base| <= |content| && content[..|base|] == base
    requires content == (if file in files then files[file] else "") && content == base + line[..torn]
    requires files == settled[file := base + line[..torn]] || (torn == 0 && files == settled)
    requires Rewritten(files, files', file, |base|, line, cut, written)
    ensures cut ==> files' == settled[file := base + line[..written]]
    ensures !cut ==> files' == settled[file := base + line[..torn]] || (torn == 0 && files' == settled)
  {
    if !cut && files' != files {
      assert content == "" && base == "" && line[..torn] == "";
    }
  }

  // With line, head and checkpoint in place, only the journal is left to remove.
  lemma InFlightDone(s: Scheme, d: Disk, commits: seq<Commit>, torn: nat)
    requires commits != [] && InFlightAt(s, d, commits, torn)
    requires d.head == Head(HeadAfter(s, commits)) && d.checkpoint == Some(CheckpointAfter(s, commits))
    ensures d.(journal := None) == Settled(s, commits)
  {
    var before, c := commits[..|commits| - 1], commits[|commits| - 1];
    assert commits == before + [c];
    TextsOneMore(s, before, c);
    assert LineOf(s, c.record)[..|LineOf(s, c.record)|] == LineOf(s, c.record);
    assert |LineOf(s, c.record)| > 0;
    HeadsDiffer(s, before, c);
  }

  // With the line in place, writing the head and then the checkpoint stays in flight.
  lemma HeadFollowsLine(s: Scheme, d: Disk, commits: seq<Commit>)
    requires commits != [] && LineWritten(s, d, commits)
    ensures LineWritten(s, d.(head := Head(HeadAfter(s, commits))), commits)
  {
  }

  // Only checkpoint and journal are left to write.
  ghost predicate Closing(s: Scheme, d: Disk, commits: seq<Commit>) {
    && d.head == Head(HeadAfter(s, commits))
    && (if commits == [] then Initializing(s, d) else LineWritten(s, d, commits))
  }

  // The disks between a written head and the end of the commit.
  lemma ClosingSteps(s: Scheme, d: Disk, d': Disk, commits: seq<Commit>)
    requires WellFormed(s, commits) && Closing(s, d, commits)
    requires var stored := d.(checkpoint := Some(CheckpointAfter(s, commits)));
             d' == d || d' == stored || d' == stored.(journal := None)
    ensures Sane(s, d', commits)
    ensures d'.journal == None ==> d' == Settled(s, commits)
  {
    var stored := d.(checkpoint := Some(CheckpointAfter(s, commits)));
    assert Closing(s, stored, commits);
    if commits != [] {
      InFlightDone(s, stored, commits, |LineOf(s, commits[|commits| - 1].record)|);
    }
  }

  // Head, checkpoint and journal are left to write.
  ghost predicate Ready(s: Scheme, d: Disk, commits: seq<Commit>) {
    if commits == [] then Initializing(s, d) else LineWritten(s, d, commits)
  }

  lemma ReadyCloses(s: Scheme, d: Disk, d': Disk, commits: seq<Commit>)
    requires WellFormed(s, commits) && Ready(s, d, commits)
    requires var headed := d.(head := Head(HeadAfter(s, commits)));
             var stored := headed.(checkpoint := Some(CheckpointAfter(s, commits)));
             d' == d || d' == headed || d' == stored || d' == stored.(journal := None)
    ensures Sane(s, d', commits)
    ensures d'.journal == None ==> d' == Settled(s, commits)
  {
    var headed := d.(head := Head(HeadAfter(s, commits)));
    if commits != [] {
      HeadFollowsLine(s, d, commits);
    }
    assert Closing(s, headed, commits);
    if d' != d {
      ClosingSteps(s, headed, d', commits);
    }
  }

  // Generations grow, so a new head or checkpoint is never mistaken for the old one.
  lemma HeadsDiffer(s: Scheme, before: seq<Commit>, c: Commit)
    ensures HeadAfter(s, before) != HeadAfter(s, before + [c])
    ensures CheckpointAfter(s, before) != CheckpointAfter(s, before + [c])
  {
  }

  // The journal of the last commit, or of the first checkpoint.
  ghost predicate JournalFits(s: Scheme, d: Disk, commits: seq<Commit>, p: Pending) {
    && (if commits == [] then p == InitPending(s) && Initializing(s, d)
        else p == PendingOf(s, commits[..|commits| - 1], commits[|commits| - 1]) && InFlight(s, d, commits))
    && p.checkpoint == CheckpointAfter(s, commits) && p.head == HeadAfter(s, commits)
  }

  lemma FirstJournalFits(s: Scheme, d: Disk)
    requires Initializing(s, d)
    ensures JournalFits(s, d, [], d.journal.value)
    ensures d.checkpoint == d.journal.value.previous || d.checkpoint == Some(d.journal.value.checkpoint)
  {
    InitPendingHolds(s);
  }

  lemma LaterJournalFits(s: Scheme, d: Disk, commits: seq<Commit>, torn: nat)
    requires commits != [] && InFlightAt(s, d, commits, torn)
    ensures JournalFits(s, d, commits, d.journal.value)
    ensures d.checkpoint == d.journal.value.previous || d.checkpoint == Some(d.journal.value.checkpoint)
  {
    assert commits == commits[..|commits| - 1] + [commits[|commits| - 1]];
  }

  // The journal of a sane disk is the one its history determines.
  lemma JournalOfSane(s: Scheme, d: Disk, commits: seq<Commit>)
    requires Sane(s, d, commits) && d.journal.Some?
    ensures JournalFits(s, d, commits, d.journal.value)
    ensures d.checkpoint == d.journal.value.previous || d.checkpoint == Some(d.journal.value.checkpoint)
  {
    if commits == [] {
      FirstJournalFits(s, d);
    } else {
      var torn :| InFlightAt(s, d, commits, torn);
      LaterJournalFits(s, d, commits, torn);
    }
  }

  lemma JournalReadsBack(s: Scheme, d: Disk, commits: seq<Commit>)
    requires s.Valid() && Sane(s, d, commits) && d.journal.Some?
    ensures Readable(s, d.journal.value) <==> commits == [] || ValidFile(commits[|commits| - 1].file)
  {
    JournalOfSane(s, d, commits);
    if commits != [] {
      PendingIsReadable(s, commits[..|commits| - 1], commits[|commits| - 1]);
    }
  }

  lemma SettledIsSane(s: Scheme, commits: seq<Commit>)
    requires WellFormed(s, commits)
    ensures Sane(s, Settled(s, commits), commits)
  {
  }

  lemma InFlightIsSane(s: Scheme, d: Disk, commits: seq<Commit>)
    requires WellFormed(s, commits) && commits != [] && InFlight(s, d, commits)
    ensures Sane(s, d, commits)
  {
  }

  // The last commit went beyond the last segment number, and is still journalled.
  predicate Stuck(d: Disk, commits: seq<Commit>) {
    d.journal.Some? && commits != [] && !ValidFile(commits[|commits| - 1].file)
  }

  // Then, and only then, the program refuses its own journal.
  lemma StuckExactlyIfUnreadable(s: Scheme, d: Disk, commits: seq<Commit>)
    requires s.Valid() && Sane(s, d, commits)
    ensures Stuck(d, commits) <==> d.journal.Some? && !Readable(s, d.journal.value)
  {
    if d.journal.Some? {
      JournalReadsBack(s, d, commits);
    }
  }
}
