/** `verify_core`: an independent reader of the log, its head and its checkpoint. */
module AuditVerify {
  import opened Common
  import opened Text
  import opened AuditChain

  type FileId = string

  datatype HeadDoc = HeadDoc(legacy: bool, generation: nat, entries: map<FileId, Entry>, mac: string)
  datatype HeadFile = NoHead | Garbled | Head(doc: HeadDoc)
  datatype Checkpoint = Checkpoint(generation: nat, mac: string)

  datatype Anchor = Anchor(generation: nat, entries: map<FileId, Entry>, mac: string)
  datatype AnchorResult = Found(anchor: Option<Anchor>) | Tampered

  const HEAD_FORMAT_VERSION := 2
  const LEGACY_HEAD_FORMAT_VERSION := 1

  // decode_head_anchor_value
  function DecodeHead(s: Scheme, doc: HeadDoc): AnchorResult {
    if !doc.legacy && doc.generation == 0 then
      Tampered
    else
      var version := if doc.legacy then LEGACY_HEAD_FORMAT_VERSION else HEAD_FORMAT_VERSION;
      var generation := if doc.legacy then 0 else doc.generation;
      if doc.mac != s.manifestMac(version, generation, doc.entries) then Tampered
      else Found(Some(Anchor(generation, doc.entries, doc.mac)))
  }

  // read_head_anchor
  function ReadHead(s: Scheme, head: HeadFile): AnchorResult {
    match head
    case NoHead => Found(None)
    case Garbled => Tampered
    case Head(doc) => DecodeHead(s, doc)
  }

  // validate_checkpoint
  predicate CheckpointFits(anchor: Option<Anchor>, checkpoint: Option<Checkpoint>) {
    match (anchor, checkpoint)
    case (None, None) => true
    case (None, Some(_)) => false
    case (Some(a), None) => a.generation == 0
    case (Some(a), Some(c)) => a.generation == c.generation && a.mac == c.mac
  }

  datatype BreakKind =
    | BadMac | PrevMismatch | Malformed | Truncated | HeadTampered | HeadMissing | HeadMismatch | MissingFile

  /* ---- one file ---- */

  // What `verify_file` carries from record to record.
  datatype Tally = Tally(breaks: seq<BreakKind>, records: nat, keyed: nat, prev: string, last: string)

  const START := Tally([], 0, 0, "", "")

  function Count(s: Scheme, t: Tally, row: Option<Sealed>): Tally {
    match row
    case None => t.(breaks := t.breaks + [Malformed], records := t.records + 1)
    case Some(r) =>
      var checked := if s.accepts(r.body, r.hash) then t.breaks else t.breaks + [BadMac];
      var linked := if s.prevOf(r.body) == t.prev then checked else checked + [PrevMismatch];
      Tally(linked, t.records + 1, t.keyed + (if s.keyed(r.body) then 1 else 0), r.hash, r.hash)
  }

  function Scan(s: Scheme, t: Tally, rows: seq<Option<Sealed>>): Tally
    decreases |rows|
  {
    if rows == [] then t else Scan(s, Count(s, t, rows[0]), rows[1..])
  }

  // verify_head_entry, and the three cases in which there is no entry
  function EntryBreaks(s: Scheme, id: FileId, entry: Option<Entry>, count: nat, last: string, keyed: nat,
                       allowLegacy: bool): seq<BreakKind> {
    match entry
    case Some(MalformedEntry) => [HeadTampered]
    case Some(Entry(anchored, anchoredLast, mac)) =>
      if mac != s.entryMac(id, anchored, anchoredLast) then [HeadTampered]
      else if count < anchored then [Truncated]
      else if count > anchored then [HeadMismatch]
      else if last != anchoredLast then [HeadMismatch]
      else []
    case None =>
      if keyed == 0 && allowLegacy then [] else [HeadMissing]
  }

  function Lookup(head: Option<map<FileId, Entry>>, id: FileId): Option<Entry> {
    if head.Some? && id in head.value then Some(head.value[id]) else None
  }

  function FileBreaks(s: Scheme, id: FileId, content: string, entry: Option<Entry>, allowLegacy: bool): seq<BreakKind> {
    if !EndsLine(content) then [Truncated]
    else
      var t := Scan(s, START, Rows(s, Lines(content)));
      t.breaks + EntryBreaks(s, id, entry, t.records, t.last, t.keyed, allowLegacy)
  }

  lemma NextRow(s: Scheme, lines: seq<string>, i: nat)
    requires i < |lines|
    ensures var rows, rest := Rows(s, lines[i..]), Rows(s, lines[i + 1..]);
            if IsBlank(lines[i]) then rows == rest
            else |rows| > 0 && rows[0] == s.parse(lines[i]) && rows[1..] == rest
  {
    assert lines[i..][1..] == lines[i + 1..];
  }

  lemma NextTally(s: Scheme, t: Tally, lines: seq<string>, i: nat)
    requires i < |lines|
    ensures Scan(s, t, Rows(s, lines[i..]))
            == Scan(s, if IsBlank(lines[i]) then t else Count(s, t, s.parse(lines[i])), Rows(s, lines[i + 1..]))
  {
    NextRow(s, lines, i);
  }

  method VerifyFile(s: Scheme, id: FileId, content: string, head: Option<map<FileId, Entry>>, allowLegacy: bool)
    returns (breaks: seq<BreakKind>, records: nat)
    ensures breaks == FileBreaks(s, id, content, Lookup(head, id), allowLegacy)
    ensures EndsLine(content) ==> records == Scan(s, START, Rows(s, Lines(content))).records
  {
    breaks, records := [], 0;
    if content != "" && content[|content| - 1] != '\n' {
      return [Truncated], 0;
    }
    var lines := Lines(content);
    var prev, last, keyed := "", "", 0;
    assert lines[0..] == lines;
    ghost var whole := Scan(s, START, Rows(s, lines));
    var i := 0;
    while i < |lines|
      invariant 0 <= i <= |lines|
      invariant Scan(s, Tally(breaks, records, keyed, prev, last), Rows(s, lines[i..])) == whole
    {
      NextTally(s, Tally(breaks, records, keyed, prev, last), lines, i);
      var raw := lines[i];
      i := i + 1;
      if IsBlank(raw) {
        continue;
      }
      records := records + 1;
      var parsed := s.parse(raw);
      if parsed.None? {
        breaks := breaks + [Malformed];
        continue;
      }
      var r := parsed.value;
      if s.keyed(r.body) {
        keyed := keyed + 1;
      }
      if !s.accepts(r.body, r.hash) {
        breaks := breaks + [BadMac];
      }
      if s.prevOf(r.body) != prev {
        breaks := breaks + [PrevMismatch];
      }
      prev, last := r.hash, r.hash;
    }
    assert lines[i..] == [];
    breaks := breaks + EntryBreaks(s, id, Lookup(head, id), records, last, keyed, allowLegacy);
  }

  lemma {:induction false} ScanOneMore(s: Scheme, t: Tally, rows: seq<Option<Sealed>>, row: Option<Sealed>)
    ensures Scan(s, t, rows + [row]) == Count(s, Scan(s, t, rows), row)
    decreases |rows|
  {
    if rows == [] {
      assert ([] + [row])[1..] == [] && ([] + [row])[0] == row;
    } else {
      assert (rows + [row])[0] == rows[0] && (rows + [row])[1..] == rows[1..] + [row];
      ScanOneMore(s, Count(s, t, rows[0]), rows[1..], row);
    }
  }

  // The loop finds nothing wrong exactly in the chains.
  lemma {:induction false} ScanOfChain(s: Scheme, records: seq<Sealed>)
    ensures var t := Scan(s, START, Wrapped(records));
            && t.records == |records| && t.last == t.prev == LastHash(records)
            && (t.breaks == [] <==> Chained(s, records))
  {
    if records != [] {
      var n := |records| - 1;
      ScanOfChain(s, records[..n]);
      ScanOneMore(s, START, Wrapped(records[..n]), Some(records[n]));
      ChainedOneMore(s, records);
    }
  }

  lemma ChainedOneMore(s: Scheme, records: seq<Sealed>)
    requires records != []
    ensures var before, r := records[..|records| - 1], records[|records| - 1];
            Chained(s, records) <==>
              Chained(s, before) && s.accepts(r.body, r.hash) && s.prevOf(r.body) == LastHash(before)
  {
    var before := records[..|records| - 1];
    forall i | 0 <= i < |before|
      ensures before[i] == records[i] && before[..i] == records[..i]
    {
    }
  }

  // A scan without breaks has read nothing malformed.
  lemma {:induction false} ScanWithoutBreaks(s: Scheme, rows: seq<Option<Sealed>>) returns (records: seq<Sealed>)
    requires Scan(s, START, rows).breaks == []
    ensures rows == Wrapped(records) && Chained(s, records)
  {
    records := [];
    if rows != [] {
      var n := |rows| - 1;
      assert rows == rows[..n] + [rows[n]];
      ScanOneMore(s, START, rows[..n], rows[n]);
      var before := ScanWithoutBreaks(s, rows[..n]);
      records := before + [rows[n].value];
      assert records[..n] == before;
      ScanOfChain(s, records);
    }
  }

  function Present(rows: seq<Option<Sealed>>): seq<Sealed> {
    if rows == [] then []
    else
      var last := rows[|rows| - 1];
      Present(rows[..|rows| - 1]) + if last.Some? then [last.value] else []
  }

  lemma PresentOneMore(before: seq<Option<Sealed>>, row: Option<Sealed>)
    ensures Present(before + [row]) == Present(before) + if row.Some? then [row.value] else []
  {
    assert (before + [row])[..|before|] == before;
  }

  // The scan counts the rows, and ends with the hash of the last record.
  lemma {:induction false} ScanCounts(s: Scheme, rows: seq<Option<Sealed>>)
    ensures var t := Scan(s, START, rows); t.records == |rows| && t.last == t.prev == LastHash(Present(rows))
  {
    if rows != [] {
      var n := |rows| - 1;
      assert rows == rows[..n] + [rows[n]];
      ScanCounts(s, rows[..n]);
      ScanOneMore(s, START, rows[..n], rows[n]);
    }
  }

  predicate NoneKeyed(s: Scheme, records: seq<Sealed>) {
    forall r | r in records :: !s.keyed(r.body)
  }

  // It counts the keyed records.
  lemma {:induction false} ScanCountsKeyed(s: Scheme, rows: seq<Option<Sealed>>)
    ensures Scan(s, START, rows).keyed == 0 <==> NoneKeyed(s, Present(rows))
  {
    if rows != [] {
      var n := |rows| - 1;
      assert rows == rows[..n] + [rows[n]];
      ScanCountsKeyed(s, rows[..n]);
      ScanOneMore(s, START, rows[..n], rows[n]);
    }
  }

  // What one more row adds to the breaks.
  lemma CountedBreaks(s: Scheme, t: Tally, row: Option<Sealed>, kind: BreakKind)
    ensures kind in Count(s, t, row).breaks <==>
              || kind in t.breaks
              || (row.None? && kind == Malformed)
              || (row.Some? && kind == BadMac && !s.accepts(row.value.body, row.value.hash))
              || (row.Some? && kind == PrevMismatch && s.prevOf(row.value.body) != t.prev)
  {
  }

  // It reports a row that is malformed, a record that does not verify, and nothing but
  // these and records that do not name the hash of the one before.
  lemma {:induction false} ScanReports(s: Scheme, rows: seq<Option<Sealed>>, kind: BreakKind)
    ensures kind == Malformed ==> (kind in Scan(s, START, rows).breaks <==> None in rows)
    ensures kind == BadMac ==>
              (kind in Scan(s, START, rows).breaks <==> exists r | Some(r) in rows :: !s.accepts(r.body, r.hash))
    ensures kind in Scan(s, START, rows).breaks ==> kind in {Malformed, BadMac, PrevMismatch}
  {
    if rows != [] {
      var n := |rows| - 1;
      assert rows == rows[..n] + [rows[n]];
      ScanReports(s, rows[..n], kind);
      ScanOneMore(s, START, rows[..n], rows[n]);
      CountedBreaks(s, Scan(s, START, rows[..n]), rows[n], kind);
    }
  }

  // Every record names the hash of the one before it.
  predicate Linked(s: Scheme, records: seq<Sealed>) {
    records == []
    || (var before, r := records[..|records| - 1], records[|records| - 1];
        Linked(s, before) && s.prevOf(r.body) == LastHash(before))
  }

  lemma LinkedOneMore(s: Scheme, before: seq<Sealed>, r: Sealed)
    ensures Linked(s, before + [r]) <==> Linked(s, before) && s.prevOf(r.body) == LastHash(before)
  {
    assert (before + [r])[..|before|] == before;
  }

  lemma {:induction false} LinkedIff(s: Scheme, records: seq<Sealed>)
    ensures Linked(s, records) <==>
              forall i | 0 <= i < |records| :: s.prevOf(records[i].body) == LastHash(records[..i])
  {
    if records != [] {
      var before := records[..|records| - 1];
      LinkedIff(s, before);
      forall i | 0 <= i < |before|
        ensures before[i] == records[i] && before[..i] == records[..i]
      {
      }
    }
  }

  // These it reports as well.
  lemma {:induction false} ScanReportsMismatch(s: Scheme, rows: seq<Option<Sealed>>)
    ensures PrevMismatch in Scan(s, START, rows).breaks <==> !Linked(s, Present(rows))
  {
    if rows != [] {
      var n := |rows| - 1;
      assert rows == rows[..n] + [rows[n]];
      ScanReportsMismatch(s, rows[..n]);
      ScanOneMore(s, START, rows[..n], rows[n]);
      MismatchOneMore(s, rows[..n], rows[n]);
    }
  }

  lemma MismatchOneMore(s: Scheme, before: seq<Option<Sealed>>, row: Option<Sealed>)
    ensures var t := Scan(s, START, before);
            PrevMismatch in Count(s, t, row).breaks <==>
              PrevMismatch in t.breaks || (row.Some? && s.prevOf(row.value.body) != LastHash(Present(before)))
    ensures Linked(s, Present(before + [row])) <==>
              Linked(s, Present(before)) && (row.None? || s.prevOf(row.value.body) == LastHash(Present(before)))
  {
    ScanCounts(s, before);
    CountedBreaks(s, Scan(s, START, before), row, PrevMismatch);
    PresentOneMore(before, row);
    if row.Some? {
      LinkedOneMore(s, Present(before), row.value);
    } else {
      assert Present(before) + [] == Present(before);
    }
  }

  // A file without breaks is a chain of records whose count and final hash the head
  // holds under a valid MAC, or an unlisted file of legacy records where allowed.
  ghost predicate FileIntact(s: Scheme, id: FileId, content: string, entry: Option<Entry>, allowLegacy: bool,
                             records: seq<Sealed>) {
    && EndsLine(content)
    && Rows(s, Lines(content)) == Wrapped(records)
    && Chained(s, records)
    && (entry == Some(Entry(|records|, LastHash(records), s.entryMac(id, |records|, LastHash(records))))
        || (entry == None && allowLegacy && forall r | r in records :: !s.keyed(r.body)))
  }

  lemma {:induction false} PresentOfWrapped(records: seq<Sealed>)
    ensures Present(Wrapped(records)) == records && None !in Wrapped(records)
  {
    if records != [] {
      var n := |records| - 1;
      PresentOfWrapped(records[..n]);
      PresentOneMore(Wrapped(records[..n]), Some(records[n]));
      assert Wrapped(records) == Wrapped(records[..n]) + [Some(records[n])];
      assert Present(Wrapped(records)) == records[..n] + [records[n]];
    }
  }

  lemma WrappedCountsKeyed(s: Scheme, records: seq<Sealed>)
    ensures Scan(s, START, Wrapped(records)).keyed == 0 <==> NoneKeyed(s, records)
  {
    PresentOfWrapped(records);
    ScanCountsKeyed(s, Wrapped(records));
  }

  // The head's account of one file is under its own MAC.
  predicate Vouched(s: Scheme, id: FileId, entry: Entry) {
    entry.Entry? && entry.mac == s.entryMac(id, entry.count, entry.last)
  }

  // How the breaks of one entry tell what is wrong: the file was cut back, it goes on or
  // ends otherwise than the head says, the entry is forged, or there is none.
  predicate Tells(s: Scheme, breaks: seq<BreakKind>, id: FileId, entry: Option<Entry>, count: nat, last: string,
                  legacy: bool) {
    if entry == None then breaks == if legacy then [] else [HeadMissing]
    else if !Vouched(s, id, entry.value) then breaks == [HeadTampered]
    else if count < entry.value.count then breaks == [Truncated]
    else breaks == if count == entry.value.count && last == entry.value.last then [] else [HeadMismatch]
  }

  // What is reported of a file whose lines are a chain.
  lemma ChainReports(s: Scheme, id: FileId, content: string, entry: Option<Entry>, allowLegacy: bool,
                     records: seq<Sealed>)
    requires EndsLine(content) && Rows(s, Lines(content)) == Wrapped(records) && Chained(s, records)
    ensures var breaks := FileBreaks(s, id, content, entry, allowLegacy);
            Tells(s, breaks, id, entry, |records|, LastHash(records), allowLegacy && NoneKeyed(s, records))
  {
    ScanOfChain(s, records);
    WrappedCountsKeyed(s, records);
  }

  lemma IntactHasNoBreaks(s: Scheme, id: FileId, content: string, entry: Option<Entry>, allowLegacy: bool,
                          records: seq<Sealed>)
    requires EndsLine(content) && Rows(s, Lines(content)) == Wrapped(records) && Chained(s, records)
    ensures FileBreaks(s, id, content, entry, allowLegacy) == []
            <==> FileIntact(s, id, content, entry, allowLegacy, records)
  {
    ChainReports(s, id, content, entry, allowLegacy, records);
  }

  lemma FileIntactIff(s: Scheme, id: FileId, content: string, entry: Option<Entry>, allowLegacy: bool)
    ensures FileBreaks(s, id, content, entry, allowLegacy) == []
            <==> exists records :: FileIntact(s, id, content, entry, allowLegacy, records)
  {
    if FileBreaks(s, id, content, entry, allowLegacy) == [] {
      var records := ScanWithoutBreaks(s, Rows(s, Lines(content)));
      IntactHasNoBreaks(s, id, content, entry, allowLegacy, records);
    }
    if records :| FileIntact(s, id, content, entry, allowLegacy, records) {
      IntactHasNoBreaks(s, id, content, entry, allowLegacy, records);
    }
  }

  /* ---- the whole directory ---- */

  function HeadOf(a: AnchorResult): Option<map<FileId, Entry>> {
    if a.Found? && a.anchor.Some? then Some(a.anchor.value.entries) else None
  }

  // Everything verification looks at is in order.
  predicate Intact(s: Scheme, files: map<FileId, string>, head: HeadFile, checkpoint: Option<Checkpoint>,
                   allowLegacy: bool) {
    var read := ReadHead(s, head);
    && read.Found? && CheckpointFits(read.anchor, checkpoint)
    && (forall id | id in files :: FileBreaks(s, id, files[id], Lookup(HeadOf(read), id), allowLegacy) == [])
    && (read.anchor.Some? ==> read.anchor.value.entries.Keys <= files.Keys)
  }

  // A head that cannot be read, and a checkpoint without a head, are told from a head that
  // is not the protected one.
  function HeadBreaks(read: AnchorResult, checkpoint: Option<Checkpoint>): set<BreakKind> {
    match read
    case Tampered => {HeadTampered} + (if checkpoint.Some? then {HeadMissing} else {})
    case Found(None) => if checkpoint.Some? then {HeadMissing} else {}
    case Found(Some(a)) =>
      var expected := if a.generation == 0 && checkpoint == None then None else Some(Checkpoint(a.generation, a.mac));
      if checkpoint == expected then {} else {HeadTampered}
  }

  function Listed(s: Scheme, head: HeadFile): set<FileId> {
    var entries := HeadOf(ReadHead(s, head));
    if entries.Some? then entries.value.Keys else {}
  }

  // Some file is reported for this.
  ghost predicate FileReports(s: Scheme, files: map<FileId, string>, entries: Option<map<FileId, Entry>>,
                              allowLegacy: bool, kind: BreakKind) {
    exists id | id in files :: kind in FileBreaks(s, id, files[id], Lookup(entries, id), allowLegacy)
  }

  // The first loop of verify_core_mode.
  method VerifyFiles(s: Scheme, files: map<FileId, string>, entries: Option<map<FileId, Entry>>, allowLegacy: bool)
    returns (breaks: seq<BreakKind>)
    ensures forall kind :: kind in breaks <==> FileReports(s, files, entries, allowLegacy, kind)
  {
    breaks := [];
    var pending := files.Keys;
    while pending != {}
      invariant pending <= files.Keys
      invariant forall kind :: kind in breaks <==>
                                 exists id | id in files && id !in pending ::
                                   kind in FileBreaks(s, id, files[id], Lookup(entries, id), allowLegacy)
      decreases pending
    {
      var id :| id in pending;
      var found, _ := VerifyFile(s, id, files[id], entries, allowLegacy);
      breaks, pending := breaks + found, pending - {id};
    }
  }

  lemma NoneMissing(listed: set<FileId>, there: set<FileId>)
    ensures listed <= there <==> |listed - there| == 0
  {
    assert listed <= there + (listed - there);
  }

  // The second one: files that the head lists and the directory lacks.
  method MissingFiles(files: map<FileId, string>, entries: map<FileId, Entry>) returns (breaks: seq<BreakKind>)
    ensures |breaks| == |entries.Keys - files.Keys| && forall kind | kind in breaks :: kind == MissingFile
    ensures MissingFile in breaks <==> !(entries.Keys <= files.Keys)
  {
    breaks := [];
    var missing := entries.Keys - files.Keys;
    ghost var all := missing;
    while missing != {}
      invariant |breaks| + |missing| == |all|
      invariant forall i | 0 <= i < |breaks| :: breaks[i] == MissingFile
      decreases missing
    {
      var id :| id in missing;
      breaks, missing := breaks + [MissingFile], missing - {id};
    }
    NoneMissing(entries.Keys, files.Keys);
    assert |breaks| > 0 ==> breaks[0] in breaks;
  }

  // Before the loops: head and checkpoint.
  method VerifyHead(read: AnchorResult, checkpoint: Option<Checkpoint>) returns (breaks: seq<BreakKind>)
    ensures forall kind :: kind in breaks <==> kind in HeadBreaks(read, checkpoint)
    ensures breaks == [] <==> read.Found? && CheckpointFits(read.anchor, checkpoint)
  {
    breaks := [];
    if read.Tampered? {
      breaks := [HeadTampered];
    }
    var anchor := if read.Found? then read.anchor else None;
    if !CheckpointFits(anchor, checkpoint) {
      breaks := breaks + [if anchor.None? then HeadMissing else HeadTampered];
    }
  }

  // verify_core_mode: what it reports is a head it cannot read, a checkpoint that the
  // head does not fit, what it finds in some file, or that a listed file is missing.
  method VerifyCore(s: Scheme, files: map<FileId, string>, head: HeadFile, checkpoint: Option<Checkpoint>,
                    allowLegacy: bool)
    returns (breaks: seq<BreakKind>)
    ensures breaks == [] <==> Intact(s, files, head, checkpoint, allowLegacy)
    ensures forall kind :: kind in breaks <==>
                             || kind in HeadBreaks(ReadHead(s, head), checkpoint)
                             || FileReports(s, files, HeadOf(ReadHead(s, head)), allowLegacy, kind)
                             || (kind == MissingFile && !(Listed(s, head) <= files.Keys))
  {
    var read := ReadHead(s, head);
    breaks := VerifyHead(read, checkpoint);
    var entries := HeadOf(read);
    var found := VerifyFiles(s, files, entries, allowLegacy);
    breaks := breaks + found;
    if entries.Some? {
      var missing := MissingFiles(files, entries.value);
      breaks := breaks + missing;
    }
    NothingReported(s, files, entries, allowLegacy);
    assert breaks != [] ==> breaks[0] in breaks;
  }

  lemma NothingReported(s: Scheme, files: map<FileId, string>, entries: Option<map<FileId, Entry>>, allowLegacy: bool)
    ensures (forall kind :: !FileReports(s, files, entries, allowLegacy, kind))
            <==> forall id | id in files :: FileBreaks(s, id, files[id], Lookup(entries, id), allowLegacy) == []
  {
    forall id | id in files && FileBreaks(s, id, files[id], Lookup(entries, id), allowLegacy) != []
      ensures exists kind :: FileReports(s, files, entries, allowLegacy, kind)
    {
      var breaks := FileBreaks(s, id, files[id], Lookup(entries, id), allowLegacy);
      assert FileReports(s, files, entries, allowLegacy, breaks[0]);
    }
  }

  // The MAC over version, generation and entries of a head.
  function SignedBy(s: Scheme, doc: HeadDoc): string {
    s.manifestMac(if doc.legacy then 1 else 2, if doc.legacy then 0 else doc.generation, doc.entries)
  }

  // Verification accepts exactly a signed head that the checkpoint stands for, or neither
  // of the two, together with the listed files, each intact; a head without a checkpoint
  // must be one of the unversioned kind.
  lemma IntactIff(s: Scheme, files: map<FileId, string>, head: HeadFile, checkpoint: Option<Checkpoint>,
                  allowLegacy: bool)
    ensures Intact(s, files, head, checkpoint, allowLegacy) <==>
              match head
              case NoHead => checkpoint == None && FilesIntact(s, files, None, allowLegacy)
              case Garbled => false
              case Head(doc) =>
                && doc.mac == SignedBy(s, doc)
                && (if doc.legacy then checkpoint == None || checkpoint == Some(Checkpoint(0, doc.mac))
                    else doc.generation > 0 && checkpoint == Some(Checkpoint(doc.generation, doc.mac)))
                && doc.entries.Keys <= files.Keys && FilesIntact(s, files, Some(doc.entries), allowLegacy)
  {
    var entries := HeadOf(ReadHead(s, head));
    forall id | id in files
      ensures FileBreaks(s, id, files[id], Lookup(entries, id), allowLegacy) == []
              <==> exists records :: FileIntact(s, id, files[id], Lookup(entries, id), allowLegacy, records)
    {
      FileIntactIff(s, id, files[id], Lookup(entries, id), allowLegacy);
    }
  }

  ghost predicate FilesIntact(s: Scheme, files: map<FileId, string>, entries: Option<map<FileId, Entry>>,
                              allowLegacy: bool) {
    forall id | id in files ::
      exists records :: FileIntact(s, id, files[id], Lookup(entries, id), allowLegacy, records)
  }

  lemma IntactIsListed(s: Scheme, files: map<FileId, string>, entries: Option<map<FileId, Entry>>)
    requires FilesIntact(s, files, entries, false)
    ensures forall id | id in files :: entries.Some? && id in entries.value
  {
  }

  lemma OneEntryOneRecords(s: Scheme, id: FileId, one: string, two: string, entry: Entry)
    requires s.Binding()
    requires exists a :: FileIntact(s, id, one, Some(entry), false, a)
    requires exists b :: FileIntact(s, id, two, Some(entry), false, b)
    ensures Rows(s, Lines(one)) == Rows(s, Lines(two))
  {
    var a :| FileIntact(s, id, one, Some(entry), false, a);
    var b :| FileIntact(s, id, two, Some(entry), false, b);
    ChainDetermined(s, a, b);
  }

  // The same entries admit the same records only.
  lemma EntriesDetermineLog(s: Scheme, one: map<FileId, string>, two: map<FileId, string>,
                            entries: Option<map<FileId, Entry>>)
    requires s.Binding() && FilesIntact(s, one, entries, false) && FilesIntact(s, two, entries, false)
    requires entries.Some? ==> entries.value.Keys <= one.Keys && entries.value.Keys <= two.Keys
    ensures one.Keys == two.Keys
    ensures forall id | id in one :: Rows(s, Lines(one[id])) == Rows(s, Lines(two[id]))
  {
    IntactIsListed(s, one, entries);
    IntactIsListed(s, two, entries);
    forall id | id in one
      ensures Rows(s, Lines(one[id])) == Rows(s, Lines(two[id]))
    {
      OneFileOneRecords(s, one, two, entries, id);
    }
  }

  lemma OneFileOneRecords(s: Scheme, one: map<FileId, string>, two: map<FileId, string>,
                          entries: Option<map<FileId, Entry>>, id: FileId)
    requires s.Binding() && FilesIntact(s, one, entries, false) && FilesIntact(s, two, entries, false)
    requires id in one && id in two && entries.Some? && id in entries.value
    ensures Rows(s, Lines(one[id])) == Rows(s, Lines(two[id]))
  {
    OneEntryOneRecords(s, id, one[id], two[id], entries.value[id]);
  }

  // Given one head, verification admits one log: two directories that both verify
  // have the same files, and file by file the same records.
  lemma VerificationDeterminesLog(s: Scheme, one: map<FileId, string>, two: map<FileId, string>,
                                  head: HeadFile, checkpoint: Option<Checkpoint>)
    requires s.Binding()
    requires Intact(s, one, head, checkpoint, false) && Intact(s, two, head, checkpoint, false)
    ensures one.Keys == two.Keys
    ensures forall id | id in one :: Rows(s, Lines(one[id])) == Rows(s, Lines(two[id]))
  {
    IntactIff(s, one, head, checkpoint, false);
    IntactIff(s, two, head, checkpoint, false);
    EntriesDetermineLog(s, one, two, if head.Head? then Some(head.doc.entries) else None);
  }

  // What stands beside a checkpoint.
  lemma UnderCheckpoint(s: Scheme, files: map<FileId, string>, head: HeadFile, checkpoint: Checkpoint)
    requires Intact(s, files, head, Some(checkpoint), false)
    ensures head.Head? && SignedBy(s, head.doc) == checkpoint.mac
    ensures checkpoint.generation == if head.doc.legacy then 0 else head.doc.generation
    ensures files.Keys == head.doc.entries.Keys && FilesIntact(s, files, Some(head.doc.entries), false)
  {
    IntactIff(s, files, head, Some(checkpoint), false);
    IntactIsListed(s, files, Some(head.doc.entries));
  }

  // Given one checkpoint it does so whatever head is beside it: the protected checkpoint
  // stands for one state of the whole log.
  lemma CheckpointDeterminesLog(s: Scheme, one: map<FileId, string>, two: map<FileId, string>, headOne: HeadFile,
                                headTwo: HeadFile, checkpoint: Checkpoint)
    requires s.Binding() && s.Distinct()
    requires Intact(s, one, headOne, Some(checkpoint), false) && Intact(s, two, headTwo, Some(checkpoint), false)
    ensures headOne.Head? && headTwo.Head? && headOne.doc.entries == headTwo.doc.entries
    ensures headOne.doc.legacy == headTwo.doc.legacy
    ensures checkpoint.generation == if headOne.doc.legacy then 0 else headOne.doc.generation
    ensures !headTwo.doc.legacy ==> headTwo.doc.generation == headOne.doc.generation
    ensures one.Keys == two.Keys == headOne.doc.entries.Keys
    ensures forall id | id in one :: Rows(s, Lines(one[id])) == Rows(s, Lines(two[id]))
  {
    UnderCheckpoint(s, one, headOne, checkpoint);
    UnderCheckpoint(s, two, headTwo, checkpoint);
    EntriesDetermineLog(s, one, two, Some(headOne.doc.entries));
  }
}
