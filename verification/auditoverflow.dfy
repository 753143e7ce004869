/** A history in which the segment numbers of a day run out. */
module AuditOverflow {
  import opened Common
  import opened AuditChain
  import opened AuditState
  import opened AuditLog
  import opened AuditScheme
  import opened Segments

  const DAY := "20250101"

  function Repeated(n: nat): (s: string)
    ensures |s| == n
  {
    if n == 0 then "" else Repeated(n - 1) + "x"
  }

  // Every request fills its file.
  ghost function Request(): string {
    Repeated(AUDIT_SEGMENT_MAX_BYTES)
  }

  ghost function Record(): Sealed {
    var body := Compose(Request(), "");
    Sealed(body, Seal(body))
  }

  ghost function Filling(n: nat): Commit {
    Commit(SegmentId(DAY, n), Record())
  }

  // The sizes are those of the first `n` files, all of them full.
  ghost predicate AllFull(sizes: map<FileId, nat>, n: nat) {
    && (forall f | f in sizes :: exists i | 0 <= i < n :: f == SegmentId(DAY, i))
    && (forall i | 0 <= i < n :: SegmentId(DAY, i) in sizes)
    && (forall f | f in sizes :: sizes[f] >= AUDIT_SEGMENT_MAX_BYTES)
  }

  lemma NumberOf(n: nat)
    requires n <= MAX_SEGMENT
    ensures MatchesDay(SegmentId(DAY, n), DAY) && SegmentNumber(SegmentId(DAY, n), DAY) == n
  {
    if n > 0 {
      SegmentIdMatches(DAY, n);
    }
  }

  lemma NewName(sizes: map<FileId, nat>, n: nat)
    requires AllFull(sizes, n) && n <= MAX_SEGMENT + 1
    ensures SegmentId(DAY, n) !in sizes
  {
    if SegmentId(DAY, n) in sizes {
      var i :| 0 <= i < n && SegmentId(DAY, n) == SegmentId(DAY, i);
      NumberOf(i);
      if n <= MAX_SEGMENT {
        NumberOf(n);
      } else {
        SegmentIdMatches(DAY, n);
      }
    }
  }

  lemma LastIsGreatest(sizes: map<FileId, nat>, n: nat)
    requires AllFull(sizes, n) && 0 < n <= MAX_SEGMENT + 1
    ensures IsGreatest(SegmentId(DAY, n - 1), DAY, sizes.Keys)
  {
    var g := SegmentId(DAY, n - 1);
    NumberOf(n - 1);
    forall f | f in sizes && MatchesDay(f, DAY) && f != g
      ensures Below(f, g)
    {
      var i :| 0 <= i < n && f == SegmentId(DAY, i);
      NumberOf(i);
      SegmentOrder(f, g, DAY);
    }
  }

  lemma NextTakes(sizes: map<FileId, nat>, n: nat)
    requires AllFull(sizes, n) && n <= MAX_SEGMENT + 1
    ensures SegmentId(DAY, n) in Taking(DAY, sizes)
  {
    if n == 0 {
      FirstTakes(sizes);
    } else {
      LastIsGreatest(sizes, n);
      NumberOf(n - 1);
      AfterGreatest(SegmentId(DAY, n - 1), sizes);
    }
  }

  lemma FirstTakes(sizes: map<FileId, nat>)
    requires AllFull(sizes, 0)
    ensures Takes(DAY, DAY, sizes)
  {
    assert sizes.Keys == {};
  }

  lemma AfterGreatest(g: FileId, sizes: map<FileId, nat>)
    requires IsGreatest(g, DAY, sizes.Keys) && sizes[g] >= AUDIT_SEGMENT_MAX_BYTES
    ensures SegmentId(DAY, SegmentNumber(g, DAY) + 1) in Taking(DAY, sizes)
  {
    GreatestIsUnique(g, DAY, sizes.Keys);
    NextSegmentIsRight(g, DAY, sizes);
    NumbersHaveSixDigits(g, DAY);
  }

  lemma DayOf(n: nat)
    ensures |SegmentId(DAY, n)| >= 8 && SegmentId(DAY, n)[..8] == DAY && ValidDay(DAY)
  {
    if n > 0 {
      assert SegmentId(DAY, n) == DAY + ("-" + Padded(n, 6));
    }
  }

  lemma RecordFills()
    ensures |Printed(Example(), [Record()])| >= AUDIT_SEGMENT_MAX_BYTES
  {
    var r := Record();
    assert |Encode(r)| >= |r.body| >= |Request()|;
    assert Printed(Example(), [r]) == Printed(Example(), []) + LineOf(Example(), r);
  }

  lemma OneMoreFull(before: seq<Commit>, n: nat)
    requires AllFull(Sizes(Example(), before), n) && n <= MAX_SEGMENT + 1
    ensures Project(before, SegmentId(DAY, n)) == [] && AllFull(Sizes(Example(), before + [Filling(n)]), n + 1)
  {
    var s, c := Example(), Filling(n);
    NewName(Sizes(s, before), n);
    ProjectOfAbsent(before, c.file);
    RecordFills();
    TextsOneMore(s, before, c);
    SizesAfterCommit(s, before, c);
    PrintedOneMore(s, [], c.record);
    assert [] + [c.record] == [c.record];
    AddFull(Sizes(s, before), n, |TextsOf(s, before + [c])[c.file]|);
  }

  lemma AddFull(sizes: map<FileId, nat>, n: nat, size: nat)
    requires AllFull(sizes, n) && size >= AUDIT_SEGMENT_MAX_BYTES
    ensures AllFull(sizes[SegmentId(DAY, n) := size], n + 1)
  {
    var sizes' := sizes[SegmentId(DAY, n) := size];
    forall f | f in sizes'
      ensures exists i | 0 <= i < n + 1 :: f == SegmentId(DAY, i)
    {
      if f in sizes {
        var i :| 0 <= i < n && f == SegmentId(DAY, i);
        assert 0 <= i < n + 1;
      }
    }
  }

  lemma FillingExtends(before: seq<Commit>, n: nat)
    requires AllFull(Sizes(Example(), before), n) && n <= MAX_SEGMENT + 1
    ensures Extends(Example(), before, Filling(n))
  {
    var s, c := Example(), Filling(n);
    ExampleHolds();
    OneMoreFull(before, n);
    NextTakes(Sizes(s, before), n);
    DayOf(n);
    ComposeReadsBack(Request(), "");
  }

  lemma WellFormedOneMore(s: Scheme, before: seq<Commit>, c: Commit)
    requires WellFormed(s, before) && Extends(s, before, c)
    ensures WellFormed(s, before + [c])
  {
    assert (before + [c])[..|before|] == before;
  }

  ghost predicate Grown(commits: seq<Commit>, n: nat) {
    WellFormed(Example(), commits) && AllFull(Sizes(Example(), commits), n)
  }

  ghost function Histories(n: nat): iset<seq<Commit>> {
    iset commits | Grown(commits, n)
  }

  lemma OneMoreGrown(before: seq<Commit>, n: nat)
    requires before in Histories(n) && n <= MAX_SEGMENT + 1
    ensures before + [Filling(n)] in Histories(n + 1)
  {
    FillingExtends(before, n);
    OneMoreFull(before, n);
    WellFormedOneMore(Example(), before, Filling(n));
    IsHistory(before + [Filling(n)], n + 1);
  }

  lemma IsHistory(commits: seq<Commit>, n: nat)
    requires WellFormed(Example(), commits) && AllFull(Sizes(Example(), commits), n)
    ensures commits in Histories(n)
  {
  }

  lemma NothingGrown()
    ensures [] in Histories(0)
  {
  }

  ghost predicate Reachable(n: nat) {
    exists commits :: commits in Histories(n)
  }

  lemma OneMoreReachable(n: nat)
    requires Reachable(n) && n <= MAX_SEGMENT + 1
    ensures Reachable(n + 1)
  {
    var before :| before in Histories(n);
    OneMoreGrown(before, n);
  }

  // One full file after the other.
  lemma {:induction false} EveryNumberReachable(n: nat)
    requires n <= MAX_SEGMENT + 1
    ensures Reachable(n)
  {
    if n == 0 {
      NothingGrown();
    } else {
      EveryNumberReachable(n - 1);
      OneMoreReachable(n - 1);
    }
  }

  // A disk that a stop can leave, and whose journal its own program refuses.
  lemma StuckHappens() returns (s: Scheme, d: Disk, commits: seq<Commit>)
    ensures s.Valid() && s.Separated() && Sane(s, d, commits) && Stuck(d, commits)
    ensures d.journal.Some? && !Readable(s, d.journal.value)
  {
    var n := MAX_SEGMENT + 1;
    EveryNumberReachable(n);
    var before :| before in Histories(n);
    s, d, commits := StuckAfter(before, n);
  }

  lemma StuckAfter(before: seq<Commit>, n: nat) returns (s: Scheme, d: Disk, commits: seq<Commit>)
    requires before in Histories(n) && n == MAX_SEGMENT + 1
    ensures s.Valid() && s.Separated() && Sane(s, d, commits) && Stuck(d, commits)
    ensures d.journal.Some? && !Readable(s, d.journal.value)
  {
    s := Example();
    ExampleHolds();
    var c := Filling(n);
    FillingExtends(before, n);
    WellFormedOneMore(s, before, c);
    commits, d := before + [c], Journalled(s, before, c);
    JournalledIsInFlight(s, before, c);
    DayOf(n);
    SegmentIdMatches(DAY, n);
    StuckExactlyIfUnreadable(s, d, commits);
  }
}
