/** Histories of the audit log: any requests, faults, crashes and restarts. */
module AuditHistory {
  import opened AuditChain
  import opened AuditVerify
  import opened AuditState
  import opened AuditLog
  import Segments

  // What happens to the log: a record is requested on a day, a report is asked for, or
  // the process is replaced by a new one whose steps meet the given fates.
  datatype Event = Request(day: string, request: string, strict: bool) | Verify | Restart(schedule: seq<Fate>)

  // The commits answer the requests in order: each request at most once, and every
  // acknowledged one.
  ghost predicate Serves(s: Scheme, events: seq<Event>, acknowledged: seq<bool>, commits: seq<Commit>)
    requires |acknowledged| == |events|
    decreases |events|
  {
    if events == [] then commits == []
    else
      var n := |events| - 1;
      || (!acknowledged[n] && Serves(s, events[..n], acknowledged[..n], commits))
      || (commits != [] && events[n].Request?
          && var before, c := commits[..|commits| - 1], commits[|commits| - 1];
          && Serves(s, events[..n], acknowledged[..n], before)
          && c.record.body == s.compose(events[n].request, LastHash(Project(before, c.file)))
          && Segments.Takes(c.file, events[n].day, Sizes(s, before)))
  }

  predicate ValidDays(events: seq<Event>) {
    forall i | 0 <= i < |events| && events[i].Request? :: ValidDay(events[i].day)
  }

  // The effect of one event on the commits.
  ghost predicate Advances(s: Scheme, e: Event, acknowledge: bool, before: seq<Commit>, commits: seq<Commit>) {
    if commits == before then !acknowledge
    else e.Request? && exists c :: commits == before + [c] && Answers(s, before, c, e.day, e.request)
  }

  lemma ServesOneMore(s: Scheme, events: seq<Event>, i: nat, acknowledged: seq<bool>, acknowledge: bool,
                      before: seq<Commit>, commits: seq<Commit>)
    requires i < |events| && |acknowledged| == i && Serves(s, events[..i], acknowledged, before)
    requires Advances(s, events[i], acknowledge, before, commits)
    ensures Serves(s, events[..i + 1], acknowledged + [acknowledge], commits)
  {
    assert events[..i + 1][..i] == events[..i];
    assert (acknowledged + [acknowledge])[..i] == acknowledged;
    if commits != before {
      var c :| commits == before + [c] && Answers(s, before, c, events[i].day, events[i].request);
      assert commits[..|commits| - 1] == before;
    }
  }

  // One event, while the process is alive or after it has crashed. What is stuck stays.
  method Happen(log: AuditLog, alive: bool, e: Event) returns (after: AuditLog, still: bool, acknowledge: bool)
    requires log.s.Valid() && log.s.Separated() && Sane(log.s, log.disk, log.commits) && (alive ==> log.Valid())
    requires e.Request? ==> ValidDay(e.day)
    modifies log
    ensures (after == log || fresh(after)) && after.s == log.s
    ensures Sane(after.s, after.disk, after.commits) && (still ==> after.Valid())
    ensures Advances(log.s, e, acknowledge, old(log.commits), after.commits)
    ensures Stuck(old(log.disk), old(log.commits)) ==> after.disk == old(log.disk) && after.commits == old(log.commits)
  {
    after, still, acknowledge := log, alive, false;
    if e.Restart? {
      after := new AuditLog(log.s, log.disk, e.schedule, log.commits);
      still := true;
    } else if alive && e.Request? {
      var r := log.TryRecord(e.day, e.request, e.strict);
      still, acknowledge := !r.Crashed?, r.Done?;
    } else if alive {
      var r := log.VerifySelf();
      still := !r.Crashed?;
    }
  }

  // The report of an undisturbed new process: it finds no break, unless the last commit
  // went beyond the last segment number and was cut short.
  method Settle(s: Scheme, disk: Disk, ghost commits: seq<Commit>) returns (log: AuditLog, ok: bool)
    requires s.Valid() && s.Separated() && Sane(s, disk, commits)
    ensures fresh(log) && log.s == s && (ok <==> !Stuck(disk, commits))
    ensures log.disk == if ok then Settled(s, commits) else disk
  {
    log := new AuditLog(s, disk, [], commits);
    var r := log.VerifySelf();
    ok := r == Done(true);
  }

  // The commits go on with one for each of these requests, in order.
  ghost predicate Continues(s: Scheme, before: seq<Commit>, requests: seq<Event>, commits: seq<Commit>) {
    if requests == [] then commits == before
    else
      var n := |requests| - 1;
      && commits != [] && requests[n].Request?
      && var earlier, c := commits[..|commits| - 1], commits[|commits| - 1];
      && Continues(s, before, requests[..n], earlier) && Answers(s, earlier, c, requests[n].day, requests[n].request)
  }

  lemma ContinuesOneMore(s: Scheme, before: seq<Commit>, served: seq<Event>, commits: seq<Commit>, e: Event, c: Commit)
    requires e.Request? && Continues(s, before, served, commits) && Answers(s, commits, c, e.day, e.request)
    ensures Continues(s, before, served + [e], commits + [c])
  {
    assert (commits + [c])[..|commits|] == commits && (served + [e])[..|served|] == served;
  }

  // A live process that nothing will disturb, on a journal that is not refused.
  ghost predicate Undisturbed(log: AuditLog)
    reads log
  {
    exists commits | Sane(log.s, log.disk, commits) ::
      commits == log.commits && log.Valid() && log.schedule == [] && !log.poisoned && !Stuck(log.disk, commits)
  }

  method Start(s: Scheme, disk: Disk, ghost before: seq<Commit>) returns (log: AuditLog)
    requires s.Valid() && s.Separated() && Sane(s, disk, before) && !Stuck(disk, before)
    ensures fresh(log) && log.s == s && HasServed(log, disk, before, [])
  {
    log := new AuditLog(s, disk, [], before);
    assert Undisturbed(log) && Continues(s, before, [], log.commits);
  }

  // An undisturbed request is acknowledged, and then the log is settled.
  method ServeOne(log: AuditLog, e: Event) returns (ok: bool, ghost c: Commit)
    requires Undisturbed(log) && e.Request? && ValidDay(e.day)
    modifies log
    ensures ok && Undisturbed(log)
    ensures log.commits == old(log.commits) + [c] && Answers(log.s, old(log.commits), c, e.day, e.request)
    ensures log.disk == Settled(log.s, log.commits) && WellFormed(log.s, log.commits)
  {
    ghost var before := log.commits;
    var r := log.TryRecord(e.day, e.request, e.strict);
    ok := r.Done?;
    c :| log.commits == before + [c] && Answers(log.s, before, c, e.day, e.request);
  }

  predicate AreRequests(events: seq<Event>) {
    forall i | 0 <= i < |events| :: events[i].Request? && ValidDay(events[i].day)
  }

  lemma TakeOneMore(requests: seq<Event>, i: nat)
    requires i < |requests| && AreRequests(requests)
    ensures requests[..i + 1] == requests[..i] + [requests[i]]
    ensures requests[i].Request? && ValidDay(requests[i].day)
  {
  }

  // These requests have been served, from this disk on.
  ghost predicate HasServed(log: AuditLog, disk: Disk, before: seq<Commit>, served: seq<Event>)
    reads log
  {
    exists commits | Continues(log.s, before, served, commits) ::
      && commits == log.commits && Undisturbed(log) && WellFormed(log.s, commits)
      && log.disk == if served == [] then disk else Settled(log.s, commits)
  }

  method ServeNext(log: AuditLog, e: Event, ghost disk: Disk, ghost before: seq<Commit>, ghost served: seq<Event>)
    returns (ok: bool)
    requires HasServed(log, disk, before, served) && e.Request? && ValidDay(e.day)
    modifies log
    ensures ok && HasServed(log, disk, before, served + [e])
  {
    ghost var earlier := log.commits;
    ghost var c;
    ok, c := ServeOne(log, e);
    ContinuesOneMore(log.s, before, served, earlier, e, c);
    assert Continues(log.s, before, served + [e], log.commits);
  }

  // Undisturbed, a new process on any disk that a former one left, short of a refused
  // journal, acknowledges every request: each is committed when the next one comes.
  method Serve(s: Scheme, disk: Disk, requests: seq<Event>, ghost before: seq<Commit>)
    returns (log: AuditLog, ok: bool, ghost commits: seq<Commit>)
    requires s.Valid() && s.Separated() && Sane(s, disk, before) && !Stuck(disk, before)
    requires AreRequests(requests)
    ensures ok && fresh(log) && log.s == s
    ensures Continues(s, before, requests, commits) && WellFormed(s, commits)
    ensures log.disk == if requests == [] then disk else Settled(s, commits)
  {
    log := Start(s, disk, before);
    ok := true;
    var i := 0;
    assert requests[..i] == [];
    while i < |requests|
      invariant 0 <= i <= |requests|
      invariant ok && fresh(log) && log.s == s && HasServed(log, disk, before, requests[..i])
    {
      TakeOneMore(requests, i);
      var served := ServeNext(log, requests[i], disk, before, requests[..i]);
      ok := ok && served;
      i := i + 1;
    }
    assert requests[..i] == requests;
    commits := log.commits;
  }

  // From an empty directory, over every history of requests, reports, I/O errors, torn
  // appends, crashes and restarts, one report of an undisturbed new process leaves the
  // log that the served requests determine, and finds no break in it. Only a commit to a
  // file beyond the last segment number of its day, cut short, is not recovered.
  method Operate(s: Scheme, first: seq<Fate>, events: seq<Event>)
    returns (acknowledged: seq<bool>, log: AuditLog, ok: bool, ghost commits: seq<Commit>)
    requires s.Valid() && s.Separated() && ValidDays(events)
    ensures |acknowledged| == |events| && Serves(s, events, acknowledged, commits) && WellFormed(s, commits)
    ensures fresh(log) && log.s == s
    ensures ok ==> log.disk == Settled(s, commits)
    ensures ok ==> Intact(s, log.disk.files, log.disk.head, log.disk.checkpoint, false)
    ensures !ok ==> Stuck(log.disk, commits)
  {
    log := new AuditLog(s, EMPTY, first, []);
    var alive := true;
    acknowledged := [];
    var i := 0;
    while i < |events|
      invariant 0 <= i == |acknowledged| <= |events|
      invariant fresh(log) && log.s == s
      invariant Sane(s, log.disk, log.commits) && (alive ==> log.Valid())
      invariant Serves(s, events[..i], acknowledged, log.commits)
    {
      ghost var before := log.commits;
      var acknowledge;
      log, alive, acknowledge := Happen(log, alive, events[i]);
      ServesOneMore(s, events, i, acknowledged, acknowledge, before, log.commits);
      acknowledged := acknowledged + [acknowledge];
      i := i + 1;
    }
    assert events[..i] == events;
    commits := log.commits;
    assert WellFormed(s, commits);
    log, ok := Settle(s, log.disk, commits);
    SettledIsIntact(s, commits);
  }
}
