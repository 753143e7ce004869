/** Which worktree a session occupies, and which worktrees may be pruned. */
module Leases {
  import opened Common
  import Porcelain
  import Segments

  datatype Session = Session(id: string, cwd: string, live: bool)

  /* ---- paths ---- */

  // trim_end_matches('/')
  function TrimSlashes(s: string): (t: string)
    ensures t <= s && (t == "" || t[|t| - 1] != '/')
    ensures forall i | |t| <= i < |s| :: s[i] == '/'
  {
    if s != "" && s[|s| - 1] == '/' then TrimSlashes(s[..|s| - 1]) else s
  }

  // path_within
  predicate PathWithin(cwd: string, root: string) {
    TrimSlashes(cwd) == TrimSlashes(root) || TrimSlashes(root) + "/" <= TrimSlashes(cwd)
  }

  // The components of a path, the first of them empty if it starts with a slash.
  function Components(s: string): (parts: seq<string>)
    ensures parts != []
  {
    if s == "" then [""]
    else
      var rest := Components(s[1..]);
      if s[0] == '/' then [""] + rest else [[s[0]] + rest[0]] + rest[1..]
  }

  lemma {:induction false} ComponentsExtend(a: string, b: string)
    ensures a == b || a + "/" <= b <==> Components(a) <= Components(b)
  {
    PrefixByHead(Components(a), Components(b));
    if a != "" && b != "" {
      var c, d := Components(a[1..]), Components(b[1..]);
      ComponentsExtend(a[1..], b[1..]);
      PrefixByHead(c, d);
      ExtendByHead(a, b);
      assert a[0] == '/' ==> Components(a)[1..] == c;
      assert b[0] == '/' ==> Components(b)[1..] == d;
      var first, second := Components(a), Components(b);
      assert a[0] != '/' ==> first[0][0] == a[0] && first[0][1..] == c[0] && first[1..] == c[1..];
      assert b[0] != '/' ==> second[0][0] == b[0] && second[0][1..] == d[0] && second[1..] == d[1..];
    } else if a == "" && b != "" {
      assert "" + "/" == "/";
    }
  }

  lemma ExtendByHead(a: string, b: string)
    requires a != "" && b != ""
    ensures a == b || a + "/" <= b <==> a[0] == b[0] && (a[1..] == b[1..] || a[1..] + "/" <= b[1..])
  {
    assert a == [a[0]] + a[1..] && b == [b[0]] + b[1..];
    assert a + "/" == [a[0]] + (a[1..] + "/");
  }

  lemma PrefixByHead(a: seq<string>, b: seq<string>)
    requires a != [] && b != []
    ensures a <= b <==> a[0] == b[0] && a[1..] <= b[1..]
  {
    assert a == [a[0]] + a[1..] && b == [b[0]] + b[1..];
  }

  // A directory lies within a root exactly if the root's components are its first ones.
  lemma PathWithinIff(cwd: string, root: string)
    ensures PathWithin(cwd, root) <==> Components(TrimSlashes(root)) <= Components(TrimSlashes(cwd))
  {
    ComponentsExtend(TrimSlashes(root), TrimSlashes(cwd));
  }

  lemma {:induction false} TrimKeeps(s: string, i: nat)
    requires i < |s| && s[i] != '/'
    ensures i < |TrimSlashes(s)|
  {
  }

  // A directory whose name merely begins with the name of another one does not lie in it.
  lemma SiblingIsOutside(root: string, suffix: string)
    requires suffix != "" && suffix[0] != '/' && TrimSlashes(root) == root
    ensures !PathWithin(root + suffix, root)
  {
    var cwd := root + suffix;
    assert cwd[|root|] == suffix[0];
    TrimKeeps(cwd, |root|);
    assert TrimSlashes(cwd)[|root|] == suffix[0];
    assert TrimSlashes(cwd)[|root|] != (root + "/")[|root|];
  }

  // deepest_owner: `max_by_key` keeps the last of the longest.
  function DeepestOwner(cwd: string, paths: seq<string>): Option<string> {
    if paths == [] then None
    else
      var before, p := DeepestOwner(cwd, paths[..|paths| - 1]), paths[|paths| - 1];
      if PathWithin(cwd, p) && (before.None? || |TrimSlashes(p)| >= |TrimSlashes(before.value)|) then Some(p)
        else before
  }

  // owned_by
  predicate OwnedBy(s: Session, path: string, paths: seq<string>) {
    s.cwd != ""
    && var owner := DeepestOwner(s.cwd, paths);
       owner.Some? && TrimSlashes(owner.value) == TrimSlashes(path)
  }

  // A path that holds the directory and lies under every other one that does.
  ghost predicate IsInnermost(cwd: string, path: string, paths: seq<string>) {
    PathWithin(cwd, path) && forall q | q in paths && PathWithin(cwd, q) :: PathWithin(path, q)
  }

  lemma SlashPrefix(a: string, b: string, c: string)
    requires a == c || a + "/" <= c
    requires b == c || b + "/" <= c
    requires |a| <= |b|
    ensures a == b || a + "/" <= b
  {
    assert a == c[..|a|] && b == c[..|b|];
    if |a| < |b| {
      assert a + "/" <= c;
      assert (a + "/")[|a|] == c[|a|] == b[|a|];
      assert b[..|a| + 1] == a + "/";
    }
  }

  // Two paths that hold the same directory lie one under the other.
  lemma HoldersAreNested(cwd: string, p: string, q: string)
    requires PathWithin(cwd, p) && PathWithin(cwd, q) && |TrimSlashes(q)| <= |TrimSlashes(p)|
    ensures PathWithin(p, q)
    ensures |TrimSlashes(q)| == |TrimSlashes(p)| ==> TrimSlashes(p) == TrimSlashes(q)
  {
    SlashPrefix(TrimSlashes(q), TrimSlashes(p), TrimSlashes(cwd));
  }

  lemma {:induction false} OwnerIsLongest(cwd: string, paths: seq<string>)
    ensures var owner := DeepestOwner(cwd, paths);
            && (owner.None? <==> forall q | q in paths :: !PathWithin(cwd, q))
            && (owner.Some? ==>
                  && owner.value in paths && PathWithin(cwd, owner.value)
                  && forall q | q in paths && PathWithin(cwd, q) :: |TrimSlashes(q)| <= |TrimSlashes(owner.value)|)
  {
    if paths != [] {
      var n := |paths| - 1;
      OwnerIsLongest(cwd, paths[..n]);
      assert paths == paths[..n] + [paths[n]];
    }
  }

  // A session owns a worktree exactly if the worktree is the innermost that holds it;
  // the right side does not depend on the order of the list.
  lemma OwnedIffInnermost(s: Session, path: string, paths: seq<string>)
    requires path in paths
    ensures OwnedBy(s, path, paths) <==> s.cwd != "" && IsInnermost(s.cwd, path, paths)
  {
    OwnerIsLongest(s.cwd, paths);
    var owner := DeepestOwner(s.cwd, paths);
    if owner.Some? {
      forall q | q in paths && PathWithin(s.cwd, q)
        ensures PathWithin(owner.value, q)
      {
        HoldersAreNested(s.cwd, owner.value, q);
      }
      if IsInnermost(s.cwd, path, paths) {
        HoldersAreNested(s.cwd, owner.value, path);
        assert PathWithin(path, owner.value);
      }
    }
  }

  // So a session there neither occupies the worktree nor leases it.
  lemma SiblingIsNotOwned(s: Session, path: string, suffix: string, paths: seq<string>)
    requires path in paths && TrimSlashes(path) == path
    requires suffix != "" && suffix[0] != '/' && s.cwd == path + suffix
    ensures !OwnedBy(s, path, paths) && LeaseFor(path, paths, [s]) == None
  {
    OwnedIffInnermost(s, path, paths);
    SiblingIsOutside(path, suffix);
    LeaseIsLeast(path, paths, [s]);
  }

  // Every session in some worktree is owned by exactly one, up to trailing slashes.
  lemma ExactlyOneOwner(s: Session, paths: seq<string>)
    requires s.cwd != "" && exists q :: q in paths && PathWithin(s.cwd, q)
    ensures exists p :: p in paths && OwnedBy(s, p, paths)
    ensures forall p, q | OwnedBy(s, p, paths) && OwnedBy(s, q, paths) :: TrimSlashes(p) == TrimSlashes(q)
  {
    OwnerIsLongest(s.cwd, paths);
    assert OwnedBy(s, DeepestOwner(s.cwd, paths).value, paths);
  }

  // The order of the list, and repetitions in it, do not matter.
  lemma OrderDoesNotMatter(s: Session, path: string, one: seq<string>, two: seq<string>)
    requires path in one && forall p :: p in one <==> p in two
    ensures OwnedBy(s, path, one) <==> OwnedBy(s, path, two)
  {
    OwnedIffInnermost(s, path, one);
    OwnedIffInnermost(s, path, two);
  }

  /* ---- leases ---- */

  // The least of two names, in the order of strings.
  function Least(a: string, b: string): string {
    if Segments.Below(b, a) then b else a
  }

  // lease_for
  function LeaseFor(path: string, paths: seq<string>, sessions: seq<Session>): Option<string> {
    if sessions == [] then None
    else
      var before, s := LeaseFor(path, paths, sessions[..|sessions| - 1]), sessions[|sessions| - 1];
      if !(s.live && OwnedBy(s, path, paths)) then before
      else if before.None? then Some(s.id)
      else Some(Least(before.value, s.id))
  }

  predicate IsLeasing(s: Session, path: string, paths: seq<string>) {
    s.live && OwnedBy(s, path, paths)
  }

  ghost predicate IsLease(lease: Option<string>, path: string, paths: seq<string>, sessions: seq<Session>) {
    if lease.None? then forall s | s in sessions :: !IsLeasing(s, path, paths)
    else
      && (exists s | s in sessions :: IsLeasing(s, path, paths) && s.id == lease.value)
      && (forall s | s in sessions && IsLeasing(s, path, paths) :: !Segments.Below(s.id, lease.value))
  }

  // There is a lease exactly if a live session occupies the worktree, and it is the
  // least of their names.
  lemma {:induction false} LeaseIsLeast(path: string, paths: seq<string>, sessions: seq<Session>)
    ensures IsLease(LeaseFor(path, paths, sessions), path, paths, sessions)
  {
    if sessions != [] {
      var n := |sessions| - 1;
      var before, s := LeaseFor(path, paths, sessions[..n]), sessions[n];
      LeaseIsLeast(path, paths, sessions[..n]);
      assert sessions == sessions[..n] + [s];
      if IsLeasing(s, path, paths) {
        Segments.BelowIsTotal(s.id, s.id);
        if before.Some? {
          forall t | t in sessions[..n] && IsLeasing(t, path, paths)
            ensures !Segments.Below(t.id, Least(before.value, s.id))
          {
            LeastIsBelowBoth(before.value, s.id, t.id);
          }
        }
      }
    }
  }

  lemma LeastIsBelowBoth(a: string, b: string, c: string)
    requires !Segments.Below(c, a)
    ensures !Segments.Below(c, Least(a, b))
  {
    Segments.BelowIsTotal(b, a);
    if Segments.Below(b, a) && Segments.Below(c, b) {
      Segments.BelowIsTransitive(c, b, a);
    }
  }

  /* ---- dead sessions ---- */

  predicate StrictlySorted(ids: seq<string>) {
    forall i, j | 0 <= i < j < |ids| :: Segments.Below(ids[i], ids[j])
  }

  predicate Sorted(ids: seq<string>) {
    forall i, j | 0 <= i < j < |ids| :: !Segments.Below(ids[j], ids[i])
  }

  // Vec::sort
  method Sort(ids: seq<string>) returns (sorted: seq<string>)
    ensures Sorted(sorted) && multiset(sorted) == multiset(ids)
  {
    sorted := [];
    var n := 0;
    while n < |ids|
      invariant 0 <= n <= |ids|
      invariant Sorted(sorted) && multiset(sorted) == multiset(ids[..n])
    {
      var k := |sorted|;
      while k > 0 && Segments.Below(ids[n], sorted[k - 1])
        invariant 0 <= k <= |sorted|
        invariant forall j | k <= j < |sorted| :: Segments.Below(ids[n], sorted[j])
      {
        k := k - 1;
      }
      InsertKeepsSorted(sorted, k, ids[n]);
      assert sorted == sorted[..k] + sorted[k..];
      assert ids[..n + 1] == ids[..n] + [ids[n]];
      sorted := sorted[..k] + [ids[n]] + sorted[k..];
      n := n + 1;
    }
    assert ids[..n] == ids;
  }

  lemma InsertKeepsSorted(sorted: seq<string>, k: nat, x: string)
    requires Sorted(sorted) && k <= |sorted|
    requires k > 0 ==> !Segments.Below(x, sorted[k - 1])
    requires forall j | k <= j < |sorted| :: Segments.Below(x, sorted[j])
    ensures Sorted(sorted[..k] + [x] + sorted[k..])
  {
    forall i | 0 <= i < k
      ensures !Segments.Below(x, sorted[i])
    {
      if Segments.Below(x, sorted[i]) && i < k - 1 {
        Segments.BelowIsTotal(sorted[i], sorted[k - 1]);
        if sorted[i] != sorted[k - 1] {
          Segments.BelowIsTransitive(x, sorted[i], sorted[k - 1]);
        }
      }
    }
    forall j | k <= j < |sorted|
      ensures !Segments.Below(sorted[j], x)
    {
      Segments.BelowIsTotal(x, sorted[j]);
    }
  }

  // Vec::dedup
  method Dedup(ids: seq<string>) returns (unique: seq<string>)
    requires Sorted(ids)
    ensures StrictlySorted(unique) && forall x :: x in unique <==> x in ids
  {
    unique := [];
    var n := 0;
    while n < |ids|
      invariant 0 <= n <= |ids|
      invariant StrictlySorted(unique) && forall x :: x in unique <==> x in ids[..n]
      invariant if n == 0 then unique == [] else unique != [] && unique[|unique| - 1] == ids[n - 1]
    {
      assert ids[..n + 1] == ids[..n] + [ids[n]];
      if unique == [] || unique[|unique| - 1] != ids[n] {
        if unique != [] {
          assert !Segments.Below(ids[n], ids[n - 1]);
          Segments.BelowIsTotal(unique[|unique| - 1], ids[n]);
          forall i | 0 <= i < |unique| - 1
            ensures Segments.Below(unique[i], ids[n])
          {
            Segments.BelowIsTransitive(unique[i], unique[|unique| - 1], ids[n]);
          }
        }
        unique := unique + [ids[n]];
      }
      n := n + 1;
    }
    assert ids[..n] == ids;
  }

  // dead_sessions_for: the names of the dead sessions of a worktree, each once, in order.
  method DeadSessionsFor(path: string, paths: seq<string>, sessions: seq<Session>) returns (ids: seq<string>)
    ensures StrictlySorted(ids)
    ensures forall x :: x in ids <==> exists s | s in sessions :: !s.live && OwnedBy(s, path, paths) && s.id == x
  {
    var found: seq<string> := [];
    var n := 0;
    while n < |sessions|
      invariant 0 <= n <= |sessions|
      invariant forall x :: x in found <==> exists i | 0 <= i < n ::
                  Closes(sessions[i], path, paths) && sessions[i].id == x
    {
      if Closes(sessions[n], path, paths) {
        found := found + [sessions[n].id];
      }
      n := n + 1;
    }
    var sorted := Sort(found);
    assert forall x :: x in found <==> x in multiset(found);
    assert forall x :: x in sorted <==> x in multiset(sorted);
    ids := Dedup(sorted);
  }

  predicate Closes(s: Session, path: string, paths: seq<string>) {
    !s.live && OwnedBy(s, path, paths)
  }

  /* ---- classification and pruning ---- */

  datatype Status = Status(
    path: string, branch: Option<string>, isMain: bool, locked: bool, stale: bool,
    dirty: Option<nat>, merged: Option<bool>, lease: Option<string>)

  datatype Decision = Reap(forced: bool) | Skip(reason: Reason)

  datatype Reason =
    | MainWorktree | Locked | Stale | Leased(id: string) | DirtyUnknown | Dirty(changes: nat)
    | Detached | DefaultBranch | NotMerged | MergeUnknown

  // What git reports about a worktree and about a branch.
  datatype Git = Git(changes: string -> Option<nat>, merged: string -> Option<bool>)

  function PathsOf(entries: seq<Porcelain.Entry>): seq<string> {
    seq(|entries|, i requires 0 <= i < |entries| => entries[i].path)
  }

  // One step of the classification in `scan`
  function Classify(entries: seq<Porcelain.Entry>, i: nat, defaultBranch: string, git: Git,
                    sessions: seq<Session>): Status
    requires i < |entries|
  {
    var e := entries[i];
    Status(
      e.path, e.branch, i == 0, e.locked, e.prunable,
      if e.prunable then None else git.changes(e.path),
      if e.branch.Some? && e.branch.value != defaultBranch then git.merged(e.branch.value) else None,
      LeaseFor(e.path, PathsOf(entries), sessions))
  }

  // prune_decision
  function PruneDecision(w: Status, defaultBranch: string, force: bool): Decision {
    if w.isMain then Skip(MainWorktree)
    else if w.locked then Skip(Locked)
    else if w.stale then Skip(Stale)
    else if w.lease.Some? then Skip(Leased(w.lease.value))
    else if w.dirty.None? then Skip(DirtyUnknown)
    else if w.dirty.value > 0 then Skip(Dirty(w.dirty.value))
    else if w.branch.None? then (if force then Reap(true) else Skip(Detached))
    else if w.branch.value == defaultBranch then Skip(DefaultBranch)
    else match w.merged
      case Some(true) => Reap(false)
      case Some(false) => if force then Reap(true) else Skip(NotMerged)
      case None => if force then Reap(true) else Skip(MergeUnknown)
  }

  // What keeps a worktree from being reaped.
  ghost predicate Applies(reason: Reason, entries: seq<Porcelain.Entry>, i: nat, defaultBranch: string, git: Git,
                          sessions: seq<Session>, force: bool)
    requires i < |entries|
  {
    var e := entries[i];
    match reason
    case MainWorktree => i == 0
    case Locked => e.locked
    case Stale => e.prunable
    case Leased(id) => IsLease(Some(id), e.path, PathsOf(entries), sessions)
    case DirtyUnknown => git.changes(e.path) == None
    case Dirty(changes) => changes > 0 && git.changes(e.path) == Some(changes)
    case Detached => e.branch == None && !force
    case DefaultBranch => e.branch == Some(defaultBranch)
    case NotMerged => e.branch.Some? && git.merged(e.branch.value) == Some(false) && !force
    case MergeUnknown => e.branch.Some? && git.merged(e.branch.value) == None && !force
  }

  function Rank(reason: Reason): nat {
    match reason
    case MainWorktree => 0
    case Locked => 1
    case Stale => 2
    case Leased(_) => 3
    case DirtyUnknown => 4
    case Dirty(_) => 5
    case Detached => 6
    case DefaultBranch => 7
    case NotMerged => 8
    case MergeUnknown => 9
  }

  // A worktree that is skipped is skipped for the first reason that applies to it; one
  // that is reaped has none, and is reaped by force exactly if its branch is not merged.
  lemma FirstReasonDecides(entries: seq<Porcelain.Entry>, i: nat, defaultBranch: string, git: Git,
                           sessions: seq<Session>, force: bool, other: Reason)
    requires i < |entries|
    ensures var e := entries[i];
            match PruneDecision(Classify(entries, i, defaultBranch, git, sessions), defaultBranch, force)
            case Skip(reason) =>
              && Applies(reason, entries, i, defaultBranch, git, sessions, force)
              && (Applies(other, entries, i, defaultBranch, git, sessions, force) ==> Rank(reason) <= Rank(other))
            case Reap(forced) =>
              && !Applies(other, entries, i, defaultBranch, git, sessions, force)
              && (forced <==> !(e.branch.Some? && git.merged(e.branch.value) == Some(true)))
  {
    LeaseIsLeast(entries[i].path, PathsOf(entries), sessions);
  }

  // A worktree is reaped exactly if it is a clean, unlocked, present, linked worktree off
  // the default branch that is innermost for no live session, and its branch is merged
  // or the caller forces it.
  lemma ReapedIff(entries: seq<Porcelain.Entry>, i: nat, defaultBranch: string, git: Git, sessions: seq<Session>,
                  force: bool)
    requires i < |entries|
    ensures var e := entries[i];
            var merged := e.branch.Some? && git.merged(e.branch.value) == Some(true);
            PruneDecision(Classify(entries, i, defaultBranch, git, sessions), defaultBranch, force).Reap?
            <==> && i != 0 && !e.locked && !e.prunable
                 && git.changes(e.path) == Some(0)
                 && e.branch != Some(defaultBranch)
                 && (force || merged)
                 && forall s | s in sessions && s.live && s.cwd != "" :: !IsInnermost(s.cwd, e.path, PathsOf(entries))
  {
    var path, paths := entries[i].path, PathsOf(entries);
    assert paths[i] == path;
    LeaseIsLeast(path, paths, sessions);
    forall s | s in sessions
      ensures OwnedBy(s, path, paths) <==> s.cwd != "" && IsInnermost(s.cwd, path, paths)
    {
      OwnedIffInnermost(s, path, paths);
    }
  }

  // A worktree that a live session occupies is never reaped, forced or not, and every
  // live session inside some worktree protects one.
  lemma LiveSessionsAreProtected(entries: seq<Porcelain.Entry>, defaultBranch: string, git: Git,
                                 sessions: seq<Session>, s: Session)
    requires s in sessions && s.live && s.cwd != ""
    requires exists i | 0 <= i < |entries| :: PathWithin(s.cwd, entries[i].path)
    ensures exists i | 0 <= i < |entries| :: OwnedBy(s, entries[i].path, PathsOf(entries))
    ensures forall i, force | 0 <= i < |entries| && OwnedBy(s, entries[i].path, PathsOf(entries)) ::
              PruneDecision(Classify(entries, i, defaultBranch, git, sessions), defaultBranch, force).Skip?
  {
    var paths := PathsOf(entries);
    var k :| 0 <= k < |entries| && PathWithin(s.cwd, entries[k].path);
    assert paths[k] == entries[k].path;
    ExactlyOneOwner(s, paths);
    var p :| p in paths && OwnedBy(s, p, paths);
    var j :| 0 <= j < |paths| && paths[j] == p;
    assert OwnedBy(s, entries[j].path, paths);
    forall i, force | 0 <= i < |entries| && OwnedBy(s, entries[i].path, paths)
      ensures PruneDecision(Classify(entries, i, defaultBranch, git, sessions), defaultBranch, force).Skip?
    {
      assert IsLeasing(s, entries[i].path, paths);
      LeaseIsLeast(entries[i].path, paths, sessions);
    }
  }
}
