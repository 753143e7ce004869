/** `claude_rollback`: taking the t-hub server back out of a configuration. */
module Rollback {
  import opened Common

  // JSON values; anything that is not an object is kept as its text.
  datatype Json = Object(members: map<string, Json>) | Other(text: string)

  const SERVERS := "mcpServers"
  const OWNED := "t-hub"

  // What the installer recorded: the owned key as it left it, and which of file,
  // parent and key were there before. A canonical digest is the value itself.
  datatype Record = Record(
    postKey: Option<Json>,
    fileBefore: bool,
    parentBefore: bool,
    keyBefore: bool)

  datatype Error = NotAnObject | BoundaryDisappeared | OwnershipChanged | RecoveryNotAnObject | RecoveryContradicts

  // Write the edited document back, or delete a file that was not there before.
  datatype Plan = Replace(document: map<string, Json>) | DeleteFile

  datatype Result = Success(plan: Plan) | Failure(error: Error)

  function Member(j: Json, key: string): Option<Json> {
    if j.Object? && key in j.members then Some(j.members[key]) else None
  }

  function Servers(j: Json): Option<Json> {
    Member(j, SERVERS)
  }

  predicate HasServers(j: Json) {
    Servers(j).Some? && Servers(j).value.Object?
  }

  // The owned entry is exactly what the installer left.
  predicate Owned(current: Json, record: Record) {
    HasServers(current) && Member(Servers(current).value, OWNED) == record.postKey
  }

  predicate RecoveryFits(before: Json, record: Record) {
    && (record.fileBefore ==> before.Object?)
    && (record.keyBefore ==>
          record.fileBefore && HasServers(before) && Member(Servers(before).value, OWNED).Some?)
  }

  // The document a plan leaves; a deleted file reads as an empty document.
  function Left(plan: Plan): Json {
    if plan.Replace? then Object(plan.document) else Object(map[])
  }

  // The installer sets the owned key, creating the parent if it is missing.
  function Install(before: Json, entry: Json): Json
    requires before.Object? && (Servers(before).Some? ==> HasServers(before))
  {
    var parent := if HasServers(before) then Servers(before).value.members else map[];
    Object(before.members[SERVERS := Object(parent[OWNED := entry])])
  }

  // The record of installing `entry` into `before`, or into no file at all.
  function RecordOf(before: Json, present: bool, entry: Json): Record
    requires before.Object? && (Servers(before).Some? ==> HasServers(before))
  {
    Record(Some(entry), present, Servers(before).Some?,
           HasServers(before) && Member(Servers(before).value, OWNED).Some?)
  }

  // What a rollback must leave of the current document.
  ghost predicate RolledBack(current: Json, record: Record, recovery: Json, plan: Plan) {
    var left := Left(plan);
    && HasServers(current)
    // Every other top-level key and every other server is as it was.
    && (forall key | key != SERVERS :: Member(left, key) == Member(current, key))
    && (Servers(left).Some? ==> HasServers(left))
    && (HasServers(left) ==>
          forall name | name != OWNED :: Member(Servers(left).value, name) == Member(Servers(current).value, name))
    // The owned entry is the earlier one, or gone.
    && (record.keyBefore ==>
          && HasServers(left) && HasServers(recovery)
          && Member(Servers(left).value, OWNED) == Member(Servers(recovery).value, OWNED))
    && (!record.keyBefore && HasServers(left) ==> Member(Servers(left).value, OWNED) == None)
    // The parent goes only if it was not there before and holds no other server.
    && (Servers(left) == None <==>
          && !record.keyBefore && !record.parentBefore
          && Servers(current).value.members.Keys <= {OWNED})
    // The file goes only if it was not there before and nothing is left in it.
    && (plan == DeleteFile <==> !record.fileBefore && left == Object(map[]))
  }

  lemma SameMembersSameObject(a: Json, b: Json)
    requires a.Object? && b.Object?
    requires forall key :: Member(a, key) == Member(b, key)
    ensures a == b
  {
    forall key | key in a.members || key in b.members
      ensures key in a.members && key in b.members && a.members[key] == b.members[key]
    {
      assert Member(a, key) == Member(b, key);
    }
    assert a.members == b.members;
  }

  // Any plan that a rollback may end with undoes an install that nobody touched.
  lemma RolledBackIsBefore(before: Json, entry: Json, present: bool, recovery: Json, plan: Plan)
    requires before.Object? && (Servers(before).Some? ==> HasServers(before))
    requires if present then recovery == before else before == Object(map[])
    requires RolledBack(Install(before, entry), RecordOf(before, present, entry), recovery, plan)
    ensures plan == if present then Replace(before.members) else DeleteFile
  {
    var current, left := Install(before, entry), Left(plan);
    assert Servers(left).Some? <==> Servers(before).Some?;
    if Servers(left).Some? {
      SameMembersSameObject(Servers(left).value, Servers(before).value);
    }
    SameMembersSameObject(left, before);
  }

  method ClaudeRollback(current: Json, record: Record, recovery: Json) returns (r: Result)
    // It refuses exactly if the owner changed or the recovery file does not fit.
    ensures r.Success? <==> Owned(current, record) && RecoveryFits(recovery, record)
    ensures r.Success? ==> RolledBack(current, record, recovery, r.plan)
    // And it says why: the installed entry is out of reach, or not what was installed, or
    // the recovery file lacks what the record says was there before.
    ensures r == Failure(NotAnObject) <==> current.Other?
    ensures r == Failure(BoundaryDisappeared) <==> current.Object? && !HasServers(current)
    ensures r == Failure(OwnershipChanged) <==>
              HasServers(current) && Member(Servers(current).value, OWNED) != record.postKey
    ensures r == Failure(RecoveryNotAnObject) <==>
              Owned(current, record) && record.fileBefore && recovery.Other?
    ensures r == Failure(RecoveryContradicts) <==>
              && Owned(current, record) && record.keyBefore && (record.fileBefore ==> recovery.Object?)
              && !(record.fileBefore && HasServers(recovery) && OWNED in Servers(recovery).value.members)
  {
    if !current.Object? {
      return Failure(NotAnObject);
    }
    var document := current.members;
    if SERVERS !in document || !document[SERVERS].Object? {
      return Failure(BoundaryDisappeared);
    }
    var parent := document[SERVERS].members;
    if (OWNED in parent) != record.postKey.Some? {
      return Failure(OwnershipChanged);
    }
    if OWNED in parent && parent[OWNED] != record.postKey.value {
      return Failure(OwnershipChanged);
    }
    var earlier: map<string, Json> := map[];
    if record.fileBefore {
      if !recovery.Object? {
        return Failure(RecoveryNotAnObject);
      }
      earlier := recovery.members;
    }
    if record.keyBefore {
      if SERVERS !in earlier || !earlier[SERVERS].Object? || OWNED !in earlier[SERVERS].members {
        return Failure(RecoveryContradicts);
      }
      parent := parent[OWNED := earlier[SERVERS].members[OWNED]];
      document := document[SERVERS := Object(parent)];
    } else {
      assert (parent - {OWNED}).Keys == parent.Keys - {OWNED};
      parent := parent - {OWNED};
      assert parent == map[] <==> parent.Keys == {};
      document := document[SERVERS := Object(parent)];
      if !record.parentBefore && parent == map[] {
        document := document - {SERVERS};
      }
    }
    if !record.fileBefore && document == map[] {
      return Success(DeleteFile);
    }
    r := Success(Replace(document));
  }

  // Rolling back an install that nobody touched is accepted. It gives the earlier
  // document, or removes the file that the install created.
  method RollbackUndoesInstall(before: Json, entry: Json, present: bool, recovery: Json) returns (r: Result)
    requires before.Object? && (Servers(before).Some? ==> HasServers(before))
    requires if present then recovery == before else before == Object(map[])
    ensures r == Success(if present then Replace(before.members) else DeleteFile)
  {
    r := ClaudeRollback(Install(before, entry), RecordOf(before, present, entry), recovery);
    RolledBackIsBefore(before, entry, present, recovery, r.plan);
  }
}
