/** What the handlers' answers promise, over all reachable states of the catalogue. */
module HandlerProperties {
  import opened Prelude
  import opened Capacity
  import opened Catalogue
  import opened StepMachine
  import opened Invariants
  import opened RunProperties
  import opened Records
  import opened Volumes
  import opened Handlers

  // ---------------------------------------------------------------- create

  /** Every live volume has its path. */
  ghost predicate PathsPresent(s: Store) {
    forall i :: 0 <= i < |s.rows| && IsLive(s.rows[i]) ==> s.rows[i].path in s.disk
  }

  /** A create of a name that is taken succeeds exactly when the volume had to be populated or is the requested one. */
  lemma CreateOfTakenName(sv: Server, req: CreateRequest, uuid: Option<string>, env: CreateEnv, i: nat)
    requires Valid(sv) && (uuid.Some? ==> |uuid.value| >= 6)
    requires i < |sv.s.rows| && IsLive(sv.s.rows[i]) && sv.s.rows[i].name == req.name && Admit(req).Ok?
    ensures var r := sv.s.rows[i]; var (after, reply) := CreateHandler(sv.s, req, uuid, env);
            && (reply.Ok? <==>
                  (env.fills && (r.path !in sv.s.disk || !Differs(r, req))))
            && (reply.Ok? ==> reply.value.volumeId == r.id)
            && after.rows == sv.s.rows && after.links == sv.s.links
            && after.disk == if env.fills && r.path !in sv.s.disk then sv.s.disk[r.path := FreshEntry(r)] else sv.s.disk
  {
    LiveRowFound(sv.s.rows, sv.used, i);
    PopulateAt(sv.s.disk, sv.s.rows[i], env.fills);
  }

  /** A volume that lost its path gets it back, with its own kind and capacity, from the next create of its name. */
  lemma CreateRepopulates(sv: Server, req: CreateRequest, uuid: Option<string>, env: CreateEnv, i: nat)
    requires Valid(sv) && (uuid.Some? ==> |uuid.value| >= 6) && env.fills
    requires i < |sv.s.rows| && IsLive(sv.s.rows[i]) && sv.s.rows[i].name == req.name && Admit(req).Ok?
    requires sv.s.rows[i].path !in sv.s.disk
    ensures var (after, reply) := CreateHandler(sv.s, req, uuid, env);
            && reply == Created(sv.s.rows[i].id, req)
            && At(after.disk, sv.s.rows[i].path) == Some(FreshEntry(sv.s.rows[i]))
  {
    CreateOfTakenName(sv, req, uuid, env, i);
    LiveRowFound(sv.s.rows, sv.used, i);
  }

  /** The row a create adds answers the request. */
  lemma CreateOfNewName(sv: Server, req: CreateRequest, uuid: Option<string>, env: CreateEnv)
    requires (uuid.Some? ==> |uuid.value| >= 6)
    requires FindName(sv.s.rows, req.name).None? && CreateHandler(sv.s, req, uuid, env).1.Ok?
    ensures var (after, reply) := CreateHandler(sv.s, req, uuid, env); var n := |sv.s.rows|;
            && Admit(req).Ok? && uuid == Some(reply.value.volumeId)
            && |after.rows| == n + 1 && after.rows[..n] == sv.s.rows
            && after.rows[n].id == reply.value.volumeId && after.rows[n].name == req.name && IsLive(after.rows[n])
            && after.rows[n].capacity == FixCapacity(req.requiredBytes) && after.rows[n].isBlock == Admit(req).value
            && after.rows[n].path in after.disk
  {
    var row := NewRow(req, uuid.value, Admit(req).value);
    var disk := MakeShards(sv.s.disk, row.id, env.shards);
    if row.path !in disk && !row.isBlock {
      assert row.path[..|row.path|] == row.path;
    }
  }

  /** The live row that answers a create request. */
  ghost predicate Answers(s: Store, id: string, req: CreateRequest) {
    Admit(req).Ok? &&
    exists i :: 0 <= i < |s.rows| && IsLive(s.rows[i]) && s.rows[i].id == id && s.rows[i].name == req.name
                && s.rows[i].capacity == FixCapacity(req.requiredBytes) && s.rows[i].isBlock == Admit(req).value
  }

  /**
    * While no live volume misses its path, every successful create names a live row of the
    * requested name, with the rounded capacity and the requested kind.
    */
  lemma CreateAnswersRequest(sv: Server, req: CreateRequest, uuid: Option<string>, env: CreateEnv)
    requires Valid(sv) && PathsPresent(sv.s) && (uuid.Some? ==> |uuid.value| >= 6)
    ensures var (after, reply) := CreateHandler(sv.s, req, uuid, env);
            reply.Ok? ==> Answers(after, reply.value.volumeId, req)
  {
    var named := FindName(sv.s.rows, req.name);
    var (after, reply) := CreateHandler(sv.s, req, uuid, env);
    if reply.Err? {
    } else if named.Some? {
      CreateOfTakenName(sv, req, uuid, env, named.value);
      var r := after.rows[named.value];
      assert r == sv.s.rows[named.value];
    } else {
      CreateOfNewName(sv, req, uuid, env);
      assert after.rows[|sv.s.rows|].id == reply.value.volumeId;
    }
  }

  /** Until a volume is deleted, every successful create of its name answers with its id, whatever runs in between. */
  lemma CreateAnswersSameId(
    w: World, steps: seq<Step>, i: nat, req: CreateRequest, uuid: Option<string>, env: CreateEnv)
    requires Inv(w) && i < |w.s.rows| && IsLive(w.s.rows[i]) && C(SoftDelete(i)) !in steps
    requires req.name == w.s.rows[i].name && (uuid.Some? ==> |uuid.value| >= 6)
    ensures var (_, reply) := CreateHandler(Run(w, steps).s, req, uuid, env);
            reply.Ok? ==> reply.value.volumeId == w.s.rows[i].id
  {
    NameKeepsRow(w, steps, i);
    RunEvolves(w, steps);
    assert RowEvolves(w.s.rows[i], Run(w, steps).s.rows[i]);
  }

  lemma OldPathKept(sv: Server, op: Op, i: nat)
    requires Valid(sv) && Proper(sv, op) && i < |sv.s.rows|
    ensures PathStays(sv.s, Serve(sv, op).s, i)
  {
    var after := Serve(sv, op).s;
    if sv.s.rows[i].path in sv.s.disk && IsLive(sv.s.rows[i]) && i < |after.rows| && IsLive(after.rows[i]) {
      DeletesOnlyItself(sv, op, i);
      LiveVolumeKeepsPath(AsWorld(sv, Resting), Trace(sv, op), i);
      ServeIsRun(sv, op, Resting);
    }
  }

  lemma ServeEvolves(sv: Server, op: Op)
    requires Valid(sv) && Proper(sv, op)
    ensures RowsEvolve(sv.s.rows, Serve(sv, op).s.rows)
  {
    ServeIsRun(sv, op, Resting);
    RunEvolves(AsWorld(sv, Resting), Trace(sv, op));
  }

  /** A live volume that has its path still has it afterwards, if it is still live. */
  ghost predicate PathStays(s: Store, after: Store, i: nat)
    requires i < |s.rows|
  {
    s.rows[i].path in s.disk && IsLive(s.rows[i]) && i < |after.rows| && IsLive(after.rows[i]) ==>
      after.rows[i].path in after.disk
  }

  lemma PathsCarryOver(s: Store, after: Store)
    requires RowsEvolve(s.rows, after.rows) && PathsPresent(s)
    requires forall i :: 0 <= i < |s.rows| ==> PathStays(s, after, i)
    requires |after.rows| > |s.rows| ==> |after.rows| == |s.rows| + 1 && after.rows[|s.rows|].path in after.disk
    ensures PathsPresent(after)
  {
    forall i | 0 <= i < |after.rows| && IsLive(after.rows[i]) ensures after.rows[i].path in after.disk {
      if i < |s.rows| {
        assert RowEvolves(s.rows[i], after.rows[i]);
        assert PathStays(s, after, i);
      }
    }
  }

  /** Every handler leaves every live volume its path, if it had one. */
  lemma ServeKeepsPaths(sv: Server, op: Op)
    requires Valid(sv) && Proper(sv, op) && PathsPresent(sv.s)
    ensures PathsPresent(Serve(sv, op).s)
  {
    var after := Serve(sv, op).s;
    ServeEvolves(sv, op);
    forall i | 0 <= i < |sv.s.rows| ensures PathStays(sv.s, after, i) {
      OldPathKept(sv, op, i);
    }
    if |after.rows| > |sv.s.rows| {
      NewRowByCreate(sv, op);
    }
    PathsCarryOver(sv.s, after);
  }

  lemma DeletesOnlyItself(sv: Server, op: Op, i: nat)
    requires op.Create? && op.uuid.Some? ==> |op.uuid.value| >= 6
    requires i < |sv.s.rows| && i < |Serve(sv, op).s.rows| && IsLive(Serve(sv, op).s.rows[i])
    ensures C(SoftDelete(i)) !in Trace(sv, op)
  {
  }

  lemma NewRowByCreate(sv: Server, op: Op)
    requires Proper(sv, op) && |Serve(sv, op).s.rows| > |sv.s.rows|
    ensures var after := Serve(sv, op).s; |after.rows| == |sv.s.rows| + 1 && after.rows[|sv.s.rows|].path in after.disk
  {
    CreateOfNewName(sv, op.req, op.uuid, op.cenv);
  }

  /**
    * While live volumes may miss their path: a successful create names a volume that is not the
    * one asked for if and only if its name's volume differs from the request and missed its path.
    */
  lemma CreateMisanswersExactly(sv: Server, req: CreateRequest, uuid: Option<string>, env: CreateEnv)
    requires Valid(sv) && (uuid.Some? ==> |uuid.value| >= 6)
    ensures var (after, reply) := CreateHandler(sv.s, req, uuid, env);
            reply.Ok? ==>
              (!Answers(after, reply.value.volumeId, req) <==>
               exists i :: 0 <= i < |sv.s.rows| && IsLive(sv.s.rows[i]) && sv.s.rows[i].name == req.name
                           && sv.s.rows[i].path !in sv.s.disk && Differs(sv.s.rows[i], req))
  {
    var named := FindName(sv.s.rows, req.name);
    var (after, reply) := CreateHandler(sv.s, req, uuid, env);
    if reply.Ok? && named.Some? {
      CreateOfTakenName(sv, req, uuid, env, named.value);
      OnlyNamed(sv, named.value, req);
    } else if reply.Ok? {
      CreateOfNewName(sv, req, uuid, env);
      assert after.rows[|sv.s.rows|].id == reply.value.volumeId;
    }
  }

  predicate Differs(r: Row, req: CreateRequest) {
    Admit(req).Ok? && (r.capacity != FixCapacity(req.requiredBytes) || r.isBlock != Admit(req).value)
  }

  /** A live row of the name is the only row an answer with its id can mean. */
  lemma OnlyNamed(sv: Server, i: nat, req: CreateRequest)
    requires Valid(sv) && i < |sv.s.rows| && IsLive(sv.s.rows[i]) && sv.s.rows[i].name == req.name && Admit(req).Ok?
    ensures forall j :: 0 <= j < |sv.s.rows| && IsLive(sv.s.rows[j]) && sv.s.rows[j].name == req.name ==> j == i
    ensures forall s: Store :: s.rows == sv.s.rows ==>
              (Answers(s, sv.s.rows[i].id, req) <==> !Differs(sv.s.rows[i], req))
  {
  }

  // ---------------------------------------------------------------- delete

  /** Something is left at or below a path. */
  ghost predicate DataLeft(s: Store, p: Path) {
    exists k :: k in s.disk && p <= k
  }

  /**
    * Repeating a delete answers Ok and changes nothing, whatever the first one answered. Data
    * is left then if and only if the first removal failed: only the clean-up removes it.
    */
  lemma RepeatedDeleteExactly(sv: Server, i: nat, env: DeleteEnv, again: DeleteEnv)
    requires Valid(sv) && i < |sv.s.rows| && IsLive(sv.s.rows[i])
    ensures var r := sv.s.rows[i];
            var (after, reply) := DeleteHandler(sv.s, r.id, env);
            && (reply.Ok? <==> !RemoveFails(sv.s.disk, r.path, env.stuck) && env.commits)
            && DeleteHandler(after, r.id, again) == (after, Ok(()))
            && (DataLeft(after, r.path) <==> RemoveFails(sv.s.disk, r.path, env.stuck))
  {
    var r := sv.s.rows[i];
    LiveRowFound(sv.s.rows, sv.used, i);
    assert r.id != "" by { assert RowOk(r); }
    RemoveFailsExactly(sv.s.disk, r.path, env.stuck);
    DeletedNotFound(sv, i);
  }

  lemma DeletedNotFound(sv: Server, i: nat)
    requires Valid(sv) && i < |sv.s.rows| && IsLive(sv.s.rows[i])
    ensures FindId(SoftDeleted(sv.s.rows, i), sv.s.rows[i].id).None?
  {
    var rows := SoftDeleted(sv.s.rows, i);
    assert forall j :: 0 <= j < |rows| && j != i ==> rows[j] == sv.s.rows[j];
    assert !IsLive(rows[i]);
  }

  // ---------------------------------------------------------------- expand

  /**
    * When an expand that grows answers Ok, and when a block volume's file has the new size after
    * it: the commit decides the answer but not the file.
    */
  lemma GrowingExpandResizes(sv: Server, i: nat, bytes: int, env: ExpandEnv)
    requires Valid(sv) && i < |sv.s.rows| && IsLive(sv.s.rows[i])
    requires WithinLimit(bytes) && FixCapacity(bytes) > sv.s.rows[i].capacity
    ensures var r := sv.s.rows[i]; var (after, reply) := ExpandHandler(sv.s, r.id, Some(bytes), env);
            && (reply.Ok? <==>
                  (env.updates && env.commits &&
                   (r.isBlock ==> env.stats && env.dd && At(sv.s.disk, r.path) == Some(File(r.capacity)))))
            && (reply.Ok? ==> reply.value == ExpandResponse(FixCapacity(bytes), r.isBlock))
            && (r.isBlock ==>
                  (At(after.disk, r.path) == Some(File(FixCapacity(bytes))) <==>
                   env.updates && env.stats && env.dd && At(sv.s.disk, r.path) == Some(File(r.capacity))))
            && after.rows == (if env.updates then Resized(sv.s.rows, i, FixCapacity(bytes)) else sv.s.rows)
  {
    LiveRowFound(sv.s.rows, sv.used, i);
    assert Sharded(sv.s.disk, sv.s.rows[i].path);
    var r := sv.s.rows[i];
    assert r.id != "" by { assert RowOk(r); }
    assert r.isBlock && r.path in sv.s.disk ==> Fits(sv.s.disk[r.path], r);
  }

  /** Once file and record differ, every further growing expand fails, and still raises the record. */
  lemma MismatchedExpandFails(sv: Server, i: nat, bytes: int, env: ExpandEnv)
    requires Valid(sv) && Mismatch(AsWorld(sv, Resting), i) && WithinLimit(bytes)
    requires FixCapacity(bytes) > sv.s.rows[i].capacity
    requires IsInt64(bytes)
    ensures var (after, reply) := ExpandHandler(sv.s, sv.s.rows[i].id, Some(bytes), env);
            reply == Err(Internal) && Mismatch(World(after, sv.used, Idle, Resting), i)
  {
    var r := sv.s.rows[i];
    GrowingExpandResizes(sv, i, bytes, env);
    LiveRowFound(sv.s.rows, sv.used, i);
    assert Fits(sv.s.disk[r.path], r);
  }

  /** Once the record is raised, the same request is answered from it. */
  lemma RaisedAnswersOk(sv: Server, i: nat, bytes: int, env: ExpandEnv, again: ExpandEnv)
    requires Valid(sv) && i < |sv.s.rows| && IsLive(sv.s.rows[i]) && env.updates
    requires WithinLimit(bytes) && IsInt64(bytes) && FixCapacity(bytes) > sv.s.rows[i].capacity
    ensures var after := ExpandHandler(sv.s, sv.s.rows[i].id, Some(bytes), env).0;
            ExpandHandler(after, sv.s.rows[i].id, Some(bytes), again) ==
            (after, Ok(ExpandResponse(FixCapacity(bytes), false)))
  {
    var r := sv.s.rows[i];
    GrowingExpandResizes(sv, i, bytes, env);
    var after := ExpandHandler(sv.s, r.id, Some(bytes), env).0;
    ServeKeepsValid(sv, Expand(r.id, Some(bytes), env));
    LiveRowFound(sv.s.rows, sv.used, i);
    LiveRowFound(after.rows, sv.used, i);
  }

  /**
    * Repeating a growing expand of a block volume ends in an Ok for a size its file does not
    * have if and only if the record was raised the first time and the file could not follow.
    */
  lemma RepeatedExpandExactly(sv: Server, i: nat, bytes: int, env: ExpandEnv, again: ExpandEnv)
    requires Valid(sv) && i < |sv.s.rows| && IsLive(sv.s.rows[i]) && sv.s.rows[i].isBlock
    requires WithinLimit(bytes) && IsInt64(bytes) && FixCapacity(bytes) > sv.s.rows[i].capacity
    ensures var r := sv.s.rows[i];
            var after := ExpandHandler(sv.s, r.id, Some(bytes), env).0;
            var (after', reply') := ExpandHandler(after, r.id, Some(bytes), again);
            (reply'.Ok? && At(after'.disk, r.path) != Some(File(FixCapacity(bytes)))) <==>
            (env.updates && !(env.stats && env.dd && At(sv.s.disk, r.path) == Some(File(r.capacity))))
  {
    var r := sv.s.rows[i];
    GrowingExpandResizes(sv, i, bytes, env);
    LiveRowFound(sv.s.rows, sv.used, i);
    var after := ExpandHandler(sv.s, r.id, Some(bytes), env).0;
    if env.updates {
      RaisedAnswersOk(sv, i, bytes, env, again);
    } else {
      assert after == sv.s;
      GrowingExpandResizes(sv, i, bytes, again);
    }
  }

  /**
    * An expand of a block volume that fails after the record was raised is answered Ok when it
    * is repeated, for a capacity its file does not have: the repeat only looks at the record.
    */
  lemma FailedExpandRepeatsOk(sv: Server, i: nat, bytes: int, env: ExpandEnv, again: ExpandEnv)
    requires Valid(sv) && i < |sv.s.rows| && IsLive(sv.s.rows[i]) && sv.s.rows[i].isBlock
    requires sv.s.rows[i].path in sv.s.disk
    requires WithinLimit(bytes) && IsInt64(bytes) && FixCapacity(bytes) > sv.s.rows[i].capacity
    requires env.updates
    requires !(env.stats && env.dd && At(sv.s.disk, sv.s.rows[i].path) == Some(File(sv.s.rows[i].capacity)))
    ensures var r := sv.s.rows[i];
            var (after, reply) := ExpandHandler(sv.s, r.id, Some(bytes), env);
            var (after', reply') := ExpandHandler(after, r.id, Some(bytes), again);
            && reply == Err(Internal)
            && reply' == Ok(ExpandResponse(FixCapacity(bytes), false)) && after' == after
            && At(after.disk, r.path).Some? && At(after.disk, r.path).value.File?
            && At(after.disk, r.path).value.size < FixCapacity(bytes)
  {
    var r := sv.s.rows[i];
    GrowingExpandResizes(sv, i, bytes, env);
    LiveRowFound(sv.s.rows, sv.used, i);
    var after := ExpandHandler(sv.s, r.id, Some(bytes), env).0;
    ServeKeepsValid(sv, Expand(r.id, Some(bytes), env));
    LiveRowFound(after.rows, sv.used, i);
    assert Fits(sv.s.disk[r.path], r);
  }

  /** A mismatch is reported as abnormal through every run that neither deletes the volume nor removes its file. */
  lemma MismatchStaysReported(w: World, steps: seq<Step>, i: nat, recs: seq<PublishRecord>, bad: set<Path>)
    requires Inv(w) && Mismatch(w, i) && C(SoftDelete(i)) !in steps
    requires forall n :: 0 <= n <= |steps| ==> w.s.rows[i].path in Run(w, steps[..n]).s.disk
    ensures var s := Run(w, steps).s; i < |s.rows| && DetailOf(s.rows[i], s.disk, recs, bad).Abnormal()
  {
    MismatchIsAbsorbing(w, steps, i);
  }

  // ---------------------------------------------------------------- the symlink index

  ghost predicate IndexHolds(s: Store) {
    LinksSound(s.rows, s.links) && LinksComplete(s.rows, s.links)
  }

  predicate LinkCallsWork(op: Op) {
    match op
    case Create(_, _, env) => env.links && env.unlinks
    case Delete(_, env) => env.unlinks
    case Expand(_, _, _) => true
  }

  ghost predicate KeyTaken(rows: seq<Row>, key: Link, except: int) {
    exists j :: 0 <= j < |rows| && j != except && IsLive(rows[j]) && rows[j].Key() == key
  }

  /** A create whose commit fails, or a delete, of a volume that shares its namespace and PVC name with a live one. */
  ghost predicate BreaksIndex(s: Store, op: Op) {
    match op
    case Create(req, uuid, env) =>
      Draws(s, req, uuid) && env.shards >= 3 && env.inserts && env.fills && !env.commits
      && KeyTaken(s.rows, Link(req.params[PVC_NAMESPACE_KEY], req.params[PVC_NAME_KEY]), -1)
    case Delete(id, _) =>
      id != "" && var i := FindId(s.rows, id); i.Some? && KeyTaken(s.rows, s.rows[i.value].Key(), i.value)
    case Expand(_, _, _) => false
  }

  lemma CreateIndex(s: Store, row: Row, env: CreateEnv)
    requires |row.id| >= 6 && IsLive(row) && env.links && env.unlinks && LinksSound(s.rows, s.links)
    requires env.shards >= 3 && env.inserts && env.fills && !Clashes(s.rows, row)
    requires Populate(MakeShards(s.disk, row.id, env.shards), row, true).ok
    ensures var after := CreateSpec(s, row, env).0;
            && LinksSound(after.rows, after.links)
            && (LinksComplete(s.rows, s.links) ==>
                  (LinksComplete(after.rows, after.links) <==> env.commits || !KeyTaken(s.rows, row.Key(), -1)))
  {
    var after := CreateSpec(s, row, env).0;
    if env.commits {
      var n := |s.rows|;
      assert after.rows[n] == row && forall i :: 0 <= i < n ==> after.rows[i] == s.rows[i];
      forall key | key in after.links
        ensures RowCovers(after.rows, key, after.links[key])
      {
        if key in s.links {
          var i :| 0 <= i < n && IsLive(s.rows[i]) && s.rows[i].Key() == key && s.rows[i].path == s.links[key];
          assert after.rows[i] == s.rows[i];
        } else {
          assert after.rows[n].Key() == key;
        }
      }
    } else {
      var key := row.Key();
      assert forall k :: k in after.links <==> k in s.links && k != key;
      if KeyTaken(s.rows, key, -1) {
        var j :| 0 <= j < |s.rows| && j != -1 && IsLive(s.rows[j]) && s.rows[j].Key() == key;
        assert after.rows[j].Key() !in after.links;
      }
    }
  }

  lemma DeleteIndex(s: Store, i: nat, env: DeleteEnv)
    requires i < |s.rows| && IsLive(s.rows[i]) && env.unlinks && LinksSound(s.rows, s.links)
    ensures var after := DeleteSpec(s, i, env).0;
            && LinksSound(after.rows, after.links)
            && (LinksComplete(s.rows, s.links) ==>
                  (LinksComplete(after.rows, after.links) <==> !KeyTaken(s.rows, s.rows[i].Key(), i)))
  {
    var after := DeleteSpec(s, i, env).0;
    var key := s.rows[i].Key();
    assert forall j :: 0 <= j < |s.rows| && j != i ==> after.rows[j] == s.rows[j];
    forall k | k in after.links
      ensures RowCovers(after.rows, k, after.links[k])
    {
      var j :| 0 <= j < |s.rows| && IsLive(s.rows[j]) && s.rows[j].Key() == k && s.rows[j].path == s.links[k];
      assert after.rows[j] == s.rows[j];
    }
    if KeyTaken(s.rows, key, i) {
      var j :| 0 <= j < |s.rows| && j != i && IsLive(s.rows[j]) && s.rows[j].Key() == key;
      assert after.rows[j].Key() !in after.links;
    }
  }

  lemma ResizedIndex(rows: seq<Row>, i: nat, capacity: int, links: Links)
    requires i < |rows|
    ensures LinksSound(rows, links) ==> LinksSound(Resized(rows, i, capacity), links)
    ensures LinksComplete(rows, links) ==> LinksComplete(Resized(rows, i, capacity), links)
  {
    var rows' := Resized(rows, i, capacity);
    assert forall j :: 0 <= j < |rows| ==>
      rows'[j].Key() == rows[j].Key() && rows'[j].path == rows[j].path && IsLive(rows'[j]) == IsLive(rows[j]);
    if LinksSound(rows, links) {
      forall k | k in links
        ensures RowCovers(rows', k, links[k])
      {
        var j :| 0 <= j < |rows| && IsLive(rows[j]) && rows[j].Key() == k && rows[j].path == links[k];
        assert rows'[j].Key() == k;
      }
    }
  }

  /** A create of a fresh id neither clashes nor fails to populate. */
  lemma FreshCreateWorks(sv: Server, row: Row, env: CreateEnv)
    requires Valid(sv) && RowOk(row) && row.id !in sv.used && env.shards >= 3
    ensures !Clashes(sv.s.rows, row) && Populate(MakeShards(sv.s.disk, row.id, env.shards), row, true).ok
  {
    FreshDoesNotClash(AsWorld(sv, Resting), row);
    MakeShardsKeeps(sv.s.disk, sv.used, row.id, env.shards);
    PopulateAt(MakeShards(sv.s.disk, row.id, env.shards), row, true);
  }

  lemma NewRowOk(req: CreateRequest, id: string)
    requires Admit(req).Ok? && HasNames(req) && IsUuid(id) && req.requiredBytes <= MAX_REQUEST
    ensures RowOk(NewRow(req, id, Admit(req).value))
  {
    UuidIsValid(id);
    AcceptedCapacityOk(req.requiredBytes);
  }

  lemma DrawnCreateIndex(sv: Server, op: Op, row: Row)
    requires op.Create? && Draws(sv.s, op.req, op.uuid) && |op.uuid.value| >= 6
    requires row == NewRow(op.req, op.uuid.value, Admit(op.req).value)
    requires LinkCallsWork(op) && LinksSound(sv.s.rows, sv.s.links) && !Clashes(sv.s.rows, row)
    requires op.cenv.shards >= 3 ==> Populate(MakeShards(sv.s.disk, row.id, op.cenv.shards), row, true).ok
    ensures LinksSound(Serve(sv, op).s.rows, Serve(sv, op).s.links)
    ensures LinksComplete(sv.s.rows, sv.s.links) ==>
              (LinksComplete(Serve(sv, op).s.rows, Serve(sv, op).s.links) <==> !BreaksIndex(sv.s, op))
  {
    var env := op.cenv;
    if env.shards >= 3 && env.inserts && env.fills {
      CreateIndex(sv.s, row, env);
    }
  }

  lemma CreateOpIndex(sv: Server, op: Op)
    requires op.Create? && Valid(sv) && Proper(sv, op) && LinkCallsWork(op) && LinksSound(sv.s.rows, sv.s.links)
    ensures LinksSound(Serve(sv, op).s.rows, Serve(sv, op).s.links)
    ensures LinksComplete(sv.s.rows, sv.s.links) ==>
              (LinksComplete(Serve(sv, op).s.rows, Serve(sv, op).s.links) <==> !BreaksIndex(sv.s, op))
  {
    if Draws(sv.s, op.req, op.uuid) {
      var row := NewRow(op.req, op.uuid.value, Admit(op.req).value);
      NewRowOk(op.req, op.uuid.value);
      if op.cenv.shards >= 3 {
        FreshCreateWorks(sv, row, op.cenv);
      }
      FreshDoesNotClash(AsWorld(sv, Resting), row);
      DrawnCreateIndex(sv, op, row);
    } else {
      UndrawnCreate(sv, op);
    }
  }

  lemma UndrawnCreate(sv: Server, op: Op)
    requires op.Create? && !Draws(sv.s, op.req, op.uuid) && (op.uuid.Some? ==> |op.uuid.value| >= 6)
    ensures Serve(sv, op).s.rows == sv.s.rows && Serve(sv, op).s.links == sv.s.links && !BreaksIndex(sv.s, op)
  {
  }

  lemma OtherOpIndex(sv: Server, op: Op)
    requires !op.Create? && LinkCallsWork(op) && LinksSound(sv.s.rows, sv.s.links)
    ensures LinksSound(Serve(sv, op).s.rows, Serve(sv, op).s.links)
    ensures LinksComplete(sv.s.rows, sv.s.links) ==>
              (LinksComplete(Serve(sv, op).s.rows, Serve(sv, op).s.links) <==> !BreaksIndex(sv.s, op))
  {
    match op
    case Delete(id, env) =>
      var i := FindId(sv.s.rows, id);
      if id != "" && i.Some? { DeleteIndex(sv.s, i.value, env); }
    case Expand(id, bytes, env) =>
      var i := FindId(sv.s.rows, id);
      if i.Some? && bytes.Some? { ResizedIndex(sv.s.rows, i.value, FixCapacity(bytes.value), sv.s.links); }
  }

  /** One request keeps the index exactly when it is not one of the two that break it; it always keeps it sound. */
  lemma IndexKeptExactly(sv: Server, op: Op)
    requires Valid(sv) && Proper(sv, op) && LinkCallsWork(op) && LinksSound(sv.s.rows, sv.s.links)
    ensures LinksSound(Serve(sv, op).s.rows, Serve(sv, op).s.links)
    ensures IndexHolds(sv.s) ==> (IndexHolds(Serve(sv, op).s) <==> !BreaksIndex(sv.s, op))
  {
    if op.Create? { CreateOpIndex(sv, op); } else { OtherOpIndex(sv, op); }
  }

  /** A history of requests, served one after the other, from nothing or from what earlier runs and clean-ups left. */
  ghost predicate History(svs: seq<Server>, ops: seq<Op>) {
    && |svs| == |ops| + 1 && Valid(svs[0])
    && forall i :: 0 <= i < |ops| ==> Proper(svs[i], ops[i]) && svs[i + 1] == Serve(svs[i], ops[i])
  }

  lemma {:induction false} HistoryValid(svs: seq<Server>, ops: seq<Op>, i: nat)
    requires History(svs, ops) && i < |svs|
    ensures Valid(svs[i])
  {
    if i > 0 {
      HistoryValid(svs, ops, i - 1);
      ServeKeepsValid(svs[i - 1], ops[i - 1]);
    }
  }

  lemma HistoryStep(svs: seq<Server>, ops: seq<Op>, i: nat)
    requires History(svs, ops) && i < |ops| && LinkCallsWork(ops[i]) && LinksSound(svs[i].s.rows, svs[i].s.links)
    ensures LinksSound(svs[i + 1].s.rows, svs[i + 1].s.links)
    ensures IndexHolds(svs[i].s) ==> (IndexHolds(svs[i + 1].s) <==> !BreaksIndex(svs[i].s, ops[i]))
  {
    HistoryValid(svs, ops, i);
    IndexKeptExactly(svs[i], ops[i]);
  }

  /** In every history whose link calls work, each symlink points to a live volume of that namespace and PVC name. */
  lemma {:induction false} RequestsKeepLinksSound(svs: seq<Server>, ops: seq<Op>, i: nat)
    requires History(svs, ops) && LinksSound(svs[0].s.rows, svs[0].s.links)
    requires i < |svs| && forall k :: 0 <= k < |ops| ==> LinkCallsWork(ops[k])
    ensures LinksSound(svs[i].s.rows, svs[i].s.links)
  {
    if i > 0 {
      RequestsKeepLinksSound(svs, ops, i - 1);
      HistoryStep(svs, ops, i - 1);
    }
  }

  /** If moreover no request breaks the index, the kept index is the one a rebuild would make. */
  lemma {:induction false} RequestsKeepIndex(svs: seq<Server>, ops: seq<Op>, i: nat)
    requires History(svs, ops) && IndexHolds(svs[0].s) && i < |svs|
    requires forall k :: 0 <= k < |ops| ==> LinkCallsWork(ops[k]) && !BreaksIndex(svs[k].s, ops[k])
    ensures IndexHolds(svs[i].s)
    ensures NoSharing(svs[i].s.rows) ==> svs[i].s.links == Rebuilt(svs[i].s.rows)
  {
    if i > 0 {
      RequestsKeepIndex(svs, ops, i - 1);
      HistoryStep(svs, ops, i - 1);
    }
    if NoSharing(svs[i].s.rows) {
      IndexIsRebuilt(svs[i].s.rows, svs[i].s.links);
    }
  }

  /**
    * Keeping live volumes from sharing is not enough: a create that is refused by its commit
    * takes the symlink of the live volume with its namespace and PVC name away.
    */
  lemma FailedCommitTakesLink(sv: Server, op: Op)
    requires op.Create? && Valid(sv) && Proper(sv, op) && LinkCallsWork(op) && BreaksIndex(sv.s, op)
    requires IndexHolds(sv.s) && NoSharing(sv.s.rows)
    ensures var after := Serve(sv, op).s;
            after.rows == sv.s.rows && NoSharing(after.rows) && after.links != Rebuilt(after.rows)
  {
    IndexKeptExactly(sv, op);
    RefusedCreateKeepsRows(sv.s, op.req, op.uuid, op.cenv);
    IndexIsRebuilt(sv.s.rows, Serve(sv, op).s.links);
  }

  lemma RefusedCreateKeepsRows(s: Store, req: CreateRequest, uuid: Option<string>, env: CreateEnv)
    requires !env.commits && (uuid.Some? ==> |uuid.value| >= 6)
    ensures CreateHandler(s, req, uuid, env).0.rows == s.rows
  {
  }

  const ALL_CREATE_WORKS: CreateEnv := CreateEnv(3, true, true, true, true, {}, true)

  /**
    * It does happen: the second of any two admitted creates for one namespace and PVC name, if only
    * its commit fails.
    */
  lemma LinkIsTaken(a: CreateRequest, b: CreateRequest, x: string, y: string)
    requires Admit(a).Ok? && Admit(b).Ok? && HasNames(a) && HasNames(b) && a.name != b.name
    requires a.requiredBytes <= MAX_REQUEST && b.requiredBytes <= MAX_REQUEST
    requires a.params[PVC_NAMESPACE_KEY] == b.params[PVC_NAMESPACE_KEY]
    requires a.params[PVC_NAME_KEY] == b.params[PVC_NAME_KEY]
    requires IsUuid(x) && IsUuid(y) && x != y
    ensures var one := Serve(Server(Init().s, {}), Create(a, Some(x), ALL_CREATE_WORKS));
            var two := Serve(one, Create(b, Some(y), ALL_CREATE_WORKS.(commits := false)));
            && one.s.links == Rebuilt(one.s.rows) && |one.s.rows| == 1
            && two.s.rows == one.s.rows && two.s.links != Rebuilt(two.s.rows)
  {
    var one := Serve(Server(Init().s, {}), Create(a, Some(x), ALL_CREATE_WORKS));
    var second := Create(b, Some(y), ALL_CREATE_WORKS.(commits := false));
    FirstCreate(a, x);
    FirstKeeps(Create(a, Some(x), ALL_CREATE_WORKS));
    IndexIsRebuilt(one.s.rows, one.s.links);
    SecondTakes(one, NewRow(a, x, Admit(a).value), b, y);
    FailedCommitTakesLink(one, second);
  }

  lemma SecondTakes(one: Server, row: Row, b: CreateRequest, y: string)
    requires one.s.rows == [row] && IsLive(row) && row.name != b.name && y !in one.used && IsUuid(y)
    requires Admit(b).Ok? && HasNames(b) && row.Key() == Link(b.params[PVC_NAMESPACE_KEY], b.params[PVC_NAME_KEY])
    ensures BreaksIndex(one.s, Create(b, Some(y), ALL_CREATE_WORKS.(commits := false)))
  {
    assert KeyTaken(one.s.rows, one.s.rows[0].Key(), -1);
  }

  lemma FirstCreate(a: CreateRequest, x: string)
    requires Admit(a).Ok? && HasNames(a) && IsUuid(x) && a.requiredBytes <= MAX_REQUEST
    ensures var one := Serve(Server(Init().s, {}), Create(a, Some(x), ALL_CREATE_WORKS));
            one.s.rows == [NewRow(a, x, Admit(a).value)] && one.used == {x}
  {
    NewRowOk(a, x);
    FreshCreateWorks(Server(Init().s, {}), NewRow(a, x, Admit(a).value), ALL_CREATE_WORKS);
  }

  lemma FirstKeeps(op: Op)
    requires op.Create? && Proper(Server(Init().s, {}), op) && op.cenv == ALL_CREATE_WORKS
    ensures Valid(Serve(Server(Init().s, {}), op)) && IndexHolds(Serve(Server(Init().s, {}), op).s)
  {
    var zero := Server(Init().s, {});
    assert Inv(AsWorld(zero, Resting)) && IndexHolds(zero.s);
    ServeKeepsValid(zero, op);
    IndexKeptExactly(zero, op);
    assert !BreaksIndex(zero.s, op);
  }
}
