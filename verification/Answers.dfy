/**
  * What the controller answers: for each request exactly when it succeeds, with which code it
  * fails otherwise, and what its answer says about the table, the tree and the records.
  */
module Answers {
  import opened Prelude
  import opened Capacity
  import opened Catalogue
  import opened StepMachine
  import opened Invariants
  import opened RunProperties
  import opened Records
  import opened PublishRuns
  import opened Volumes
  import opened Handlers
  import opened HandlerProperties
  import opened Tokens
  import opened Paging

  // ---------------------------------------------------------------- create

  predicate Asks(caps: seq<Capability>, access: Access) {
    exists i :: 0 <= i < |caps| && caps[i].access == access
  }

  /** A block volume is wanted: by a block access, or by the type "disk". */
  predicate WantsBlock(req: CreateRequest)
    requires req.caps.Some? && TYPE_PARAMETER in req.params
  {
    Asks(req.caps.value, Block) || req.params[TYPE_PARAMETER] == "disk"
  }

  /** Name, capabilities and type are there and agree. */
  predicate WellFormed(req: CreateRequest) {
    && req.name != "" && req.caps.Some? && TYPE_PARAMETER in req.params
    && !(Asks(req.caps.value, Block) && Asks(req.caps.value, Mount))
    && !(Asks(req.caps.value, Block) && req.params[TYPE_PARAMETER] == "folder")
  }

  /** At most 1 TiB less 1 MiB, or so much that the rounding overflows. */
  predicate AmountOk(bytes: int) {
    bytes <= 0x100_0000_0000 - 0x10_0000 || bytes > 0x8000_0000_0000_0000 - 0x10_0000
  }

  /** Block volumes have a single writer. */
  predicate Writable(req: CreateRequest)
    requires req.caps.Some? && TYPE_PARAMETER in req.params
  {
    WantsBlock(req) ==> forall i :: 0 <= i < |req.caps.value| ==> req.caps.value[i].mode == SingleNodeWriter
  }

  predicate Acceptable(req: CreateRequest) {
    WellFormed(req) && AmountOk(req.requiredBytes) && Writable(req)
  }

  lemma AdmitExactly(req: CreateRequest)
    requires IsInt64(req.requiredBytes)
    ensures Admit(req) ==
            if !WellFormed(req) then Err(InvalidArgument)
            else if !AmountOk(req.requiredBytes) then Err(OutOfRange)
            else if !Writable(req) then Err(InvalidArgument)
            else Ok(WantsBlock(req))
  {
    WithinLimitExactly(req.requiredBytes);
    if req.caps.Some? {
      var caps := req.caps.value;
      assert HasBlock(caps) <==> Asks(caps, Block);
      assert HasMount(caps) <==> Asks(caps, Mount);
    }
  }

  /** The live volume of the name, if there is one. */
  ghost predicate Taken(s: Store, name: string, i: nat) {
    i < |s.rows| && IsLive(s.rows[i]) && s.rows[i].name == name
  }

  lemma NameFound(s: Store, name: string)
    ensures FindName(s.rows, name).Some? ==> Taken(s, name, FindName(s.rows, name).value)
  {
  }

  /** The row is the one the request asks for. */
  predicate Wanted(r: Row, req: CreateRequest)
    requires req.caps.Some? && TYPE_PARAMETER in req.params
  {
    r.capacity == FixCapacity(req.requiredBytes) && r.isBlock == WantsBlock(req)
  }

  /** Nothing fails on the way from the drawn id to the commit. */
  predicate CreateWorks(env: CreateEnv) {
    env.shards >= 3 && env.inserts && env.fills && env.commits
  }

  /**
    * A create is refused before any volume is looked at, with these codes and without any
    * change, if and only if its name, capabilities, type, amount or modes are not acceptable.
    */
  lemma CreateRefusedExactly(s: Store, req: CreateRequest, uuid: Option<string>, env: CreateEnv)
    requires IsInt64(req.requiredBytes) && (uuid.Some? ==> |uuid.value| >= 6)
    ensures !WellFormed(req) ==> CreateHandler(s, req, uuid, env) == (s, Err(InvalidArgument))
    ensures WellFormed(req) && !AmountOk(req.requiredBytes) ==>
              CreateHandler(s, req, uuid, env) == (s, Err(OutOfRange))
    ensures WellFormed(req) && AmountOk(req.requiredBytes) && !Writable(req) ==>
              CreateHandler(s, req, uuid, env) == (s, Err(InvalidArgument))
  {
    AdmitExactly(req);
  }

  /** For a taken name: success, code, and the whole new store. */
  lemma CreateTakenExactly(sv: Server, req: CreateRequest, uuid: Option<string>, env: CreateEnv, i: nat)
    requires Valid(sv) && IsInt64(req.requiredBytes) && (uuid.Some? ==> |uuid.value| >= 6)
    requires Acceptable(req) && Taken(sv.s, req.name, i)
    ensures var r := sv.s.rows[i]; var (after, reply) := CreateHandler(sv.s, req, uuid, env);
            && after == sv.s.(disk := if env.fills && r.path !in sv.s.disk then sv.s.disk[r.path := FreshEntry(r)]
                                      else sv.s.disk)
            && reply == (if !env.fills then Err(Internal)
                         else if r.path in sv.s.disk && !Wanted(r, req) then Err(AlreadyExists)
                         else Ok(CreateResponse(r.id, req.requiredBytes, req.params)))
  {
    AdmitExactly(req);
    LiveRowFound(sv.s.rows, sv.used, i);
    PopulateAt(sv.s.disk, sv.s.rows[i], env.fills);
  }

  /**
    * For a new name: it succeeds if and only if the names are there, an id is drawn and nothing
    * fails; then the answer names the one row that was added, which is the one asked for.
    */
  lemma CreateNewExactly(sv: Server, req: CreateRequest, uuid: Option<string>, env: CreateEnv)
    requires Valid(sv) && Proper(sv, Create(req, uuid, env)) && IsInt64(req.requiredBytes)
    requires Acceptable(req) && forall i :: !Taken(sv.s, req.name, i)
    ensures var (after, reply) := CreateHandler(sv.s, req, uuid, env);
            && (reply.Ok? <==> HasNames(req) && uuid.Some? && CreateWorks(env))
            && (reply.Err? ==> reply.code == if HasNames(req) then Internal else InvalidArgument)
            && (reply.Err? ==> after.rows == sv.s.rows)
            && (reply.Ok? ==>
                  && reply.value == CreateResponse(uuid.value, req.requiredBytes, req.params)
                  && after.rows == sv.s.rows + [AskedRow(req, uuid.value)]
                  && At(after.disk, ShardPath(uuid.value)) == Some(FreshEntry(AskedRow(req, uuid.value))))
  {
    AdmitExactly(req);
    NameFound(sv.s, req.name);
    if HasNames(req) && uuid.Some? {
      NewCreateExactly(sv, req, uuid.value, env);
    }
  }

  /** The row a request asks for, under a drawn id. */
  function AskedRow(req: CreateRequest, id: string): Row
    requires HasNames(req) && req.caps.Some? && TYPE_PARAMETER in req.params && |id| >= 6
  {
    Row(id, req.name, req.params["csi.storage.k8s.io/pv/name"], req.params["csi.storage.k8s.io/pvc/name"],
        req.params["csi.storage.k8s.io/pvc/namespace"], FixCapacity(req.requiredBytes), WantsBlock(req),
        [id[0..2], id[2..4], id[4..6], id], false)
  }

  lemma NewCreateExactly(sv: Server, req: CreateRequest, id: string, env: CreateEnv)
    requires Valid(sv) && Proper(sv, Create(req, Some(id), env)) && Draws(sv.s, req, Some(id))
    requires Acceptable(req) && Admit(req) == Ok(WantsBlock(req))
    ensures var (after, ok) := CreateSpec(sv.s, NewRow(req, id, WantsBlock(req)), env);
            && (ok <==> CreateWorks(env))
            && (!ok ==> after.rows == sv.s.rows)
            && (ok ==> after.rows == sv.s.rows + [AskedRow(req, id)]
                       && At(after.disk, ShardPath(id)) == Some(FreshEntry(AskedRow(req, id))))
  {
    var row := NewRow(req, id, WantsBlock(req));
    assert row == AskedRow(req, id);
    NewRowOk(req, id);
    FreshDoesNotClash(AsWorld(sv, Resting), row);
    if env.shards >= 3 {
      FreshIsUnknown(AsWorld(sv, Resting), row);
      MakeShardsKeeps(sv.s.disk, sv.used, id, env.shards);
      PopulateAt(MakeShards(sv.s.disk, id, env.shards), row, env.fills);
    }
  }

  /**
    * A create whose commit fails leaves no row, nothing at the drawn id's path if all can be
    * removed, and no link of its namespace and PVC name; nothing else in the tree goes.
    */
  lemma FailedCommitCleans(sv: Server, req: CreateRequest, id: string, env: CreateEnv)
    requires Valid(sv) && Proper(sv, Create(req, Some(id), env)) && Draws(sv.s, req, Some(id))
    requires CreateWorks(env.(commits := true)) && !env.commits
    ensures var (after, reply) := CreateHandler(sv.s, req, Some(id), env);
            && reply == Err(Internal) && after.rows == sv.s.rows
            && (env.stuck == {} ==> !DataLeft(after, ShardPath(id)))
            && (forall k :: k in sv.s.disk ==> k in after.disk && after.disk[k] == sv.s.disk[k])
            && (env.unlinks ==>
                  after.links == sv.s.links - {Link(req.params[PVC_NAMESPACE_KEY], req.params[PVC_NAME_KEY])})
  {
    var row := NewRow(req, id, Admit(req).value);
    NewRowOk(req, id);
    FreshDoesNotClash(AsWorld(sv, Resting), row);
    UndoneCommit(sv, row, env);
  }

  lemma UndoneCommit(sv: Server, row: Row, env: CreateEnv)
    requires Valid(sv) && RowOk(row) && row.id !in sv.used && !Clashes(sv.s.rows, row)
    requires env.shards >= 3 && env.inserts && env.fills && !env.commits
    ensures var (after, ok) := CreateSpec(sv.s, row, env);
            && !ok && after.rows == sv.s.rows
            && (env.stuck == {} ==> !DataLeft(after, row.path))
            && (forall k :: k in sv.s.disk ==> k in after.disk && after.disk[k] == sv.s.disk[k])
            && (env.unlinks ==> after.links == sv.s.links - {row.Key()})
  {
    var disk := MakeShards(sv.s.disk, row.id, env.shards);
    MakeShardsKeeps(sv.s.disk, sv.used, row.id, env.shards);
    FreshIsUnknown(AsWorld(sv, Resting), row);
    assert row.path !in disk;
    PopulateAt(disk, row, true);
    NothingBelowFresh(sv, row);
  }

  lemma NothingBelowFresh(sv: Server, row: Row)
    requires Valid(sv) && RowOk(row) && row.id !in sv.used
    ensures forall k :: k in sv.s.disk ==> !(row.path <= k)
  {
    forall k | k in sv.s.disk ensures !(row.path <= k) {
      assert EntryOk(sv.s.disk, sv.used, k);
      assert |k| >= 4 ==> k[..4][3] == k[3];
      assert row.path[3] == row.id;
    }
  }

  /** A block volume is only made for single writers. */
  lemma NewBlockIsSingleWriter(sv: Server, req: CreateRequest, uuid: Option<string>, env: CreateEnv, n: nat)
    requires IsInt64(req.requiredBytes) && (uuid.Some? ==> |uuid.value| >= 6)
    ensures var after := CreateHandler(sv.s, req, uuid, env).0;
            |sv.s.rows| <= n < |after.rows| && after.rows[n].isBlock ==>
            req.caps.Some? && forall i :: 0 <= i < |req.caps.value| ==> req.caps.value[i].mode == SingleNodeWriter
  {
    AdmitExactly(req);
  }

  /** The modes of a request that wants no block volume do not matter. */
  lemma ModesDoNotMatter(
    s: Store, req: CreateRequest, caps: seq<Capability>, uuid: Option<string>, env: CreateEnv)
    requires IsInt64(req.requiredBytes) && (uuid.Some? ==> |uuid.value| >= 6)
    requires req.caps.Some? && TYPE_PARAMETER in req.params && !WantsBlock(req)
    requires |caps| == |req.caps.value| && forall i :: 0 <= i < |caps| ==> caps[i].access == req.caps.value[i].access
    ensures CreateHandler(s, req.(caps := Some(caps)), uuid, env) == CreateHandler(s, req, uuid, env)
  {
    var other := req.(caps := Some(caps));
    SameAsks(caps, req.caps.value, Block);
    SameAsks(caps, req.caps.value, Mount);
    AdmitExactly(req);
    AdmitExactly(other);
  }

  lemma SameAsks(a: seq<Capability>, b: seq<Capability>, access: Access)
    requires |a| == |b| && forall i :: 0 <= i < |a| ==> a[i].access == b[i].access
    ensures Asks(a, access) <==> Asks(b, access)
  {
  }

  // ---------------------------------------------------------------- delete

  /** A delete without id is refused; one of an id that is not live succeeds; neither changes anything. */
  lemma DeleteOfNothing(s: Store, id: string, env: DeleteEnv)
    requires id == "" || forall i :: 0 <= i < |s.rows| && IsLive(s.rows[i]) ==> s.rows[i].id != id
    ensures DeleteHandler(s, id, env) == (s, if id == "" then Err(InvalidArgument) else Ok(()))
  {
  }

  /**
    * A delete of a live volume: its row alone becomes deleted, whatever fails; nothing is left
    * at or below its path when all can be removed; nothing elsewhere goes; its link goes.
    */
  lemma DeleteOfVolume(sv: Server, i: nat, env: DeleteEnv)
    requires Valid(sv) && i < |sv.s.rows| && IsLive(sv.s.rows[i])
    ensures var r := sv.s.rows[i]; var (after, reply) := DeleteHandler(sv.s, r.id, env);
            && after.rows == sv.s.rows[i := r.(deleted := true)]
            && (reply.Err? ==> reply.code == Internal)
            && (forall k :: k in after.disk ==> k in sv.s.disk && after.disk[k] == sv.s.disk[k])
            && (forall k :: k in sv.s.disk && !(r.path <= k) ==> k in after.disk)
            && (env.stuck == {} ==> !DataLeft(after, r.path) && (reply.Ok? <==> env.commits))
            && after.links == if env.unlinks then sv.s.links - {Link(r.ns, r.pvc)} else sv.s.links
  {
    var r := sv.s.rows[i];
    LiveRowFound(sv.s.rows, sv.used, i);
    assert r.id != "" by { assert RowOk(r); }
  }

  // ---------------------------------------------------------------- expand

  /** An expand that names no volume or asks for too much fails with these codes and changes nothing. */
  lemma ExpandRefusedExactly(s: Store, id: string, bytes: Option<int>, env: ExpandEnv)
    requires bytes.Some? ==> IsInt64(bytes.value)
    ensures id == "" || bytes.None? ==> ExpandHandler(s, id, bytes, env) == (s, Err(InvalidArgument))
    ensures id != "" && bytes.Some? && !AmountOk(bytes.value) ==>
              ExpandHandler(s, id, bytes, env) == (s, Err(OutOfRange))
    ensures id != "" && bytes.Some? && AmountOk(bytes.value)
            && (forall i :: 0 <= i < |s.rows| && IsLive(s.rows[i]) ==> s.rows[i].id != id) ==>
              ExpandHandler(s, id, bytes, env) == (s, Err(NotFound))
  {
    if bytes.Some? { WithinLimitExactly(bytes.value); }
  }

  /** A request that does not grow always succeeds, changes nothing and answers the recorded capacity. */
  lemma ExpandBelowRecord(sv: Server, i: nat, bytes: int, env: ExpandEnv)
    requires Valid(sv) && i < |sv.s.rows| && IsLive(sv.s.rows[i]) && IsInt64(bytes) && AmountOk(bytes)
    requires FixCapacity(bytes) <= sv.s.rows[i].capacity
    ensures ExpandHandler(sv.s, sv.s.rows[i].id, Some(bytes), env) ==
            (sv.s, Ok(ExpandResponse(sv.s.rows[i].capacity, false)))
  {
    WithinLimitExactly(bytes);
    LiveRowFound(sv.s.rows, sv.used, i);
    assert sv.s.rows[i].id != "" by { assert RowOk(sv.s.rows[i]); }
  }

  /**
    * A successful expand answers the capacity its live row has afterwards, which covers the
    * rounded request; it asks for node expansion if and only if it grew a block volume.
    */
  lemma ExpandAnswersRecord(sv: Server, id: string, bytes: Option<int>, env: ExpandEnv)
    requires Valid(sv) && (bytes.Some? ==> IsInt64(bytes.value)) && ExpandHandler(sv.s, id, bytes, env).1.Ok?
    ensures var (after, reply) := ExpandHandler(sv.s, id, bytes, env);
            exists i :: 0 <= i < |sv.s.rows| && |after.rows| == |sv.s.rows|
              && IsLive(after.rows[i]) && after.rows[i].id == id
              && reply.value.capacityBytes == after.rows[i].capacity
              && after.rows[i].capacity >= FixCapacity(bytes.value)
              && (reply.value.nodeExpansionRequired <==>
                  after.rows[i].isBlock && after.rows[i].capacity > sv.s.rows[i].capacity)
  {
    var i := FindId(sv.s.rows, id).value;
    if FixCapacity(bytes.value) > sv.s.rows[i].capacity {
      GrowingExpandResizes(sv, i, bytes.value, env);
      var after := ExpandHandler(sv.s, id, bytes, env).0;
      assert after.rows[i] == sv.s.rows[i].(capacity := FixCapacity(bytes.value));
    } else {
      assert ExpandHandler(sv.s, id, bytes, env).0 == sv.s;
    }
  }

  /** A growing expand that fails does so with the code for internal errors. */
  lemma ExpandFails(sv: Server, i: nat, bytes: int, env: ExpandEnv)
    requires Valid(sv) && i < |sv.s.rows| && IsLive(sv.s.rows[i]) && IsInt64(bytes) && AmountOk(bytes)
    ensures var reply := ExpandHandler(sv.s, sv.s.rows[i].id, Some(bytes), env).1;
            reply.Err? ==> reply.code == Internal && FixCapacity(bytes) > sv.s.rows[i].capacity
  {
    WithinLimitExactly(bytes);
    LiveRowFound(sv.s.rows, sv.used, i);
    assert sv.s.rows[i].id != "" by { assert RowOk(sv.s.rows[i]); }
  }

  // ---------------------------------------------------------------- publish records

  ghost predicate LiveVolume(rows: seq<Row>, id: string) {
    exists i :: 0 <= i < |rows| && IsLive(rows[i]) && rows[i].id == id
  }

  /** The pair has a live record, with this flag. */
  ghost predicate Recorded(recs: seq<PublishRecord>, volId: string, nodeId: string, readOnly: bool) {
    exists i :: 0 <= i < |recs| && recs[i] == PublishRecord(volId, nodeId, readOnly, false)
  }

  ghost predicate HasRecord(recs: seq<PublishRecord>, volId: string, nodeId: string) {
    Recorded(recs, volId, nodeId, false) || Recorded(recs, volId, nodeId, true)
  }

  lemma FoundRecord(recs: seq<PublishRecord>, volId: string, nodeId: string)
    ensures FindRecord(recs, volId, nodeId).Some? <==> HasRecord(recs, volId, nodeId)
  {
    var found := FindRecord(recs, volId, nodeId);
    if found.Some? {
      var r := recs[found.value];
      assert r == PublishRecord(volId, nodeId, r.readOnly, false);
      assert Recorded(recs, volId, nodeId, r.readOnly);
    } else {
      assert forall i :: 0 <= i < |recs| ==> !Matches(recs[i], volId, nodeId);
    }
  }

  /** With one live record at most, its flag is the found one's. */
  lemma FoundFlag(recs: seq<PublishRecord>, volId: string, nodeId: string, readOnly: bool)
    requires forall i, j :: 0 <= i < j < |recs| && !recs[i].deleted ==>
               !Matches(recs[j], recs[i].volId, recs[i].nodeId)
    requires FindRecord(recs, volId, nodeId).Some?
    ensures var found := FindRecord(recs, volId, nodeId).value;
            recs[found].readOnly == readOnly <==> Recorded(recs, volId, nodeId, readOnly)
  {
    var k := FindRecord(recs, volId, nodeId).value;
    assert recs[k] == PublishRecord(volId, nodeId, recs[k].readOnly, false);
    forall i | 0 <= i < |recs| && recs[i] == PublishRecord(volId, nodeId, readOnly, false) ensures i == k {
      assert Matches(recs[i], volId, nodeId) && Matches(recs[k], volId, nodeId);
    }
  }

  /**
    * A publish is refused for a missing argument, an unknown volume or a node not seen for 30
    * seconds; otherwise it succeeds if and only if the pair is recorded with the same flag, or is
    * not recorded and the record can be written. Only then does it add a record, the asked one.
    */
  lemma PublishExactly(t: Cluster, req: PublishRequest, inserts: bool)
    requires RecordsInv(t)
    ensures var (recs, reply) := PublishHandler(t.w.s.rows, t.nodes, t.recs, req, t.now, inserts);
            var recorded := HasRecord(t.recs, req.volId, req.nodeId);
            && recs == (if reply.Ok? && !recorded then
                          t.recs + [PublishRecord(req.volId, req.nodeId, req.readOnly, false)]
                        else t.recs)
            && reply == (if req.volId == "" || req.nodeId == "" || !req.hasCapability then Err(InvalidArgument)
                         else if !LiveVolume(t.w.s.rows, req.volId) then Err(NotFound)
                         else if req.nodeId !in t.nodes || t.nodes[req.nodeId] < t.now - 30_000 then Err(NotFound)
                         else if recorded then
                           if Recorded(t.recs, req.volId, req.nodeId, req.readOnly) then Ok(()) else Err(AlreadyExists)
                         else if inserts then Ok(()) else Err(Internal))
  {
    FoundRecord(t.recs, req.volId, req.nodeId);
    if FindRecord(t.recs, req.volId, req.nodeId).Some? {
      FoundFlag(t.recs, req.volId, req.nodeId, req.readOnly);
    }
    assert FindId(t.w.s.rows, req.volId).Some? <==> LiveVolume(t.w.s.rows, req.volId);
  }

  /**
    * An unpublish of a live volume succeeds if and only if the records can be written or there is
    * none of the pair; then every record of the pair is deleted, and no other record changes.
    */
  lemma UnpublishExactly(t: Cluster, volId: string, nodeId: string, deletes: bool)
    ensures var (recs, reply) := UnpublishHandler(t.w.s.rows, t.recs, volId, nodeId, deletes);
            && reply == (if volId == "" then Err(InvalidArgument)
                         else if !LiveVolume(t.w.s.rows, volId) then Err(NotFound)
                         else if deletes || !HasRecord(t.recs, volId, nodeId) then Ok(())
                         else Err(Internal))
            && (reply.Ok? ==> !HasRecord(recs, volId, nodeId))
            && (reply.Err? ==> recs == t.recs)
            && |recs| == |t.recs|
            && forall i :: 0 <= i < |recs| && !(t.recs[i].volId == volId && t.recs[i].nodeId == nodeId) ==>
                 recs[i] == t.recs[i]
  {
    var recs := UnpublishHandler(t.w.s.rows, t.recs, volId, nodeId, deletes).0;
    FoundRecord(t.recs, volId, nodeId);
    FoundRecord(recs, volId, nodeId);
    assert FindId(t.w.s.rows, volId).Some? <==> LiveVolume(t.w.s.rows, volId);
  }

  /** The event neither publishes the pair nor deletes row `i`. */
  predicate LeavesPair(e: Event, volId: string, nodeId: string, i: nat) {
    match e
    case Steps(steps) => C(SoftDelete(i)) !in steps
    case Publish(req, _) => req.volId != volId || req.nodeId != nodeId
    case _ => true
  }

  ghost predicate Unpublished(t: Cluster, volId: string, nodeId: string, i: nat) {
    && Inv(t.w) && i < |t.w.s.rows| && IsLive(t.w.s.rows[i]) && t.w.s.rows[i].id == volId
    && FindRecord(t.recs, volId, nodeId).None?
  }

  lemma LeavesPairKeeps(t: Cluster, e: Event, volId: string, nodeId: string, i: nat)
    requires Unpublished(t, volId, nodeId, i) && LeavesPair(e, volId, nodeId, i)
    ensures Unpublished(Happen(t, e), volId, nodeId, i)
  {
    match e
    case Steps(steps) =>
      RunKeeps(t.w, steps);
      RunEvolves(t.w, steps);
      StaysLive(t.w, steps, i);
      assert RowEvolves(t.w.s.rows[i], Run(t.w, steps).s.rows[i]);
    case Publish(req, inserts) => NoneAppended(t, req, inserts, volId, nodeId);
    case Unpublish(v, n, deletes) => NoneDeleted(t, v, n, deletes, volId, nodeId);
    case _ =>
  }

  lemma NoneAppended(t: Cluster, req: PublishRequest, inserts: bool, volId: string, nodeId: string)
    requires FindRecord(t.recs, volId, nodeId).None? && (req.volId != volId || req.nodeId != nodeId)
    ensures FindRecord(Happen(t, Publish(req, inserts)).recs, volId, nodeId).None?
  {
    var recs := Happen(t, Publish(req, inserts)).recs;
    assert forall k :: 0 <= k < |recs| ==> !Matches(recs[k], volId, nodeId);
  }

  lemma NoneDeleted(t: Cluster, v: string, n: string, deletes: bool, volId: string, nodeId: string)
    requires FindRecord(t.recs, volId, nodeId).None?
    ensures FindRecord(Happen(t, Unpublish(v, n, deletes)).recs, volId, nodeId).None?
  {
    var recs := Happen(t, Unpublish(v, n, deletes)).recs;
    assert forall k :: 0 <= k < |recs| ==> !Matches(recs[k], volId, nodeId);
  }

  lemma {:induction false} StaysUnpublished(t: Cluster, es: seq<Event>, volId: string, nodeId: string, i: nat)
    requires Unpublished(t, volId, nodeId, i) && forall e :: e in es ==> LeavesPair(e, volId, nodeId, i)
    ensures Unpublished(HappenAll(t, es), volId, nodeId, i)
    decreases |es|
  {
    if es != [] {
      StaysUnpublished(t, es[..|es| - 1], volId, nodeId, i);
      LeavesPairKeeps(HappenAll(t, es[..|es| - 1]), es[|es| - 1], volId, nodeId, i);
    }
  }

  /**
    * After an unpublish that succeeded, whatever happens next but a publish of the pair or a
    * delete of the volume, the same unpublish succeeds again and changes no record.
    */
  lemma RepeatedUnpublish(
    t: Cluster, es: seq<Event>, volId: string, nodeId: string, deletes: bool, again: bool, i: nat)
    requires Inv(t.w) && i < |t.w.s.rows| && IsLive(t.w.s.rows[i]) && t.w.s.rows[i].id == volId && volId != ""
    requires UnpublishHandler(t.w.s.rows, t.recs, volId, nodeId, deletes).1.Ok?
    requires forall e :: e in es ==> LeavesPair(e, volId, nodeId, i)
    ensures var after := HappenAll(Happen(t, Unpublish(volId, nodeId, deletes)), es);
            UnpublishHandler(after.w.s.rows, after.recs, volId, nodeId, again) == (after.recs, Ok(()))
  {
    var t1 := Happen(t, Unpublish(volId, nodeId, deletes));
    UnpublishLeavesNone(t, volId, nodeId, deletes);
    StaysUnpublished(t1, es, volId, nodeId, i);
    UnpublishedAnswersOk(HappenAll(t1, es), volId, nodeId, i, again);
  }

  lemma UnpublishLeavesNone(t: Cluster, volId: string, nodeId: string, deletes: bool)
    requires UnpublishHandler(t.w.s.rows, t.recs, volId, nodeId, deletes).1.Ok?
    ensures FindRecord(Happen(t, Unpublish(volId, nodeId, deletes)).recs, volId, nodeId).None?
    ensures Happen(t, Unpublish(volId, nodeId, deletes)).w == t.w
  {
    UnpublishExactly(t, volId, nodeId, deletes);
    FoundRecord(Happen(t, Unpublish(volId, nodeId, deletes)).recs, volId, nodeId);
  }

  lemma UnpublishedAnswersOk(t: Cluster, volId: string, nodeId: string, i: nat, deletes: bool)
    requires Unpublished(t, volId, nodeId, i) && volId != ""
    ensures UnpublishHandler(t.w.s.rows, t.recs, volId, nodeId, deletes) == (t.recs, Ok(()))
  {
    assert t.w.s.rows[i].id == volId;
  }

  // ---------------------------------------------------------------- details and listing

  /** What a detail says is what the live row of its id, the tree and the records say. */
  ghost predicate Tells(d: Detail, s: Store, recs: seq<PublishRecord>, bad: set<Path>) {
    exists k :: 0 <= k < |s.rows| && IsLive(s.rows[k]) && TellsRow(d, s.rows[k], s.disk, recs, bad)
  }

  ghost predicate TellsRow(d: Detail, r: Row, disk: Disk, recs: seq<PublishRecord>, bad: set<Path>) {
    && d.volumeId == r.id && d.pv == r.pv && d.pvc == r.pvc && d.ns == r.ns && d.capacity == r.capacity
    && (d.kind == "disk" <==> r.isBlock) && (d.kind == "folder" <==> !r.isBlock)
    && (forall node :: node in d.nodeIds <==> HasRecord(recs, r.id, node))
    && (!d.Abnormal() <==>
        r.path !in bad && r.path in disk && (r.isBlock ==> disk[r.path].File? && disk[r.path].size == r.capacity))
    && (d.condition == SizeDiffers <==>
        r.path !in bad && r.path in disk && r.isBlock && disk[r.path] != File(r.capacity))
  }

  lemma DetailTells(r: Row, disk: Disk, recs: seq<PublishRecord>, bad: set<Path>)
    ensures TellsRow(DetailOf(r, disk, recs, bad), r, disk, recs, bad)
  {
    forall node ensures node in NodeIds(recs, r.id) <==> HasRecord(recs, r.id, node) {
      FoundRecord(recs, r.id, node);
    }
  }

  ghost predicate NoNodeTwice(d: Detail) {
    AllDifferent(d.nodeIds)
  }

  lemma RowTells(t: Cluster, i: nat, bad: set<Path>)
    requires i < |t.w.s.rows| && IsLive(t.w.s.rows[i])
    ensures Tells(DetailOf(t.w.s.rows[i], t.w.s.disk, t.recs, bad), t.w.s, t.recs, bad)
  {
    DetailTells(t.w.s.rows[i], t.w.s.disk, t.recs, bad);
  }

  lemma RunNodesOnce(es: seq<Event>, r: Row, disk: Disk, bad: set<Path>)
    ensures NoNodeTwice(DetailOf(r, disk, HappenAll(PublishRuns.Start(), es).recs, bad))
  {
    var recs := HappenAll(PublishRuns.Start(), es).recs;
    ReportedNodesDistinct(es, r.id);
    assert DetailOf(r, disk, recs, bad).nodeIds == NodeIds(recs, r.id);
  }

  /** In every run the detail of a volume tells what row, tree and records say, and no node twice. */
  lemma RunDetailTells(es: seq<Event>, i: nat, bad: set<Path>)
    requires var s := HappenAll(PublishRuns.Start(), es).w.s; i < |s.rows| && IsLive(s.rows[i])
    ensures var t := HappenAll(PublishRuns.Start(), es); var d := DetailOf(t.w.s.rows[i], t.w.s.disk, t.recs, bad);
            Tells(d, t.w.s, t.recs, bad) && d.volumeId == t.w.s.rows[i].id && NoNodeTwice(d)
  {
    var t := HappenAll(PublishRuns.Start(), es);
    RowTells(t, i, bad);
    RunNodesOnce(es, t.w.s.rows[i], t.w.s.disk, bad);
  }

  /** In every run each entry of each listing tells what row, tree and records say, and no node twice. */
  lemma RunListTells(es: seq<Event>, token: string, maxEntries: int, bad: set<Path>)
    ensures var t := HappenAll(PublishRuns.Start(), es);
            var reply := ListHandler(DetailsOf(LiveRows(t.w.s.rows), t.w.s.disk, t.recs, bad), token, maxEntries);
            reply.Ok? ==> forall n :: 0 <= n < |reply.value.entries| ==>
              Tells(reply.value.entries[n], t.w.s, t.recs, bad) && NoNodeTwice(reply.value.entries[n])
  {
    var t := HappenAll(PublishRuns.Start(), es);
    var details := DetailsOf(LiveRows(t.w.s.rows), t.w.s.disk, t.recs, bad);
    var reply := ListHandler(details, token, maxEntries);
    if reply.Ok? {
      forall n | 0 <= n < |reply.value.entries|
        ensures Tells(reply.value.entries[n], t.w.s, t.recs, bad) && NoNodeTwice(reply.value.entries[n])
      {
        EntryIsDetail(es, reply.value.entries[n], bad, token, maxEntries, n);
      }
    }
  }

  lemma EntryIsDetail(es: seq<Event>, d: Detail, bad: set<Path>, token: string, maxEntries: int, n: nat)
    requires var t := HappenAll(PublishRuns.Start(), es);
             var reply := ListHandler(DetailsOf(LiveRows(t.w.s.rows), t.w.s.disk, t.recs, bad), token, maxEntries);
             reply.Ok? && n < |reply.value.entries| && d == reply.value.entries[n]
    ensures var t := HappenAll(PublishRuns.Start(), es); Tells(d, t.w.s, t.recs, bad) && NoNodeTwice(d)
  {
    var t := HappenAll(PublishRuns.Start(), es);
    var rows := LiveRows(t.w.s.rows);
    var details := DetailsOf(rows, t.w.s.disk, t.recs, bad);
    var k :| 0 <= k < |details| && details[k] == d;
    assert rows[k] in t.w.s.rows && IsLive(rows[k]);
    var i :| 0 <= i < |t.w.s.rows| && t.w.s.rows[i] == rows[k];
    RunDetailTells(es, i, bad);
  }

  /** Where a listing starts. */
  function Clamped(asked: int, n: nat): nat {
    if asked < 0 then 0 else if asked > n then n else asked
  }

  lemma PageExactly<T>(l: seq<T>, offset: int, limit: int)
    ensures var start := Clamped(offset, |l|);
            var size := if 0 < limit < |l| - start then limit else |l| - start;
            |Page(l, offset, limit)| == size && forall n :: 0 <= n < size ==> Page(l, offset, limit)[n] == l[start + n]
  {
  }

  /**
    * The entries of one list call, for every token and maximum: an unreadable token is refused;
    * otherwise they are those from the token's place on, all of them or as many as asked for.
    */
  lemma ListExactly<T>(l: seq<T>, token: string, maxEntries: int)
    requires |l| <= INT32_MAX && maxEntries <= INT32_MAX
    ensures var reply := ListHandler(l, token, maxEntries);
            if token != "" && ParseInt32(token).None? then reply == Err(Aborted)
            else
              var start := Clamped(if token == "" then 0 else ParseInt32(token).value, |l|);
              var size := if 0 < maxEntries < |l| - start then maxEntries else |l| - start;
              && reply.Ok? && |reply.value.entries| == size
              && forall n :: 0 <= n < size ==> reply.value.entries[n] == l[start + n]
  {
    if StartOf(token).Some? {
      PageExactly(l, StartOf(token).value, if maxEntries == 0 then INT32_MAX else maxEntries);
    }
  }

  /**
    * A token for the rest comes only with a maximum, and then if and only if volumes are left; it
    * names their place. Only for a place of minus one, which no answer names, it does not come.
    */
  lemma ListTokenExactly<T>(l: seq<T>, token: string, maxEntries: int)
    requires |l| <= INT32_MAX && 0 <= maxEntries <= INT32_MAX && ListHandler(l, token, maxEntries).Ok?
    ensures var next := ListHandler(l, token, maxEntries).value.next;
            var asked := if token == "" then 0 else ParseInt32(token).value;
            && (next != "" <==> 0 < maxEntries < INT32_MAX && asked + maxEntries < |l| && asked + maxEntries != -1)
            && (next != "" ==> ParseInt32(next) == Some(asked + maxEntries))
  {
    var start := StartOf(token).value;
    if start + maxEntries < |l| {
      TokenRoundTrip(start + maxEntries);
    }
  }

  /** A rebuild that cannot empty the directory answers an error, adds no link and makes none point elsewhere. */
  lemma RebuildStops(s: Store, env: RebuildEnv)
    ensures !env.drops ==>
              && !RebuildOk(s.rows, env)
              && forall key :: key in RebuildSpec(s, env).links ==>
                   key in s.links && RebuildSpec(s, env).links[key] == s.links[key]
    ensures env.drops && (forall i :: 0 <= i < |s.rows| ==> !IsLive(s.rows[i])) ==>
              RebuildOk(s.rows, env) && RebuildSpec(s, env).links == map[]
  {
    if LiveRows(s.rows) != [] { assert LiveRows(s.rows)[0] in s.rows; }
  }
}
