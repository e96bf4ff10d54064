/**
  * The controller's request handlers as functions of the store, and their meaning as runs of
  * the step machine: what holds of every interleaving of steps holds of every handler.
  */
module Handlers {
  import opened Prelude
  import opened Capacity
  import opened Catalogue
  import opened StepMachine
  import opened Invariants
  import opened Volumes

  // ---------------------------------------------------------------- requests

  datatype Access = Block | Mount | Unset

  datatype Mode = SingleNodeWriter | OtherMode

  datatype Capability = Capability(access: Access, mode: Mode)

  const TYPE_PARAMETER := "sharedhostpath.csi.k8s.io/type"
  const FS_TYPE_PARAMETER := "sharedhostpath.csi.k8s.io/fsType"
  const PVC_NAME_KEY := "csi.storage.k8s.io/pvc/name"
  const PVC_NAMESPACE_KEY := "csi.storage.k8s.io/pvc/namespace"
  const PV_NAME_KEY := "csi.storage.k8s.io/pv/name"

  datatype CreateRequest = CreateRequest(
    name: string, caps: Option<seq<Capability>>, params: map<string, string>, requiredBytes: int)

  datatype CreateResponse = CreateResponse(volumeId: string, capacityBytes: int, context: map<string, string>)

  datatype ExpandResponse = ExpandResponse(capacityBytes: int, nodeExpansionRequired: bool)

  predicate HasBlock(caps: seq<Capability>) {
    exists i :: 0 <= i < |caps| && caps[i].access.Block?
  }

  predicate HasMount(caps: seq<Capability>) {
    exists i :: 0 <= i < |caps| && caps[i].access.Mount?
  }

  predicate SingleWriterOnly(caps: seq<Capability>) {
    forall i :: 0 <= i < |caps| ==> caps[i].mode.SingleNodeWriter?
  }

  /** The checks a create makes before it looks at any volume; the value is the block flag. */
  function Admit(req: CreateRequest): Reply<bool> {
    if req.name == "" || req.caps.None? then Err(InvalidArgument)
    else
      var caps := req.caps.value;
      if HasBlock(caps) && HasMount(caps) then Err(InvalidArgument)
      else if TYPE_PARAMETER !in req.params then Err(InvalidArgument)
      else if req.params[TYPE_PARAMETER] == "folder" && HasBlock(caps) then Err(InvalidArgument)
      else if !WithinLimit(req.requiredBytes) then Err(OutOfRange)
      else
        var isBlock := HasBlock(caps) || req.params[TYPE_PARAMETER] == "disk";
        if isBlock && !SingleWriterOnly(caps) then Err(InvalidArgument) else Ok(isBlock)
  }

  predicate IsUuid(id: string) {
    |id| == 36 && forall i :: 0 <= i < 36 ==>
      if i in {8, 13, 18, 23} then id[i] == '-' else IdChar(id[i]) && id[i] != '-'
  }

  // ---------------------------------------------------------------- the handlers

  function Created(id: string, req: CreateRequest): Reply<CreateResponse> {
    Ok(CreateResponse(id, req.requiredBytes, req.params))
  }

  /** The row a create of a new volume makes, once the names are there. */
  function NewRow(req: CreateRequest, id: string, isBlock: bool): Row
    requires |id| >= 6 && PVC_NAMESPACE_KEY in req.params && PV_NAME_KEY in req.params && PVC_NAME_KEY in req.params
  {
    Row(id, req.name, req.params[PV_NAME_KEY], req.params[PVC_NAME_KEY], req.params[PVC_NAMESPACE_KEY],
        FixCapacity(req.requiredBytes), isBlock, ShardPath(id), false)
  }

  predicate HasNames(req: CreateRequest) {
    PVC_NAMESPACE_KEY in req.params && PV_NAME_KEY in req.params && PVC_NAME_KEY in req.params
  }

  /** `CreateVolume` of the controller; `uuid` is the drawn id, if one can be drawn. */
  function CreateHandler(s: Store, req: CreateRequest, uuid: Option<string>, env: CreateEnv)
    : (Store, Reply<CreateResponse>)
    requires uuid.Some? ==> |uuid.value| >= 6
  {
    var admitted := Admit(req);
    if admitted.Err? then (s, Err(admitted.code))
    else
      var named := FindName(s.rows, req.name);
      if named.Some? then
        var found := FindId(s.rows, s.rows[named.value].id);
        if found.None? then (s, Err(Internal)) else
        var vol := s.rows[found.value];
        var p := Populate(s.disk, vol, env.fills);
        (s.(disk := p.disk),
         if !p.ok then Err(Internal)
         else if p.filled || (vol.capacity == FixCapacity(req.requiredBytes) && vol.isBlock == admitted.value) then
           Created(vol.id, req)
         else Err(AlreadyExists))
      else if !HasNames(req) then (s, Err(InvalidArgument))
      else if uuid.None? then (s, Err(Internal))
      else
        var (after, ok) := CreateSpec(s, NewRow(req, uuid.value, admitted.value), env);
        (after, if ok then Created(uuid.value, req) else Err(Internal))
  }

  function DeleteHandler(s: Store, id: string, env: DeleteEnv): (Store, Reply<()>) {
    if id == "" then (s, Err(InvalidArgument))
    else
      var i := FindId(s.rows, id);
      if i.None? then (s, Ok(()))
      else
        var (after, ok) := DeleteSpec(s, i.value, env);
        (after, if ok then Ok(()) else Err(Internal))
  }

  /** `requiredBytes` is None when the request has no capacity range. */
  function ExpandHandler(s: Store, id: string, requiredBytes: Option<int>, env: ExpandEnv)
    : (Store, Reply<ExpandResponse>) {
    if id == "" || requiredBytes.None? then (s, Err(InvalidArgument))
    else if !WithinLimit(requiredBytes.value) then (s, Err(OutOfRange))
    else
      var i := FindId(s.rows, id);
      if i.None? then (s, Err(NotFound))
      else
        var vol, capacity := s.rows[i.value], FixCapacity(requiredBytes.value);
        if capacity <= vol.capacity then (s, Ok(ExpandResponse(vol.capacity, false)))
        else
          var (after, ok) := ExpandSpec(s, vol, capacity, env);
          (after, if ok then Ok(ExpandResponse(capacity, vol.isBlock)) else Err(Internal))
  }

  datatype Op =
    | Create(req: CreateRequest, uuid: Option<string>, cenv: CreateEnv)
    | Delete(id: string, denv: DeleteEnv)
    | Expand(eid: string, requiredBytes: Option<int>, eenv: ExpandEnv)

  /** The catalogue between two requests, with the ids drawn so far. */
  datatype Server = Server(s: Store, used: set<string>)

  function AsWorld(sv: Server, job: Job): World {
    World(sv.s, sv.used, Idle, job)
  }

  /** Whether a create gets as far as drawing an id. */
  predicate Draws(s: Store, req: CreateRequest, uuid: Option<string>) {
    Admit(req).Ok? && FindName(s.rows, req.name).None? && HasNames(req) && uuid.Some?
  }

  /**
    * What keeping the invariant asks of a request: amounts are 64-bit, and when an id is drawn
    * it is new and the rounding of the amount does not overflow.
    */
  predicate Proper(sv: Server, op: Op) {
    match op
    case Create(req, uuid, _) =>
      && (uuid.Some? ==> IsUuid(uuid.value))
      && (Draws(sv.s, req, uuid) ==> uuid.value !in sv.used && req.requiredBytes <= MAX_REQUEST)
    case Delete(_, _) => true
    case Expand(_, bytes, _) => bytes.Some? ==> IsInt64(bytes.value)
  }

  function Serve(sv: Server, op: Op): Server
    requires op.Create? && op.uuid.Some? ==> |op.uuid.value| >= 6
  {
    match op
    case Create(req, uuid, env) =>
      Server(CreateHandler(sv.s, req, uuid, env).0, if Draws(sv.s, req, uuid) then sv.used + {uuid.value} else sv.used)
    case Delete(id, env) => sv.(s := DeleteHandler(sv.s, id, env).0)
    case Expand(id, bytes, env) => sv.(s := ExpandHandler(sv.s, id, bytes, env).0)
  }

  // ---------------------------------------------------------------- handlers are runs

  function CreateTrace(row: Row, env: CreateEnv): seq<Step> {
    if env.shards < 3 || !env.inserts then [C(Refuse(row.id, env.shards))]
    else if !env.fills then [C(Begin(row)), C(Fill(false))]
    else if env.commits then [C(Begin(row)), C(Fill(true)), C(MakeLink(env.links)), C(Commit)]
    else [C(Begin(row)), C(Fill(true)), C(MakeLink(env.links)), C(CommitFails),
          C(UndoRemove(env.stuck)), C(UndoRemoved), C(UndoUnlink(env.unlinks))]
  }

  function DeleteTrace(i: nat, env: DeleteEnv): seq<Step> {
    [C(SoftDelete(i)), C(DropLink(env.unlinks)), C(DeleteRemove(env.stuck)), C(DeleteRemoved)]
  }

  function ExpandTrace(i: nat, capacity: int, env: ExpandEnv): seq<Step> {
    if env.updates then [C(Grow(i, capacity)), C(CheckSize(env.stats)), C(Resize(env.dd))] else []
  }

  /** The steps a request takes. */
  function Trace(sv: Server, op: Op): seq<Step>
    requires op.Create? && op.uuid.Some? ==> |op.uuid.value| >= 6
  {
    match op
    case Create(req, uuid, env) =>
      if Admit(req).Err? then []
      else
        var named := FindName(sv.s.rows, req.name);
        if named.Some? then [C(Refill(named.value, env.fills))]
        else if Draws(sv.s, req, uuid) then CreateTrace(NewRow(req, uuid.value, Admit(req).value), env)
        else []
    case Delete(id, env) =>
      var i := FindId(sv.s.rows, id);
      if id == "" || i.None? then [] else DeleteTrace(i.value, env)
    case Expand(id, bytes, env) =>
      var i := FindId(sv.s.rows, id);
      if id == "" || bytes.None? || !WithinLimit(bytes.value) || i.None?
         || FixCapacity(bytes.value) <= sv.s.rows[i.value].capacity then []
      else ExpandTrace(i.value, FixCapacity(bytes.value), env)
  }

  lemma CreateIsRun(w: World, row: Row, env: CreateEnv)
    requires Inv(w) && w.ctl.Idle?
    requires RowOk(row) && IsLive(row) && row.id !in w.used && FindName(w.s.rows, row.name).None?
    ensures Run(w, CreateTrace(row, env)) == w.(s := CreateSpec(w.s, row, env).0, used := w.used + {row.id})
  {
    FreshDoesNotClash(w, row);
    var disk := MakeShards(w.s.disk, row.id, 3);
    if env.shards < 3 || !env.inserts {
      Run1(w, C(Refuse(row.id, env.shards)));
    } else if !env.fills {
      Run2(w, C(Begin(row)), C(Fill(false)));
      assert MakeShards(w.s.disk, row.id, env.shards) == disk;
    } else {
      CreateFillsIsRun(w, row, env);
    }
  }

  lemma FreshDoesNotClash(w: World, row: Row)
    requires Inv(w) && RowOk(row) && row.id !in w.used
    ensures !Clashes(w.s.rows, row)
  {
    forall i | 0 <= i < |w.s.rows|
      ensures w.s.rows[i].id != row.id && w.s.rows[i].path != row.path
    {
      assert RowOk(w.s.rows[i]) && w.s.rows[i].id in w.used;
      assert w.s.rows[i].path[3] == w.s.rows[i].id && row.path[3] == row.id;
    }
  }

  /** The first three steps of a create that populates. */
  lemma LinkedByRun(w: World, row: Row, links: bool)
    requires Inv(w) && w.ctl.Idle?
    requires RowOk(row) && IsLive(row) && row.id !in w.used && FindName(w.s.rows, row.name).None?
    ensures LinkedBy(w, row, links)
  {
    Run3(w, C(Begin(row)), C(Fill(true)), C(MakeLink(links)));
    MakeShardsKeeps(w.s.disk, w.used, row.id, 3);
    PopulateAt(MakeShards(w.s.disk, row.id, 3), row, true);
  }

  lemma CreateFillsIsRun(w: World, row: Row, env: CreateEnv)
    requires Inv(w) && w.ctl.Idle? && env.shards >= 3 && env.inserts && env.fills && !Clashes(w.s.rows, row)
    requires RowOk(row) && IsLive(row) && row.id !in w.used && FindName(w.s.rows, row.name).None?
    ensures Run(w, CreateTrace(row, env)) == w.(s := CreateSpec(w.s, row, env).0, used := w.used + {row.id})
  {
    LinkedByRun(w, row, env.links);
    if env.commits { CreateCommits(w, row, env); } else { CreateUndoes(w, row, env); }
  }

  /** The three steps before the commit, and the state they lead to. */
  ghost predicate LinkedBy(w: World, row: Row, links: bool)
    requires |row.id| >= 6
  {
    var p := Populate(MakeShards(w.s.disk, row.id, 3), row, true);
    p.ok && Run(w, [C(Begin(row)), C(Fill(true)), C(MakeLink(links))]) ==
    World(Store(w.s.rows, p.disk, Symlink(w.s.links, row.Key(), row.path, links)),
          w.used + {row.id}, Linked(row), w.job)
  }

  lemma CreateCommits(w: World, row: Row, env: CreateEnv)
    requires |row.id| >= 6 && w.ctl.Idle? && env.shards >= 3 && env.inserts && env.fills && env.commits
    requires !Clashes(w.s.rows, row)
    requires LinkedBy(w, row, env.links)
    ensures Run(w, CreateTrace(row, env)) == w.(s := CreateSpec(w.s, row, env).0, used := w.used + {row.id})
  {
    assert MakeShards(w.s.disk, row.id, env.shards) == MakeShards(w.s.disk, row.id, 3);
    var front := [C(Begin(row)), C(Fill(true)), C(MakeLink(env.links))];
    assert CreateTrace(row, env) == front + [C(Commit)];
    RunSnoc(w, front, C(Commit));
  }

  lemma CreateUndoes(w: World, row: Row, env: CreateEnv)
    requires |row.id| >= 6 && w.ctl.Idle? && env.shards >= 3 && env.inserts && env.fills && !env.commits
    requires !Clashes(w.s.rows, row)
    requires LinkedBy(w, row, env.links)
    ensures Run(w, CreateTrace(row, env)) == w.(s := CreateSpec(w.s, row, env).0, used := w.used + {row.id})
  {
    assert MakeShards(w.s.disk, row.id, env.shards) == MakeShards(w.s.disk, row.id, 3);
    var front := [C(Begin(row)), C(Fill(true)), C(MakeLink(env.links))];
    var back := [C(CommitFails), C(UndoRemove(env.stuck)), C(UndoRemoved), C(UndoUnlink(env.unlinks))];
    assert CreateTrace(row, env) == front + back;
    RunAppend(w, front, back);
    UndoIsRun(Run(w, front), row, env);
  }

  lemma UndoIsRun(w: World, row: Row, env: CreateEnv)
    requires w.ctl == Linked(row)
    ensures Run(w, [C(CommitFails), C(UndoRemove(env.stuck)), C(UndoRemoved), C(UndoUnlink(env.unlinks))]) ==
            w.(s := w.s.(disk := RemoveAll(w.s.disk, row.path, env.stuck),
                         links := Unlink(w.s.links, row.Key(), env.unlinks)),
               ctl := Idle)
  {
    Run4(w, C(CommitFails), C(UndoRemove(env.stuck)), C(UndoRemoved), C(UndoUnlink(env.unlinks)));
  }

  lemma DeletedAndUnlinked(w: World, i: nat, unlinks: bool)
    requires w.ctl.Idle? && i < |w.s.rows| && IsLive(w.s.rows[i])
    ensures var r := w.s.rows[i];
            Apply(Apply(w, C(SoftDelete(i))), C(DropLink(unlinks))) ==
            w.(s := w.s.(rows := SoftDeleted(w.s.rows, i), links := Unlink(w.s.links, r.Key(), unlinks)),
               ctl := Unlinked(i))
  {
    assert SoftDeleted(w.s.rows, i)[i].Key() == w.s.rows[i].Key();
  }

  lemma DataRemoved(w: World, i: nat, stuck: set<Path>)
    requires w.ctl == Unlinked(i) && i < |w.s.rows|
    ensures Apply(Apply(w, C(DeleteRemove(stuck))), C(DeleteRemoved)) ==
            w.(s := w.s.(disk := RemoveAll(w.s.disk, w.s.rows[i].path, stuck)), ctl := Idle)
  {
  }

  lemma DeleteIsRun(w: World, i: nat, env: DeleteEnv)
    requires w.ctl.Idle? && i < |w.s.rows| && IsLive(w.s.rows[i])
    ensures Run(w, DeleteTrace(i, env)) == w.(s := DeleteSpec(w.s, i, env).0)
  {
    Run4(w, C(SoftDelete(i)), C(DropLink(env.unlinks)), C(DeleteRemove(env.stuck)), C(DeleteRemoved));
    DeletedAndUnlinked(w, i, env.unlinks);
    DataRemoved(Apply(Apply(w, C(SoftDelete(i))), C(DropLink(env.unlinks))), i, env.stuck);
    assert SoftDeleted(w.s.rows, i)[i].path == w.s.rows[i].path;
  }

  lemma ExpandIsRun(w: World, i: nat, capacity: int, env: ExpandEnv)
    requires w.ctl.Idle? && i < |w.s.rows| && IsLive(w.s.rows[i]) && FindId(w.s.rows, w.s.rows[i].id) == Some(i)
    requires |w.s.rows[i].path| == 4
    requires CapacityOk(capacity) && w.s.rows[i].capacity < capacity
    ensures Run(w, ExpandTrace(i, capacity, env)) == w.(s := ExpandSpec(w.s, w.s.rows[i], capacity, env).0)
  {
    if env.updates {
      GrowMoves(w, i, capacity);
      Run3(w, C(Grow(i, capacity)), C(CheckSize(env.stats)), C(Resize(env.dd)));
      var w1 := Apply(w, C(Grow(i, capacity)));
      if w.s.rows[i].isBlock {
        BlockExpandIsRun(w1, i, env);
      } else {
        IdleSkips(w1, env);
      }
    }
  }

  lemma IdleSkips(w: World, env: ExpandEnv)
    requires w.ctl.Idle?
    ensures Apply(Apply(w, C(CheckSize(env.stats))), C(Resize(env.dd))) == w
  {
  }

  lemma BlockExpandIsRun(w: World, i: nat, env: ExpandEnv)
    requires w.ctl.Grown? && w.ctl.i == i && i < |w.s.rows| && |w.s.rows[i].path| == 4
    ensures var r := w.s.rows[i];
            Apply(Apply(w, C(CheckSize(env.stats))), C(Resize(env.dd))) ==
            if env.stats && env.dd && r.path in w.s.disk && w.s.disk[r.path] == File(w.ctl.oldCapacity)
               && r.path[..3] in w.s.disk then
              w.(s := w.s.(disk := w.s.disk[r.path := File(r.capacity)]), ctl := Idle)
            else w.(ctl := Idle)
  {
  }

  lemma RefillIsRun(sv: Server, req: CreateRequest, uuid: Option<string>, env: CreateEnv, job: Job, i: nat)
    requires uuid.Some? ==> |uuid.value| >= 6
    requires Admit(req).Ok? && FindName(sv.s.rows, req.name) == Some(i)
    requires FindId(sv.s.rows, sv.s.rows[i].id) == Some(i)
    ensures Run(AsWorld(sv, job), Trace(sv, Create(req, uuid, env))) == AsWorld(Serve(sv, Create(req, uuid, env)), job)
  {
    Run1(AsWorld(sv, job), C(Refill(i, env.fills)));
    assert Trace(sv, Create(req, uuid, env)) == [C(Refill(i, env.fills))];
  }

  lemma NewIsRun(sv: Server, req: CreateRequest, uuid: Option<string>, env: CreateEnv, job: Job)
    requires Inv(AsWorld(sv, job)) && Proper(sv, Create(req, uuid, env)) && Draws(sv.s, req, uuid)
    ensures Run(AsWorld(sv, job), Trace(sv, Create(req, uuid, env))) == AsWorld(Serve(sv, Create(req, uuid, env)), job)
  {
    UuidIsValid(uuid.value);
    var row := NewRow(req, uuid.value, Admit(req).value);
    assert RowOk(row) by { AcceptedCapacityOk(req.requiredBytes); }
    CreateIsRun(AsWorld(sv, job), row, env);
    assert Trace(sv, Create(req, uuid, env)) == CreateTrace(row, env);
  }

  lemma CreateServedIsRun(sv: Server, req: CreateRequest, uuid: Option<string>, env: CreateEnv, job: Job)
    requires Inv(AsWorld(sv, job)) && Proper(sv, Create(req, uuid, env))
    ensures Run(AsWorld(sv, job), Trace(sv, Create(req, uuid, env))) == AsWorld(Serve(sv, Create(req, uuid, env)), job)
  {
    if Admit(req).Ok? && FindName(sv.s.rows, req.name).Some? {
      var i := FindName(sv.s.rows, req.name).value;
      NamedRowById(AsWorld(sv, job), i);
      RefillIsRun(sv, req, uuid, env, job, i);
    } else if Draws(sv.s, req, uuid) {
      NewIsRun(sv, req, uuid, env, job);
    }
  }

  /** An amount whose rounding overflows never grows a volume. */
  lemma GrowingAmount(r: Row, bytes: int)
    requires RowOk(r) && IsInt64(bytes) && FixCapacity(bytes) > r.capacity
    ensures bytes <= MAX_REQUEST
  {
    if bytes > MAX_REQUEST { FixCapacityOverflow(bytes); }
  }

  lemma ExpandServedIsRun(sv: Server, id: string, bytes: Option<int>, env: ExpandEnv, job: Job)
    requires Inv(AsWorld(sv, job)) && Proper(sv, Expand(id, bytes, env))
    ensures Run(AsWorld(sv, job), Trace(sv, Expand(id, bytes, env))) == AsWorld(Serve(sv, Expand(id, bytes, env)), job)
  {
    var i := FindId(sv.s.rows, id);
    if id != "" && bytes.Some? && WithinLimit(bytes.value) && i.Some?
       && FixCapacity(bytes.value) > sv.s.rows[i.value].capacity
    {
      GrowingAmount(sv.s.rows[i.value], bytes.value);
      AcceptedCapacityOk(bytes.value);
      NamedRowById(AsWorld(sv, job), i.value);
      ExpandIsRun(AsWorld(sv, job), i.value, FixCapacity(bytes.value), env);
    }
  }

  lemma DeleteServedIsRun(sv: Server, id: string, env: DeleteEnv, job: Job)
    ensures Run(AsWorld(sv, job), Trace(sv, Delete(id, env))) == AsWorld(Serve(sv, Delete(id, env)), job)
  {
    var i := FindId(sv.s.rows, id);
    if id != "" && i.Some? { DeleteIsRun(AsWorld(sv, job), i.value, env); }
  }

  /** Every request is a run of the step machine, whatever the job is doing meanwhile. */
  lemma ServeIsRun(sv: Server, op: Op, job: Job)
    requires Inv(AsWorld(sv, job)) && Proper(sv, op)
    ensures Run(AsWorld(sv, job), Trace(sv, op)) == AsWorld(Serve(sv, op), job)
  {
    match op
    case Create(req, uuid, env) => CreateServedIsRun(sv, req, uuid, env, job);
    case Delete(id, env) => DeleteServedIsRun(sv, id, env, job);
    case Expand(id, bytes, env) => ExpandServedIsRun(sv, id, bytes, env, job);
  }

  lemma NamedRowById(w: World, i: nat)
    requires Inv(w) && i < |w.s.rows| && IsLive(w.s.rows[i])
    ensures FindId(w.s.rows, w.s.rows[i].id) == Some(i) && |w.s.rows[i].path| == 4
  {
    LiveRowFound(w.s.rows, w.used, i);
  }

  lemma UuidIsValid(id: string)
    requires IsUuid(id)
    ensures ValidId(id)
  {
  }

  ghost predicate Valid(sv: Server) {
    Inv(AsWorld(sv, Resting))
  }

  /**
    * Where the bound on a create's amount comes from: a create that draws a new id and answers
    * Ok leaves the server valid if and only if the rounding of its amount does not overflow.
    */
  lemma NewVolumeValidExactly(sv: Server, req: CreateRequest, uuid: Option<string>, env: CreateEnv)
    requires Valid(sv) && Draws(sv.s, req, uuid) && IsUuid(uuid.value) && uuid.value !in sv.used
    requires IsInt64(req.requiredBytes)
    requires CreateHandler(sv.s, req, uuid, env).1.Ok?
    ensures Valid(Serve(sv, Create(req, uuid, env))) <==> req.requiredBytes <= MAX_REQUEST
  {
    var op := Create(req, uuid, env);
    if req.requiredBytes <= MAX_REQUEST {
      ServeKeepsValid(sv, op);
    } else {
      FixCapacityOverflow(req.requiredBytes);
      var after := Serve(sv, op).s;
      assert after.rows == sv.s.rows + [NewRow(req, uuid.value, Admit(req).value)];
      assert !RowOk(after.rows[|sv.s.rows|]);
    }
  }

  /** Every request keeps the server valid. */
  lemma ServeKeepsValid(sv: Server, op: Op)
    requires Valid(sv) && Proper(sv, op)
    ensures Valid(Serve(sv, op))
  {
    ServeIsRun(sv, op, Resting);
    RunKeeps(AsWorld(sv, Resting), Trace(sv, op));
  }
}
