/** The controller server: the request handlers over the volume helper, one at a time under its mutex. */
module Controller {
  import opened Prelude
  import opened Capacity
  import opened Catalogue
  import opened StepMachine
  import opened Invariants
  import opened Records
  import opened Volumes
  import opened Handlers
  import opened Tokens
  import opened Paging

  class ControllerServer {
    const vh: VolumeHelper
    ghost var used: set<string>    // the ids drawn so far

    ghost function AsServer(): Server
      reads this, vh
    {
      Server(vh.Store(), used)
    }

    /** What holds between two requests, and whatever the clean-up job has done meanwhile. */
    ghost predicate Valid()
      reads this, vh
    {
      Handlers.Valid(AsServer())
    }

    constructor (helper: VolumeHelper)
      requires helper.Store() == Init().s
      ensures vh == helper && used == {} && Valid()
    {
      vh := helper;
      used := {};
      new;
      assert RowsInv(vh.Store().rows, {});
    }

    /** The two access-type flags and the running block flag of the capability loop. */
    static method ScanCapabilities(caps: seq<Capability>) returns (block: bool, mount: bool, isBlock: bool)
      ensures block == HasBlock(caps) && mount == HasMount(caps)
      ensures !(block && mount) ==> isBlock == block
    {
      block, mount, isBlock := false, false, false;
      for n := 0 to |caps|
        invariant block == HasBlock(caps[..n]) && mount == HasMount(caps[..n])
        invariant !(block && mount) ==> isBlock == block
      {
        if caps[n].access.Block? {
          block, isBlock := true, true;
        }
        if caps[n].access.Mount? {
          mount, isBlock := true, false;
        }
        assert caps[..n + 1] == caps[..n] + [caps[n]];
        assert caps[..n + 1][n] == caps[n];
        assert forall i :: 0 <= i < n ==> caps[..n + 1][i] == caps[..n][i];
      }
      assert caps[..|caps|] == caps;
    }

    /** The access-mode loop over the capabilities of a block volume. */
    static method CheckModes(caps: seq<Capability>) returns (ok: bool)
      ensures ok == SingleWriterOnly(caps)
    {
      for n := 0 to |caps|
        invariant SingleWriterOnly(caps[..n])
      {
        if caps[n].mode != SingleNodeWriter {
          return false;
        }
        assert forall i :: 0 <= i < n ==> caps[..n + 1][i] == caps[..n][i];
      }
      assert caps[..|caps|] == caps;
      return true;
    }

    method Validate(req: CreateRequest) returns (r: Reply<bool>)
      ensures r == Admit(req)
    {
      if req.name == "" || req.caps.None? {
        return Err(InvalidArgument);
      }
      var caps := req.caps.value;
      var block, mount, isBlock := ScanCapabilities(caps);
      if block && mount {
        return Err(InvalidArgument);
      }
      if TYPE_PARAMETER !in req.params {
        return Err(InvalidArgument);
      }
      var vtype := req.params[TYPE_PARAMETER];
      if vtype == "disk" {
        isBlock := true;
      }
      if vtype == "folder" && block {
        return Err(InvalidArgument);
      }
      if FixCapacity(req.requiredBytes) >= MAX_STORAGE_CAPACITY {
        return Err(OutOfRange);
      }
      if isBlock {
        var single := CheckModes(caps);
        if !single {
          return Err(InvalidArgument);
        }
      }
      return Ok(isBlock);
    }

    /** `uuid` is the id `uuid.NewRandom` gives, if it works. */
    method CreateVolume(req: CreateRequest, uuid: Option<string>, env: CreateEnv) returns (reply: Reply<CreateResponse>)
      requires uuid.Some? ==> IsUuid(uuid.value)
      modifies vh`rows, vh`disk, vh`links, this`used
      ensures (vh.Store(), reply) == CreateHandler(old(vh.Store()), req, uuid, env)
      ensures AsServer() == Serve(old(AsServer()), Op.Create(req, uuid, env))
      ensures old(Valid()) && Proper(old(AsServer()), Op.Create(req, uuid, env)) ==> Valid()
    {
      ghost var before := AsServer();
      var admitted := Validate(req);
      if admitted.Err? {
        return Err(admitted.code);
      }
      var isBlock, capacity := admitted.value, FixCapacity(req.requiredBytes);
      var volid := vh.GetVolumeIdByName(req.name);
      if volid.Some? {
        var vol := vh.GetVolume(volid.value);
        if vol.None? {
          return Err(Internal);
        }
        var filled, ok := vh.PopulateVolumeIfRequired(vol.value, env.fills);
        if !ok {
          reply := Err(Internal);
        } else if filled || (vol.value.capacity == capacity && vol.value.isBlock == isBlock) {
          reply := Created(vol.value.id, req);
        } else {
          reply := Err(AlreadyExists);
        }
      } else if PVC_NAMESPACE_KEY !in req.params || PV_NAME_KEY !in req.params || PVC_NAME_KEY !in req.params {
        reply := Err(InvalidArgument);
      } else if uuid.None? {
        reply := Err(Internal);
      } else {
        used := used + {uuid.value};
        var vol := vh.CreateVolume(uuid.value, req.name, req.params[PV_NAME_KEY], req.params[PVC_NAME_KEY],
                                   req.params[PVC_NAMESPACE_KEY], capacity, isBlock, env);
        reply := if vol.Some? then Created(vol.value.id, req) else Err(Internal);
      }
      Kept(before, Op.Create(req, uuid, env));
    }

    method DeleteVolume(id: string, env: DeleteEnv) returns (reply: Reply<()>)
      modifies vh`rows, vh`disk, vh`links
      ensures (vh.Store(), reply) == DeleteHandler(old(vh.Store()), id, env)
      ensures AsServer() == Serve(old(AsServer()), Op.Delete(id, env))
      ensures old(Valid()) ==> Valid()
    {
      ghost var before := AsServer();
      if id == "" {
        return Err(InvalidArgument);
      }
      var vol := vh.GetVolume(id);
      if vol.None? {
        return Ok(());
      }
      var ok := vh.DeleteVolume(id, env);
      reply := if ok then Ok(()) else Err(Internal);
      Kept(before, Op.Delete(id, env));
    }

    method ControllerExpandVolume(id: string, requiredBytes: Option<int>, env: ExpandEnv)
      returns (reply: Reply<ExpandResponse>)
      modifies vh`rows, vh`disk, vh`links
      ensures (vh.Store(), reply) == ExpandHandler(old(vh.Store()), id, requiredBytes, env)
      ensures AsServer() == Serve(old(AsServer()), Op.Expand(id, requiredBytes, env))
      ensures old(Valid()) && (requiredBytes.Some? ==> IsInt64(requiredBytes.value)) ==> Valid()
    {
      ghost var before := AsServer();
      if id == "" || requiredBytes.None? {
        return Err(InvalidArgument);
      }
      var newCapacity := FixCapacity(requiredBytes.value);
      if newCapacity >= MAX_STORAGE_CAPACITY {
        return Err(OutOfRange);
      }
      var vol := vh.GetVolume(id);
      if vol.None? {
        return Err(NotFound);
      }
      if newCapacity <= vol.value.capacity {
        return Ok(ExpandResponse(vol.value.capacity, false));
      }
      var ok := vh.UpdateVolumeCapacity(vol.value, newCapacity, env);
      reply := if ok then Ok(ExpandResponse(newCapacity, vol.value.isBlock)) else Err(Internal);
      Kept(before, Op.Expand(id, requiredBytes, env));
    }

    method ControllerPublishVolume(req: PublishRequest, now: int, inserts: bool) returns (reply: Reply<()>)
      modifies vh`published
      ensures (vh.published, reply) == PublishHandler(vh.rows, vh.nodes, old(vh.published), req, now, inserts)
    {
      if req.volId == "" || req.nodeId == "" || !req.hasCapability {
        return Err(InvalidArgument);
      }
      var vol := vh.GetVolume(req.volId);
      if vol.None? {
        return Err(NotFound);
      }
      var seen := vh.GetNodeInfo(req.nodeId, now, 30 * 1000);
      if !seen {
        return Err(NotFound);
      }
      var info := vh.GetControllerPublishVolumeInfo(req.volId, req.nodeId);
      if info.Some? {
        if info.value.readOnly != req.readOnly {
          return Err(AlreadyExists);
        }
        return Ok(());
      }
      var ok := vh.CreateControllerPublishVolumeInfo(req.volId, req.nodeId, req.readOnly, inserts);
      reply := if ok then Ok(()) else Err(Internal);
    }

    method ControllerUnpublishVolume(volId: string, nodeId: string, deletes: bool) returns (reply: Reply<()>)
      modifies vh`published
      ensures (vh.published, reply) == UnpublishHandler(vh.rows, old(vh.published), volId, nodeId, deletes)
    {
      if volId == "" {
        return Err(InvalidArgument);
      }
      var vol := vh.GetVolume(volId);
      if vol.None? {
        return Err(NotFound);
      }
      var info := vh.GetControllerPublishVolumeInfo(volId, nodeId);
      if info.None? {
        return Ok(());
      }
      var ok := vh.DeleteControllerPublishVolumeInfo(volId, nodeId, deletes);
      reply := if ok then Ok(()) else Err(Internal);
    }

    method ListVolumes(token: string, maxEntries: int, bad: set<Path>) returns (reply: Reply<ListResponse<Detail>>)
      ensures reply == ListHandler(DetailsOf(LiveRows(vh.rows), vh.disk, vh.published, bad), token, maxEntries)
    {
      var startingToken := 0;
      if token != "" {
        var parsed := ParseInt32(token);
        if parsed.None? {
          return Err(Aborted);
        }
        startingToken := parsed.value;
      }
      var max := maxEntries;
      if max == 0 {
        max := INT32_MAX;
      }
      var vols := vh.GetVolumesWithDetail(startingToken, max, bad);
      var entries := [];
      for n := 0 to |vols|
        invariant entries == vols[..n]
      {
        entries := entries + [vols[n]];
      }
      assert vols[..|vols|] == vols;
      var next := -1;
      var count := vh.GetVolumeCount();
      if max != INT32_MAX {
        next := startingToken + max;
        if next >= count {
          next := -1;
        }
      }
      PageOfDetails(LiveRows(vh.rows), vh.disk, vh.published, bad, startingToken, max);
      if next != -1 {
        return Ok(ListResponse(entries, FormatInt(next)));
      }
      return Ok(ListResponse(entries, ""));
    }

    static lemma Kept(before: Server, op: Op)
      requires op.Create? && op.uuid.Some? ==> |op.uuid.value| >= 6
      ensures Handlers.Valid(before) && Proper(before, op) ==> Handlers.Valid(Serve(before, op))
    {
      if Handlers.Valid(before) && Proper(before, op) {
        ServeKeepsValid(before, op);
      }
    }
  }
}
