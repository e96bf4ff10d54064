/**
  * What the node answers: exactly when a publish or an unpublish succeeds, in any state of the
  * node and whatever it met before, and what is mounted then.
  */
module NodeAnswers {
  import opened Prelude
  import opened Catalogue
  import opened StepMachine
  import opened Records
  import opened Losetup
  import opened Loops
  import opened Handlers
  import opened Node
  import opened NodeRuns

  // ---------------------------------------------------------------- what is mounted

  /** The mount options a request calls for. */
  predicate CalledFor(o: string, req: NodeRequest, fsType: string, bind: bool) {
    (o == "ro" && req.readOnly) || (o == "bind" && bind) || (o == "nouuid" && fsType == "xfs")
  }

  /**
    * The right thing is mounted on the target: the volume's own loop device if it is a block
    * volume, else its folder; with exactly the options the request calls for; raw for a
    * block access, else with the file system asked for.
    */
  ghost predicate MountedRight(n: NodeState, b: Backing, req: NodeRequest) {
    && req.target in n.mounts
    && var m := n.mounts[req.target]; var path := FullPath(b.row.path);
    && (if b.row.isBlock then DeviceOf(n.loops, path) == Some(m.source) else m.source == path)
    && (forall o :: o in m.options <==> CalledFor(o, req, m.fsType, req.cap == Some(Block) || !b.row.isBlock))
    && (m.raw <==> req.cap == Some(Block))
    && (m.raw || !b.row.isBlock ==> m.fsType == "")
    && (!m.raw && b.row.isBlock ==> FS_TYPE_PARAMETER in req.context && m.fsType == req.context[FS_TYPE_PARAMETER])
  }

  /** Nothing else than the right thing is mounted on the target. */
  ghost predicate FreeOrRight(n: NodeState, b: Backing, req: NodeRequest) {
    req.target !in n.mounts || MountedRight(n, b, req)
  }

  ghost predicate OtherMountsKept(n: NodeState, n': NodeState, target: string) {
    n'.mounts - {target} == n.mounts - {target}
  }

  /** What a step of a publish does to the mounts when the target is mounted already. */
  lemma KeepsRight(n: NodeState, n1: NodeState, b: Backing, req: NodeRequest)
    requires FreeOrRight(n, b, req) && n1.mounts == n.mounts
    requires DeviceOf(n.loops, FullPath(b.row.path)).Some? ==>
               DeviceOf(n1.loops, FullPath(b.row.path)) == DeviceOf(n.loops, FullPath(b.row.path))
    ensures FreeOrRight(n1, b, req)
  {
  }

  lemma RawKeepsOrMounts(n: NodeState, b: Backing, req: NodeRequest, env: PublishEnv)
    requires NodeInv(n)
    ensures var (n1, failed) := RawSpec(n, b, req, env);
            || (n1.mounts == n.mounts && (failed.None? ==> req.target in n.mounts && req.target in n1.targets))
            || (&& failed.None? && b.row.isBlock && req.target !in n.mounts && req.target in n1.targets
                && var d := AttachSpec(n.loops, b.present, FullPath(b.row.path), env.attach).1;
                && d.Some?
                && n1.mounts == n.mounts[req.target := Mounted(d.value, "", BaseOptions(req) + ["bind"], true)])
    ensures var n1 := RawSpec(n, b, req, env).0;
            n1.loops == n.loops || n1.loops == AttachSpec(n.loops, b.present, FullPath(b.row.path), env.attach).0
    ensures RawSpec(n, b, req, env).1.None? ==>
              RawSpec(n, b, req, env).0.loops == AttachSpec(n.loops, b.present, FullPath(b.row.path), env.attach).0
  {
  }

  lemma RawMounts(n: NodeState, b: Backing, req: NodeRequest, env: PublishEnv)
    requires NodeInv(n) && FreshLoop(n.loops, FullPath(b.row.path), env.attach.makes) && req.cap == Some(Block)
    ensures var (n1, failed) := RawSpec(n, b, req, env);
            && OtherMountsKept(n, n1, req.target)
            && (FreeOrRight(n, b, req) ==> FreeOrRight(n1, b, req))
            && (failed.None? ==> req.target in n1.mounts && req.target in n1.targets)
            && (failed.None? && req.target in n.mounts ==> n1.mounts == n.mounts)
  {
    var n1 := RawSpec(n, b, req, env).0;
    RawKeepsOrMounts(n, b, req, env);
    AttachKeepsFound(n.loops, b.present, FullPath(b.row.path), env.attach);
    if n1.mounts == n.mounts {
      if FreeOrRight(n, b, req) { KeepsRight(n, n1, b, req); }
    } else {
      AttachKeepsOne(n.loops, b.present, FullPath(b.row.path), env.attach);
    }
  }

  lemma ByTypeMounts(n: NodeState, b: Backing, req: NodeRequest, env: PublishEnv)
    requires NodeInv(n) && FreshLoop(n.loops, FullPath(b.row.path), env.attach.makes) && req.cap == Some(Mount)
    requires TypeCheck(req.context, b.row.isBlock).None? && req.target !in n.mounts
    ensures var (n1, failed) := MountByType(n, b, req, env);
            && OtherMountsKept(n, n1, req.target) && n1.targets == n.targets
            && FreeOrRight(n1, b, req) && (failed.None? ==> req.target in n1.mounts)
  {
    AttachKeepsOne(n.loops, b.present, FullPath(b.row.path), env.attach);
  }

  lemma MountMounts(n: NodeState, b: Backing, req: NodeRequest, env: PublishEnv)
    requires NodeInv(n) && FreshLoop(n.loops, FullPath(b.row.path), env.attach.makes) && req.cap == Some(Mount)
    ensures var (n1, failed) := MountSpec(n, b, req, env);
            && OtherMountsKept(n, n1, req.target)
            && (FreeOrRight(n, b, req) ==> FreeOrRight(n1, b, req))
            && (failed.None? ==> req.target in n1.mounts && req.target in n1.targets)
            && (failed.None? && req.target in n.mounts ==> n1.mounts == n.mounts)
  {
    if TypeCheck(req.context, b.row.isBlock).None? && req.target !in n.mounts {
      ByTypeMounts(n.(targets := n.targets + {req.target}), b, req, env);
    }
  }

  /** An attach does not change the device a file has. */
  lemma AttachKeepsFound(loops: seq<LoopEntry>, present: bool, path: string, env: AttachEnv)
    requires LoopsInv(loops) && FreshLoop(loops, path, env.makes)
    ensures DeviceOf(loops, path).Some? ==>
              DeviceOf(AttachSpec(loops, present, path, env).0, path) == DeviceOf(loops, path)
  {
    if DeviceOf(loops, path).Some? && env.makes.Some? { FoundStays(loops, env.makes.value, path); }
  }

  lemma {:induction false} FoundStays(loops: seq<LoopEntry>, e: LoopEntry, path: string)
    requires DeviceOf(loops, path).Some?
    ensures DeviceOf(loops + [e], path) == DeviceOf(loops, path)
  {
    assert (loops + [e])[0] == loops[0];
    if loops[0].Shown() != path {
      FoundStays(loops[1..], e, path);
      assert (loops + [e])[1..] == loops[1..] + [e];
    }
  }

  /**
    * A publish by block or mount access, from every state and whether or not the target is
    * there: after success the target is mounted; if nothing was mounted on it before, the right
    * thing is. No other target's mount changes, whatever fails.
    */
  lemma PublishMounts(n: NodeState, nodeId: string, b: Backing, req: NodeRequest, env: PublishEnv)
    requires NodeInv(n) && FreshLoop(n.loops, FullPath(b.row.path), env.attach.makes)
    requires req.cap == Some(Block) || req.cap == Some(Mount)
    ensures var (n1, reply) := NodePublishSpec(n, nodeId, Some(b), req, env);
            && (reply.Ok? ==> req.target in n1.mounts && req.target in n1.targets)
            && (reply.Ok? && req.target in n.mounts ==> n1.mounts == n.mounts)
            && (FreeOrRight(n, b, req) ==> FreeOrRight(n1, b, req))
            && (reply.Ok? && req.target !in n.mounts ==> MountedRight(n1, b, req))
            && OtherMountsKept(n, n1, req.target)
  {
    if req.cap == Some(Block) { RawMounts(n, b, req, env); } else { MountMounts(n, b, req, env); }
    FinishMounts(Prepared(n, b, req, env).0, nodeId, b, req, env);
  }

  lemma FinishMounts(n: NodeState, nodeId: string, b: Backing, req: NodeRequest, env: PublishEnv)
    requires req.cap.Some?
    ensures var (n1, reply) := FinishSpec(n, nodeId, req, req.cap.value.Block?, env);
            && OtherMountsKept(n, n1, req.target)
            && (FreeOrRight(n, b, req) ==> FreeOrRight(n1, b, req))
            && (reply.Ok? ==> n1.mounts == n.mounts && n1.loops == n.loops && n1.targets == n.targets)
  {
  }

  /** The state after publishing the same request any number of times, each with its own outcome. */
  ghost function PublishAll(n: NodeState, nodeId: string, b: Backing, req: NodeRequest, envs: seq<PublishEnv>)
    : NodeState
  {
    if envs == [] then n
    else NodePublishSpec(PublishAll(n, nodeId, b, req, envs[..|envs| - 1]), nodeId, Some(b), req, envs[|envs| - 1]).0
  }

  ghost predicate FairPublishes(n: NodeState, nodeId: string, b: Backing, req: NodeRequest, envs: seq<PublishEnv>) {
    forall k :: 0 <= k < |envs| ==>
      FreshLoop(PublishAll(n, nodeId, b, req, envs[..k]).loops, FullPath(b.row.path), envs[k].attach.makes)
  }

  lemma {:induction false} PublishAllKeeps(
    n: NodeState, nodeId: string, b: Backing, req: NodeRequest, envs: seq<PublishEnv>)
    requires NodeInv(n) && FreeOrRight(n, b, req) && FairPublishes(n, nodeId, b, req, envs)
    requires req.cap == Some(Block) || req.cap == Some(Mount)
    ensures var n' := PublishAll(n, nodeId, b, req, envs); NodeInv(n') && FreeOrRight(n', b, req)
    decreases |envs|
  {
    if envs != [] {
      var k := |envs| - 1;
      assert forall m :: 0 <= m < k ==> envs[..k][..m] == envs[..m];
      PublishAllKeeps(n, nodeId, b, req, envs[..k]);
      PublishMounts(PublishAll(n, nodeId, b, req, envs[..k]), nodeId, b, req, envs[k]);
      PublishKeeps(PublishAll(n, nodeId, b, req, envs[..k]), nodeId, Some(b), req, envs[k]);
    }
  }

  /**
    * A retry mounts: however often the publish failed or succeeded before, and whatever that left
    * behind, after a publish that succeeds the right thing is mounted on the target.
    */
  lemma RetryMounts(
    n: NodeState, nodeId: string, b: Backing, req: NodeRequest, envs: seq<PublishEnv>, env: PublishEnv)
    requires NodeInv(n) && FreeOrRight(n, b, req) && FairPublishes(n, nodeId, b, req, envs)
    requires req.cap == Some(Block) || req.cap == Some(Mount)
    requires var before := PublishAll(n, nodeId, b, req, envs);
             && FreshLoop(before.loops, FullPath(b.row.path), env.attach.makes)
             && NodePublishSpec(before, nodeId, Some(b), req, env).1.Ok?
    ensures MountedRight(NodePublishSpec(PublishAll(n, nodeId, b, req, envs), nodeId, Some(b), req, env).0, b, req)
  {
    PublishAllKeeps(n, nodeId, b, req, envs);
    PublishMounts(PublishAll(n, nodeId, b, req, envs), nodeId, b, req, env);
  }

  // ---------------------------------------------------------------- when a publish succeeds

  /** The volume's file can be attached, or is. */
  ghost predicate CanAttach(loops: seq<LoopEntry>, b: Backing, env: AttachEnv) {
    && env.look.stats && b.present && env.look.lists
    && (DeviceOf(loops, FullPath(b.row.path)).Some? || env.makes.Some?)
  }

  lemma AttachWorksExactly(loops: seq<LoopEntry>, b: Backing, env: AttachEnv)
    ensures AttachSpec(loops, b.present, FullPath(b.row.path), env).1.Some? <==> CanAttach(loops, b, env)
  {
  }

  /** The volume's type, as the request gives it, fits the volume. */
  predicate TypeFits(b: Backing, context: map<string, string>) {
    && TYPE_PARAMETER in context
    && (context[TYPE_PARAMETER] == "disk" ==> b.row.isBlock)
    && (context[TYPE_PARAMETER] == "folder" ==> !b.row.isBlock)
  }

  /** What a mount access still needs on a target that is not mounted. */
  ghost predicate CanMount(n: NodeState, b: Backing, req: NodeRequest, env: PublishEnv) {
    && TYPE_PARAMETER in req.context && env.mounts
    && (req.context[TYPE_PARAMETER] == "folder" ||
        (req.context[TYPE_PARAMETER] == "disk" && FS_TYPE_PARAMETER in req.context
         && CanAttach(n.loops, b, env.attach)))
  }

  /**
    * When a publish succeeds, in every state: the arguments and the volume are there; for a block
    * access it is a block volume whose file can be attached; for a mount access the type fits;
    * the target can be made if it is not there and mounted if it is not mounted; and then mode
    * and record are written.
    */
  lemma PublishSucceedsExactly(n: NodeState, nodeId: string, vol: Option<Backing>, req: NodeRequest, env: PublishEnv)
    requires NodeInv(n)
    ensures NodePublishSpec(n, nodeId, vol, req, env).1.Ok? <==>
            && req.cap.Some? && req.volId != "" && req.target != "" && vol.Some?
            && env.chmods && env.inserts
            && (req.target in n.targets || (env.makes && req.cap != Some(Unset)))
            && (req.cap == Some(Block) ==>
                  vol.value.row.isBlock && CanAttach(n.loops, vol.value, env.attach) && env.looks && env.checks
                  && (req.target in n.mounts || env.mounts))
            && (req.cap == Some(Mount) ==>
                  TypeFits(vol.value, req.context) && env.checks
                  && (req.target in n.mounts || CanMount(n, vol.value, req, env)))
  {
    if vol.Some? { AttachWorksExactly(n.loops, vol.value, env.attach); }
  }

  /** The codes of a publish that does not succeed. */
  lemma PublishCodes(n: NodeState, nodeId: string, vol: Option<Backing>, req: NodeRequest, env: PublishEnv)
    requires NodeInv(n) && NodePublishSpec(n, nodeId, vol, req, env).1.Err?
    ensures var arguments := req.cap.Some? && req.volId != "" && req.target != "";
            var code := NodePublishSpec(n, nodeId, vol, req, env).1.code;
            && (code == NotFound <==> arguments && vol.None?)
            && (!arguments ==> code == InvalidArgument)
            && (arguments && vol.Some? && req.cap == Some(Block) ==>
                  (code == InvalidArgument <==> !vol.value.row.isBlock))
            && (arguments && vol.Some? && req.cap == Some(Mount) && !TypeFits(vol.value, req.context) ==>
                  code == InvalidArgument)
            && (arguments && vol.Some? && req.cap == Some(Mount) && TypeFits(vol.value, req.context)
                && env.checks && (req.target in n.targets || env.makes) && req.target !in n.mounts ==>
                  (code == InvalidArgument <==>
                   && req.context[TYPE_PARAMETER] != "folder"
                   && (req.context[TYPE_PARAMETER] == "disk" ==> FS_TYPE_PARAMETER !in req.context)))
            && (code == NotFound || code == InvalidArgument || code == Internal)
  {
  }

  /** A publish adds one record, the asked one, if and only if it succeeds, and changes no other. */
  lemma PublishRecordsExactly(n: NodeState, nodeId: string, vol: Option<Backing>, req: NodeRequest, env: PublishEnv)
    ensures var (n1, reply) := NodePublishSpec(n, nodeId, vol, req, env);
            var record := NodeRecord(req.volId, nodeId, req.target, req.cap == Some(Block), req.readOnly, false);
            n1.records == if reply.Ok? then n.records + [record] else n.records
  {
    if vol.Some? && req.cap.Some? { PreparedRecords(n, vol.value, req, env); }
  }

  /** What a publish whose mode or record fails leaves, when its clearing works: neither mount nor target. */
  lemma FailedPublishClears(n: NodeState, nodeId: string, b: Backing, req: NodeRequest, env: PublishEnv)
    requires req.cap.Some? && req.volId != "" && req.target != "" && Prepared(n, b, req, env).1.None?
    requires !(env.chmods && env.inserts) && env.unmounts && env.clears
    ensures var (n1, reply) := NodePublishSpec(n, nodeId, Some(b), req, env);
            reply == Err(Internal) && req.target !in n1.mounts && req.target !in n1.targets
  {
  }

  /** The publish gets as far as mounting a device of the volume's file. */
  ghost predicate ReachesDevice(n: NodeState, b: Backing, req: NodeRequest, env: PublishEnv) {
    && req.volId != "" && req.target != "" && b.row.isBlock && CanAttach(n.loops, b, env.attach)
    && env.checks && env.looks && (req.target in n.targets || env.makes) && req.target !in n.mounts
    && (req.cap == Some(Block) ||
        (&& req.cap == Some(Mount) && FS_TYPE_PARAMETER in req.context
         && TYPE_PARAMETER in req.context && req.context[TYPE_PARAMETER] == "disk"))
  }

  lemma PreparedReaches(n: NodeState, b: Backing, req: NodeRequest, env: PublishEnv)
    requires ReachesDevice(n, b, req, env)
    ensures var (n1, failed) := Prepared(n, b, req, env);
            && n1.loops == AttachSpec(n.loops, b.present, FullPath(b.row.path), env.attach).0
            && (!env.mounts ==> failed == Some(Internal) && req.target in n1.targets && n1.mounts == n.mounts)
  {
    AttachWorksExactly(n.loops, b, env.attach);
  }

  lemma DeviceAttached(loops: seq<LoopEntry>, b: Backing, env: AttachEnv)
    requires LoopsInv(loops) && FreshLoop(loops, FullPath(b.row.path), env.makes) && CanAttach(loops, b, env)
    ensures DeviceOf(AttachSpec(loops, b.present, FullPath(b.row.path), env).0, FullPath(b.row.path)).Some?
  {
    AttachWorksExactly(loops, b, env);
    AttachKeepsOne(loops, b.present, FullPath(b.row.path), env);
  }

  /**
    * What a publish of a block volume leaves when it fails from the mount on: the device stays
    * attached; after a failed mount the target stays too, with nothing mounted.
    */
  lemma FailedPublishLeaves(n: NodeState, nodeId: string, b: Backing, req: NodeRequest, env: PublishEnv)
    requires NodeInv(n) && FreshLoop(n.loops, FullPath(b.row.path), env.attach.makes) && ReachesDevice(n, b, req, env)
    ensures var (n1, reply) := NodePublishSpec(n, nodeId, Some(b), req, env);
            && DeviceOf(n1.loops, FullPath(b.row.path)).Some?
            && (!env.mounts ==> reply == Err(Internal) && req.target in n1.targets && n1.mounts == n.mounts)
  {
    PreparedReaches(n, b, req, env);
    DeviceAttached(n.loops, b, env.attach);
    FinishLeavesLoops(Prepared(n, b, req, env).0, nodeId, req, req.cap.value.Block?, env);
  }

  // ---------------------------------------------------------------- when an unpublish succeeds

  /** The detach reports no error: nothing to detach, or the device goes or is gone. */
  ghost predicate CanDetach(loops: seq<LoopEntry>, b: Backing, env: DetachEnv) {
    && env.look.stats
    && (b.present ==> env.look.lists && (DeviceOf(loops, FullPath(b.row.path)).Some? ==> !env.removes.Fails?))
  }

  /**
    * When an unpublish succeeds, in every state and whether or not anything is recorded; then the
    * target is neither mounted nor there, and no other mount or target changed.
    */
  lemma UnpublishSucceedsExactly(
    n: NodeState, nodeId: string, vol: Option<Backing>, volId: string, target: string, env: UnpublishEnv)
    requires NodeInv(n)
    ensures var (n1, reply) := NodeUnpublishSpec(n, nodeId, vol, volId, target, env);
            && (reply.Ok? <==>
                  && volId != "" && target != "" && vol.Some? && env.removes && env.deletes
                  && (target in n.targets ==> env.checks)
                  && (target in n.mounts ==>
                        env.unmounts && (vol.value.row.isBlock ==> CanDetach(n.loops, vol.value, env.detach))))
            && (reply.Ok? ==> n1.mounts == n.mounts - {target} && n1.targets == n.targets - {target})
            && (reply.Err? ==>
                  reply.code == if volId == "" || target == "" then InvalidArgument
                                else if vol.None? then NotFound else Internal)
            && (reply.Err? ==> n1.records == n.records)
            && OtherMountsKept(n, n1, target) && n1.targets - {target} == n.targets - {target}
            && n1.erased == n.erased
            && (vol.None? || target !in n.mounts || !vol.value.row.isBlock ==> n1.loops == n.loops)
  {
  }
}
