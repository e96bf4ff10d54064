/**
  * The node server: publishing and unpublishing a volume on a node, one call at a time, over
  * the mount table, the loop table, the target paths and the publish records.
  */
module Node {
  import opened Prelude
  import opened Catalogue
  import opened Records
  import opened Losetup
  import opened Loops
  import opened Handlers

  const VOLS_PATH := "/csi-data-dir/vols"

  /** A volume's path as the kernel and `losetup` see it. */
  function FullPath(p: Path): string {
    VOLS_PATH + Render(p)
  }

  /** A mount: raw when it binds a device node, otherwise a file system. */
  datatype Mounted = Mounted(source: string, fsType: string, options: seq<string>, raw: bool)

  /** `erased` are the sources of file systems that a removal reached through a mounted target. */
  datatype NodeState = NodeState(
    loops: seq<LoopEntry>, mounts: map<string, Mounted>, targets: set<string>, records: seq<NodeRecord>,
    erased: set<string>)

  function NoState(): NodeState {
    NodeState([], map[], {}, [], {})
  }

  /** The row the node reads, and whether its path is there. */
  datatype Backing = Backing(row: Row, present: bool)

  datatype NodeRequest = NodeRequest(
    volId: string, target: string, cap: Option<Access>, readOnly: bool, context: map<string, string>)

  /** What the outside does to one publish. `looks` is the look at the target path. */
  datatype PublishEnv = PublishEnv(
    attach: AttachEnv, looks: bool, makes: bool, checks: bool, mounts: bool, chmods: bool, inserts: bool,
    unmounts: bool, clears: bool)

  datatype UnpublishEnv = UnpublishEnv(checks: bool, unmounts: bool, detach: DetachEnv, removes: bool, deletes: bool)

  // ---------------------------------------------------------------- publish

  function BaseOptions(req: NodeRequest): seq<string> {
    if req.readOnly then ["ro"] else []
  }

  /** A raw block publish: attach, make the target file, bind the device. */
  function RawSpec(n: NodeState, b: Backing, req: NodeRequest, env: PublishEnv): (NodeState, Option<Code>) {
    if !b.row.isBlock then (n, Some(InvalidArgument))
    else
      var (loops, device) := AttachSpec(n.loops, b.present, FullPath(b.row.path), env.attach);
      var n1 := n.(loops := loops);
      if device.None? || !env.looks then (n1, Some(Internal))
      else if req.target !in n.targets && !env.makes then (n1, Some(Internal))
      else
        var n2 := n1.(targets := n.targets + {req.target});
        if !env.checks then (n2, Some(Internal))
        else if req.target in n.mounts then (n2, None)
        else if !env.mounts then (n2, Some(Internal))
        else (n2.(mounts := n.mounts[req.target := Mounted(device.value, "", BaseOptions(req) + ["bind"], true)]), None)
  }

  /** The check of the volume type against the block flag. */
  function TypeCheck(context: map<string, string>, isBlock: bool): Option<Code> {
    if TYPE_PARAMETER !in context then Some(InvalidArgument)
    else if context[TYPE_PARAMETER] == "disk" && !isBlock then Some(InvalidArgument)
    else if context[TYPE_PARAMETER] == "folder" && isBlock then Some(InvalidArgument)
    else None
  }

  /** Mounting on a prepared target by the volume type. */
  function MountByType(n: NodeState, b: Backing, req: NodeRequest, env: PublishEnv): (NodeState, Option<Code>)
    requires TYPE_PARAMETER in req.context
  {
    var vtype := req.context[TYPE_PARAMETER];
    if vtype == "folder" then
      if !env.mounts then (n, Some(Internal))
      else
        var mounted := Mounted(FullPath(b.row.path), "", BaseOptions(req) + ["bind"], false);
        (n.(mounts := n.mounts[req.target := mounted]), None)
    else if vtype == "disk" then
      if FS_TYPE_PARAMETER !in req.context then (n, Some(InvalidArgument))
      else
        var fsType := req.context[FS_TYPE_PARAMETER];
        var options := BaseOptions(req) + if fsType == "xfs" then ["nouuid"] else [];
        var (loops, device) := AttachSpec(n.loops, b.present, FullPath(b.row.path), env.attach);
        if device.None? || !env.mounts then (n.(loops := loops), Some(Internal))
        else (n.(loops := loops, mounts := n.mounts[req.target := Mounted(device.value, fsType, options, false)]), None)
    else (n, Some(InvalidArgument))
  }

  function MountSpec(n: NodeState, b: Backing, req: NodeRequest, env: PublishEnv): (NodeState, Option<Code>) {
    if TypeCheck(req.context, b.row.isBlock).Some? then (n, TypeCheck(req.context, b.row.isBlock))
    else if !env.checks then (n, Some(Internal))
    else if req.target !in n.targets && !env.makes then (n, Some(Internal))
    else
      var n1 := n.(targets := n.targets + {req.target});
      if req.target in n.targets && req.target in n.mounts then (n1, None) else MountByType(n1, b, req, env)
  }

  /** A removal below a mounted target reaches the files of a file system that can be written. */
  predicate Reaches(m: Mounted) {
    !m.raw && "ro" !in m.options
  }

  /**
    * Undoing a publish: unmount, then remove all of the target. Whether the unmount worked is
    * not looked at: what is still mounted is emptied, and the target itself stays.
    */
  function Cleared(n: NodeState, target: string, env: PublishEnv): NodeState {
    var mounts := if env.unmounts then n.mounts - {target} else n.mounts;
    if target in mounts then
      n.(mounts := mounts, erased := if Reaches(mounts[target]) then n.erased + {mounts[target].source} else n.erased)
    else
      n.(mounts := mounts, targets := if env.clears then n.targets - {target} else n.targets)
  }

  function FinishSpec(n: NodeState, nodeId: string, req: NodeRequest, raw: bool, env: PublishEnv)
    : (NodeState, Reply<()>) {
    if !env.chmods || req.target !in n.targets || !env.inserts then (Cleared(n, req.target, env), Err(Internal))
    else (n.(records := n.records + [NodeRecord(req.volId, nodeId, req.target, raw, req.readOnly, false)]), Ok(()))
  }

  /** The part of a publish that depends on the access. */
  function Prepared(n: NodeState, b: Backing, req: NodeRequest, env: PublishEnv): (NodeState, Option<Code>)
    requires req.cap.Some?
  {
    match req.cap.value
    case Block => RawSpec(n, b, req, env)
    case Mount => MountSpec(n, b, req, env)
    case Unset => (n, None)
  }

  function NodePublishSpec(n: NodeState, nodeId: string, vol: Option<Backing>, req: NodeRequest, env: PublishEnv)
    : (NodeState, Reply<()>)
  {
    if req.cap.None? || req.volId == "" || req.target == "" then (n, Err(InvalidArgument))
    else if vol.None? then (n, Err(NotFound))
    else
      var (n1, failed) := Prepared(n, vol.value, req, env);
      if failed.Some? then (n1, Err(failed.value))
      else FinishSpec(n1, nodeId, req, req.cap.value.Block?, env)
  }

  // ---------------------------------------------------------------- unpublish

  /** Unmounting a mounted target, and detaching the loop device of a block volume only then. */
  function ReleaseSpec(n: NodeState, b: Backing, target: string, env: UnpublishEnv): (NodeState, bool) {
    if target in n.targets && !env.checks then (n, false)
    else if target !in n.targets || target !in n.mounts then (n, true)
    else if !env.unmounts then (n, false)
    else
      var n1 := n.(mounts := n.mounts - {target});
      if !b.row.isBlock then (n1, true)
      else
        var (loops, ok) := DetachSpec(n.loops, b.present, FullPath(b.row.path), env.detach);
        (n1.(loops := loops), ok)
  }

  function NodeUnpublishSpec(
    n: NodeState, nodeId: string, vol: Option<Backing>, volId: string, target: string, env: UnpublishEnv)
    : (NodeState, Reply<()>)
  {
    if volId == "" || target == "" then (n, Err(InvalidArgument))
    else if vol.None? then (n, Err(NotFound))
    else
      var (n1, released) := ReleaseSpec(n, vol.value, target, env);
      if !released || !env.removes then (n1, Err(Internal))
      else
        var n2 := n1.(targets := n1.targets - {target});
        if !env.deletes then (n2, Err(Internal))
        else (n2.(records := DeleteNodeRecords(n.records, volId, nodeId, target)), Ok(()))
  }

  // ---------------------------------------------------------------- the node server

  class NodeServer {
    const nodeId: string
    const table: LoopTable
    var mounts: map<string, Mounted>
    var targets: set<string>
    var records: seq<NodeRecord>
    ghost var erased: set<string>

    ghost function State(): NodeState
      reads this, table
    {
      NodeState(table.loops, mounts, targets, records, erased)
    }

    ghost predicate Valid()
      reads this, table
    {
      NodeInv(State())
    }

    constructor (id: string, loopTable: LoopTable)
      requires loopTable.loops == []
      ensures nodeId == id && table == loopTable && State() == NoState() && Valid()
    {
      nodeId, table := id, loopTable;
      mounts, targets, records, erased := map[], {}, [], {};
    }

    method PublishRaw(b: Backing, req: NodeRequest, env: PublishEnv) returns (failed: Option<Code>)
      requires Valid()
      modifies this, table
      ensures (State(), failed) == RawSpec(old(State()), b, req, env)
    {
      var options := BaseOptions(req);
      if !b.row.isBlock {
        return Some(InvalidArgument);
      }
      var device := table.AttachFileDevice(b.present, FullPath(b.row.path), env.attach);
      if device.None? || !env.looks {
        return Some(Internal);
      }
      if req.target !in targets {
        if !env.makes {
          return Some(Internal);
        }
        targets := targets + {req.target};
      }
      assert targets == old(targets) + {req.target};
      if !env.checks {
        return Some(Internal);
      }
      if req.target !in mounts {
        options := options + ["bind"];
        if !env.mounts {
          return Some(Internal);
        }
        mounts := mounts[req.target := Mounted(device.value, "", options, true)];
      }
      return None;
    }

    method PublishMount(b: Backing, req: NodeRequest, env: PublishEnv) returns (failed: Option<Code>)
      requires Valid()
      modifies this, table
      ensures (State(), failed) == MountSpec(old(State()), b, req, env)
    {
      var options := BaseOptions(req);
      if TYPE_PARAMETER !in req.context {
        return Some(InvalidArgument);
      }
      var vtype := req.context[TYPE_PARAMETER];
      if (vtype == "disk" && !b.row.isBlock) || (vtype == "folder" && b.row.isBlock) {
        return Some(InvalidArgument);
      }
      if !env.checks {
        return Some(Internal);
      }
      var notMounted := req.target !in mounts;
      if req.target !in targets {
        if !env.makes {
          return Some(Internal);
        }
        targets := targets + {req.target};
        notMounted := true;
      }
      assert targets == old(targets) + {req.target};
      if notMounted {
        if vtype == "folder" {
          options := options + ["bind"];
          if !env.mounts {
            return Some(Internal);
          }
          mounts := mounts[req.target := Mounted(FullPath(b.row.path), "", options, false)];
        } else if vtype == "disk" {
          if FS_TYPE_PARAMETER !in req.context {
            return Some(InvalidArgument);
          }
          var fsType := req.context[FS_TYPE_PARAMETER];
          options := options + if fsType == "xfs" then ["nouuid"] else [];
          var device := table.AttachFileDevice(b.present, FullPath(b.row.path), env.attach);
          if device.None? || !env.mounts {
            return Some(Internal);
          }
          mounts := mounts[req.target := Mounted(device.value, fsType, options, false)];
        } else {
          return Some(InvalidArgument);
        }
      }
      return None;
    }

    method NodePublishVolume(vol: Option<Backing>, req: NodeRequest, env: PublishEnv) returns (reply: Reply<()>)
      requires Valid()
      requires vol.Some? ==> FreshLoop(table.loops, FullPath(vol.value.row.path), env.attach.makes)
      modifies this, table
      ensures (State(), reply) == NodePublishSpec(old(State()), nodeId, vol, req, env)
      ensures Valid()
    {
      ghost var before := State();
      if req.cap.None? || req.volId == "" || req.target == "" {
        return Err(InvalidArgument);
      }
      if vol.None? {
        return Err(NotFound);
      }
      var rawMount, failed := false, None;
      if req.cap.value.Block? {
        failed := PublishRaw(vol.value, req, env);
        rawMount := true;
      } else if req.cap.value.Mount? {
        failed := PublishMount(vol.value, req, env);
      }
      ghost var ready := State();
      if failed.Some? {
        reply := Err(failed.value);
      } else if !env.chmods || req.target !in targets || !env.inserts {
        Clear(req.target, env);
        reply := Err(Internal);
      } else {
        records := records + [NodeRecord(req.volId, nodeId, req.target, rawMount, req.readOnly, false)];
        reply := Ok(());
      }
      PublishKeeps(before, nodeId, vol, req, env);
    }

    method Clear(target: string, env: PublishEnv)
      modifies this`mounts, this`targets, this`erased
      ensures State() == Cleared(old(State()), target, env)
    {
      if env.unmounts {
        mounts := mounts - {target};
      }
      if target in mounts {
        if Reaches(mounts[target]) {
          erased := erased + {mounts[target].source};
        }
      } else if env.clears {
        targets := targets - {target};
      }
    }

    method Release(b: Backing, target: string, env: UnpublishEnv) returns (ok: bool)
      requires Valid()
      modifies this`mounts, table
      ensures (State(), ok) == ReleaseSpec(old(State()), b, target, env)
    {
      if target in targets && !env.checks {
        return false;
      }
      ok := true;
      if target in targets && target in mounts {
        if !env.unmounts {
          return false;
        }
        mounts := mounts - {target};
        if b.row.isBlock {
          ok := table.DetachFileDevice(b.present, FullPath(b.row.path), env.detach);
        }
      }
    }

    method NodeUnpublishVolume(vol: Option<Backing>, volId: string, target: string, env: UnpublishEnv)
      returns (reply: Reply<()>)
      requires Valid()
      modifies this, table
      ensures (State(), reply) == NodeUnpublishSpec(old(State()), nodeId, vol, volId, target, env)
      ensures Valid()
    {
      ghost var before := State();
      if volId == "" || target == "" {
        return Err(InvalidArgument);
      }
      if vol.None? {
        return Err(NotFound);
      }
      var released := Release(vol.value, target, env);
      if !released || !env.removes {
        reply := Err(Internal);
      } else {
        targets := targets - {target};
        if !env.deletes {
          reply := Err(Internal);
        } else {
          records := DeleteNodeRecords(records, volId, nodeId, target);
          reply := Ok(());
        }
      }
      UnpublishKeeps(before, nodeId, vol, volId, target, env);
    }
  }

  // ---------------------------------------------------------------- what every call keeps

  /** At most one loop device per backing file; only existing targets are mounted on. */
  ghost predicate NodeInv(n: NodeState) {
    LoopsInv(n.loops) && n.mounts.Keys <= n.targets
  }

  lemma RawKeeps(n: NodeState, b: Backing, req: NodeRequest, env: PublishEnv)
    requires NodeInv(n) && FreshLoop(n.loops, FullPath(b.row.path), env.attach.makes)
    ensures NodeInv(RawSpec(n, b, req, env).0)
  {
    AttachKeepsOne(n.loops, b.present, FullPath(b.row.path), env.attach);
  }

  lemma MountByTypeKeeps(n: NodeState, b: Backing, req: NodeRequest, env: PublishEnv)
    requires NodeInv(n) && FreshLoop(n.loops, FullPath(b.row.path), env.attach.makes)
    requires TYPE_PARAMETER in req.context && req.target in n.targets
    ensures NodeInv(MountByType(n, b, req, env).0)
  {
    AttachKeepsOne(n.loops, b.present, FullPath(b.row.path), env.attach);
  }

  lemma MountKeeps(n: NodeState, b: Backing, req: NodeRequest, env: PublishEnv)
    requires NodeInv(n) && FreshLoop(n.loops, FullPath(b.row.path), env.attach.makes)
    ensures NodeInv(MountSpec(n, b, req, env).0)
  {
    if TypeCheck(req.context, b.row.isBlock).None? {
      MountByTypeKeeps(n.(targets := n.targets + {req.target}), b, req, env);
    }
  }

  lemma FinishKeeps(n: NodeState, nodeId: string, req: NodeRequest, raw: bool, env: PublishEnv)
    requires NodeInv(n)
    ensures NodeInv(FinishSpec(n, nodeId, req, raw, env).0)
  {
  }

  lemma PublishKeeps(n: NodeState, nodeId: string, vol: Option<Backing>, req: NodeRequest, env: PublishEnv)
    requires NodeInv(n) && (vol.Some? ==> FreshLoop(n.loops, FullPath(vol.value.row.path), env.attach.makes))
    ensures NodeInv(NodePublishSpec(n, nodeId, vol, req, env).0)
  {
    if vol.Some? && req.cap == Some(Block) {
      RawKeeps(n, vol.value, req, env);
      FinishKeeps(RawSpec(n, vol.value, req, env).0, nodeId, req, true, env);
    } else if vol.Some? && req.cap == Some(Mount) {
      MountKeeps(n, vol.value, req, env);
      FinishKeeps(MountSpec(n, vol.value, req, env).0, nodeId, req, false, env);
    } else if vol.Some? {
      FinishKeeps(n, nodeId, req, false, env);
    }
  }

  lemma UnpublishKeeps(
    n: NodeState, nodeId: string, vol: Option<Backing>, volId: string, target: string, env: UnpublishEnv)
    requires NodeInv(n)
    ensures NodeInv(NodeUnpublishSpec(n, nodeId, vol, volId, target, env).0)
  {
    if vol.Some? {
      DetachKeepsOne(n.loops, vol.value.present, FullPath(vol.value.row.path), env.detach);
    }
  }
}
