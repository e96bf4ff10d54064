/** What sequential runs of publish and unpublish on one node keep, restore and leak. */
module NodeRuns {
  import opened Prelude
  import opened Catalogue
  import opened StepMachine
  import opened RunProperties
  import opened Records
  import opened Losetup
  import opened Loops
  import opened Volumes
  import opened Handlers
  import opened Node

  datatype NodeCall =
    | Publish(vol: Option<Backing>, req: NodeRequest, penv: PublishEnv)
    | Unpublish(uvol: Option<Backing>, volId: string, target: string, uenv: UnpublishEnv)
    | RemoveFiles(paths: set<string>)    // by the controller or the clean-up job

  ghost function Call(n: NodeState, nodeId: string, c: NodeCall): NodeState {
    match c
    case Publish(vol, req, env) => NodePublishSpec(n, nodeId, vol, req, env).0
    case Unpublish(vol, volId, target, env) => NodeUnpublishSpec(n, nodeId, vol, volId, target, env).0
    case RemoveFiles(paths) => n.(loops := FilesRemoved(n.loops, paths))
  }

  /** Devices that `losetup -f` makes are unused and backed by the file asked for. */
  ghost predicate FairCall(n: NodeState, c: NodeCall) {
    c.Publish? && c.vol.Some? ==> FreshLoop(n.loops, FullPath(c.vol.value.row.path), c.penv.attach.makes)
  }

  /** Calls made one after the other on a node that starts with nothing attached, files being removed in between. */
  ghost predicate NodeHistory(ns: seq<NodeState>, cs: seq<NodeCall>, nodeId: string) {
    && |ns| == |cs| + 1 && ns[0] == NoState()
    && forall i :: 0 <= i < |cs| ==> FairCall(ns[i], cs[i]) && ns[i + 1] == Call(ns[i], nodeId, cs[i])
  }

  /**
    * In every sequential run, whatever fails in it, each backing file that is still there has at
    * most one loop device.
    */
  lemma {:induction false} OneLoopPerFile(ns: seq<NodeState>, cs: seq<NodeCall>, nodeId: string, i: nat)
    requires NodeHistory(ns, cs, nodeId) && i < |ns|
    ensures NodeInv(ns[i])
    ensures forall j, k :: 0 <= j < k < |ns[i].loops| && !ns[i].loops[j].gone && !ns[i].loops[k].gone ==>
              ns[i].loops[j].backing != ns[i].loops[k].backing
  {
    if i > 0 {
      OneLoopPerFile(ns, cs, nodeId, i - 1);
      match cs[i - 1]
      case Publish(vol, req, env) => PublishKeeps(ns[i - 1], nodeId, vol, req, env);
      case Unpublish(vol, volId, target, env) => UnpublishKeeps(ns[i - 1], nodeId, vol, volId, target, env);
      case RemoveFiles(paths) => FilesRemovedKeeps(ns[i - 1].loops, paths);
    }
  }

  /** As long as no file is removed, each backing file has at most one loop device, whatever fails. */
  lemma {:induction false} OneLoopWithoutRemovals(ns: seq<NodeState>, cs: seq<NodeCall>, nodeId: string, i: nat)
    requires NodeHistory(ns, cs, nodeId) && i < |ns| && forall k :: 0 <= k < |cs| ==> !cs[k].RemoveFiles?
    ensures forall e :: e in ns[i].loops ==> !e.gone
    ensures forall j, k :: 0 <= j < k < |ns[i].loops| ==> ns[i].loops[j].backing != ns[i].loops[k].backing
  {
    OneLoopPerFile(ns, cs, nodeId, i);
    if i > 0 {
      OneLoopWithoutRemovals(ns, cs, nodeId, i - 1);
      CallMakesNoneGone(ns[i - 1], nodeId, cs[i - 1]);
    }
    assert forall j :: 0 <= j < |ns[i].loops| ==> ns[i].loops[j] in ns[i].loops;
  }

  lemma AttachMakesNoneGone(loops: seq<LoopEntry>, present: bool, path: string, env: AttachEnv)
    requires (forall e :: e in loops ==> !e.gone) && FreshLoop(loops, path, env.makes)
    ensures forall e :: e in AttachSpec(loops, present, path, env).0 ==> !e.gone
  {
  }

  lemma CallMakesNoneGone(n: NodeState, nodeId: string, c: NodeCall)
    requires (forall e :: e in n.loops ==> !e.gone) && FairCall(n, c) && !c.RemoveFiles?
    ensures forall e :: e in Call(n, nodeId, c).loops ==> !e.gone
  {
    match c
    case Publish(vol, req, env) =>
      if vol.Some? {
        AttachMakesNoneGone(n.loops, vol.value.present, FullPath(vol.value.row.path), env.attach);
        PublishLoops(n, nodeId, vol.value, req, env);
      }
    case Unpublish(vol, volId, target, env) =>
      if vol.Some? {
        UnpublishLoops(n, nodeId, vol.value, volId, target, env);
      }
  }

  lemma PreparedLoops(n: NodeState, b: Backing, req: NodeRequest, env: PublishEnv)
    requires req.cap.Some?
    ensures var loops := Prepared(n, b, req, env).0.loops;
            loops == n.loops || loops == AttachSpec(n.loops, b.present, FullPath(b.row.path), env.attach).0
  {
  }

  /** A publish attaches as one attach does, or not at all. */
  lemma PublishLoops(n: NodeState, nodeId: string, b: Backing, req: NodeRequest, env: PublishEnv)
    ensures var loops := NodePublishSpec(n, nodeId, Some(b), req, env).0.loops;
            loops == n.loops || loops == AttachSpec(n.loops, b.present, FullPath(b.row.path), env.attach).0
  {
    if req.cap.Some? {
      PreparedLoops(n, b, req, env);
      FinishLeavesLoops(Prepared(n, b, req, env).0, nodeId, req, req.cap.value.Block?, env);
    }
  }

  /** An unpublish detaches as one detach does, or not at all. */
  lemma UnpublishLoops(n: NodeState, nodeId: string, b: Backing, volId: string, target: string, env: UnpublishEnv)
    ensures var loops := NodeUnpublishSpec(n, nodeId, Some(b), volId, target, env).0.loops;
            loops == n.loops || loops == DetachSpec(n.loops, b.present, FullPath(b.row.path), env.detach).0
  {
  }

  // ---------------------------------------------------------------- when a file gets a second device

  ghost predicate Attached(loops: seq<LoopEntry>, path: string, gone: bool) {
    exists i :: 0 <= i < |loops| && loops[i].backing == path && loops[i].gone == gone
  }

  lemma FoundExactly(loops: seq<LoopEntry>, path: string)
    requires !HasSuffix(path, " (deleted)")
    ensures DeviceOf(loops, path).Some? <==> Attached(loops, path, false)
  {
    forall i | 0 <= i < |loops|
      ensures loops[i].Shown() == path <==> !loops[i].gone && loops[i].backing == path
    {
      GoneShows(loops[i]);
    }
  }

  /**
    * When look-up and `losetup -f` work, an attach gives a path that already backs a device
    * another one if and only if a file was removed there under its device and the present file
    * has none.
    */
  lemma SecondDeviceExactly(loops: seq<LoopEntry>, path: string, env: AttachEnv)
    requires !HasSuffix(path, " (deleted)") && FreshLoop(loops, path, env.makes)
    requires env.look.stats && env.look.lists && env.makes.Some?
    ensures ((Attached(loops, path, false) || Attached(loops, path, true))
             && AttachSpec(loops, true, path, env).0 == loops + [env.makes.value]) <==>
            (Attached(loops, path, true) && !Attached(loops, path, false))
  {
    FoundExactly(loops, path);
    assert |loops + [env.makes.value]| != |loops|;
  }

  // ---------------------------------------------------------------- publish and unpublish

  predicate UnpublishWorks(env: UnpublishEnv) {
    env.checks && env.unmounts && env.detach.look.stats && env.detach.look.lists && env.detach.removes.Removes?
    && env.removes && env.deletes
  }

  /** A successful publish on a fresh target mounts it, and attaches one device exactly for a block volume. */
  lemma FreshPublish(n: NodeState, nodeId: string, b: Backing, req: NodeRequest, env: PublishEnv)
    requires NodeInv(n) && req.target !in n.targets && DeviceOf(n.loops, FullPath(b.row.path)).None?
    requires NodePublishSpec(n, nodeId, Some(b), req, env).1.Ok?
    ensures var n1 := NodePublishSpec(n, nodeId, Some(b), req, env).0;
            && n1.targets == n.targets + {req.target} && req.target in n1.mounts && n1.mounts - {req.target} == n.mounts
            && n1.loops == (if b.row.isBlock then AttachSpec(n.loops, b.present, FullPath(b.row.path), env.attach).0
                            else n.loops)
            && (b.row.isBlock ==> b.present && AttachSpec(n.loops, true, FullPath(b.row.path), env.attach).1.Some?)
            && n1.records == n.records +
               [NodeRecord(req.volId, nodeId, req.target, req.cap.value.Block?, req.readOnly, false)]
  {
    assert req.target !in n.mounts;
    var path := FullPath(b.row.path);
    assert req.cap.value != Unset;
    if req.cap.value.Block? {
      RawFresh(n, b, req, env);
    } else {
      MountFresh(n, b, req, env);
    }
  }

  /**
    * A publish on a fresh target mounts the right thing there: the volume's own loop device
    * if it is a block volume, else its folder, read-only exactly when asked for.
    */
  lemma PublishMountsVolume(n: NodeState, nodeId: string, b: Backing, req: NodeRequest, env: PublishEnv)
    requires NodeInv(n) && req.target !in n.targets && FreshLoop(n.loops, FullPath(b.row.path), env.attach.makes)
    requires NodePublishSpec(n, nodeId, Some(b), req, env).1.Ok?
    ensures var n1 := NodePublishSpec(n, nodeId, Some(b), req, env).0; var path := FullPath(b.row.path);
            && req.target in n1.mounts
            && (if b.row.isBlock then DeviceOf(n1.loops, path) == Some(n1.mounts[req.target].source)
                else n1.mounts[req.target].source == path)
            && ("ro" in n1.mounts[req.target].options <==> req.readOnly)
            && ("bind" in n1.mounts[req.target].options <==> req.cap == Some(Block) || !b.row.isBlock)
            && ("nouuid" in n1.mounts[req.target].options <==> n1.mounts[req.target].fsType == "xfs")
            && (n1.mounts[req.target].fsType == "" || req.context[FS_TYPE_PARAMETER] == n1.mounts[req.target].fsType)
  {
    assert req.target !in n.mounts && req.cap.value != Unset;
    AttachKeepsOne(n.loops, b.present, FullPath(b.row.path), env.attach);
    if req.cap.value.Block? {
      assert RawSpec(n, b, req, env).1.None?;
    } else {
      assert MountSpec(n, b, req, env).1.None?;
    }
  }

  lemma RawFresh(n: NodeState, b: Backing, req: NodeRequest, env: PublishEnv)
    requires req.target !in n.targets && req.target !in n.mounts && DeviceOf(n.loops, FullPath(b.row.path)).None?
    requires RawSpec(n, b, req, env).1.None?
    ensures var n1 := RawSpec(n, b, req, env).0;
            var (loops, d) := AttachSpec(n.loops, b.present, FullPath(b.row.path), env.attach);
            b.row.isBlock && b.present && d.Some? && n1.records == n.records
            && n1.loops == loops && n1.targets == n.targets + {req.target}
            && req.target in n1.mounts && n1.mounts - {req.target} == n.mounts
  {
  }

  lemma MountFresh(n: NodeState, b: Backing, req: NodeRequest, env: PublishEnv)
    requires req.target !in n.targets && req.target !in n.mounts && DeviceOf(n.loops, FullPath(b.row.path)).None?
    requires MountSpec(n, b, req, env).1.None?
    ensures var n1 := MountSpec(n, b, req, env).0;
            var (loops, d) := AttachSpec(n.loops, b.present, FullPath(b.row.path), env.attach);
            && (b.row.isBlock ==> b.present && d.Some?) && n1.records == n.records
            && n1.loops == (if b.row.isBlock then loops else n.loops)
            && n1.targets == n.targets + {req.target} && req.target in n1.mounts && n1.mounts - {req.target} == n.mounts
  {
  }

  /**
    * Publish then unpublish of a fresh target, for a volume without a loop device before,
    * restores mounts, loop devices, target paths and live records.
    */
  lemma UnpublishRestores(
    n: NodeState, nodeId: string, b: Backing, req: NodeRequest, env: PublishEnv, uenv: UnpublishEnv)
    requires NodeInv(n) && req.target !in n.targets && DeviceOf(n.loops, FullPath(b.row.path)).None?
    requires FreshLoop(n.loops, FullPath(b.row.path), env.attach.makes)
    requires forall i :: 0 <= i < |n.records| ==> !NodeMatches(n.records[i], req.volId, nodeId, req.target)
    requires NodePublishSpec(n, nodeId, Some(b), req, env).1.Ok? && UnpublishWorks(uenv)
    ensures var n1 := NodePublishSpec(n, nodeId, Some(b), req, env).0;
            var (n2, reply) := NodeUnpublishSpec(n1, nodeId, Some(b), req.volId, req.target, uenv);
            && reply.Ok? && n2.mounts == n.mounts && n2.loops == n.loops && n2.targets == n.targets
            && |n2.records| == |n.records| + 1 && n2.records[..|n.records|] == n.records
            && n2.records[|n.records|].deleted
  {
    var n1 := NodePublishSpec(n, nodeId, Some(b), req, env).0;
    FreshPublish(n, nodeId, b, req, env);
    if b.row.isBlock {
      DetachUndoesAttach(n.loops, FullPath(b.row.path), env.attach, uenv.detach);
    }
    var n2 := NodeUnpublishSpec(n1, nodeId, Some(b), req.volId, req.target, uenv).0;
    assert n2.targets == n.targets;
    assert n2.records[..|n.records|] == n.records;
  }

  /**
    * One successful unpublish leaves no live record of the target, however often it was published;
    * no other record changes.
    */
  lemma UnpublishClearsRecords(
    n: NodeState, nodeId: string, vol: Option<Backing>, volId: string, target: string, env: UnpublishEnv)
    requires NodeUnpublishSpec(n, nodeId, vol, volId, target, env).1.Ok?
    ensures var n' := NodeUnpublishSpec(n, nodeId, vol, volId, target, env).0;
            && (forall i :: 0 <= i < |n'.records| ==> !NodeMatches(n'.records[i], volId, nodeId, target))
            && |n'.records| == |n.records|
            && (forall i :: 0 <= i < |n.records| && !NodeMatches(n.records[i], volId, nodeId, target) ==>
                  n'.records[i] == n.records[i])
            && target !in n'.targets && (NodeInv(n) ==> target !in n'.mounts)
  {
  }

  /** Publishing a mounted target again mounts nothing but adds one more record. */
  lemma RepublishAddsRecord(n: NodeState, nodeId: string, b: Backing, req: NodeRequest, env: PublishEnv)
    requires NodeInv(n) && req.target in n.mounts && DeviceOf(n.loops, FullPath(b.row.path)).Some? == b.row.isBlock
    requires NodePublishSpec(n, nodeId, Some(b), req, env).1.Ok?
    ensures var n1 := NodePublishSpec(n, nodeId, Some(b), req, env).0;
            n1.mounts == n.mounts && n1.loops == n.loops && n1.targets == n.targets
            && |n1.records| == |n.records| + 1 && n1.records[..|n.records|] == n.records
            && NodeMatches(n1.records[|n.records|], req.volId, nodeId, req.target)
  {
    assert n.targets + {req.target} == n.targets;
  }

  lemma {:induction false} RenderEnds(p: Path, last: string)
    requires last != ""
    ensures var s := Render(p + [last]); s != "" && s[|s| - 1] == last[|last| - 1]
  {
    if p != [] {
      RenderEnds(p[1..], last);
      assert (p + [last])[1..] == p[1..] + [last];
    }
  }

  /** A volume's path does not look like that of a file that is gone. */
  lemma PathIsPlain(r: Row)
    requires RowOk(r)
    ensures !HasSuffix(FullPath(r.path), " (deleted)")
  {
    var p, id := r.path, r.id;
    assert p == [p[0], p[1], p[2]] + [id];
    RenderEnds([p[0], p[1], p[2]], id);
    var path := FullPath(p);
    assert path[|path| - 1] == Render(p)[|Render(p)| - 1] == id[|id| - 1];
    assert id[|id| - 1] in id;
    SuffixEnds(path, " (deleted)");
  }

  lemma SuffixEnds(s: string, end: string)
    requires end != ""
    ensures HasSuffix(s, end) ==> s[|s| - 1] == end[|end| - 1]
  {
  }

  lemma GoneShows(e: LoopEntry)
    ensures e.gone ==> HasSuffix(e.Shown(), " (deleted)")
    ensures !e.gone ==> e.Shown() == e.backing
  {
  }

  /** An entry that shows such a path has its file; with the invariant it is the only one. */
  lemma OnlyEntry(loops: seq<LoopEntry>, path: string, j: nat, k: nat)
    requires LoopsInv(loops) && !HasSuffix(path, " (deleted)")
    requires j < |loops| && k < |loops| && loops[j].Shown() == path && loops[k].Shown() == path
    ensures j == k
  {
    GoneShows(loops[j]);
    GoneShows(loops[k]);
    assert !loops[j].gone && !loops[k].gone;
  }

  lemma DetachFrees(loops: seq<LoopEntry>, present: bool, path: string, env: DetachEnv)
    requires LoopsInv(loops) && present && env.look.stats && env.look.lists && env.removes.Removes?
    requires !HasSuffix(path, " (deleted)")
    ensures DeviceOf(DetachSpec(loops, present, path, env).0, path).None?
  {
    if DeviceOf(loops, path).Some? {
      var d := DeviceOf(loops, path).value;
      var k :| 0 <= k < |loops| && loops[k].Shown() == path && loops[k].device == d;
      var left := WithoutDevice(loops, d);
      forall i | 0 <= i < |left| ensures left[i].Shown() != path {
        assert left[i] in left;
        var j :| 0 <= j < |loops| && loops[j] == left[i];
        if left[i].Shown() == path { OnlyEntry(loops, path, j, k); }
      }
    }
  }

  /** A detach frees no device but one that shows the path. */
  lemma DetachSpares(loops: seq<LoopEntry>, present: bool, path: string, env: DetachEnv, e: LoopEntry)
    requires e in loops && forall i :: 0 <= i < |loops| && loops[i].Shown() == path ==> loops[i].device != e.device
    ensures e in DetachSpec(loops, present, path, env).0
  {
  }

  lemma GoneIsOther(loops: seq<LoopEntry>, path: string, e: LoopEntry)
    requires LoopsInv(loops) && !HasSuffix(path, " (deleted)") && e in loops && e.gone
    ensures forall i :: 0 <= i < |loops| && loops[i].Shown() == path ==> loops[i].device != e.device
  {
    GoneShows(e);
    forall i | 0 <= i < |loops| && loops[i].Shown() == path ensures loops[i].device != e.device {
      OtherDevice(loops, e, i);
    }
  }

  lemma OtherDevice(loops: seq<LoopEntry>, e: LoopEntry, k: nat)
    requires LoopsInv(loops) && e in loops && k < |loops| && loops[k] != e
    ensures loops[k].device != e.device
  {
    var i :| 0 <= i < |loops| && loops[i] == e;
  }

  lemma AttachOnlyAdds(loops: seq<LoopEntry>, present: bool, path: string, env: AttachEnv, e: LoopEntry)
    requires e in loops
    ensures e in AttachSpec(loops, present, path, env).0
  {
  }

  /** The rows the node reads are well formed. */
  predicate RowRead(c: NodeCall) {
    match c
    case Publish(vol, _, _) => vol.Some? ==> RowOk(vol.value.row)
    case Unpublish(vol, _, _, _) => vol.Some? ==> RowOk(vol.value.row)
    case RemoveFiles(_) => true
  }

  lemma FinishLeavesLoops(n: NodeState, nodeId: string, req: NodeRequest, raw: bool, env: PublishEnv)
    ensures FinishSpec(n, nodeId, req, raw, env).0.loops == n.loops
  {
  }

  lemma UnpublishSpares(
    n: NodeState, nodeId: string, b: Backing, volId: string, target: string, env: UnpublishEnv, e: LoopEntry)
    requires NodeInv(n) && RowOk(b.row) && e in n.loops && e.gone
    ensures e in NodeUnpublishSpec(n, nodeId, Some(b), volId, target, env).0.loops
  {
    PathIsPlain(b.row);
    GoneIsOther(n.loops, FullPath(b.row.path), e);
    DetachSpares(n.loops, b.present, FullPath(b.row.path), env.detach, e);
    UnpublishLoops(n, nodeId, b, volId, target, env);
  }

  lemma PublishSpares(n: NodeState, nodeId: string, b: Backing, req: NodeRequest, env: PublishEnv, e: LoopEntry)
    requires e in n.loops
    ensures e in NodePublishSpec(n, nodeId, Some(b), req, env).0.loops
  {
    AttachOnlyAdds(n.loops, b.present, FullPath(b.row.path), env.attach, e);
    PublishLoops(n, nodeId, b, req, env);
  }

  lemma RemovalSparesGone(loops: seq<LoopEntry>, paths: set<string>, e: LoopEntry)
    requires e in loops && e.gone
    ensures e in FilesRemoved(loops, paths)
  {
    var i :| 0 <= i < |loops| && loops[i] == e;
    assert FilesRemoved(loops, paths)[i] == e;
  }

  lemma CallSparesGone(n: NodeState, nodeId: string, c: NodeCall, e: LoopEntry)
    requires NodeInv(n) && RowRead(c) && e in n.loops && e.gone
    ensures e in Call(n, nodeId, c).loops
  {
    match c
    case Publish(vol, req, env) =>
      if vol.Some? { PublishSpares(n, nodeId, vol.value, req, env, e); }
    case Unpublish(vol, volId, target, env) =>
      if vol.Some? { UnpublishSpares(n, nodeId, vol.value, volId, target, env, e); }
    case RemoveFiles(paths) =>
      RemovalSparesGone(n.loops, paths, e);
  }

  /** Once its file is removed, a device stays attached through every run. */
  lemma {:induction false} GoneStaysAttached(
    ns: seq<NodeState>, cs: seq<NodeCall>, nodeId: string, i: nat, j: nat, e: LoopEntry)
    requires NodeHistory(ns, cs, nodeId) && i <= j < |ns| && forall k :: 0 <= k < |cs| ==> RowRead(cs[k])
    requires e in ns[i].loops && e.gone
    ensures e in ns[j].loops
  {
    if i < j {
      GoneStaysAttached(ns, cs, nodeId, i, j - 1, e);
      OneLoopPerFile(ns, cs, nodeId, j - 1);
      CallSparesGone(ns[j - 1], nodeId, cs[j - 1], e);
    }
  }

  /** A working unpublish of a block volume with a loop device frees it exactly when the target is mounted. */
  lemma LoopFreedExactly(n: NodeState, nodeId: string, b: Backing, volId: string, target: string, env: UnpublishEnv)
    requires NodeInv(n) && b.row.isBlock && b.present && DeviceOf(n.loops, FullPath(b.row.path)).Some?
    requires RowOk(b.row) && UnpublishWorks(env) && volId != "" && target != ""
    ensures var (n', reply) := NodeUnpublishSpec(n, nodeId, Some(b), volId, target, env);
            reply.Ok? && (DeviceOf(n'.loops, FullPath(b.row.path)).None? <==> target in n.mounts)
  {
    if target in n.mounts {
      PathIsPlain(b.row);
      DetachFrees(n.loops, b.present, FullPath(b.row.path), env.detach);
    }
  }

  /**
    * Unpublishing twice, first with any outcome and then with nothing failing, succeeds. It
    * leaves the device attached if and only if the first call unmounted the target and then its
    * look-up or its detach did not work.
    */
  lemma UnpublishTwiceExactly(
    n: NodeState, nodeId: string, b: Backing, volId: string, target: string, env: UnpublishEnv, again: UnpublishEnv)
    requires NodeInv(n) && RowOk(b.row) && b.row.isBlock && b.present && DeviceOf(n.loops, FullPath(b.row.path)).Some?
    requires target in n.mounts && volId != "" && target != "" && UnpublishWorks(again)
    ensures var n1 := NodeUnpublishSpec(n, nodeId, Some(b), volId, target, env).0;
            var (n2, reply) := NodeUnpublishSpec(n1, nodeId, Some(b), volId, target, again);
            reply.Ok? &&
            (DeviceOf(n2.loops, FullPath(b.row.path)).Some? <==>
             env.checks && env.unmounts &&
             !(env.detach.look.stats && env.detach.look.lists && env.detach.removes.Removes?))
  {
    var path := FullPath(b.row.path);
    PathIsPlain(b.row);
    FirstUnpublish(n, nodeId, b, volId, target, env);
    UnpublishKeeps(n, nodeId, Some(b), volId, target, env);
    SecondUnpublish(NodeUnpublishSpec(n, nodeId, Some(b), volId, target, env).0, nodeId, b, volId, target, again);
    DetachFreesExactly(n.loops, path, env.detach);
    DetachFreesExactly(n.loops, path, again.detach);
  }

  lemma DetachFreesExactly(loops: seq<LoopEntry>, path: string, env: DetachEnv)
    requires LoopsInv(loops) && !HasSuffix(path, " (deleted)") && DeviceOf(loops, path).Some?
    ensures DeviceOf(DetachSpec(loops, true, path, env).0, path).None? <==>
            (env.look.stats && env.look.lists && env.removes.Removes?)
  {
    if env.look.stats && env.look.lists && env.removes.Removes? {
      DetachFrees(loops, true, path, env);
    }
  }

  lemma FirstUnpublish(
    n: NodeState, nodeId: string, b: Backing, volId: string, target: string, env: UnpublishEnv)
    requires b.row.isBlock && target in n.mounts && target in n.targets && volId != "" && target != ""
    ensures var n' := NodeUnpublishSpec(n, nodeId, Some(b), volId, target, env).0;
            (n'.mounts, n'.loops) ==
            if env.checks && env.unmounts then
              (n.mounts - {target}, DetachSpec(n.loops, b.present, FullPath(b.row.path), env.detach).0)
            else (n.mounts, n.loops)
  {
  }

  lemma SecondUnpublish(
    n: NodeState, nodeId: string, b: Backing, volId: string, target: string, env: UnpublishEnv)
    requires NodeInv(n) && b.row.isBlock && b.present && UnpublishWorks(env) && volId != "" && target != ""
    ensures var (n', reply) := NodeUnpublishSpec(n, nodeId, Some(b), volId, target, env);
            reply.Ok? && n'.loops ==
            if target in n.mounts then DetachSpec(n.loops, b.present, FullPath(b.row.path), env.detach).0 else n.loops
  {
  }

  /** The state after any number of unpublishes of a target, each with its own outcome. */
  function UnpublishAll(
    n: NodeState, nodeId: string, b: Backing, volId: string, target: string, envs: seq<UnpublishEnv>): NodeState
  {
    if envs == [] then n
    else
      var before := UnpublishAll(n, nodeId, b, volId, target, envs[..|envs| - 1]);
      NodeUnpublishSpec(before, nodeId, Some(b), volId, target, envs[|envs| - 1]).0
  }

  /** A target that is not mounted is never looked at again: no later unpublish changes a mount or a loop device. */
  lemma {:induction false} NeverRetried(
    n: NodeState, nodeId: string, b: Backing, volId: string, target: string, envs: seq<UnpublishEnv>)
    requires target !in n.mounts
    ensures var n' := UnpublishAll(n, nodeId, b, volId, target, envs); n'.loops == n.loops && n'.mounts == n.mounts
    decreases |envs|
  {
    if envs != [] {
      NeverRetried(n, nodeId, b, volId, target, envs[..|envs| - 1]);
    }
  }

  /** After an unpublish whose detach fails, the repeated unpublish succeeds and leaves the device attached. */
  lemma FailedDetachLeaks(
    n: NodeState, nodeId: string, b: Backing, volId: string, target: string, env: UnpublishEnv, again: UnpublishEnv)
    requires NodeInv(n) && b.row.isBlock && b.present && DeviceOf(n.loops, FullPath(b.row.path)).Some?
    requires target in n.mounts
    requires UnpublishWorks(again) && volId != "" && target != ""
    requires UnpublishWorks(env.(detach := env.detach.(removes := Removes))) && env.detach.removes.Fails?
    ensures var (n1, reply1) := NodeUnpublishSpec(n, nodeId, Some(b), volId, target, env);
            var (n2, reply2) := NodeUnpublishSpec(n1, nodeId, Some(b), volId, target, again);
            reply1 == Err(Internal) && reply2 == Ok(()) && n2.loops == n.loops && target !in n2.mounts
  {
  }

  /**
    * A failed publish removes a volume's own files if and only if a file system is mounted
    * writable on the target, by this publish or an earlier one and whatever this one asks for,
    * then the mode or the record fails, and the unmount fails too.
    */
  lemma FailedPublishErasesExactly(n: NodeState, nodeId: string, b: Backing, req: NodeRequest, env: PublishEnv)
    requires NodeInv(n) && n.erased == {}
    ensures NodePublishSpec(n, nodeId, Some(b), req, env).0.erased != {} <==>
            && req.cap.Some? && req.volId != "" && req.target != ""
            && var (n1, failed) := Prepared(n, b, req, env);
            && failed.None? && req.target in n1.mounts && Reaches(n1.mounts[req.target])
            && !(env.chmods && env.inserts) && !env.unmounts
  {
    if req.cap.Some? {
      PreparedLeaves(n, b, req, env);
    }
  }

  lemma PreparedLeaves(n: NodeState, b: Backing, req: NodeRequest, env: PublishEnv)
    requires NodeInv(n) && req.cap.Some?
    ensures var n1 := Prepared(n, b, req, env).0; n1.erased == n.erased && n1.mounts.Keys <= n1.targets
  {
  }

  /**
    * On a fresh target that means: a mount access that is not read-only. On a target already
    * mounted writable a read-only publish does it too.
    */
  lemma FreshPublishErasesExactly(n: NodeState, nodeId: string, b: Backing, req: NodeRequest, env: PublishEnv)
    requires NodeInv(n) && req.target !in n.targets && n.erased == {}
    ensures NodePublishSpec(n, nodeId, Some(b), req, env).0.erased != {} <==>
            && req.cap == Some(Mount) && req.volId != "" && req.target != "" && MountSpec(n, b, req, env).1.None?
            && !req.readOnly && !(env.chmods && env.inserts) && !env.unmounts
  {
    FailedPublishErasesExactly(n, nodeId, b, req, env);
    if req.cap == Some(Mount) && MountSpec(n, b, req, env).1.None? {
      FreshMountReached(n, b, req, env);
    } else if req.cap == Some(Block) && RawSpec(n, b, req, env).1.None? {
      RawNotReached(n, b, req, env);
    }
  }

  /** It happens to the first publish of any folder volume whose mode and unmount fail: its files are removed. */
  lemma ErasureHappens(nodeId: string, r: Row, req: NodeRequest, env: PublishEnv)
    requires !r.isBlock && req.cap == Some(Mount) && !req.readOnly && req.volId != "" && req.target != ""
    requires TYPE_PARAMETER in req.context && req.context[TYPE_PARAMETER] == "folder"
    requires env.checks && env.makes && env.mounts && !env.chmods && !env.unmounts
    ensures var (n, reply) := NodePublishSpec(NoState(), nodeId, Some(Backing(r, true)), req, env);
            reply == Err(Internal) && n.erased == {FullPath(r.path)}
  {
    var n1 := MountSpec(NoState(), Backing(r, true), req, env).0;
    assert n1.mounts[req.target].source == FullPath(r.path) && Reaches(n1.mounts[req.target]);
  }

  lemma FreshMountReached(n: NodeState, b: Backing, req: NodeRequest, env: PublishEnv)
    requires req.target !in n.targets && n.erased == {} && MountSpec(n, b, req, env).1.None?
    ensures var n1 := MountSpec(n, b, req, env).0;
            && n1.erased == {} && req.target in n1.mounts && req.target in n1.targets
            && (Reaches(n1.mounts[req.target]) <==> !req.readOnly)
  {
  }

  lemma RawNotReached(n: NodeState, b: Backing, req: NodeRequest, env: PublishEnv)
    requires NodeInv(n) && req.target !in n.targets && n.erased == {} && RawSpec(n, b, req, env).1.None?
    ensures var n1 := RawSpec(n, b, req, env).0;
            n1.erased == {} && req.target in n1.mounts && n1.mounts[req.target].raw
  {
  }

  // ---------------------------------------------------------------- a volume deleted while published

  function VolumeOf(c: NodeCall): string {
    match c
    case Publish(_, req, _) => req.volId
    case Unpublish(_, volId, _, _) => volId
    case RemoveFiles(_) => ""
  }

  function TargetOf(c: NodeCall): string {
    match c
    case Publish(_, req, _) => req.target
    case Unpublish(_, _, target, _) => target
    case RemoveFiles(_) => ""
  }

  /** The call finds a row exactly if the table has a live one. */
  predicate Reads(c: NodeCall, rows: seq<Row>) {
    match c
    case Publish(vol, req, _) => vol.Some? <==> FindId(rows, req.volId).Some?
    case Unpublish(vol, volId, _, _) => vol.Some? <==> FindId(rows, volId).Some?
    case RemoveFiles(_) => true
  }

  /** Each call reads the volume table as it is at some moment of one run, one call after the other. */
  ghost predicate ReadsRun(cs: seq<NodeCall>, steps: seq<Step>, cuts: seq<nat>) {
    && |cuts| == |cs| && (forall k, l :: 0 <= k < l < |cuts| ==> cuts[k] <= cuts[l])
    && forall k :: 0 <= k < |cuts| ==> cuts[k] <= |steps| && Reads(cs[k], Run(Init(), steps[..cuts[k]]).s.rows)
  }

  /** The call, made after the volume was deleted, changes nothing if it names the volume. */
  lemma CallAfterDelete(n: NodeState, nodeId: string, c: NodeCall, steps: seq<Step>, cut: nat, at: nat, volId: string)
    requires at <= cut <= |steps| && LifeOf(Run(Init(), steps[..at]).s.rows, volId) == Gone
    requires Reads(c, Run(Init(), steps[..cut]).s.rows) && VolumeOf(c) == volId && !c.RemoveFiles?
    ensures Call(n, nodeId, c) == n
  {
    IdLife(steps[..cut], at, volId);
    assert steps[..cut][..at] == steps[..at];
    var rows := Run(Init(), steps[..cut]).s.rows;
    assert LifeOf(rows, volId) == Gone;
    assert FindId(rows, volId).None?;
  }

  /** The calls from `i` on come after the volume was deleted. */
  ghost predicate AfterDelete(cs: seq<NodeCall>, steps: seq<Step>, cuts: seq<nat>, i: nat, volId: string) {
    && ReadsRun(cs, steps, cuts) && volId != ""
    && exists at :: 0 <= at <= |steps| && LifeOf(Run(Init(), steps[..at]).s.rows, volId) == Gone
                    && forall k :: i <= k < |cuts| ==> at <= cuts[k]
  }

  lemma DeletedCallIdle(
    ns: seq<NodeState>, cs: seq<NodeCall>, nodeId: string, steps: seq<Step>, cuts: seq<nat>, i: nat, j: nat,
    volId: string)
    requires NodeHistory(ns, cs, nodeId) && AfterDelete(cs, steps, cuts, i, volId) && i <= j < |cs|
    ensures VolumeOf(cs[j]) == volId ==> ns[j + 1] == ns[j]
  {
    if VolumeOf(cs[j]) == volId {
      var at :| 0 <= at <= |steps| && LifeOf(Run(Init(), steps[..at]).s.rows, volId) == Gone
                && forall k :: i <= k < |cuts| ==> at <= cuts[k];
      CallAfterDelete(ns[j], nodeId, cs[j], steps, cuts[j], at, volId);
    }
  }

  lemma RecordOfOther(n: NodeState, nodeId: string, c: NodeCall, k: nat)
    requires k < |n.records| && VolumeOf(c) != n.records[k].volId
    ensures k < |Call(n, nodeId, c).records| && Call(n, nodeId, c).records[k] == n.records[k]
  {
    if c.Publish? && c.vol.Some? && c.req.cap.Some? {
      PreparedRecords(n, c.vol.value, c.req, c.penv);
    }
  }

  lemma PreparedRecords(n: NodeState, b: Backing, req: NodeRequest, env: PublishEnv)
    requires req.cap.Some?
    ensures Prepared(n, b, req, env).0.records == n.records
  {
  }

  /** What every step keeps, the steps keep. */
  lemma {:induction false} Stays(ns: seq<NodeState>, i: nat, j: nat, p: NodeState -> bool)
    requires i <= j < |ns| && p(ns[i]) && forall m :: i <= m < j && p(ns[m]) ==> p(ns[m + 1])
    ensures p(ns[j])
  {
    if i < j { Stays(ns, i, j - 1, p); }
  }

  predicate HasRecord(n: NodeState, k: nat, r: NodeRecord) {
    k < |n.records| && n.records[k] == r
  }

  lemma RecordNext(
    ns: seq<NodeState>, cs: seq<NodeCall>, nodeId: string, steps: seq<Step>, cuts: seq<nat>, i: nat, j: nat, k: nat,
    r: NodeRecord)
    requires NodeHistory(ns, cs, nodeId) && i <= j < |cs| && HasRecord(ns[j], k, r)
    requires AfterDelete(cs, steps, cuts, i, r.volId)
    ensures HasRecord(ns[j + 1], k, r)
  {
    if VolumeOf(cs[j]) == r.volId {
      DeletedCallIdle(ns, cs, nodeId, steps, cuts, i, j, r.volId);
    } else {
      RecordOfOther(ns[j], nodeId, cs[j], k);
    }
  }

  /** The node records of a volume stay as they are through every run after it was deleted. */
  lemma DeletedKeepsNodeRecords(
    ns: seq<NodeState>, cs: seq<NodeCall>, nodeId: string, steps: seq<Step>, cuts: seq<nat>, i: nat, j: nat, k: nat)
    requires NodeHistory(ns, cs, nodeId) && i <= j < |ns| && k < |ns[i].records|
    requires AfterDelete(cs, steps, cuts, i, ns[i].records[k].volId)
    ensures k < |ns[j].records| && ns[j].records[k] == ns[i].records[k]
  {
    var r := ns[i].records[k];
    forall m | i <= m < j && HasRecord(ns[m], k, r) ensures HasRecord(ns[m + 1], k, r) {
      RecordNext(ns, cs, nodeId, steps, cuts, i, m, k, r);
    }
    Stays(ns, i, j, n => HasRecord(n, k, r));
  }

  lemma MountOfOther(n: NodeState, nodeId: string, c: NodeCall, target: string)
    requires target in n.mounts && TargetOf(c) != target
    ensures target in Call(n, nodeId, c).mounts && Call(n, nodeId, c).mounts[target] == n.mounts[target]
  {
    match c
    case Publish(vol, req, env) =>
      if vol.Some? && req.cap.Some? { PreparedMounts(n, vol.value, req, env, target); }
    case _ =>
  }

  lemma PreparedMounts(n: NodeState, b: Backing, req: NodeRequest, env: PublishEnv, target: string)
    requires req.cap.Some? && target in n.mounts && req.target != target
    ensures var mounts := Prepared(n, b, req, env).0.mounts; target in mounts && mounts[target] == n.mounts[target]
  {
  }

  predicate HasMount(n: NodeState, target: string, mounted: Mounted) {
    target in n.mounts && n.mounts[target] == mounted
  }

  lemma MountNext(
    ns: seq<NodeState>, cs: seq<NodeCall>, nodeId: string, steps: seq<Step>, cuts: seq<nat>,
    i: nat, j: nat, volId: string, target: string, mounted: Mounted)
    requires NodeHistory(ns, cs, nodeId) && i <= j < |cs| && HasMount(ns[j], target, mounted)
    requires AfterDelete(cs, steps, cuts, i, volId) && (VolumeOf(cs[j]) != volId ==> TargetOf(cs[j]) != target)
    ensures HasMount(ns[j + 1], target, mounted)
  {
    if VolumeOf(cs[j]) == volId {
      DeletedCallIdle(ns, cs, nodeId, steps, cuts, i, j, volId);
    } else {
      MountOfOther(ns[j], nodeId, cs[j], target);
    }
  }

  /**
    * A target of a deleted volume stays mounted through every run in which no other volume
    * uses it: the node cannot unpublish what has no row.
    */
  lemma DeletedStaysMounted(
    ns: seq<NodeState>, cs: seq<NodeCall>, nodeId: string, steps: seq<Step>, cuts: seq<nat>,
    i: nat, j: nat, volId: string, target: string)
    requires NodeHistory(ns, cs, nodeId) && i <= j < |ns| && target in ns[i].mounts && target != ""
    requires AfterDelete(cs, steps, cuts, i, volId)
    requires forall k :: i <= k < |cs| && VolumeOf(cs[k]) != volId ==> TargetOf(cs[k]) != target
    ensures target in ns[j].mounts && ns[j].mounts[target] == ns[i].mounts[target]
  {
    var mounted := ns[i].mounts[target];
    forall m | i <= m < j && HasMount(ns[m], target, mounted) ensures HasMount(ns[m + 1], target, mounted) {
      MountNext(ns, cs, nodeId, steps, cuts, i, m, volId, target, mounted);
    }
    Stays(ns, i, j, n => HasMount(n, target, mounted));
  }

  /** When nothing fails, an unpublish of a target with live records clears them if and only if the volume has a row. */
  lemma UnpublishNeedsRow(
    n: NodeState, nodeId: string, vol: Option<Backing>, volId: string, target: string, env: UnpublishEnv, i: nat)
    requires UnpublishWorks(env) && volId != "" && target != ""
    requires i < |n.records| && NodeMatches(n.records[i], volId, nodeId, target)
    ensures var (n', reply) := NodeUnpublishSpec(n, nodeId, vol, volId, target, env);
            && (reply.Ok? <==> vol.Some?)
            && (vol.Some? <==> forall k :: 0 <= k < |n'.records| ==> !NodeMatches(n'.records[k], volId, nodeId, target))
  {
  }

  // ---------------------------------------------------------------- the volume type, from create to publish

  /**
    * Every request the create admits gives a block flag that the node's type check passes, whatever
    * the capabilities.
    */
  lemma AdmittedTypePasses(req: CreateRequest)
    requires Admit(req).Ok?
    ensures TypeCheck(req.params, Admit(req).value).None?
  {
  }

  /** A volume's reported type passes it too. */
  lemma ReportedTypePasses(r: Row, disk: Disk, recs: seq<PublishRecord>, bad: set<Path>)
    ensures TypeCheck(map[TYPE_PARAMETER := DetailOf(r, disk, recs, bad).kind], r.isBlock).None?
  {
  }

  /**
    * For a block access, a volume admitted by the create is published on a fresh target, when
    * nothing fails, exactly if it is a block volume, whatever its type says.
    */
  lemma AdmittedRawExactly(
    req: CreateRequest, n: NodeState, b: Backing, target: string, readOnly: bool, env: PublishEnv)
    requires Admit(req).Ok? && b.row.isBlock == Admit(req).value && b.present && target !in n.targets && NodeInv(n)
    requires env.checks && env.makes && env.mounts && env.looks && env.attach.look.stats && env.attach.look.lists
    requires env.attach.makes.Some?
    ensures RawSpec(n, b, NodeRequest(b.row.id, target, Some(Block), readOnly, req.params), env).1.None? <==>
              (HasBlock(req.caps.value) || req.params[TYPE_PARAMETER] == "disk")
  {
  }

  /**
    * For a mount access, a volume admitted by the create is mounted on a fresh target, when
    * nothing fails, exactly for the type "folder", or "disk" with a file system type; any other
    * type is admitted by the create and refused by the node.
    */
  lemma AdmittedMountsExactly(
    req: CreateRequest, n: NodeState, b: Backing, target: string, readOnly: bool, env: PublishEnv)
    requires Admit(req).Ok? && b.row.isBlock == Admit(req).value && b.present && target !in n.targets && NodeInv(n)
    requires env.checks && env.makes && env.mounts && env.attach.look.stats && env.attach.look.lists
    requires env.attach.makes.Some?
    ensures MountSpec(n, b, NodeRequest(b.row.id, target, Some(Mount), readOnly, req.params), env).1.None? <==>
              req.params[TYPE_PARAMETER] == "folder" ||
              (req.params[TYPE_PARAMETER] == "disk" && FS_TYPE_PARAMETER in req.params)
  {
    AdmittedTypePasses(req);
  }
}
