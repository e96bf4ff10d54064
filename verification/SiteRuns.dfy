/**
  * One node beside the controller, the clean-up job and the pods: its calls read the volume
  * table and the tree as they are at that moment, and a loop device loses its file when a step
  * removes it. What such runs leave attached.
  */
module SiteRuns {
  import opened Prelude
  import opened Catalogue
  import opened StepMachine
  import opened Invariants
  import opened RunProperties
  import opened Losetup
  import opened Loops
  import opened Handlers
  import opened Node
  import opened NodeRuns

  datatype Site = Site(w: World, n: NodeState)

  datatype Event =
    | Do(st: Step)
    | PublishVolume(req: NodeRequest, penv: PublishEnv)
    | UnpublishVolume(volId: string, target: string, uenv: UnpublishEnv)

  /** What a call of the node finds for a volume id. */
  function Lookup(s: Store, volId: string): Option<Backing> {
    match FindId(s.rows, volId)
    case None => None
    case Some(i) => Some(Backing(s.rows[i], s.rows[i].path in s.disk))
  }

  /** The volume paths, as the node sees them, that a step takes out of the tree. */
  ghost function Unlinked(s: Store, after: Store): set<string> {
    set i | 0 <= i < |s.rows| && s.rows[i].path in s.disk && s.rows[i].path !in after.disk :: FullPath(s.rows[i].path)
  }

  ghost function Happen(t: Site, nodeId: string, e: Event): Site {
    match e
    case Do(st) =>
      var w := Apply(t.w, st);
      Site(w, t.n.(loops := FilesRemoved(t.n.loops, Unlinked(t.w.s, w.s))))
    case PublishVolume(req, env) =>
      t.(n := NodePublishSpec(t.n, nodeId, Lookup(t.w.s, req.volId), req, env).0)
    case UnpublishVolume(volId, target, env) =>
      t.(n := NodeUnpublishSpec(t.n, nodeId, Lookup(t.w.s, volId), volId, target, env).0)
  }

  ghost function HappenAll(nodeId: string, es: seq<Event>): Site {
    if es == [] then Site(Init(), NoState()) else Happen(HappenAll(nodeId, es[..|es| - 1]), nodeId, es[|es| - 1])
  }

  /** Devices that `losetup -f` makes are unused and backed by the file asked for. */
  ghost predicate FairEvent(t: Site, e: Event) {
    e.PublishVolume? ==>
      var vol := Lookup(t.w.s, e.req.volId);
      vol.Some? ==> FreshLoop(t.n.loops, FullPath(vol.value.row.path), e.penv.attach.makes)
  }

  ghost predicate Fair(nodeId: string, es: seq<Event>) {
    forall n :: 0 <= n < |es| ==> FairEvent(HappenAll(nodeId, es[..n]), es[n])
  }

  /** The steps among the events. */
  function StepsOf(es: seq<Event>): seq<Step> {
    if es == [] then []
    else StepsOf(es[..|es| - 1]) + if es[|es| - 1].Do? then [es[|es| - 1].st] else []
  }

  /** The events' steps are a run of the step machine. */
  lemma {:induction false} WorldIsRun(nodeId: string, es: seq<Event>)
    ensures HappenAll(nodeId, es).w == Run(Init(), StepsOf(es))
    decreases |es|
  {
    if es != [] {
      var n := |es| - 1;
      WorldIsRun(nodeId, es[..n]);
      if es[n].Do? {
        RunSnoc(Init(), StepsOf(es[..n]), es[n].st);
      } else {
        assert StepsOf(es) == StepsOf(es[..n]);
      }
    }
  }

  // ---------------------------------------------------------------- counting devices

  /** The number of devices of a path whose file is gone, or is there. */
  function Count(loops: seq<LoopEntry>, path: string, gone: bool): nat {
    if loops == [] then 0
    else
      Count(loops[..|loops| - 1], path, gone) +
      if loops[|loops| - 1].backing == path && loops[|loops| - 1].gone == gone then 1 else 0
  }

  /** The number of devices ever made for a path that are still attached. */
  function Devices(loops: seq<LoopEntry>, path: string): nat {
    Count(loops, path, false) + Count(loops, path, true)
  }

  lemma CountSnoc(loops: seq<LoopEntry>, e: LoopEntry, path: string, gone: bool)
    ensures Count(loops + [e], path, gone) ==
            Count(loops, path, gone) + if e.backing == path && e.gone == gone then 1 else 0
  {
    assert (loops + [e])[..|loops|] == loops;
  }

  lemma {:induction false} CountCons(loops: seq<LoopEntry>, e: LoopEntry, path: string, gone: bool)
    ensures Count([e] + loops, path, gone) ==
            Count(loops, path, gone) + if e.backing == path && e.gone == gone then 1 else 0
    decreases |loops|
  {
    if loops == [] {
      CountSnoc([], e, path, gone);
      assert [e] + loops == [] + [e];
    } else {
      var n := |loops| - 1;
      CountCons(loops[..n], e, path, gone);
      CountSnoc([e] + loops[..n], loops[n], path, gone);
      assert [e] + loops == ([e] + loops[..n]) + [loops[n]];
    }
  }

  lemma {:induction false} CountNone(loops: seq<LoopEntry>, path: string, gone: bool)
    ensures Count(loops, path, gone) > 0 <==> Attached(loops, path, gone)
    decreases |loops|
  {
    if loops != [] {
      var n := |loops| - 1;
      CountNone(loops[..n], path, gone);
      assert forall i :: 0 <= i < n ==> loops[..n][i] == loops[i];
    }
  }

  lemma {:induction false} CountWithout(loops: seq<LoopEntry>, device: string, path: string, gone: bool)
    ensures Count(WithoutDevice(loops, device), path, gone) <= Count(loops, path, gone)
  {
    if loops != [] {
      CountWithout(loops[1..], device, path, gone);
      CountCons(loops[1..], loops[0], path, gone);
      assert [loops[0]] + loops[1..] == loops;
      CountCons(WithoutDevice(loops[1..], device), loops[0], path, gone);
    }
  }

  /** A file that is there has at most one device. */
  lemma {:induction false} CountPresent(loops: seq<LoopEntry>, path: string)
    requires LoopsInv(loops)
    ensures Count(loops, path, false) <= 1
    decreases |loops|
  {
    if loops != [] {
      var n := |loops| - 1;
      CountPresent(loops[..n], path);
      CountNone(loops[..n], path, false);
    }
  }

  /** Removing files makes their devices gone, and changes no other count. */
  lemma {:induction false} CountRemoved(loops: seq<LoopEntry>, paths: set<string>, path: string)
    ensures var l := FilesRemoved(loops, paths);
            && Devices(l, path) == Devices(loops, path)
            && (path in paths ==> Count(l, path, false) == 0)
            && (path !in paths ==> Count(l, path, true) == Count(loops, path, true))
    decreases |loops|
  {
    if loops != [] {
      var n := |loops| - 1;
      CountRemoved(loops[..n], paths, path);
      assert FilesRemoved(loops, paths)[..n] == FilesRemoved(loops[..n], paths);
    }
  }

  // ---------------------------------------------------------------- one volume's devices

  lemma SameFullPath(a: Row, b: Row)
    requires RowOk(a) && RowOk(b) && FullPath(a.path) == FullPath(b.path)
    ensures a.path == b.path
  {
    assert Render(a.path) == FullPath(a.path)[|VOLS_PATH|..] == FullPath(b.path)[|VOLS_PATH|..] == Render(b.path);
    ShardPathInjective(a.id, b.id);
  }

  ghost predicate RemovingPath(w: World, p: Path) {
    w.job.Removing? && w.job.f == p
  }

  /**
    * Devices of row `i`. While the row lives, one file at most was removed under its device, and
    * then the job is not about to remove another; a second device needs an exposing look-up.
    */
  ghost predicate RowDevices(t: Site, steps: seq<Step>, i: nat)
    requires i < |t.w.s.rows|
  {
    var r := t.w.s.rows[i]; var path := FullPath(r.path);
    && (Count(t.n.loops, path, false) > 0 ==> r.path in t.w.s.disk)
    && (IsLive(r) && Count(t.n.loops, path, true) > 0 ==>
          Count(t.n.loops, path, true) == 1 && !RemovingPath(t.w, r.path) && Exposed(steps, r.path))
    && Devices(t.n.loops, path) <= 2
    && (Devices(t.n.loops, path) == 2 ==> Exposed(steps, r.path))
  }

  ghost predicate OwnedPath(rows: seq<Row>, path: string) {
    exists i :: 0 <= i < |rows| && path == FullPath(rows[i].path)
  }

  /** Every device was made for a volume of the table. */
  ghost predicate Owned(t: Site) {
    forall k :: 0 <= k < |t.n.loops| ==> OwnedPath(t.w.s.rows, t.n.loops[k].backing)
  }

  ghost predicate SiteInv(t: Site, steps: seq<Step>) {
    && t.w == Run(Init(), steps) && Inv(t.w) && NodeInv(t.n) && Owned(t)
    && forall i :: 0 <= i < |t.w.s.rows| ==> RowDevices(t, steps, i)
  }

  lemma ExposedLonger(steps: seq<Step>, st: Step, p: Path)
    requires Exposed(steps, p)
    ensures Exposed(steps + [st], p)
  {
    var j :| 0 <= j < |steps| && ExposingCheck(Run(Init(), steps[..j]), steps[j], p);
    assert (steps + [st])[..j] == steps[..j] && (steps + [st])[j] == steps[j];
  }

  /** A volume's path is among the unlinked ones exactly if it was there and is not any more. */
  lemma UnlinkedExactly(w: World, after: Store, i: nat)
    requires Inv(w) && i < |w.s.rows|
    ensures FullPath(w.s.rows[i].path) in Unlinked(w.s, after) <==>
            w.s.rows[i].path in w.s.disk && w.s.rows[i].path !in after.disk
  {
    if FullPath(w.s.rows[i].path) in Unlinked(w.s, after) {
      var j :| 0 <= j < |w.s.rows| && w.s.rows[j].path in w.s.disk && w.s.rows[j].path !in after.disk
               && FullPath(w.s.rows[j].path) == FullPath(w.s.rows[i].path);
      SameFullPath(w.s.rows[j], w.s.rows[i]);
    }
  }

  /** Only a removal by the job takes a live volume's path away; with the path the removal is over. */
  lemma LiveUnlinked(w: World, st: Step, i: nat)
    requires Inv(w) && i < |w.s.rows| && IsLive(w.s.rows[i])
    requires w.s.rows[i].path in w.s.disk && w.s.rows[i].path !in Apply(w, st).s.disk
    ensures RemovingPath(w, w.s.rows[i].path) && !RemovingPath(Apply(w, st), w.s.rows[i].path)
    ensures Apply(w, st).s.rows == w.s.rows
  {
    LiveVolumeEffect(w, st, i);
  }

  // ---------------------------------------------------------------- what a step keeps

  lemma RowStepKeeps(t: Site, steps: seq<Step>, nodeId: string, st: Step, i: nat)
    requires SiteInv(t, steps) && i < |t.w.s.rows| && i < |Apply(t.w, st).s.rows|
    requires Apply(t.w, st) == Run(Init(), steps + [st])
    ensures RowDevices(Happen(t, nodeId, Do(st)), steps + [st], i)
  {
    var t', r, path := Happen(t, nodeId, Do(st)), t.w.s.rows[i], FullPath(t.w.s.rows[i].path);
    assert RowDevices(t, steps, i);
    StepEvolves(t.w, st);
    assert RowEvolves(r, t'.w.s.rows[i]);
    UnlinkedExactly(t.w, t'.w.s, i);
    CountRemoved(t.n.loops, Unlinked(t.w.s, t'.w.s), path);
    CountPresent(t.n.loops, path);
    if Exposed(steps, r.path) { ExposedLonger(steps, st, r.path); }
    if IsLive(r) && r.path in t.w.s.disk && r.path !in t'.w.s.disk {
      LiveUnlinked(t.w, st, i);
      LossNeedsExposure(steps + [st], i);
    } else if IsLive(r) && !RemovingPath(t.w, r.path) {
      CheckSparesLive(t.w, st, i);
    }
  }

  lemma NoDevices(t: Site, steps: seq<Step>, i: nat)
    requires i < |t.w.s.rows|
    requires forall k :: 0 <= k < |t.n.loops| ==> t.n.loops[k].backing != FullPath(t.w.s.rows[i].path)
    ensures RowDevices(t, steps, i)
  {
    CountNone(t.n.loops, FullPath(t.w.s.rows[i].path), false);
    CountNone(t.n.loops, FullPath(t.w.s.rows[i].path), true);
  }

  /** A row that was just committed has no device yet. */
  lemma NewRowHasNone(t: Site, w: World, nodeId: string, steps: seq<Step>, n: nat)
    requires Owned(t) && Inv(w) && n == |t.w.s.rows| < |w.s.rows| && w.s.rows[..n] == t.w.s.rows
    ensures RowDevices(Site(w, t.n.(loops := FilesRemoved(t.n.loops, Unlinked(t.w.s, w.s)))), steps, n)
  {
    var loops := FilesRemoved(t.n.loops, Unlinked(t.w.s, w.s));
    NewPathUnowned(t.w.s.rows, w, n);
    assert forall k :: 0 <= k < |loops| ==> loops[k].backing == t.n.loops[k].backing;
    NoDevices(Site(w, t.n.(loops := loops)), steps, n);
  }

  lemma NewPathUnowned(rows: seq<Row>, w: World, n: nat)
    requires Inv(w) && n == |rows| < |w.s.rows| && w.s.rows[..n] == rows
    ensures !OwnedPath(rows, FullPath(w.s.rows[n].path))
  {
    forall i | 0 <= i < n ensures FullPath(rows[i].path) != FullPath(w.s.rows[n].path) {
      assert rows[i] == w.s.rows[i];
      NotSameFullPath(w, i, n);
    }
  }

  lemma NotSameFullPath(w: World, i: nat, j: nat)
    requires Inv(w) && i < |w.s.rows| && j < |w.s.rows| && i != j
    ensures FullPath(w.s.rows[i].path) != FullPath(w.s.rows[j].path)
  {
    if FullPath(w.s.rows[i].path) == FullPath(w.s.rows[j].path) {
      SameFullPath(w.s.rows[i], w.s.rows[j]);
      OnePathOneRow(w.s.rows, w.used, i);
    }
  }

  lemma OwnedKept(t: Site, t': Site)
    requires RowsEvolve(t.w.s.rows, t'.w.s.rows)
    requires forall k :: 0 <= k < |t'.n.loops| ==> OwnedPath(t.w.s.rows, t'.n.loops[k].backing)
    ensures Owned(t')
  {
    forall k | 0 <= k < |t'.n.loops| ensures OwnedPath(t'.w.s.rows, t'.n.loops[k].backing) {
      var i :| 0 <= i < |t.w.s.rows| && t'.n.loops[k].backing == FullPath(t.w.s.rows[i].path);
      assert RowEvolves(t.w.s.rows[i], t'.w.s.rows[i]);
    }
  }

  lemma StepKeepsOwned(t: Site, nodeId: string, st: Step)
    requires Owned(t)
    ensures Owned(Happen(t, nodeId, Do(st)))
  {
    var t' := Happen(t, nodeId, Do(st));
    StepEvolves(t.w, st);
    assert forall k :: 0 <= k < |t'.n.loops| ==> t'.n.loops[k].backing == t.n.loops[k].backing;
    OwnedKept(t, t');
  }

  lemma RowsAppended(w: World, st: Step)
    ensures var n, rows := |w.s.rows|, Apply(w, st).s.rows; |rows| == n || (|rows| == n + 1 && rows[..n] == w.s.rows)
  {
    NewRowWasPending(w, st);
  }

  lemma RowsStepKeeps(t: Site, steps: seq<Step>, nodeId: string, st: Step)
    requires SiteInv(t, steps) && Apply(t.w, st) == Run(Init(), steps + [st])
    ensures var t' := Happen(t, nodeId, Do(st)); forall i :: 0 <= i < |t'.w.s.rows| ==> RowDevices(t', steps + [st], i)
  {
    RowsAppended(t.w, st);
    StepKeeps(t.w, st);
    forall i | 0 <= i < |Apply(t.w, st).s.rows| ensures RowDevices(Happen(t, nodeId, Do(st)), steps + [st], i) {
      if i < |t.w.s.rows| {
        RowStepKeeps(t, steps, nodeId, st, i);
      } else {
        NewRowHasNone(t, Apply(t.w, st), nodeId, steps + [st], i);
      }
    }
  }

  lemma StepKeepsSite(t: Site, steps: seq<Step>, nodeId: string, st: Step)
    requires SiteInv(t, steps)
    ensures SiteInv(Happen(t, nodeId, Do(st)), steps + [st])
  {
    var t' := Happen(t, nodeId, Do(st));
    RunSnoc(Init(), steps, st);
    StepKeeps(t.w, st);
    FilesRemovedKeeps(t.n.loops, Unlinked(t.w.s, t'.w.s));
    StepKeepsOwned(t, nodeId, st);
    RowsStepKeeps(t, steps, nodeId, st);
  }

  // ---------------------------------------------------------------- what a call keeps

  /** An attach adds a device only for a file that is there and has none. */
  lemma AttachAdds(loops: seq<LoopEntry>, b: Backing, env: AttachEnv)
    requires RowOk(b.row) && FreshLoop(loops, FullPath(b.row.path), env.makes)
    ensures var path := FullPath(b.row.path); var l := AttachSpec(loops, b.present, path, env).0;
            l == loops ||
            (b.present && env.makes.Some? && l == loops + [env.makes.value] && Count(loops, path, false) == 0)
  {
    PathIsPlain(b.row);
    FoundExactly(loops, FullPath(b.row.path));
    CountNone(loops, FullPath(b.row.path), false);
  }

  lemma RowAttachKeeps(t: Site, steps: seq<Step>, t': Site, k: nat, e: LoopEntry, i: nat)
    requires SiteInv(t, steps) && t'.w == t.w && t'.n.loops == t.n.loops + [e]
    requires k < |t.w.s.rows| && IsLive(t.w.s.rows[k]) && t.w.s.rows[k].path in t.w.s.disk && i < |t.w.s.rows|
    requires e.backing == FullPath(t.w.s.rows[k].path) && !e.gone && Count(t.n.loops, e.backing, false) == 0
    ensures RowDevices(t', steps, i)
  {
    var path := FullPath(t.w.s.rows[i].path);
    assert RowDevices(t, steps, i);
    CountSnoc(t.n.loops, e, path, false);
    CountSnoc(t.n.loops, e, path, true);
    if i != k { NotSameFullPath(t.w, i, k); }
  }

  lemma PublishKeepsSite(t: Site, steps: seq<Step>, nodeId: string, req: NodeRequest, env: PublishEnv)
    requires SiteInv(t, steps) && FairEvent(t, PublishVolume(req, env))
    ensures SiteInv(Happen(t, nodeId, PublishVolume(req, env)), steps)
  {
    var t' := Happen(t, nodeId, PublishVolume(req, env));
    PublishKeeps(t.n, nodeId, Lookup(t.w.s, req.volId), req, env);
    var found := FindId(t.w.s.rows, req.volId);
    if found.Some? {
      var b := Lookup(t.w.s, req.volId).value;
      PublishLoops(t.n, nodeId, b, req, env);
      AttachAdds(t.n.loops, b, env.attach);
      if t'.n.loops == t.n.loops {
        SameLoopsKeep(t, steps, t');
      } else {
        AddedDeviceKeeps(t, steps, t', found.value, env.attach.makes.value);
      }
    } else {
      SameLoopsKeep(t, steps, t');
    }
  }

  lemma SameLoopsKeep(t: Site, steps: seq<Step>, t': Site)
    requires SiteInv(t, steps) && t'.w == t.w && t'.n.loops == t.n.loops && NodeInv(t'.n)
    ensures SiteInv(t', steps)
  {
    forall i | 0 <= i < |t.w.s.rows| ensures RowDevices(t', steps, i) {
      assert RowDevices(t, steps, i);
    }
    assert RowsEvolve(t.w.s.rows, t'.w.s.rows);
    OwnedKept(t, t');
  }

  lemma AddedDeviceKeeps(t: Site, steps: seq<Step>, t': Site, k: nat, e: LoopEntry)
    requires SiteInv(t, steps) && t'.w == t.w && t'.n.loops == t.n.loops + [e] && NodeInv(t'.n)
    requires k < |t.w.s.rows| && IsLive(t.w.s.rows[k]) && t.w.s.rows[k].path in t.w.s.disk
    requires e.backing == FullPath(t.w.s.rows[k].path) && !e.gone && Count(t.n.loops, e.backing, false) == 0
    ensures SiteInv(t', steps)
  {
    forall i | 0 <= i < |t.w.s.rows| ensures RowDevices(t', steps, i) {
      RowAttachKeeps(t, steps, t', k, e, i);
    }
    forall m | 0 <= m < |t'.n.loops| ensures OwnedPath(t'.w.s.rows, t'.n.loops[m].backing) {
      if m < |t.n.loops| { assert t'.n.loops[m] == t.n.loops[m]; }
    }
  }

  /** A detach leaves no entry that was not there. */
  lemma FewerDevicesKeep(t: Site, steps: seq<Step>, t': Site)
    requires SiteInv(t, steps) && t'.w == t.w && NodeInv(t'.n)
    requires forall e :: e in t'.n.loops ==> e in t.n.loops
    requires forall path, gone :: Count(t'.n.loops, path, gone) <= Count(t.n.loops, path, gone)
    ensures SiteInv(t', steps)
  {
    forall i | 0 <= i < |t.w.s.rows| ensures RowDevices(t', steps, i) {
      assert RowDevices(t, steps, i);
      var path := FullPath(t.w.s.rows[i].path);
      assert Count(t'.n.loops, path, true) <= Count(t.n.loops, path, true);
      assert Count(t'.n.loops, path, false) <= Count(t.n.loops, path, false);
    }
    assert RowsEvolve(t.w.s.rows, t'.w.s.rows);
    assert forall k :: 0 <= k < |t'.n.loops| ==> t'.n.loops[k] in t'.n.loops;
    OwnedKept(t, t');
  }

  lemma DetachCounts(loops: seq<LoopEntry>, present: bool, path: string, env: DetachEnv)
    ensures var l := DetachSpec(loops, present, path, env).0;
            && (forall e :: e in l ==> e in loops)
            && (forall q, gone :: Count(l, q, gone) <= Count(loops, q, gone))
  {
    var l := DetachSpec(loops, present, path, env).0;
    if l != loops {
      var d := DeviceOf(loops, path).value;
      forall q, gone ensures Count(l, q, gone) <= Count(loops, q, gone) {
        CountWithout(loops, d, q, gone);
      }
    }
  }

  lemma UnpublishKeepsSite(
    t: Site, steps: seq<Step>, nodeId: string, volId: string, target: string, env: UnpublishEnv)
    requires SiteInv(t, steps)
    ensures SiteInv(Happen(t, nodeId, UnpublishVolume(volId, target, env)), steps)
  {
    var t' := Happen(t, nodeId, UnpublishVolume(volId, target, env));
    var vol := Lookup(t.w.s, volId);
    UnpublishKeeps(t.n, nodeId, vol, volId, target, env);
    if vol.Some? {
      UnpublishLoops(t.n, nodeId, vol.value, volId, target, env);
      DetachCounts(t.n.loops, vol.value.present, FullPath(vol.value.row.path), env.detach);
      FewerDevicesKeep(t, steps, t');
    } else {
      SameLoopsKeep(t, steps, t');
    }
  }

  // ---------------------------------------------------------------- whole runs

  lemma {:induction false} SiteRunKeeps(nodeId: string, es: seq<Event>)
    requires Fair(nodeId, es)
    ensures SiteInv(HappenAll(nodeId, es), StepsOf(es))
    decreases |es|
  {
    if es != [] {
      var n := |es| - 1;
      assert forall m :: 0 <= m < n ==> es[..n][..m] == es[..m];
      SiteRunKeeps(nodeId, es[..n]);
      EventKeepsSite(HappenAll(nodeId, es[..n]), StepsOf(es[..n]), nodeId, es[n]);
      assert !es[n].Do? ==> StepsOf(es) == StepsOf(es[..n]);
    }
  }

  lemma EventKeepsSite(t: Site, steps: seq<Step>, nodeId: string, e: Event)
    requires SiteInv(t, steps) && FairEvent(t, e)
    ensures SiteInv(Happen(t, nodeId, e), if e.Do? then steps + [e.st] else steps)
  {
    match e
    case Do(st) => StepKeepsSite(t, steps, nodeId, st);
    case PublishVolume(req, env) => PublishKeepsSite(t, steps, nodeId, req, env);
    case UnpublishVolume(volId, target, env) => UnpublishKeepsSite(t, steps, nodeId, volId, target, env);
  }

  lemma OwnerFound(t: Site, path: string)
    requires Owned(t) && Devices(t.n.loops, path) > 0
    ensures OwnedPath(t.w.s.rows, path)
  {
    CountNone(t.n.loops, path, true);
    CountNone(t.n.loops, path, false);
  }

  /** The clean-up looked a path up while its creation lay between populate and commit. */
  ghost predicate ExposedPath(steps: seq<Step>, path: string) {
    exists p :: FullPath(p) == path && Exposed(steps, p)
  }

  lemma DevicesOfOwner(t: Site, steps: seq<Step>, path: string)
    requires SiteInv(t, steps) && OwnedPath(t.w.s.rows, path)
    ensures Devices(t.n.loops, path) <= 2 && (Devices(t.n.loops, path) == 2 ==> ExposedPath(steps, path))
  {
    var i :| 0 <= i < |t.w.s.rows| && path == FullPath(t.w.s.rows[i].path);
    assert RowDevices(t, steps, i);
  }

  /**
    * In every run, whatever fails, at most two devices are attached for one path, at most one of
    * them for the file that is there; the second only after the clean-up looked the volume up
    * while its creation lay between populate and commit.
    */
  lemma AtMostTwoDevices(nodeId: string, es: seq<Event>, path: string)
    requires Fair(nodeId, es)
    ensures var loops := HappenAll(nodeId, es).n.loops;
            && Devices(loops, path) <= 2 && Count(loops, path, false) <= 1
            && (Devices(loops, path) == 2 ==> ExposedPath(StepsOf(es), path))
  {
    SiteRunKeeps(nodeId, es);
    var t := HappenAll(nodeId, es);
    CountPresent(t.n.loops, path);
    if Devices(t.n.loops, path) > 0 {
      OwnerFound(t, path);
      DevicesOfOwner(t, StepsOf(es), path);
    }
  }

  // ---------------------------------------------------------------- two devices

  function WorkingPublish(e: LoopEntry): PublishEnv {
    PublishEnv(AttachEnv(LookEnv(true, true, {}), Some(e)), true, true, true, true, true, true, true, true)
  }

  /** A new device for a volume whose earlier file, if any, is gone. */
  ghost predicate NextDevice(loops: seq<LoopEntry>, path: string, e: LoopEntry) {
    && Readable(e) && !e.gone && e.backing == path
    && forall i :: 0 <= i < |loops| ==> loops[i].gone && loops[i].device != e.device
  }

  lemma RawPublishAdds(n: NodeState, nodeId: string, r: Row, req: NodeRequest, e: LoopEntry)
    requires RowOk(r) && r.isBlock && req.cap == Some(Block) && req.volId != "" && req.target != ""
    requires NextDevice(n.loops, FullPath(r.path), e)
    ensures NodePublishSpec(n, nodeId, Some(Backing(r, true)), req, WorkingPublish(e)).0.loops == n.loops + [e]
  {
    PathIsPlain(r);
    FoundExactly(n.loops, FullPath(r.path));
    var b, env := Backing(r, true), WorkingPublish(e);
    assert AttachSpec(n.loops, true, FullPath(r.path), env.attach).0 == n.loops + [e];
    assert RawSpec(n, b, req, env).0.loops == n.loops + [e];
    FinishLeavesLoops(RawSpec(n, b, req, env).0, nodeId, req, true, env);
  }

  lemma FairSnoc(nodeId: string, es: seq<Event>, e: Event)
    requires Fair(nodeId, es) && FairEvent(HappenAll(nodeId, es), e)
    ensures Fair(nodeId, es + [e]) && HappenAll(nodeId, es + [e]) == Happen(HappenAll(nodeId, es), nodeId, e)
  {
    assert (es + [e])[..|es|] == es;
    forall n | 0 <= n < |es + [e]| ensures FairEvent(HappenAll(nodeId, (es + [e])[..n]), (es + [e])[n]) {
      if n < |es| { assert (es + [e])[..n] == es[..n]; }
    }
  }

  /** Steps before anything is attached. */
  lemma {:induction false} StepsAlone(nodeId: string, steps: seq<Step>) returns (es: seq<Event>)
    ensures Fair(nodeId, es) && HappenAll(nodeId, es) == Site(Run(Init(), steps), NoState())
    decreases |steps|
  {
    es := [];
    if steps != [] {
      var n := |steps| - 1;
      es := StepsAlone(nodeId, steps[..n]);
      FairSnoc(nodeId, es, Do(steps[n]));
      es := es + [Do(steps[n])];
    }
  }

  /** A committed block volume whose file the job is about to remove. */
  ghost predicate Doomed(w: World, r: Row) {
    && w.s.rows == [r] && w.ctl.Idle? && w.job == Removing(r.path, [])
    && r.path in w.s.disk && Sharded(w.s.disk, r.path)
  }

  lemma CommitsDoomed(w: World, r: Row)
    requires w.job == Removing(r.path, []) && w.ctl == Filled(r) && w.s.rows == [] && r.path in w.s.disk
    ensures var w' := Run(w, [C(MakeLink(true)), C(Commit)]);
            w'.s.rows == [r] && w'.ctl.Idle? && w'.job == w.job && w'.s.disk == w.s.disk
  {
    Run2(w, C(MakeLink(true)), C(Commit));
  }

  lemma DoomedHappens(r: Row) returns (steps: seq<Step>)
    requires RowOk(r) && IsLive(r)
    ensures Doomed(Run(Init(), steps), r)
  {
    var create := [C(Begin(r)), C(Fill(true)), J(Start), J(SweepDone)];
    var look := [J(See(r.path)), J(GlobDone), J(Check)];
    CreatingMeetsJob(r);
    JobLooksUp(Run(Init(), create), r.path);
    RunAppend(Init(), create, look);
    CommitsDoomed(Run(Init(), create + look), r);
    RunAppend(Init(), create + look, [C(MakeLink(true)), C(Commit)]);
    steps := create + look + [C(MakeLink(true)), C(Commit)];
    CommittedSharded(steps);
    assert Run(Init(), steps).s.rows[0] == r;
  }

  lemma CommittedSharded(steps: seq<Step>)
    ensures var s := Run(Init(), steps).s; forall i :: 0 <= i < |s.rows| ==> Sharded(s.disk, s.rows[i].path)
  {
    RunKeeps(Init(), steps);
  }

  /** The job removes the file, and the next create of the name makes it again. */
  lemma LostAndMadeAgain(w: World, r: Row)
    requires RowOk(r) && IsLive(r) && Doomed(w, r)
    ensures var w1 := Apply(w, J(Remove({}))); var w2 := Apply(w1, C(Refill(0, true)));
            w1.s.rows == [r] && r.path !in w1.s.disk && w2.s.rows == [r] && r.path in w2.s.disk
  {
    var w1 := Apply(w, J(Remove({})));
    assert Sharded(w1.s.disk, r.path);
    PopulateAt(w1.s.disk, r, true);
  }

  lemma LookupOnly(s: Store, r: Row)
    requires s.rows == [r] && IsLive(r)
    ensures Lookup(s, r.id) == Some(Backing(r, r.path in s.disk))
  {
    assert s.rows[0] == r;
  }

  /**
    * Two devices do happen: any block volume whose file the job removes after its first publish,
    * and a create of its name makes again before the second. No call fails in this run.
    */
  lemma TwoDevicesHappen(nodeId: string, r: Row, req: NodeRequest, e1: LoopEntry, e2: LoopEntry)
    returns (es: seq<Event>)
    requires RowOk(r) && IsLive(r) && r.isBlock && req.cap == Some(Block) && req.volId == r.id && req.target != ""
    requires NextDevice([], FullPath(r.path), e1) && NextDevice([e1.(gone := true)], FullPath(r.path), e2)
    ensures Fair(nodeId, es)
    ensures var t := HappenAll(nodeId, es);
            t.n.loops == [e1.(gone := true), e2] && t.w.s.rows == [r] && r.path in t.w.s.disk
  {
    var steps := DoomedHappens(r);
    es := StepsAlone(nodeId, steps);
    es := PublishNext(nodeId, es, r, req, e1);
    es := LoseAndMake(nodeId, es, r, e1);
    es := PublishNext(nodeId, es, r, req, e2);
  }

  lemma PublishNext(nodeId: string, es: seq<Event>, r: Row, req: NodeRequest, e: LoopEntry)
    returns (es': seq<Event>)
    requires var t := HappenAll(nodeId, es);
             t.w.s.rows == [r] && r.path in t.w.s.disk && NextDevice(t.n.loops, FullPath(r.path), e)
    requires RowOk(r) && IsLive(r) && r.isBlock && req.cap == Some(Block) && req.volId == r.id && req.target != ""
    requires Fair(nodeId, es)
    ensures Fair(nodeId, es') && HappenAll(nodeId, es').w == HappenAll(nodeId, es).w
    ensures HappenAll(nodeId, es').n.loops == HappenAll(nodeId, es).n.loops + [e]
  {
    var t := HappenAll(nodeId, es);
    LookupOnly(t.w.s, r);
    RawPublishAdds(t.n, nodeId, r, req, e);
    FairSnoc(nodeId, es, PublishVolume(req, WorkingPublish(e)));
    es' := es + [PublishVolume(req, WorkingPublish(e))];
  }

  /** The job removes the file under its device, and the next create of the name makes it again. */
  lemma LoseAndMake(nodeId: string, es: seq<Event>, r: Row, e: LoopEntry) returns (es': seq<Event>)
    requires Fair(nodeId, es) && Doomed(HappenAll(nodeId, es).w, r) && HappenAll(nodeId, es).n.loops == [e]
    requires RowOk(r) && IsLive(r) && e.backing == FullPath(r.path) && !e.gone
    ensures Fair(nodeId, es')
    ensures var t := HappenAll(nodeId, es');
            t.n.loops == [e.(gone := true)] && t.w.s.rows == [r] && r.path in t.w.s.disk
  {
    var t := HappenAll(nodeId, es);
    LostAndMadeAgain(t.w, r);
    FirstFileGone(t.w, r, e);
    FairSnoc(nodeId, es, Do(J(Remove({}))));
    es' := es + [Do(J(Remove({})))];
    var t1 := HappenAll(nodeId, es');
    assert t1.n.loops == [e.(gone := true)];
    FairSnoc(nodeId, es', Do(C(Refill(0, true))));
    GoneStayGone(t1.n.loops, Unlinked(t1.w.s, Apply(t1.w, C(Refill(0, true))).s));
    es' := es' + [Do(C(Refill(0, true)))];
  }

  lemma FirstFileGone(w: World, r: Row, e: LoopEntry)
    requires w.s.rows == [r] && r.path in w.s.disk && r.path !in Apply(w, J(Remove({}))).s.disk
    requires e.backing == FullPath(r.path) && !e.gone
    ensures FilesRemoved([e], Unlinked(w.s, Apply(w, J(Remove({}))).s)) == [e.(gone := true)]
  {
    assert w.s.rows[0] == r;
    assert FullPath(r.path) in Unlinked(w.s, Apply(w, J(Remove({}))).s);
  }

  lemma GoneStayGone(loops: seq<LoopEntry>, paths: set<string>)
    requires forall i :: 0 <= i < |loops| ==> loops[i].gone
    ensures FilesRemoved(loops, paths) == loops
  {
  }
}
