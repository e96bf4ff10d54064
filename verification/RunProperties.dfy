/** Properties of whole runs: every interleaving of controller, clean-up job and pods, with crashes. */
module RunProperties {
  import opened Prelude
  import opened Capacity
  import opened Catalogue
  import opened StepMachine
  import opened Invariants

  // ---------------------------------------------------------------- the life of rows and ids

  /** Rows are only appended; a row only grows its capacity and only becomes deleted. */
  ghost predicate RowEvolves(r: Row, r': Row) {
    && r' == r.(capacity := r'.capacity, deleted := r'.deleted)
    && r.capacity <= r'.capacity
    && (r.deleted ==> r'.deleted)
  }

  ghost predicate RowsEvolve(rows: seq<Row>, rows': seq<Row>) {
    && |rows| <= |rows'|
    && forall i :: 0 <= i < |rows| ==> RowEvolves(rows[i], rows'[i])
  }

  lemma StepEvolves(w: World, st: Step)
    ensures RowsEvolve(w.s.rows, Apply(w, st).s.rows)
  {
  }

  /** In every run no row disappears, no capacity shrinks and no deleted row comes back. */
  lemma {:induction false} RunEvolves(w: World, steps: seq<Step>)
    ensures RowsEvolve(w.s.rows, Run(w, steps).s.rows)
    decreases |steps|
  {
    if steps != [] {
      var n := |steps| - 1;
      RunEvolves(w, steps[..n]);
      StepEvolves(Run(w, steps[..n]), steps[n]);
    }
  }

  datatype Life = Absent | Alive | Gone

  ghost function LifeOf(rows: seq<Row>, id: string): Life {
    if exists i :: 0 <= i < |rows| && rows[i].id == id && IsLive(rows[i]) then Alive
    else if exists i :: 0 <= i < |rows| && rows[i].id == id then Gone
    else Absent
  }

  lemma RowsLife(before: seq<Row>, after: seq<Row>, used: set<string>, id: string)
    requires RowsEvolve(before, after) && RowsInv(after, used)
    ensures LifeOf(before, id) == Alive ==> LifeOf(after, id) != Absent
    ensures LifeOf(before, id) == Gone ==> LifeOf(after, id) == Gone
    ensures forall i, j :: 0 <= i < |before| && 0 <= j < |after| && before[i].path == after[j].path ==> i == j
  {
    forall i, j | 0 <= i < |before| && 0 <= j < |after| && before[i].path == after[j].path
      ensures i == j
    {
      assert after[i].path == before[i].path;
      OnePathOneRow(after, used, i);
    }
    if LifeOf(before, id) != Absent {
      var i :| 0 <= i < |before| && before[i].id == id;
      assert RowEvolves(before[i], after[i]);
      assert after[i].id == id;
      assert forall j :: 0 <= j < |after| && after[j].id == id ==> j == i;
    }
  }

  lemma RunRows(w: World, steps: seq<Step>)
    requires Inv(w)
    ensures RowsInv(Run(w, steps).s.rows, Run(w, steps).used)
  {
    RunKeeps(w, steps);
  }

  /** An id is absent, then live, then deleted, and never back; no path is used by two rows. */
  lemma IdLife(steps: seq<Step>, at: nat, id: string)
    requires at <= |steps|
    ensures var before, after := Run(Init(), steps[..at]).s.rows, Run(Init(), steps).s.rows;
            && (LifeOf(before, id) == Alive ==> LifeOf(after, id) != Absent)
            && (LifeOf(before, id) == Gone ==> LifeOf(after, id) == Gone)
            && (forall i, j :: 0 <= i < |before| && 0 <= j < |after| && before[i].path == after[j].path ==> i == j)
  {
    var w := Run(Init(), steps[..at]);
    RunSplit(Init(), steps, at);
    RunEvolves(w, steps[at..]);
    RunRows(Init(), steps);
    RowsLife(w.s.rows, Run(Init(), steps).s.rows, Run(Init(), steps).used, id);
  }

  lemma StepStaysLive(w: World, st: Step, i: nat)
    requires i < |w.s.rows| && IsLive(w.s.rows[i]) && st != C(SoftDelete(i))
    ensures i < |Apply(w, st).s.rows| && IsLive(Apply(w, st).s.rows[i])
    ensures Apply(w, st).s.rows[i].path == w.s.rows[i].path
  {
  }

  lemma {:induction false} StaysLive(w: World, steps: seq<Step>, i: nat)
    requires i < |w.s.rows| && IsLive(w.s.rows[i]) && C(SoftDelete(i)) !in steps
    ensures i < |Run(w, steps).s.rows| && IsLive(Run(w, steps).s.rows[i])
    decreases |steps|
  {
    if steps != [] {
      var n := |steps| - 1;
      StaysLive(w, steps[..n], i);
      StepStaysLive(Run(w, steps[..n]), steps[n], i);
    }
  }

  /** Until a volume is deleted, its name and its id lead to it and to nothing else. */
  lemma NameKeepsRow(w: World, steps: seq<Step>, i: nat)
    requires Inv(w) && i < |w.s.rows| && IsLive(w.s.rows[i])
    requires C(SoftDelete(i)) !in steps
    ensures var rows := Run(w, steps).s.rows;
            FindName(rows, w.s.rows[i].name) == Some(i) && FindId(rows, w.s.rows[i].id) == Some(i)
  {
    RunRows(w, steps);
    RunEvolves(w, steps);
    StaysLive(w, steps, i);
    LiveRowFound(Run(w, steps).s.rows, Run(w, steps).used, i);
  }

  // ---------------------------------------------------------------- what one step does to a volume's path

  ghost predicate ExpandMove(w: World, st: Step, w': World, i: nat)
    requires i < |w.s.rows| && i < |w'.s.rows|
  {
    var r, r' := w.s.rows[i], w'.s.rows[i];
    && (w'.ctl == Checked(i) && w.ctl != Checked(i) ==>
          st == C(CheckSize(true)) && w.ctl.Grown? && w.ctl.i == i
          && r.path in w.s.disk && w.s.disk[r.path] == File(w.ctl.oldCapacity) && w'.s.disk == w.s.disk)
    && (w'.ctl.Grown? && w'.ctl.i == i && w'.ctl != w.ctl ==>
          w.ctl.Idle? && w'.ctl.oldCapacity == r.capacity && w'.s.disk == w.s.disk)
    && (r'.capacity != r.capacity ==>
          w.ctl.Idle? && w'.s.disk == w.s.disk && (r.isBlock ==> w'.ctl == Grown(i, r.capacity)))
    && r'.isBlock == r.isBlock && r'.path == r.path
  }

  lemma CtlExpandMoves(w: World, c: CtlStep, i: nat)
    requires i < |w.s.rows|
    ensures i < |ApplyCtl(w, c).s.rows| && ExpandMove(w, C(c), ApplyCtl(w, c), i)
  {
  }

  lemma OthersLeaveRows(w: World, st: Step)
    requires !st.C?
    ensures Apply(w, st).s.rows == w.s.rows && Apply(w, st).ctl == w.ctl
  {
  }

  /** How a step moves through an expand of one volume. */
  lemma ExpandMoves(w: World, st: Step, i: nat)
    requires i < |w.s.rows|
    ensures i < |Apply(w, st).s.rows| && ExpandMove(w, st, Apply(w, st), i)
  {
    if st.C? { CtlExpandMoves(w, st.c, i); } else { OthersLeaveRows(w, st); }
  }

  ghost predicate CalmMove(w: World, st: Step, w': World, i: nat)
    requires i < |w.s.rows|
  {
    && (w.ctl == Checked(i) && w'.ctl != Checked(i) ==> st == C(Resize(true)))
    && (w.ctl.Grown? && w.ctl.i == i && w'.ctl != w.ctl ==>
          st == C(CheckSize(true)) && w'.s.disk == w.s.disk && w'.s.rows == w.s.rows
          && (w'.ctl == Checked(i) || At(w.s.disk, w.s.rows[i].path) != Some(File(w.ctl.oldCapacity))))
  }

  /** How a calm step leaves an expand of one volume. */
  lemma CalmMoves(w: World, st: Step, i: nat)
    requires i < |w.s.rows| && Calm(st)
    ensures CalmMove(w, st, Apply(w, st), i)
  {
  }

  function At(disk: Disk, p: Path): Option<Entry> {
    if p in disk then Some(disk[p]) else None
  }

  /** The entry a step puts at a path, if it puts one there. */
  ghost function Puts(w: World, st: Step, p: Path): Option<Entry> {
    if st == C(Fill(true)) && w.ctl.Inserted? && w.ctl.row.path == p && p !in w.s.disk then
      Some(FreshEntry(w.ctl.row))
    else if st.C? && st.c.Refill? && st.c.works && w.ctl.Idle? && st.c.at < |w.s.rows| && IsLive(w.s.rows[st.c.at])
            && w.s.rows[st.c.at].path == p && p !in w.s.disk then
      Some(FreshEntry(w.s.rows[st.c.at]))
    else if st == C(Resize(true)) && w.ctl.Checked? && w.ctl.i < |w.s.rows| && w.s.rows[w.ctl.i].path == p then
      Some(File(w.s.rows[w.ctl.i].capacity))
    else None
  }

  /** A removal of the path: by the controller, for a row that is not live, or by the job. */
  ghost predicate Removes(w: World, st: Step, p: Path) {
    || (st.C? && st.c.UndoRemove? && w.ctl.Undo? && w.ctl.row.path == p)
    || (st.C? && st.c.DeleteRemove? && w.ctl.Unlinked? && w.ctl.i < |w.s.rows| && w.s.rows[w.ctl.i].path == p)
    || (st.J? && st.j.Remove? && w.job.Removing? && w.job.f == p)
  }

  lemma PopulateEffect(w: World, c: CtlStep, p: Path)
    requires Inv(w) && |p| == 4 && (c.Fill? || c.Refill?)
    ensures At(ApplyCtl(w, c).s.disk, p) == if Puts(w, C(c), p).Some? then Puts(w, C(c), p) else At(w.s.disk, p)
  {
    if c.Fill? && w.ctl.Inserted? {
      PopulateAt(w.s.disk, w.ctl.row, c.works);
    } else if c.Refill? && w.ctl.Idle? && c.at < |w.s.rows| {
      PopulateAt(w.s.disk, w.s.rows[c.at], c.works);
    }
  }

  lemma ShardsEffect(w: World, c: CtlStep, p: Path)
    requires Inv(w) && |p| == 4 && (c.Refuse? || c.Begin?)
    ensures At(ApplyCtl(w, c).s.disk, p) == At(w.s.disk, p)
  {
    if c.Refuse? && ValidId(c.id) {
      MakeShardsKeeps(w.s.disk, w.used, c.id, c.shards);
    } else if c.Begin? && RowOk(c.row) {
      MakeShardsKeeps(w.s.disk, w.used, c.row.id, 3);
    }
  }

  lemma ResizeEffect(w: World, c: CtlStep, p: Path)
    requires Inv(w) && |p| == 4 && c.Resize?
    ensures At(ApplyCtl(w, c).s.disk, p) == if Puts(w, C(c), p).Some? then Puts(w, C(c), p) else At(w.s.disk, p)
  {
    if w.ctl.Checked? {
      assert Sharded(w.s.disk, w.s.rows[w.ctl.i].path);
    }
  }

  lemma CtlEffect(w: World, c: CtlStep, p: Path)
    requires Inv(w) && |p| == 4
    ensures var w' := ApplyCtl(w, c);
            || At(w'.s.disk, p) == (if Puts(w, C(c), p).Some? then Puts(w, C(c), p) else At(w.s.disk, p))
            || (At(w'.s.disk, p) == None && Removes(w, C(c), p))
  {
    if c.Fill? || c.Refill? {
      PopulateEffect(w, c, p);
    } else if c.Refuse? || c.Begin? {
      ShardsEffect(w, c, p);
    } else if c.Resize? {
      ResizeEffect(w, c, p);
    } else {
      OtherEffect(w, c, p);
    }
  }

  lemma OtherEffect(w: World, c: CtlStep, p: Path)
    requires |p| == 4 && (w.ctl.Undo? ==> |w.ctl.row.path| == 4)
    requires w.ctl.Unlinked? && w.ctl.i < |w.s.rows| ==> |w.s.rows[w.ctl.i].path| == 4
    requires !c.Fill? && !c.Refill? && !c.Refuse? && !c.Begin? && !c.Resize?
    ensures var w' := ApplyCtl(w, c);
            At(w'.s.disk, p) == At(w.s.disk, p) || (At(w'.s.disk, p) == None && Removes(w, C(c), p))
  {
  }

  lemma JobEffect(w: World, j: JobStep, p: Path)
    requires Inv(w) && |p| == 4
    ensures var w' := ApplyJob(w, j);
            At(w'.s.disk, p) == At(w.s.disk, p) || (At(w'.s.disk, p) == None && Removes(w, J(j), p))
  {
    if j.SweepTop? && w.job.Sweeping? && w.job.ids != [] {
      SweepRemovesNothing(w.s.disk, w.used, w.job.ids[0], j.stuck);
    } else if j.Remove? && w.job.Removing? {
      assert JobLists(w.job, w.job.f);
    }
  }

  /** A step leaves a depth-four path alone, puts an entry there, or removes it. */
  lemma VolumeEffect(w: World, st: Step, p: Path)
    requires Inv(w) && |p| == 4
    ensures || At(Apply(w, st).s.disk, p) == (if Puts(w, st, p).Some? then Puts(w, st, p) else At(w.s.disk, p))
            || (At(Apply(w, st).s.disk, p) == None && Removes(w, st, p))
  {
    match st
    case C(c) => CtlEffect(w, c, p);
    case J(j) => JobEffect(w, j, p);
    case U(u) =>
  }

  /** Nobody but the job removes a live volume's path, and only the volume's own steps put anything there. */
  ghost predicate LiveEffect(w: World, st: Step, w': World, i: nat)
    requires i < |w.s.rows|
  {
    var p := w.s.rows[i].path; var after := At(w'.s.disk, p);
    || after == At(w.s.disk, p)
    || (after == None && st.J? && st.j.Remove? && w.job.Removing? && w.job.f == p)
    || (At(w.s.disk, p) == None && st == C(Refill(i, true)) && w.ctl.Idle? && after == Some(FreshEntry(w.s.rows[i])))
    || (st == C(Resize(true)) && w.ctl == Checked(i) && after == Some(File(w.s.rows[i].capacity)))
  }

  lemma LiveVolumeEffect(w: World, st: Step, i: nat)
    requires Inv(w) && i < |w.s.rows| && IsLive(w.s.rows[i])
    ensures LiveEffect(w, st, Apply(w, st), i)
  {
    VolumeEffect(w, st, w.s.rows[i].path);
    LivePathOwner(w, i);
  }

  lemma LivePathOwner(w: World, i: nat)
    requires Inv(w) && i < |w.s.rows| && IsLive(w.s.rows[i])
    ensures |w.s.rows[i].path| == 4
    ensures forall j :: 0 <= j < |w.s.rows| && w.s.rows[j].path == w.s.rows[i].path ==> j == i
    ensures w.ctl.Inserted? || w.ctl.Filled? || w.ctl.Linked? || w.ctl.Undo? || w.ctl.UndoLink? ==>
              w.ctl.row.path != w.s.rows[i].path
    ensures w.ctl.Unlinked? || w.ctl.Deleted? ==> w.ctl.i != i
  {
    OnePathOneRow(w.s.rows, w.used, i);
    assert w.s.rows[i].path[3] == w.s.rows[i].id;
  }

  // ---------------------------------------------------------------- live volumes keep their path

  /** The path is there, and no check made before the row was committed is about to remove it. */
  ghost predicate Safe(w: World, i: nat) {
    && i < |w.s.rows| && IsLive(w.s.rows[i])
    && w.s.rows[i].path in w.s.disk
    && !(w.job.Removing? && w.job.f == w.s.rows[i].path)
  }

  lemma CheckSparesLive(w: World, st: Step, i: nat)
    requires i < |w.s.rows| && IsLive(w.s.rows[i])
    requires !(w.job.Removing? && w.job.f == w.s.rows[i].path)
    ensures var w' := Apply(w, st); !(w'.job.Removing? && w'.job.f == w.s.rows[i].path)
  {
    assert LivePath(w.s.rows, w.s.rows[i].path);
  }

  lemma StepKeepsPath(w: World, st: Step, i: nat)
    requires Inv(w) && Safe(w, i) && st != C(SoftDelete(i))
    ensures Safe(Apply(w, st), i)
  {
    StepStaysLive(w, st, i);
    LiveVolumeEffect(w, st, i);
    CheckSparesLive(w, st, i);
  }

  /**
    * In every interleaving, a volume whose row is committed before the job checks its path,
    * and which is not deleted, keeps its path.
    */
  lemma {:induction false} LiveVolumeKeepsPath(w: World, steps: seq<Step>, i: nat)
    requires Inv(w) && Safe(w, i) && C(SoftDelete(i)) !in steps
    ensures Safe(Run(w, steps), i)
    decreases |steps|
  {
    if steps != [] {
      var n := |steps| - 1;
      LiveVolumeKeepsPath(w, steps[..n], i);
      RunKeeps(w, steps[..n]);
      StepKeepsPath(Run(w, steps[..n]), steps[n], i);
    }
  }

  lemma RemovalRun(w: World, i: nat)
    requires i < |w.s.rows| && w.job.Removing? && w.job.f == w.s.rows[i].path
    ensures w.s.rows[i].path !in Run(w, [J(Remove({}))]).s.disk
  {
    Run1(w, J(Remove({})));
  }

  /**
    * A live volume that has its path can lose it, in some run that does not delete it, if and
    * only if the job has already looked its path up and is about to remove it.
    */
  lemma LostExactly(w: World, i: nat)
    requires Inv(w) && i < |w.s.rows| && IsLive(w.s.rows[i]) && w.s.rows[i].path in w.s.disk
    ensures (exists steps :: C(SoftDelete(i)) !in steps && w.s.rows[i].path !in Run(w, steps).s.disk) <==>
            (w.job.Removing? && w.job.f == w.s.rows[i].path)
  {
    if w.job.Removing? && w.job.f == w.s.rows[i].path {
      RemovalRun(w, i);
      assert C(SoftDelete(i)) !in [J(Remove({}))];
    } else {
      forall steps | C(SoftDelete(i)) !in steps ensures w.s.rows[i].path in Run(w, steps).s.disk {
        LiveVolumeKeepsPath(w, steps, i);
        RunEvolves(w, steps);
        assert RowEvolves(w.s.rows[i], Run(w, steps).s.rows[i]);
      }
    }
  }

  /** The job looks the path up while its creation lies between populate and commit. */
  ghost predicate ExposingCheck(w: World, st: Step, p: Path) {
    && st == J(Check)
    && w.job.Checking? && w.job.todo != [] && w.job.todo[0] == p
    && (w.ctl.Filled? || w.ctl.Linked?) && w.ctl.row.path == p
  }

  ghost predicate Exposed(steps: seq<Step>, p: Path) {
    exists j :: 0 <= j < |steps| && ExposingCheck(Run(Init(), steps[..j]), steps[j], p)
  }

  ghost predicate Threatened(w: World, p: Path) {
    p !in w.s.disk || (w.job.Removing? && w.job.f == p)
  }

  ghost predicate PendingAt(w: World, p: Path) {
    (w.ctl.Filled? || w.ctl.Linked?) && w.ctl.row.path == p
  }

  /** One step threatens a live or pending volume's path only by an exposing check. */
  lemma LiveThreat(w: World, st: Step, i: nat)
    requires Inv(w) && i < |w.s.rows| && i < |Apply(w, st).s.rows| && IsLive(Apply(w, st).s.rows[i])
    requires Threatened(Apply(w, st), w.s.rows[i].path)
    ensures IsLive(w.s.rows[i]) && Threatened(w, w.s.rows[i].path)
  {
    StepEvolves(w, st);
    assert RowEvolves(w.s.rows[i], Apply(w, st).s.rows[i]);
    LiveVolumeEffect(w, st, i);
    if !(w.job.Removing? && w.job.f == w.s.rows[i].path) {
      CheckSparesLive(w, st, i);
    }
  }

  lemma NewRowWasPending(w: World, st: Step)
    ensures var rows := Apply(w, st).s.rows;
            |rows| == |w.s.rows| || (st == C(Commit) && w.ctl.Linked? && rows == w.s.rows + [w.ctl.row])
    ensures st == C(Commit) ==> Apply(w, st).s.disk == w.s.disk && Apply(w, st).job == w.job
  {
  }

  /** The job turns on a path only by looking it up without finding a row. */
  lemma JobTurns(w: World, st: Step, p: Path)
    requires !(w.job.Removing? && w.job.f == p)
    requires var w' := Apply(w, st); w'.job.Removing? && w'.job.f == p
    ensures st == J(Check) && w.job.Checking? && w.job.todo != [] && w.job.todo[0] == p
  {
  }

  lemma PendingThreat(w: World, st: Step, p: Path)
    requires Inv(w) && PendingAt(w, p) && PendingAt(Apply(w, st), p) && Threatened(Apply(w, st), p)
    ensures ExposingCheck(w, st, p) || Threatened(w, p)
  {
    if !Threatened(w, p) {
      VolumeEffect(w, st, p);
      if p in Apply(w, st).s.disk {
        JobTurns(w, st, p);
      }
    }
  }

  lemma PendingByFill(w: World, st: Step, p: Path)
    requires !PendingAt(w, p) && PendingAt(Apply(w, st), p)
    ensures exists works ::
              && st == C(Fill(works)) && w.ctl.Inserted? && w.ctl.row.path == p
              && Populate(w.s.disk, w.ctl.row, works).ok
  {
  }

  lemma FillThreat(w: World, works: bool)
    requires Inv(w) && w.ctl.Inserted? && Populate(w.s.disk, w.ctl.row, works).ok
    ensures !Threatened(Apply(w, C(Fill(works))), w.ctl.row.path)
  {
    PopulateAt(w.s.disk, w.ctl.row, works);
    assert !JobLists(w.job, w.ctl.row.path);
  }

  /** One step threatens a live or pending volume's path only by an exposing check. */
  lemma StepThreatens(w: World, st: Step, p: Path)
    requires Inv(w)
    requires LivePath(Apply(w, st).s.rows, p) || PendingAt(Apply(w, st), p)
    requires Threatened(Apply(w, st), p)
    ensures ExposingCheck(w, st, p) || ((LivePath(w.s.rows, p) || PendingAt(w, p)) && Threatened(w, p))
  {
    if LivePath(Apply(w, st).s.rows, p) {
      var rows := Apply(w, st).s.rows;
      var i :| 0 <= i < |rows| && IsLive(rows[i]) && rows[i].path == p;
      NewRowWasPending(w, st);
      if i < |w.s.rows| {
        StepEvolves(w, st);
        assert RowEvolves(w.s.rows[i], rows[i]);
        LiveThreat(w, st, i);
      }
    } else if PendingAt(w, p) {
      PendingThreat(w, st, p);
    } else {
      PendingByFill(w, st, p);
      var works :|
        && st == C(Fill(works)) && w.ctl.Inserted? && w.ctl.row.path == p
        && Populate(w.s.disk, w.ctl.row, works).ok;
      FillThreat(w, works);
    }
  }

  lemma {:induction false} ThreatNeedsExposure(steps: seq<Step>, p: Path)
    requires var w := Run(Init(), steps); (LivePath(w.s.rows, p) || PendingAt(w, p)) && Threatened(w, p)
    ensures Exposed(steps, p)
    decreases |steps|
  {
    if steps != [] {
      var n := |steps| - 1;
      var before := Run(Init(), steps[..n]);
      RunKeeps(Init(), steps[..n]);
      StepThreatens(before, steps[n], p);
      if !ExposingCheck(before, steps[n], p) {
        ThreatNeedsExposure(steps[..n], p);
        var j :| 0 <= j < n && ExposingCheck(Run(Init(), steps[..n][..j]), steps[..n][j], p);
        assert steps[..n][..j] == steps[..j];
      }
    }
  }

  /**
    * The only live volume without its path is one whose creation lay between populate and
    * commit when the job looked its path up.
    */
  lemma LossNeedsExposure(steps: seq<Step>, i: nat)
    requires var s := Run(Init(), steps).s;
             i < |s.rows| && IsLive(s.rows[i]) && s.rows[i].path !in s.disk
    ensures Exposed(steps, Run(Init(), steps).s.rows[i].path)
  {
    ThreatNeedsExposure(steps, Run(Init(), steps).s.rows[i].path);
  }

  lemma CreatingMeetsJob(r: Row)
    requires RowOk(r) && IsLive(r)
    ensures var w := Run(Init(), [C(Begin(r)), C(Fill(true)), J(Start), J(SweepDone)]);
            w.s.rows == [] && r.path in w.s.disk && w.ctl == Filled(r) && w.job == Globbing([])
  {
    Run4(Init(), C(Begin(r)), C(Fill(true)), J(Start), J(SweepDone));
    MakeShardsKeeps(map[], {}, r.id, 3);
    PopulateAt(MakeShards(map[], r.id, 3), r, true);
  }

  lemma JobLooksUp(w: World, p: Path)
    requires w.job == Globbing([]) && |p| == 4 && p in w.s.disk && w.s.rows == []
    ensures Run(w, [J(See(p)), J(GlobDone), J(Check)]) == w.(job := Removing(p, []))
  {
    Run3(w, J(See(p)), J(GlobDone), J(Check));
  }

  lemma CommitMeetsRemoval(w: World, r: Row)
    requires w.job == Removing(r.path, []) && w.ctl == Filled(r) && w.s.rows == []
    ensures var s := Run(w, [C(MakeLink(true)), C(Commit), J(Remove({}))]).s; s.rows == [r] && r.path !in s.disk
  {
    Run3(w, C(MakeLink(true)), C(Commit), J(Remove({})));
  }

  /** The loss does happen: any volume loses its path in this run, although no step fails. */
  lemma LossHappens(r: Row) returns (steps: seq<Step>)
    requires RowOk(r) && IsLive(r)
    ensures var s := Run(Init(), steps).s; s.rows == [r] && r.path !in s.disk
  {
    var create := [C(Begin(r)), C(Fill(true)), J(Start), J(SweepDone)];
    var look := [J(See(r.path)), J(GlobDone), J(Check)];
    var commit := [C(MakeLink(true)), C(Commit), J(Remove({}))];
    CreatingMeetsJob(r);
    JobLooksUp(Run(Init(), create), r.path);
    RunAppend(Init(), create, look);
    CommitMeetsRemoval(Run(Init(), create + look), r);
    RunAppend(Init(), create + look, commit);
    steps := create + look + commit;
  }

  // ---------------------------------------------------------------- capacities and file sizes

  /** In every run, a live block volume's file is no larger than recorded; both are rounded amounts. */
  lemma FileWithinCapacity(steps: seq<Step>, i: nat)
    requires var s := Run(Init(), steps).s;
             i < |s.rows| && IsLive(s.rows[i]) && s.rows[i].isBlock && s.rows[i].path in s.disk
    ensures var s := Run(Init(), steps).s; var e := s.disk[s.rows[i].path];
            e.File? && CapacityOk(e.size) && CapacityOk(s.rows[i].capacity) && e.size <= s.rows[i].capacity
  {
    RunKeeps(Init(), steps);
  }

  /** No step shrinks a live volume's file. */
  lemma StepNeverShrinks(w: World, st: Step, i: nat)
    requires Inv(w) && i < |w.s.rows| && IsLive(w.s.rows[i]) && w.s.rows[i].isBlock
    requires var p := w.s.rows[i].path; p in w.s.disk && p in Apply(w, st).s.disk
    ensures var p := w.s.rows[i].path; var e, e' := w.s.disk[p], Apply(w, st).s.disk[p];
            e.File? && e'.File? && e.size <= e'.size
  {
    LiveVolumeEffect(w, st, i);
  }

  /** Steps in which no stat or `dd` of an expand fails and the controller does not crash. */
  predicate Calm(st: Step) {
    st != C(Crash) && st != C(CheckSize(false)) && st != C(Resize(false))
  }

  /** File size equals recorded capacity, except while an expand of that volume is under way. */
  ghost predicate ExactRow(w: World, i: nat) {
    i < |w.s.rows| && IsLive(w.s.rows[i]) && w.s.rows[i].isBlock &&
    w.s.rows[i].path in w.s.disk && w.ctl != Checked(i) ==>
      w.s.disk[w.s.rows[i].path] ==
        File(if w.ctl.Grown? && w.ctl.i == i then w.ctl.oldCapacity else w.s.rows[i].capacity)
  }

  ghost predicate Exact(w: World) {
    forall i :: 0 <= i < |w.s.rows| ==> ExactRow(w, i)
  }

  lemma CalmRowKept(w: World, st: Step, w': World, i: nat)
    requires i < |w.s.rows| && i < |w'.s.rows| && IsLive(w.s.rows[i]) && ExactRow(w, i) && Calm(st)
    requires LiveEffect(w, st, w', i) && ExpandMove(w, st, w', i) && CalmMove(w, st, w', i)
    requires w.ctl == Checked(i) && st == C(Resize(true)) ==>
               At(w'.s.disk, w.s.rows[i].path) == Some(File(w.s.rows[i].capacity))
    ensures ExactRow(w', i)
  {
  }

  lemma ResizeWorks(w: World, i: nat)
    requires Inv(w) && w.ctl == Checked(i)
    ensures At(Apply(w, C(Resize(true))).s.disk, w.s.rows[i].path) == Some(File(w.s.rows[i].capacity))
  {
    assert Sharded(w.s.disk, w.s.rows[i].path);
  }

  lemma CalmRowExact(w: World, st: Step, i: nat)
    requires Inv(w) && Calm(st) && i < |w.s.rows| && ExactRow(w, i)
    ensures ExactRow(Apply(w, st), i)
  {
    ExpandMoves(w, st, i);
    CalmMoves(w, st, i);
    if IsLive(w.s.rows[i]) {
      LiveVolumeEffect(w, st, i);
      if w.ctl == Checked(i) && st == C(Resize(true)) { ResizeWorks(w, i); }
      CalmRowKept(w, st, Apply(w, st), i);
    } else {
      StepEvolves(w, st);
      assert RowEvolves(w.s.rows[i], Apply(w, st).s.rows[i]);
    }
  }

  lemma CommittedRowExact(w: World)
    requires Inv(w) && w.ctl.Linked?
    ensures ExactRow(Apply(w, C(Commit)), |w.s.rows|)
  {
  }

  lemma CalmStepExact(w: World, st: Step)
    requires Inv(w) && Exact(w) && Calm(st)
    ensures Exact(Apply(w, st))
  {
    NewRowWasPending(w, st);
    forall i | 0 <= i < |Apply(w, st).s.rows| ensures ExactRow(Apply(w, st), i) {
      if i < |w.s.rows| {
        CalmRowExact(w, st, i);
      } else {
        CommittedRowExact(w);
      }
    }
  }

  /**
    * The steps that leave a file other than recorded: of an expand of a volume whose file is
    * there, a crash or a failing stat after the update, or a crash or a failing `dd` after the check.
    */
  ghost predicate Spoils(w: World, st: Step) {
    || (w.ctl.Grown? && FileThere(w, w.ctl.i) && (st == C(Crash) || st == C(CheckSize(false))))
    || (w.ctl.Checked? && FileThere(w, w.ctl.i) && (st == C(Crash) || st == C(Resize(false)))
        && w.s.disk[w.s.rows[w.ctl.i].path] != File(w.s.rows[w.ctl.i].capacity))
  }

  ghost predicate FileThere(w: World, i: nat) {
    i < |w.s.rows| && IsLive(w.s.rows[i]) && w.s.rows[i].isBlock && w.s.rows[i].path in w.s.disk
  }

  /** What fails or crashes ends the handler and changes nothing else. */
  lemma EndsHandler(w: World, st: Step)
    requires !Calm(st)
    ensures Apply(w, st) == w || Apply(w, st) == w.(ctl := Idle)
    ensures st == C(Crash) ==> Apply(w, st) == w.(ctl := Idle)
    ensures st == C(CheckSize(false)) && w.ctl.Grown? && w.ctl.i < |w.s.rows| ==> Apply(w, st) == w.(ctl := Idle)
    ensures st == C(CheckSize(false)) && !w.ctl.Grown? ==> Apply(w, st) == w
    ensures st == C(Resize(false)) && w.ctl.Checked? && w.ctl.i < |w.s.rows| ==> Apply(w, st) == w.(ctl := Idle)
    ensures st == C(Resize(false)) && !w.ctl.Checked? ==> Apply(w, st) == w
  {
  }

  lemma HarmlessEnd(w: World, st: Step)
    requires Inv(w) && Exact(w) && !Calm(st) && !Spoils(w, st)
    ensures Exact(Apply(w, st))
  {
    EndsHandler(w, st);
    forall i | 0 <= i < |w.s.rows| ensures ExactRow(Apply(w, st), i) {
      assert ExactRow(w, i);
    }
  }

  lemma SpoilBreaks(w: World, st: Step)
    requires Inv(w) && Exact(w) && Spoils(w, st)
    ensures Mismatch(Apply(w, st), w.ctl.i) && !Exact(Apply(w, st))
  {
    EndsHandler(w, st);
    assert ExactRow(w, w.ctl.i);
    assert !ExactRow(Apply(w, st), w.ctl.i);
  }

  lemma {:induction false} StaysExact(steps: seq<Step>, n: nat)
    requires n <= |steps| && forall m :: 0 <= m < n ==> !SpoilsAt(steps, m)
    ensures Exact(Run(Init(), steps[..n]))
  {
    if n > 0 {
      StaysExact(steps, n - 1);
      assert !SpoilsAt(steps, n - 1);
      StaysExactOnce(steps, n - 1);
    }
  }

  lemma StaysExactOnce(steps: seq<Step>, n: nat)
    requires n < |steps| && Exact(Run(Init(), steps[..n])) && !SpoilsAt(steps, n)
    ensures Exact(Run(Init(), steps[..n + 1]))
  {
    RunKeeps(Init(), steps[..n]);
    Prefix(steps, n);
    if Calm(steps[n]) {
      CalmStepExact(Run(Init(), steps[..n]), steps[n]);
    } else {
      HarmlessEnd(Run(Init(), steps[..n]), steps[n]);
    }
  }

  lemma Prefix(steps: seq<Step>, n: nat)
    requires n < |steps|
    ensures Run(Init(), steps[..n + 1]) == Apply(Run(Init(), steps[..n]), steps[n])
  {
    RunSnoc(Init(), steps[..n], steps[n]);
    assert steps[..n + 1] == steps[..n] + [steps[n]];
  }

  ghost predicate SpoilsAt(steps: seq<Step>, n: nat)
    requires n < |steps|
  {
    Spoils(Run(Init(), steps[..n]), steps[n])
  }

  lemma SpoilAtBreaks(steps: seq<Step>, n: nat)
    requires n < |steps| && SpoilsAt(steps, n) && Exact(Run(Init(), steps[..n]))
    ensures !Exact(Run(Init(), steps[..n + 1]))
  {
    RunKeeps(Init(), steps[..n]);
    Prefix(steps, n);
    SpoilBreaks(Run(Init(), steps[..n]), steps[n]);
  }

  /**
    * In every run, file size equals recorded capacity after every handler, at every moment, if
    * and only if no step is one of those.
    */
  lemma ExactExactly(steps: seq<Step>)
    ensures (forall n :: 0 <= n <= |steps| ==> Exact(Run(Init(), steps[..n]))) <==>
            (forall n :: 0 <= n < |steps| ==> !SpoilsAt(steps, n))
  {
    if forall n :: 0 <= n < |steps| ==> !SpoilsAt(steps, n) {
      forall n | 0 <= n <= |steps| ensures Exact(Run(Init(), steps[..n])) {
        StaysExact(steps, n);
      }
    } else {
      var n :| 0 <= n < |steps| && SpoilsAt(steps, n);
      if Exact(Run(Init(), steps[..n])) { SpoilAtBreaks(steps, n); }
    }
  }

  /** In particular in every run without stat or `dd` failure whose crashes hit no expand of a file. */
  lemma CalmRunExact(steps: seq<Step>)
    requires forall n :: 0 <= n < |steps| ==>
               Calm(steps[n]) || (steps[n] == C(Crash) && !Expanding(Run(Init(), steps[..n])))
    ensures Exact(Run(Init(), steps))
  {
    forall n | 0 <= n < |steps| ensures !SpoilsAt(steps, n) {
      assert Calm(steps[n]) || !Expanding(Run(Init(), steps[..n]));
    }
    StaysExact(steps, |steps|);
    assert steps[..|steps|] == steps;
  }

  /** An expand has recorded its capacity and not yet resized the file. */
  predicate Expanding(w: World) {
    w.ctl.Grown? || w.ctl.Checked?
  }

  lemma CreatedAlone(r: Row)
    requires RowOk(r) && IsLive(r)
    ensures var w := Run(Init(), [C(Begin(r)), C(Fill(true)), C(MakeLink(true))] + [C(Commit)]);
            && w.s.rows == [r] && At(w.s.disk, r.path) == Some(FreshEntry(r)) && w.s.links == map[r.Key() := r.path]
            && w.ctl.Idle? && w.job.Resting?
  {
    Run3(Init(), C(Begin(r)), C(Fill(true)), C(MakeLink(true)));
    MakeShardsKeeps(map[], {}, r.id, 3);
    PopulateAt(MakeShards(map[], r.id, 3), r, true);
    RunSnoc(Init(), [C(Begin(r)), C(Fill(true)), C(MakeLink(true))], C(Commit));
  }

  lemma GrowAndCrash(w: World, r: Row, capacity: int)
    requires w.s.rows == [r] && w.ctl.Idle? && At(w.s.disk, r.path) == Some(FreshEntry(r))
    requires IsLive(r) && r.isBlock && CapacityOk(capacity) && r.capacity < capacity
    ensures Mismatch(Run(w, [C(Grow(0, capacity)), C(Crash)]), 0)
  {
    Run2(w, C(Grow(0, capacity)), C(Crash));
    GrowMoves(w, 0, capacity);
  }

  /** A crash alone does it, to any block volume and any larger capacity: no call fails in this run. */
  lemma CrashSpoils(r: Row, capacity: int) returns (steps: seq<Step>)
    requires RowOk(r) && IsLive(r) && r.isBlock && CapacityOk(capacity) && r.capacity < capacity
    ensures Mismatch(Run(Init(), steps), 0)
  {
    var create := [C(Begin(r)), C(Fill(true)), C(MakeLink(true))] + [C(Commit)];
    CreatedAlone(r);
    RunAppend(Init(), create, [C(Grow(0, capacity)), C(Crash)]);
    GrowAndCrash(Run(Init(), create), r, capacity);
    steps := create + [C(Grow(0, capacity)), C(Crash)];
  }

  /** The file differs from the recorded capacity, and no expand under way can still mend it. */
  ghost predicate Mismatch(w: World, i: nat) {
    && i < |w.s.rows| && IsLive(w.s.rows[i]) && w.s.rows[i].isBlock
    && w.s.rows[i].path in w.s.disk
    && w.s.disk[w.s.rows[i].path] != File(w.s.rows[i].capacity)
    && w.ctl != Checked(i)
    && (w.ctl.Grown? && w.ctl.i == i ==> w.s.disk[w.s.rows[i].path] != File(w.ctl.oldCapacity))
  }

  lemma MismatchKept(w: World, st: Step, w': World, i: nat)
    requires Mismatch(w, i) && i < |w'.s.rows| && IsLive(w'.s.rows[i])
    requires var e := w.s.disk[w.s.rows[i].path]; e.File? && e.size <= w.s.rows[i].capacity <= w'.s.rows[i].capacity
    requires LiveEffect(w, st, w', i) && ExpandMove(w, st, w', i)
    ensures Mismatch(w', i) || w.s.rows[i].path !in w'.s.disk
  {
  }

  lemma StepKeepsMismatch(w: World, st: Step, i: nat)
    requires Inv(w) && Mismatch(w, i) && st != C(SoftDelete(i))
    ensures Mismatch(Apply(w, st), i) || w.s.rows[i].path !in Apply(w, st).s.disk
  {
    StepStaysLive(w, st, i);
    StepEvolves(w, st);
    assert RowEvolves(w.s.rows[i], Apply(w, st).s.rows[i]);
    ExpandMoves(w, st, i);
    LiveVolumeEffect(w, st, i);
    MismatchKept(w, st, Apply(w, st), i);
  }

  lemma PathIsKept(w: World, steps: seq<Step>, i: nat)
    requires i < |w.s.rows|
    ensures i < |Run(w, steps).s.rows| && Run(w, steps).s.rows[i].path == w.s.rows[i].path
  {
    RunEvolves(w, steps);
    assert RowEvolves(w.s.rows[i], Run(w, steps).s.rows[i]);
  }

  /** A mismatch is absorbing: it stays through every run until the volume is deleted or its file removed. */
  lemma {:induction false} MismatchIsAbsorbing(w: World, steps: seq<Step>, i: nat)
    requires Inv(w) && Mismatch(w, i) && C(SoftDelete(i)) !in steps
    requires forall n :: 0 <= n <= |steps| ==> w.s.rows[i].path in Run(w, steps[..n]).s.disk
    ensures Mismatch(Run(w, steps), i)
    decreases |steps|
  {
    if steps != [] {
      var n := |steps| - 1;
      assert forall m :: 0 <= m <= n ==> steps[..n][..m] == steps[..m];
      MismatchIsAbsorbing(w, steps[..n], i);
      RunKeeps(w, steps[..n]);
      PathIsKept(w, steps[..n], i);
      StepKeepsMismatch(Run(w, steps[..n]), steps[n], i);
      assert steps[..|steps|] == steps;
    }
  }
}
