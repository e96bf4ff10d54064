/**
  * The controller and the clean-up job as one state machine over the shared catalogue. Each
  * step changes one of the places that hold a volume: the table, the disk or the links. What
  * may fail, and what a failed removal leaves behind, are arguments of the step. A step that
  * is not enabled changes nothing, so any list of steps is a run.
  */
module StepMachine {
  import opened Capacity
  import opened Catalogue

  /** Where the one request handler that holds the mutex is. */
  datatype Ctl =
    | Idle
    | Inserted(row: Row)                 // the row is in the open transaction
    | Filled(row: Row)                   // ... and its path is populated
    | Linked(row: Row)                   // ... and its symlink was attempted
    | Undo(row: Row)                     // the commit failed, the path is being removed
    | UndoLink(row: Row)                 // ... and then the symlink
    | Deleted(i: nat)                    // the row is soft-deleted, outside the transaction
    | Unlinked(i: nat)                   // ... and its symlink removal was attempted
    | Grown(i: nat, oldCapacity: int)    // the new capacity is recorded, outside the transaction
    | Checked(i: nat)                    // ... and the file size was the old capacity

  /** Where the clean-up job is. */
  datatype Job =
    | Resting
    | Sweeping(ids: seq<string>)                 // phase 1: the ids of the deleted rows
    | Globbing(found: seq<Path>)                 // phase 2: reading the depth-four entries
    | Checking(todo: seq<Path>)                  // ... looking each one up
    | Removing(f: Path, todo: seq<Path>)         // ... and removing one without a row
    | Dropping                                   // phase 3: emptying the symlink directory
    | Relinking(vols: seq<Row>)                  // ... and linking the live rows

  datatype World = World(s: Store, used: set<string>, ctl: Ctl, job: Job)

  datatype CtlStep =
    | Refuse(id: string, shards: nat)   // an id was drawn, but no row was inserted
    | Begin(row: Row)
    | Fill(works: bool)
    | MakeLink(works: bool)
    | Commit
    | CommitFails
    | UndoRemove(stuck: set<Path>)
    | UndoRemoved
    | UndoUnlink(works: bool)
    | Refill(at: nat, works: bool)      // a create found its row and populates it if required
    | SoftDelete(at: nat)
    | DropLink(works: bool)
    | DeleteRemove(stuck: set<Path>)
    | DeleteRemoved
    | Grow(at: nat, capacity: int)
    | CheckSize(works: bool)
    | Resize(works: bool)
    | Crash

  datatype JobStep =
    | Start
    | StartRelink                       // the job that only rebuilds the symlinks
    | SweepTop(stuck: set<Path>)
    | SweepDone
    | See(seen: Path)
    | GlobDone
    | Check
    | Remove(stuck: set<Path>)          // the removal is over once the path itself is gone
    | Removed
    | ToLinks
    | Drop(names: set<Link>)
    | DropDone(works: bool)
    | Relink(works: bool)
    | RelinkDone
    | Kill

  /** What the pods do inside folder volumes. */
  datatype UserStep =
    | Put(k: Path, e: Entry)
    | Erase(k: Path)

  datatype Step = C(c: CtlStep) | J(j: JobStep) | U(u: UserStep)

  /** A row the controller creates: its id is valid, its path follows from it, its capacity is rounded. */
  predicate RowOk(r: Row) {
    ValidId(r.id) && r.path == ShardPath(r.id) && CapacityOk(r.capacity)
  }

  /** The prefix directories of an id, as far as they were made. */
  function MakeShards(disk: Disk, id: string, shards: nat): Disk
    requires |id| >= 6
  {
    MkdirAll(disk, ShardPath(id)[..if shards < 3 then shards else 3])
  }

  function ApplyCtl(w: World, c: CtlStep): World {
    var s := w.s;
    match c
    case Refuse(id, shards) =>
      if w.ctl.Idle? && ValidId(id) && id !in w.used then
        w.(s := s.(disk := MakeShards(s.disk, id, shards)), used := w.used + {id})
      else w
    case Begin(row) =>
      if w.ctl.Idle? && RowOk(row) && IsLive(row) && row.id !in w.used && FindName(s.rows, row.name).None? then
        w.(s := s.(disk := MakeShards(s.disk, row.id, 3)), used := w.used + {row.id}, ctl := Inserted(row))
      else w
    case Fill(works) =>
      if w.ctl.Inserted? then
        var p := Populate(s.disk, w.ctl.row, works);
        w.(s := s.(disk := p.disk), ctl := if p.ok then Filled(w.ctl.row) else Idle)
      else w
    case MakeLink(works) =>
      if w.ctl.Filled? then
        var row := w.ctl.row;
        w.(s := s.(links := Symlink(s.links, row.Key(), row.path, works)), ctl := Linked(row))
      else w
    case Commit =>
      if w.ctl.Linked? then w.(s := s.(rows := s.rows + [w.ctl.row]), ctl := Idle) else w
    case CommitFails =>
      if w.ctl.Linked? then w.(ctl := Undo(w.ctl.row)) else w
    case UndoRemove(stuck) =>
      if w.ctl.Undo? then w.(s := s.(disk := RemoveAll(s.disk, w.ctl.row.path, stuck))) else w
    case UndoRemoved =>
      if w.ctl.Undo? then w.(ctl := UndoLink(w.ctl.row)) else w
    case UndoUnlink(works) =>
      if w.ctl.UndoLink? then
        w.(s := s.(links := Unlink(s.links, w.ctl.row.Key(), works)), ctl := Idle)
      else w
    case Refill(i, works) =>
      if w.ctl.Idle? && i < |s.rows| && IsLive(s.rows[i]) then
        w.(s := s.(disk := Populate(s.disk, s.rows[i], works).disk))
      else w
    case SoftDelete(i) =>
      if w.ctl.Idle? && i < |s.rows| && IsLive(s.rows[i]) then
        w.(s := s.(rows := SoftDeleted(s.rows, i)), ctl := Deleted(i))
      else w
    case DropLink(works) =>
      if w.ctl.Deleted? && w.ctl.i < |s.rows| then
        w.(s := s.(links := Unlink(s.links, s.rows[w.ctl.i].Key(), works)), ctl := Unlinked(w.ctl.i))
      else w
    case DeleteRemove(stuck) =>
      if w.ctl.Unlinked? && w.ctl.i < |s.rows| then
        w.(s := s.(disk := RemoveAll(s.disk, s.rows[w.ctl.i].path, stuck)))
      else w
    case DeleteRemoved =>
      if w.ctl.Unlinked? then w.(ctl := Idle) else w
    case Grow(i, capacity) =>
      if w.ctl.Idle? && i < |s.rows| && IsLive(s.rows[i]) && CapacityOk(capacity) && s.rows[i].capacity < capacity then
        w.(s := s.(rows := Resized(s.rows, i, capacity)),
           ctl := if s.rows[i].isBlock then Grown(i, s.rows[i].capacity) else Idle)
      else w
    case CheckSize(works) =>
      if w.ctl.Grown? && w.ctl.i < |s.rows| then
        var p := s.rows[w.ctl.i].path;
        w.(ctl := if works && p in s.disk && s.disk[p] == File(w.ctl.oldCapacity) then Checked(w.ctl.i) else Idle)
      else w
    case Resize(works) =>
      if w.ctl.Checked? && w.ctl.i < |s.rows| then
        var r := s.rows[w.ctl.i];
        if works && |r.path| == 4 && r.path[..3] in s.disk then
          w.(s := s.(disk := s.disk[r.path := File(r.capacity)]), ctl := Idle)
        else w.(ctl := Idle)
      else w
    case Crash => w.(ctl := Idle)
  }

  /** The ids phase 1 asks for: those of soft-deleted rows. */
  function DeletedIds(rows: seq<Row>): (ids: seq<string>)
    ensures forall id :: id in ids ==> exists i :: 0 <= i < |rows| && !IsLive(rows[i]) && rows[i].id == id
  {
    if rows == [] then [] else
      var n := |rows| - 1;
      DeletedIds(rows[..n]) + if IsLive(rows[n]) then [] else [rows[n].id]
  }

  function ApplyJob(w: World, j: JobStep): World {
    var s := w.s;
    match j
    case Start => if w.job.Resting? then w.(job := Sweeping(DeletedIds(s.rows))) else w
    case StartRelink => if w.job.Resting? then w.(job := Dropping) else w
    case SweepTop(stuck) =>
      if w.job.Sweeping? && w.job.ids != [] then
        w.(s := s.(disk := RemoveAll(s.disk, [w.job.ids[0]], stuck)), job := Sweeping(w.job.ids[1..]))
      else w
    case SweepDone => if w.job.Sweeping? && w.job.ids == [] then w.(job := Globbing([])) else w
    case See(f) =>
      if w.job.Globbing? && |f| == 4 && f in s.disk then w.(job := Globbing(w.job.found + [f])) else w
    case GlobDone => if w.job.Globbing? then w.(job := Checking(w.job.found)) else w
    case Check =>
      if w.job.Checking? && w.job.todo != [] then
        var f, rest := w.job.todo[0], w.job.todo[1..];
        w.(job := if LivePath(s.rows, f) then Checking(rest) else Removing(f, rest))
      else w
    case Remove(stuck) =>
      if w.job.Removing? then
        var disk := RemoveAll(s.disk, w.job.f, stuck);
        w.(s := s.(disk := disk), job := if w.job.f in disk then w.job else Checking(w.job.todo))
      else w
    case Removed => if w.job.Removing? then w.(job := Checking(w.job.todo)) else w
    case ToLinks => if w.job == Checking([]) then w.(job := Dropping) else w
    case Drop(names) => if w.job.Dropping? then w.(s := s.(links := s.links - names)) else w
    case DropDone(works) =>
      if w.job.Dropping? then w.(job := if works then Relinking(LiveRows(s.rows)) else Resting) else w
    case Relink(works) =>
      if w.job.Relinking? && w.job.vols != [] then
        var v := w.job.vols[0];
        w.(s := s.(links := Symlink(s.links, v.Key(), v.path, works)), job := Relinking(w.job.vols[1..]))
      else w
    case RelinkDone => if w.job == Relinking([]) then w.(job := Resting) else w
    case Kill => w.(job := Resting)
  }

  function ApplyUser(w: World, u: UserStep): World {
    match u
    case Put(k, e) =>
      if |k| > 4 && k[..|k| - 1] in w.s.disk && w.s.disk[k[..|k| - 1]] == Folder then
        w.(s := w.s.(disk := w.s.disk[k := e]))
      else w
    case Erase(k) =>
      if |k| > 4 then w.(s := w.s.(disk := RemoveAll(w.s.disk, k, {}))) else w
  }

  function Apply(w: World, st: Step): World {
    match st
    case C(c) => ApplyCtl(w, c)
    case J(j) => ApplyJob(w, j)
    case U(u) => ApplyUser(w, u)
  }

  function Run(w: World, steps: seq<Step>): World {
    if steps == [] then w else Apply(Run(w, steps[..|steps| - 1]), steps[|steps| - 1])
  }

  /** An empty catalogue, nothing running. */
  function Init(): World {
    World(Store([], map[], map[]), {}, Idle, Resting)
  }

  ghost predicate Reachable(w: World) {
    exists steps :: w == Run(Init(), steps)
  }

  lemma RunSnoc(w: World, steps: seq<Step>, st: Step)
    ensures Run(w, steps + [st]) == Apply(Run(w, steps), st)
  {
    assert (steps + [st])[..|steps|] == steps;
  }

  lemma Run1(w: World, a: Step)
    ensures Run(w, [a]) == Apply(w, a)
  {
    RunSnoc(w, [], a);
  }

  lemma Run2(w: World, a: Step, b: Step)
    ensures Run(w, [a, b]) == Apply(Apply(w, a), b)
  {
    Run1(w, a);
    RunSnoc(w, [a], b);
    assert [a, b] == [a] + [b];
  }

  lemma Run3(w: World, a: Step, b: Step, c: Step)
    ensures Run(w, [a, b, c]) == Apply(Apply(Apply(w, a), b), c)
  {
    Run2(w, a, b);
    RunSnoc(w, [a, b], c);
    assert [a, b, c] == [a, b] + [c];
  }

  lemma Run4(w: World, a: Step, b: Step, c: Step, d: Step)
    ensures Run(w, [a, b, c, d]) == Apply(Apply(Apply(Apply(w, a), b), c), d)
  {
    Run3(w, a, b, c);
    RunSnoc(w, [a, b, c], d);
    assert [a, b, c, d] == [a, b, c] + [d];
  }

  lemma {:induction false} RunAppend(w: World, a: seq<Step>, b: seq<Step>)
    ensures Run(w, a + b) == Run(Run(w, a), b)
    decreases |b|
  {
    if b == [] {
      assert a + b == a;
    } else {
      var n := |b| - 1;
      RunAppend(w, a, b[..n]);
      assert a + b == (a + b[..n]) + [b[n]];
      RunSnoc(w, a + b[..n], b[n]);
    }
  }

  /** A run cut anywhere is a run up to the cut and a run from there. */
  lemma RunSplit(w: World, steps: seq<Step>, i: nat)
    requires i <= |steps|
    ensures Run(w, steps) == Run(Run(w, steps[..i]), steps[i..])
  {
    assert steps == steps[..i] + steps[i..];
    RunAppend(w, steps[..i], steps[i..]);
  }
}
