/** What every step of every interleaving keeps. */
module Invariants {
  import opened Prelude
  import opened Capacity
  import opened Catalogue
  import opened StepMachine

  /** Every row is well formed and its id was drawn once; live rows have distinct names. */
  ghost predicate RowsInv(rows: seq<Row>, used: set<string>) {
    && (forall i :: 0 <= i < |rows| ==> RowOk(rows[i]) && rows[i].id in used)
    && (forall i, j :: 0 <= i < j < |rows| ==> rows[i].id != rows[j].id)
    && (forall i, j :: 0 <= i < j < |rows| && IsLive(rows[i]) && IsLive(rows[j]) ==> rows[i].name != rows[j].name)
  }

  /** Depth one to three are two-character folders; what is deeper lies below a drawn id. */
  ghost predicate EntryOk(disk: Disk, used: set<string>, k: Path)
    requires k in disk
  {
    && |k| > 0 && |k[0]| == 2
    && (|k| <= 3 ==> disk[k] == Folder)
    && (|k| >= 4 ==> k[3] in used)
  }

  ghost predicate DiskInv(disk: Disk, used: set<string>) {
    forall k :: k in disk ==> EntryOk(disk, used, k)
  }

  ghost predicate Sharded(disk: Disk, p: Path) {
    |p| == 4 && p[..1] in disk && p[..2] in disk && p[..3] in disk
  }

  /** What may lie at a volume's path: a folder, or a file no larger than the recorded capacity. */
  predicate Fits(e: Entry, r: Row) {
    if r.isBlock then e.File? && CapacityOk(e.size) && e.size <= r.capacity else e == Folder
  }

  ghost predicate VolumesInv(rows: seq<Row>, disk: Disk) {
    forall i :: 0 <= i < |rows| ==>
      Sharded(disk, rows[i].path) &&
      (IsLive(rows[i]) && rows[i].path in disk ==> Fits(disk[rows[i].path], rows[i]))
  }

  /** A row in the open transaction. */
  ghost predicate PendingOk(w: World, r: Row) {
    && RowOk(r) && IsLive(r) && r.id in w.used && Sharded(w.s.disk, r.path)
    && (forall i :: 0 <= i < |w.s.rows| ==> w.s.rows[i].id != r.id)
  }

  ghost predicate NameFree(rows: seq<Row>, name: string) {
    forall i :: 0 <= i < |rows| && IsLive(rows[i]) ==> rows[i].name != name
  }

  ghost predicate JobLists(job: Job, p: Path) {
    match job
    case Globbing(found) => p in found
    case Checking(todo) => p in todo
    case Removing(f, todo) => p == f || p in todo
    case _ => false
  }

  predicate FreshIfThere(disk: Disk, r: Row) {
    r.path in disk ==> disk[r.path] == FreshEntry(r)
  }

  ghost predicate CtlInv(w: World) {
    match w.ctl
    case Idle => true
    case Inserted(r) => PendingOk(w, r) && NameFree(w.s.rows, r.name) && r.path !in w.s.disk && !JobLists(w.job, r.path)
    case Filled(r) => PendingOk(w, r) && NameFree(w.s.rows, r.name) && FreshIfThere(w.s.disk, r)
    case Linked(r) => PendingOk(w, r) && NameFree(w.s.rows, r.name) && FreshIfThere(w.s.disk, r)
    case Undo(r) => PendingOk(w, r)
    case UndoLink(r) => PendingOk(w, r)
    case Deleted(i) => i < |w.s.rows| && !IsLive(w.s.rows[i])
    case Unlinked(i) => i < |w.s.rows| && !IsLive(w.s.rows[i])
    case Grown(i, was) => i < |w.s.rows| && IsLive(w.s.rows[i]) && w.s.rows[i].isBlock && was < w.s.rows[i].capacity
    case Checked(i) => i < |w.s.rows| && IsLive(w.s.rows[i]) && w.s.rows[i].isBlock
  }

  ghost predicate JobInv(w: World) {
    && (w.job.Sweeping? ==> forall id :: id in w.job.ids ==> ValidId(id))
    && (forall p :: JobLists(w.job, p) ==> |p| == 4 && p[3] in w.used)
  }

  ghost predicate Inv(w: World) {
    && RowsInv(w.s.rows, w.used)
    && DiskInv(w.s.disk, w.used)
    && VolumesInv(w.s.rows, w.s.disk)
    && CtlInv(w)
    && JobInv(w)
  }

  /** Making prefix directories keeps what is there and adds only two-character folders. */
  lemma MakeShardsKeeps(disk: Disk, used: set<string>, id: string, shards: nat)
    requires ValidId(id) && DiskInv(disk, used)
    ensures var d := MakeShards(disk, id, shards);
            && DiskInv(d, used)
            && (forall k :: k in disk ==> k in d && d[k] == disk[k])
            && (forall k :: k in d && |k| >= 4 ==> k in disk)
            && (shards >= 3 ==> Sharded(d, ShardPath(id)))
  {
    var p := ShardPath(id)[..if shards < 3 then shards else 3];
    var d := MakeShards(disk, id, shards);
    if shards >= 3 {
      var q := ShardPath(id);
      assert p[..1] == q[..1] && p[..2] == q[..2] && p[..3] == q[..3];
    }
  }

  /** Populating a prepared path only puts the row's entry there, when nothing was. */
  lemma PopulateAt(disk: Disk, r: Row, works: bool)
    requires RowOk(r) && Sharded(disk, r.path)
    ensures var p := Populate(disk, r, works);
            p.disk == if works && r.path !in disk then disk[r.path := FreshEntry(r)] else disk
    ensures Populate(disk, r, works).ok == works
    ensures Populate(disk, r, works).filled == (works && r.path !in disk)
  {
    var q := r.path;
    if works && q !in disk && !r.isBlock {
      assert q[..4] == q;
      assert MkdirAll(disk, q) == disk[q := Folder] by {
        forall i | 1 <= i <= |q| && q[..i] !in disk
          ensures i == 4
        {
        }
      }
    }
  }

  lemma RemoveAllInv(w: World, p: Path, stuck: set<Path>)
    requires DiskInv(w.s.disk, w.used) && VolumesInv(w.s.rows, w.s.disk) && |p| >= 4
    ensures DiskInv(RemoveAll(w.s.disk, p, stuck), w.used)
    ensures VolumesInv(w.s.rows, RemoveAll(w.s.disk, p, stuck))
    ensures forall q :: Sharded(w.s.disk, q) ==> Sharded(RemoveAll(w.s.disk, p, stuck), q)
  {
    var d := RemoveAll(w.s.disk, p, stuck);
    forall k | k in d ensures EntryOk(d, w.used, k) {
      assert EntryOk(w.s.disk, w.used, k);
    }
    forall q | Sharded(w.s.disk, q) ensures Sharded(d, q) {
      assert |q[..1]| == 1 && |q[..2]| == 2 && |q[..3]| == 3;
    }
  }

  /** Phase 1's target never exists, so phase 1 removes nothing. */
  lemma SweepRemovesNothing(disk: Disk, used: set<string>, id: string, stuck: set<Path>)
    requires DiskInv(disk, used) && ValidId(id)
    ensures RemoveAll(disk, [id], stuck) == disk
  {
    forall k | k in disk ensures !([id] <= k) {
      assert EntryOk(disk, used, k);
      assert [id][0] == id && |k[0]| != |id|;
    }
  }

  lemma PendingKept(w: World, w': World, r: Row)
    requires PendingOk(w, r)
    requires w.used <= w'.used
    requires |w'.s.rows| == |w.s.rows| && forall i :: 0 <= i < |w.s.rows| ==> w'.s.rows[i].id == w.s.rows[i].id
    requires Sharded(w.s.disk, r.path) ==> Sharded(w'.s.disk, r.path)
    ensures PendingOk(w', r)
  {
  }

  /** Making prefix directories for a new id keeps tree and volumes in order. */
  lemma ShardsKeep(w: World, id: string, shards: nat)
    requires Inv(w) && ValidId(id)
    ensures var d := MakeShards(w.s.disk, id, shards); DiskInv(d, w.used + {id}) && VolumesInv(w.s.rows, d)
  {
    var d := MakeShards(w.s.disk, id, shards);
    MakeShardsKeeps(w.s.disk, w.used, id, shards);
    forall k | k in d ensures EntryOk(d, w.used + {id}, k) {
      assert EntryOk(d, w.used, k);
    }
  }

  /** Nothing is known yet about an id that was not drawn. */
  lemma FreshIsUnknown(w: World, r: Row)
    requires Inv(w) && RowOk(r) && r.id !in w.used
    ensures r.path !in w.s.disk && !JobLists(w.job, r.path)
    ensures forall i :: 0 <= i < |w.s.rows| ==> w.s.rows[i].id != r.id
  {
    assert forall k :: k in w.s.disk ==> EntryOk(w.s.disk, w.used, k);
    assert r.path[3] == r.id;
  }

  lemma BeginKeeps(w: World, c: CtlStep)
    requires Inv(w) && (c.Begin? || c.Refuse?)
    ensures Inv(ApplyCtl(w, c))
  {
    var w' := ApplyCtl(w, c);
    if w' != w {
      var id := if c.Begin? then c.row.id else c.id;
      var shards := if c.Begin? then 3 else c.shards;
      MakeShardsKeeps(w.s.disk, w.used, id, shards);
      ShardsKeep(w, id, shards);
      if c.Begin? {
        FreshIsUnknown(w, c.row);
        assert PendingOk(w', c.row);
      }
      assert CtlInv(w') && JobInv(w');
    }
  }

  /** Putting an entry at a volume's path disturbs nothing else. */
  lemma PutVolumeKeeps(disk: Disk, used: set<string>, p: Path, e: Entry)
    requires DiskInv(disk, used) && |p| == 4 && |p[0]| == 2 && p[3] in used
    ensures DiskInv(disk[p := e], used)
    ensures forall q :: Sharded(disk, q) ==> Sharded(disk[p := e], q)
  {
    var d := disk[p := e];
    forall k | k in d ensures EntryOk(d, used, k) {
      if k in disk { assert EntryOk(disk, used, k); }
    }
  }

  /** Rows other than the one at the path keep what they have. */
  lemma PutVolumeFits(rows: seq<Row>, used: set<string>, disk: Disk, p: Path, e: Entry)
    requires RowsInv(rows, used) && DiskInv(disk, used) && VolumesInv(rows, disk)
    requires |p| == 4 && |p[0]| == 2 && p[3] in used
    requires forall i :: 0 <= i < |rows| && IsLive(rows[i]) && rows[i].path == p ==> Fits(e, rows[i])
    ensures VolumesInv(rows, disk[p := e])
  {
    PutVolumeKeeps(disk, used, p, e);
  }

  lemma FillKeeps(w: World, works: bool)
    requires Inv(w)
    ensures Inv(ApplyCtl(w, Fill(works)))
  {
    if w.ctl.Inserted? {
      var r := w.ctl.row;
      PopulateAt(w.s.disk, r, works);
      assert forall i :: 0 <= i < |w.s.rows| ==> w.s.rows[i].path[3] == w.s.rows[i].id;
      PutVolumeKeeps(w.s.disk, w.used, r.path, FreshEntry(r));
      PutVolumeFits(w.s.rows, w.used, w.s.disk, r.path, FreshEntry(r));
    }
  }

  lemma RefillKeeps(w: World, i: nat, works: bool)
    requires Inv(w)
    ensures Inv(ApplyCtl(w, Refill(i, works)))
  {
    if w.ctl.Idle? && i < |w.s.rows| && IsLive(w.s.rows[i]) {
      var r := w.s.rows[i];
      PopulateAt(w.s.disk, r, works);
      OnePathOneRow(w.s.rows, w.used, i);
      PutVolumeKeeps(w.s.disk, w.used, r.path, FreshEntry(r));
      PutVolumeFits(w.s.rows, w.used, w.s.disk, r.path, FreshEntry(r));
    }
  }

  lemma OnePathOneRow(rows: seq<Row>, used: set<string>, i: nat)
    requires RowsInv(rows, used) && i < |rows|
    ensures forall j :: 0 <= j < |rows| && rows[j].path == rows[i].path ==> j == i
  {
    assert forall j :: 0 <= j < |rows| ==> RowOk(rows[j]) && rows[j].path[3] == rows[j].id;
  }

  /** A live row is what its name and its id lead to. */
  lemma LiveRowFound(rows: seq<Row>, used: set<string>, i: nat)
    requires RowsInv(rows, used) && i < |rows| && IsLive(rows[i])
    ensures FindName(rows, rows[i].name) == Some(i) && FindId(rows, rows[i].id) == Some(i)
  {
  }

  lemma AppendedRow(rows: seq<Row>, used: set<string>, disk: Disk, r: Row)
    requires RowsInv(rows, used) && VolumesInv(rows, disk)
    requires RowOk(r) && r.id in used && Sharded(disk, r.path) && NameFree(rows, r.name)
    requires forall i :: 0 <= i < |rows| ==> rows[i].id != r.id
    requires r.path in disk ==> Fits(disk[r.path], r)
    ensures RowsInv(rows + [r], used) && VolumesInv(rows + [r], disk)
  {
  }

  lemma CommitKeeps(w: World)
    requires Inv(w)
    ensures Inv(ApplyCtl(w, Commit))
  {
    if w.ctl.Linked? {
      AppendedRow(w.s.rows, w.used, w.s.disk, w.ctl.row);
    }
  }

  lemma SoftDeletedRows(rows: seq<Row>, used: set<string>, disk: Disk, i: nat)
    requires RowsInv(rows, used) && VolumesInv(rows, disk) && i < |rows|
    ensures RowsInv(SoftDeleted(rows, i), used) && VolumesInv(SoftDeleted(rows, i), disk)
  {
    var rows' := SoftDeleted(rows, i);
    assert rows'[i] == rows[i].(deleted := true);
    forall j | 0 <= j < |rows'|
      ensures rows'[j].id == rows[j].id && rows'[j].name == rows[j].name && RowOk(rows'[j]) && rows'[j].id in used
      ensures IsLive(rows'[j]) ==> rows'[j] == rows[j]
    {
      assert RowOk(rows[j]);
    }
    forall j | 0 <= j < |rows'|
      ensures Sharded(disk, rows'[j].path)
      ensures IsLive(rows'[j]) && rows'[j].path in disk ==> Fits(disk[rows'[j].path], rows'[j])
    {
      assert rows'[j].path == rows[j].path;
    }
  }

  lemma SoftDeleteKeeps(w: World, i: nat)
    requires Inv(w)
    ensures Inv(ApplyCtl(w, SoftDelete(i)))
  {
    if w.ctl.Idle? && i < |w.s.rows| && IsLive(w.s.rows[i]) {
      SoftDeletedRows(w.s.rows, w.used, w.s.disk, i);
    }
  }

  /** A larger capacity keeps every row well formed and every file within bounds. */
  lemma ResizedRows(rows: seq<Row>, used: set<string>, disk: Disk, i: nat, capacity: int)
    requires RowsInv(rows, used) && VolumesInv(rows, disk)
    requires i < |rows| && CapacityOk(capacity) && rows[i].capacity < capacity
    ensures RowsInv(Resized(rows, i, capacity), used) && VolumesInv(Resized(rows, i, capacity), disk)
  {
    var rows' := Resized(rows, i, capacity);
    assert rows'[i] == rows[i].(capacity := capacity);
    assert RowOk(rows[i]);
    forall j | 0 <= j < |rows'|
      ensures RowOk(rows'[j]) && rows'[j].id in used && rows'[j].id == rows[j].id
      ensures rows'[j].name == rows[j].name && IsLive(rows'[j]) == IsLive(rows[j])
    {
    }
    forall j | 0 <= j < |rows'|
      ensures Sharded(disk, rows'[j].path)
      ensures IsLive(rows'[j]) && rows'[j].path in disk ==> Fits(disk[rows'[j].path], rows'[j])
    {
      assert rows'[j].path == rows[j].path;
    }
  }

  lemma GrowKeeps(w: World, i: nat, capacity: int)
    requires Inv(w)
    ensures Inv(ApplyCtl(w, Grow(i, capacity)))
  {
    if w.ctl.Idle? && i < |w.s.rows| && IsLive(w.s.rows[i]) && CapacityOk(capacity) && w.s.rows[i].capacity < capacity {
      GrowMoves(w, i, capacity);
      GrownKeeps(w, i, capacity);
    }
  }

  lemma GrowMoves(w: World, i: nat, capacity: int)
    requires w.ctl.Idle? && i < |w.s.rows| && IsLive(w.s.rows[i]) && CapacityOk(capacity)
    requires w.s.rows[i].capacity < capacity
    ensures var r, w' := w.s.rows[i], ApplyCtl(w, Grow(i, capacity));
            && w' == w.(s := w.s.(rows := Resized(w.s.rows, i, capacity)),
                        ctl := if r.isBlock then Grown(i, r.capacity) else Idle)
            && w'.s.rows[i] == r.(capacity := capacity)
  {
  }

  lemma GrownKeeps(w: World, i: nat, capacity: int)
    requires Inv(w) && w.ctl.Idle? && i < |w.s.rows| && IsLive(w.s.rows[i])
    requires CapacityOk(capacity) && w.s.rows[i].capacity < capacity
    ensures var r := w.s.rows[i];
            Inv(w.(s := w.s.(rows := Resized(w.s.rows, i, capacity)),
                   ctl := if r.isBlock then Grown(i, r.capacity) else Idle))
  {
    ResizedRows(w.s.rows, w.used, w.s.disk, i, capacity);
    assert Resized(w.s.rows, i, capacity)[i] == w.s.rows[i].(capacity := capacity);
  }

  lemma RemoveKeeps(w: World, c: CtlStep)
    requires Inv(w) && (c.UndoRemove? || c.DeleteRemove?)
    ensures Inv(ApplyCtl(w, c))
  {
    if w.ctl.Undo? && c.UndoRemove? {
      assert w.ctl.row.path == ShardPath(w.ctl.row.id);
      RemoveAtKeeps(w, w.ctl.row.path, c.stuck);
      RemoveMoves(w, c, w.ctl.row.path);
    } else if w.ctl.Unlinked? && c.DeleteRemove? {
      assert RowOk(w.s.rows[w.ctl.i]);
      RemoveAtKeeps(w, w.s.rows[w.ctl.i].path, c.stuck);
      RemoveMoves(w, c, w.s.rows[w.ctl.i].path);
    } else {
      assert ApplyCtl(w, c) == w;
    }
  }

  lemma RemoveMoves(w: World, c: CtlStep, p: Path)
    requires (c.UndoRemove? && w.ctl.Undo? && p == w.ctl.row.path)
          || (c.DeleteRemove? && w.ctl.Unlinked? && w.ctl.i < |w.s.rows| && p == w.s.rows[w.ctl.i].path)
    ensures ApplyCtl(w, c) == w.(s := w.s.(disk := RemoveAll(w.s.disk, p, c.stuck)))
  {
  }

  /** Removing a volume's path keeps the invariant when no handler relies on what is there. */
  lemma RemoveAtKeeps(w: World, p: Path, stuck: set<Path>)
    requires Inv(w) && |p| == 4 && (w.ctl.Undo? || w.ctl.Unlinked?)
    ensures Inv(w.(s := w.s.(disk := RemoveAll(w.s.disk, p, stuck))))
  {
    var w' := w.(s := w.s.(disk := RemoveAll(w.s.disk, p, stuck)));
    RemoveAllInv(w, p, stuck);
    if w.ctl.Undo? { PendingKept(w, w', w.ctl.row); }
    assert CtlInv(w') && JobInv(w');
  }

  lemma ResizeKeeps(w: World, works: bool)
    requires Inv(w)
    ensures Inv(ApplyCtl(w, Resize(works)))
  {
    if w.ctl.Checked? {
      var r := w.s.rows[w.ctl.i];
      OnePathOneRow(w.s.rows, w.used, w.ctl.i);
      PutVolumeKeeps(w.s.disk, w.used, r.path, File(r.capacity));
      PutVolumeFits(w.s.rows, w.used, w.s.disk, r.path, File(r.capacity));
    }
  }

  lemma PendingMoves(w: World, ctl: Ctl, links: Links)
    requires Inv(w)
    requires match w.ctl
             case Filled(r) => ctl == Linked(r)
             case Linked(r) => ctl == Undo(r)
             case Undo(r) => ctl == UndoLink(r)
             case Deleted(i) => ctl == Unlinked(i)
             case _ => ctl == Idle
    ensures Inv(w.(ctl := ctl, s := w.s.(links := links)))
  {
    var w' := w.(ctl := ctl, s := w.s.(links := links));
    assert JobInv(w');
    if w.ctl.Filled? || w.ctl.Linked? || w.ctl.Undo? {
      PendingKept(w, w', w.ctl.row);
    }
  }

  /** Steps that change neither the table nor the disk. */
  lemma LinkStepKeeps(w: World, c: CtlStep)
    requires Inv(w)
    requires c.MakeLink? || c.CommitFails? || c.UndoRemoved? || c.UndoUnlink? || c.DropLink?
    ensures Inv(ApplyCtl(w, c))
  {
    var w' := ApplyCtl(w, c);
    if w' != w {
      PendingMoves(w, w'.ctl, w'.s.links);
    }
  }

  lemma EndStepKeeps(w: World, c: CtlStep)
    requires Inv(w)
    requires c.DeleteRemoved? || c.CheckSize? || c.Crash?
    ensures Inv(ApplyCtl(w, c))
  {
    var w' := ApplyCtl(w, c);
    EndStepMoves(w, c);
    EndMoveKeeps(w, w'.ctl);
  }

  lemma EndStepMoves(w: World, c: CtlStep)
    requires c.DeleteRemoved? || c.CheckSize? || c.Crash?
    ensures var ctl := ApplyCtl(w, c).ctl;
            ApplyCtl(w, c) == w.(ctl := ctl) && (ctl == w.ctl || ctl.Idle? || (w.ctl.Grown? && ctl == Checked(w.ctl.i)))
  {
  }

  lemma EndMoveKeeps(w: World, ctl: Ctl)
    requires Inv(w) && (ctl == w.ctl || ctl.Idle? || (w.ctl.Grown? && ctl == Checked(w.ctl.i)))
    ensures Inv(w.(ctl := ctl))
  {
    var w' := w.(ctl := ctl);
    assert w'.s == w.s && w'.used == w.used && w'.job == w.job;
    assert ctl != w.ctl ==> CtlInv(w');
  }

  lemma CtlKeeps(w: World, c: CtlStep)
    requires Inv(w)
    ensures Inv(ApplyCtl(w, c))
  {
    if c.Refuse? || c.Begin? {
      BeginKeeps(w, c);
    } else if c.Fill? {
      FillKeeps(w, c.works);
    } else if c.Refill? {
      RefillKeeps(w, c.at, c.works);
    } else if c.Commit? {
      CommitKeeps(w);
    } else if c.UndoRemove? || c.DeleteRemove? {
      RemoveKeeps(w, c);
    } else if c.SoftDelete? {
      SoftDeleteKeeps(w, c.at);
    } else if c.Grow? {
      GrowKeeps(w, c.at, c.capacity);
    } else if c.Resize? {
      ResizeKeeps(w, c.works);
    } else if c.DeleteRemoved? || c.CheckSize? || c.Crash? {
      EndStepKeeps(w, c);
    } else {
      LinkStepKeeps(w, c);
    }
  }

  lemma CtlOfOtherJob(w: World, w': World)
    requires CtlInv(w) && w'.s.rows == w.s.rows && w'.used == w.used && w'.ctl == w.ctl
    requires forall q :: Sharded(w.s.disk, q) ==> Sharded(w'.s.disk, q)
    requires forall k :: k in w'.s.disk && |k| <= 4 ==> k in w.s.disk && w'.s.disk[k] == w.s.disk[k]
    requires w.ctl.Inserted? && JobLists(w'.job, w.ctl.row.path) ==> JobLists(w.job, w.ctl.row.path)
    ensures CtlInv(w')
  {
    if !w.ctl.Idle? && !w.ctl.Deleted? && !w.ctl.Unlinked? && !w.ctl.Grown? && !w.ctl.Checked? {
      PendingKept(w, w', w.ctl.row);
    }
  }

  lemma JobRemoveKeeps(w: World, stuck: set<Path>)
    requires Inv(w)
    ensures Inv(ApplyJob(w, Remove(stuck)))
  {
    if w.job.Removing? {
      assert JobLists(w.job, w.job.f);
      RemoveAllInv(w, w.job.f, stuck);
      CtlOfOtherJob(w, ApplyJob(w, Remove(stuck)));
    }
  }

  lemma JobSeeKeeps(w: World, f: Path)
    requires Inv(w)
    ensures Inv(ApplyJob(w, See(f)))
  {
    var w' := ApplyJob(w, See(f));
    if w'.job != w.job {
      assert EntryOk(w.s.disk, w.used, f);
      assert forall p :: JobLists(w'.job, p) ==> p == f || JobLists(w.job, p);
      CtlOfOtherJob(w, w');
    }
  }

  lemma JobSweepKeeps(w: World, stuck: set<Path>)
    requires Inv(w)
    ensures Inv(ApplyJob(w, SweepTop(stuck)))
  {
    if w.job.Sweeping? && w.job.ids != [] {
      SweepRemovesNothing(w.s.disk, w.used, w.job.ids[0], stuck);
      CtlOfOtherJob(w, ApplyJob(w, SweepTop(stuck)));
    }
  }

  /** The other job steps change neither table nor disk, and look at no new path. */
  lemma JobMoves(w: World, j: JobStep)
    requires !j.SweepTop? && !j.Remove? && !j.See?
    ensures var w' := ApplyJob(w, j);
            && w'.s.rows == w.s.rows && w'.s.disk == w.s.disk && w'.used == w.used && w'.ctl == w.ctl
            && (forall p :: JobLists(w'.job, p) ==> JobLists(w.job, p))
            && (w'.job.Sweeping? ==> w'.job == w.job || w'.job.ids == DeletedIds(w.s.rows))
  {
  }

  lemma JobMoveKeeps(w: World, j: JobStep)
    requires Inv(w) && !j.SweepTop? && !j.Remove? && !j.See?
    ensures Inv(ApplyJob(w, j))
  {
    var w' := ApplyJob(w, j);
    JobMoves(w, j);
    CtlOfOtherJob(w, w');
    assert JobInv(w');
  }

  lemma JobKeeps(w: World, j: JobStep)
    requires Inv(w)
    ensures Inv(ApplyJob(w, j))
  {
    if j.SweepTop? {
      JobSweepKeeps(w, j.stuck);
    } else if j.Remove? {
      JobRemoveKeeps(w, j.stuck);
    } else if j.See? {
      JobSeeKeeps(w, j.seen);
    } else {
      JobMoveKeeps(w, j);
    }
  }

  lemma UserKeeps(w: World, u: UserStep)
    requires Inv(w)
    ensures Inv(ApplyUser(w, u))
  {
    var w' := ApplyUser(w, u);
    match u
    case Erase(k) =>
      if |k| > 4 {
        RemoveAllInv(w, k, {});
      }
    case Put(k, e) =>
      if w' != w {
        PutKeepsTree(w.s.disk, w.used, k, e);
        assert CtlInv(w') && JobInv(w');
      }
  }

  lemma PutKeepsTree(disk: Disk, used: set<string>, k: Path, e: Entry)
    requires DiskInv(disk, used) && |k| > 4 && k[..|k| - 1] in disk
    ensures DiskInv(disk[k := e], used)
    ensures forall q :: Sharded(disk, q) ==> Sharded(disk[k := e], q)
  {
    assert EntryOk(disk, used, k[..|k| - 1]);
    var d := disk[k := e];
    forall q | q in d ensures EntryOk(d, used, q) {
      if q in disk { assert EntryOk(disk, used, q); }
    }
  }

  /** Every step of every interleaving keeps the invariant. */
  lemma StepKeeps(w: World, st: Step)
    requires Inv(w)
    ensures Inv(Apply(w, st))
  {
    match st
    case C(c) => CtlKeeps(w, c);
    case J(j) => JobKeeps(w, j);
    case U(u) => UserKeeps(w, u);
  }

  lemma {:induction false} RunKeeps(w: World, steps: seq<Step>)
    requires Inv(w)
    ensures Inv(Run(w, steps))
    decreases |steps|
  {
    if steps != [] {
      var n := |steps| - 1;
      RunKeeps(w, steps[..n]);
      StepKeeps(Run(w, steps[..n]), steps[n]);
    }
  }

  // ---------------------------------------------------------------- the tree is closed under parents

  lemma FillKeepsClosed(w: World, r: Row, works: bool)
    requires Closed(w.s.disk) && RowOk(r) && Sharded(w.s.disk, r.path)
    ensures Closed(Populate(w.s.disk, r, works).disk)
  {
    PopulateAt(w.s.disk, r, works);
    PutKeepsClosed(w.s.disk, r.path, FreshEntry(r));
  }

  lemma CtlKeepsClosed(w: World, c: CtlStep)
    requires Inv(w) && Closed(w.s.disk)
    ensures Closed(ApplyCtl(w, c).s.disk)
  {
    match c
    case Refuse(id, shards) =>
      if |id| >= 6 { MkdirAllKeepsClosed(w.s.disk, ShardPath(id)[..if shards < 3 then shards else 3]); }
    case Begin(row) =>
      if RowOk(row) { MkdirAllKeepsClosed(w.s.disk, ShardPath(row.id)[..3]); }
    case Fill(works) =>
      if w.ctl.Inserted? { FillKeepsClosed(w, w.ctl.row, works); }
    case Refill(i, works) =>
      if i < |w.s.rows| { FillKeepsClosed(w, w.s.rows[i], works); }
    case UndoRemove(stuck) =>
      if w.ctl.Undo? { RemoveAllKeepsClosed(w.s.disk, w.ctl.row.path, stuck); }
    case DeleteRemove(stuck) =>
      if w.ctl.Unlinked? { RemoveAllKeepsClosed(w.s.disk, w.s.rows[w.ctl.i].path, stuck); }
    case Resize(works) =>
      if w.ctl.Checked? { ResizeKeepsClosed(w, w.s.rows[w.ctl.i], works); }
    case _ => OtherKeepsTree(w, c);
  }

  lemma ResizeKeepsClosed(w: World, r: Row, works: bool)
    requires Closed(w.s.disk) && w.ctl.Checked? && w.ctl.i < |w.s.rows| && r == w.s.rows[w.ctl.i]
    ensures Closed(ApplyCtl(w, Resize(works)).s.disk)
  {
    if |r.path| == 4 && r.path[..3] in w.s.disk { PutKeepsClosed(w.s.disk, r.path, File(r.capacity)); }
  }

  lemma OtherKeepsTree(w: World, c: CtlStep)
    requires !c.Refuse? && !c.Begin? && !c.Fill? && !c.Refill? && !c.UndoRemove? && !c.DeleteRemove? && !c.Resize?
    ensures ApplyCtl(w, c).s.disk == w.s.disk
  {
  }

  /** Every step keeps the tree closed: nothing is left below a directory that is gone. */
  lemma StepKeepsClosed(w: World, st: Step)
    requires Inv(w) && Closed(w.s.disk)
    ensures Closed(Apply(w, st).s.disk)
  {
    match st
    case C(c) => CtlKeepsClosed(w, c);
    case J(j) =>
      if j.SweepTop? && w.job.Sweeping? && w.job.ids != [] {
        RemoveAllKeepsClosed(w.s.disk, [w.job.ids[0]], j.stuck);
      } else if j.Remove? && w.job.Removing? {
        RemoveAllKeepsClosed(w.s.disk, w.job.f, j.stuck);
      }
    case U(Put(k, e)) =>
      if |k| > 4 && k[..|k| - 1] in w.s.disk { PutKeepsClosed(w.s.disk, k, e); }
    case U(Erase(k)) => RemoveAllKeepsClosed(w.s.disk, k, {});
  }

  lemma {:induction false} RunKeepsClosed(w: World, steps: seq<Step>)
    requires Inv(w) && Closed(w.s.disk)
    ensures Closed(Run(w, steps).s.disk)
  {
    if steps != [] {
      var n := |steps| - 1;
      RunKeepsClosed(w, steps[..n]);
      RunKeeps(w, steps[..n]);
      StepKeepsClosed(Run(w, steps[..n]), steps[n]);
    }
  }

  /** The invariant holds in every reachable state, and the tree is closed under parents. */
  lemma ReachableInv(w: World)
    requires Reachable(w)
    ensures Inv(w) && Closed(w.s.disk)
  {
    var steps :| w == Run(Init(), steps);
    RunKeeps(Init(), steps);
    RunKeepsClosed(Init(), steps);
  }
}
