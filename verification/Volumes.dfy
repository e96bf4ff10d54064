/**
  * The volume helper: the object behind the request handlers and the clean-up job. Its
  * methods change the table, the disk and the links one after the other; what may fail on
  * the way is an argument. Each method is specified by a function of the store.
  */
module Volumes {
  import opened Prelude
  import opened Catalogue
  import opened StepMachine
  import opened Records

  // ---------------------------------------------------------------- creating a volume

  /**
    * What the outside does to one `CreateVolume`: how many prefix directories it makes, which
    * calls work, what a removal after a failed commit leaves behind.
    */
  datatype CreateEnv = CreateEnv(
    shards: nat, inserts: bool, fills: bool, links: bool, commits: bool, stuck: set<Path>, unlinks: bool)

  function CreateSpec(s: Store, row: Row, env: CreateEnv): (Store, bool)
    requires |row.id| >= 6
  {
    var disk := MakeShards(s.disk, row.id, env.shards);
    if env.shards < 3 || !env.inserts || Clashes(s.rows, row) then (s.(disk := disk), false)
    else
      var p := Populate(disk, row, env.fills);
      if !p.ok then (s.(disk := p.disk), false)
      else
        var links := Symlink(s.links, row.Key(), row.path, env.links);
        if env.commits then (Store(s.rows + [row], p.disk, links), true)
        else (Store(s.rows, RemoveAll(p.disk, row.path, env.stuck), Unlink(links, row.Key(), env.unlinks)), false)
  }

  // ---------------------------------------------------------------- deleting a volume

  datatype DeleteEnv = DeleteEnv(unlinks: bool, stuck: set<Path>, commits: bool)

  function DeleteSpec(s: Store, i: nat, env: DeleteEnv): (Store, bool)
    requires i < |s.rows|
  {
    var r := s.rows[i];
    (Store(SoftDeleted(s.rows, i), RemoveAll(s.disk, r.path, env.stuck), Unlink(s.links, r.Key(), env.unlinks)),
     !RemoveFails(s.disk, r.path, env.stuck) && env.commits)
  }

  // ---------------------------------------------------------------- expanding a volume

  datatype ExpandEnv = ExpandEnv(updates: bool, stats: bool, dd: bool, commits: bool)

  /** The row is updated first and outside the transaction; the file follows only if its size was the old capacity. */
  function ExpandSpec(s: Store, vol: Row, capacity: int, env: ExpandEnv): (Store, bool) {
    if !env.updates then (s, false)
    else
      var i := FindId(s.rows, vol.id);
      var s1 := if i.Some? then s.(rows := Resized(s.rows, i.value, capacity)) else s;
      if !vol.isBlock then (s1, env.commits)
      else if !env.stats || vol.path !in s.disk || s.disk[vol.path] != File(vol.capacity) then (s1, false)
      else if !env.dd || (|vol.path| > 1 && vol.path[..|vol.path| - 1] !in s.disk) then (s1, false)
      else (s1.(disk := s.disk[vol.path := File(capacity)]), env.commits)
  }

  // ---------------------------------------------------------------- rebuilding and cleaning up

  /**
    * What happens to a rebuild: whether `syms` can be emptied, what stays otherwise, and which
    * of the link calls, counted from zero, fail by themselves.
    */
  datatype RebuildEnv = RebuildEnv(drops: bool, left: set<Link>, bad: set<nat>)

  function RebuildSpec(s: Store, env: RebuildEnv): Store {
    if !env.drops then s.(links := map k | k in s.links && k in env.left :: s.links[k])
    else s.(links := LinkAll(map[], LiveRows(s.rows), env.bad))
  }

  /** The last link call fails, by itself or because an earlier call has taken the name. */
  predicate LastCallFails(vols: seq<Row>, bad: set<nat>)
    requires vols != []
  {
    var n := |vols| - 1;
    n in bad || CallWorks(vols[..n], bad, vols[n].Key())
  }

  /** The answer of a rebuild. */
  predicate RebuildOk(rows: seq<Row>, env: RebuildEnv) {
    env.drops && (LiveRows(rows) != [] ==> !LastCallFails(LiveRows(rows), env.bad))
  }

  /** Phase 1: for each deleted row, remove `vols/<id>` if it is there. */
  function SweepTops(disk: Disk, ids: seq<string>, stuck: set<Path>): Disk {
    if ids == [] then disk else
      var d := SweepTops(disk, ids[..|ids| - 1], stuck);
      var top := [ids[|ids| - 1]];
      if top in d then RemoveAll(d, top, stuck) else d
  }

  /** A depth-four entry without a live row. */
  predicate Dangling(disk: Disk, rows: seq<Row>, f: Path) {
    f in disk && |f| == 4 && !LivePath(rows, f)
  }

  /** Phase 2: everything at or below a dangling entry goes, except what cannot be removed. */
  function SweepDangling(disk: Disk, rows: seq<Row>, stuck: set<Path>): Disk {
    map k | k in disk && (|k| >= 4 && Dangling(disk, rows, k[..4]) ==> Held(disk, stuck, k)) :: disk[k]
  }

  function CleanUpSpec(s: Store, stuck: set<Path>, env: RebuildEnv): Store {
    var disk := SweepTops(s.disk, DeletedIds(s.rows), stuck);
    RebuildSpec(s.(disk := SweepDangling(disk, s.rows, stuck)), env)
  }

  // ---------------------------------------------------------------- volume details

  datatype Condition = Good | SizeDiffers | Unreadable

  datatype Detail = Detail(
    volumeId: string, pv: string, pvc: string, ns: string, kind: string, capacity: int,
    nodeIds: seq<string>, condition: Condition)
  {
    predicate Abnormal() { !condition.Good? }
  }

  /** The detail of one row; `bad` are the paths whose stat fails. */
  function DetailOf(r: Row, disk: Disk, recs: seq<PublishRecord>, bad: set<Path>): Detail {
    Detail(r.id, r.pv, r.pvc, r.ns, if r.isBlock then "disk" else "folder", r.capacity, NodeIds(recs, r.id),
           if r.path in bad || r.path !in disk then Unreadable
           else if r.isBlock && disk[r.path] != File(r.capacity) then SizeDiffers
           else Good)
  }

  function DetailsOf(vols: seq<Row>, disk: Disk, recs: seq<PublishRecord>, bad: set<Path>): (l: seq<Detail>)
    ensures |l| == |vols| && forall i :: 0 <= i < |vols| ==> l[i] == DetailOf(vols[i], disk, recs, bad)
  {
    seq(|vols|, i requires 0 <= i < |vols| => DetailOf(vols[i], disk, recs, bad))
  }

  /** `Offset(o).Limit(l)`: an offset or limit that is not positive is no clause at all. */
  function Page<T>(l: seq<T>, offset: int, limit: int): seq<T> {
    var from := if offset <= 0 then 0 else if offset < |l| then offset else |l|;
    var to := if limit <= 0 || from + limit > |l| then |l| else from + limit;
    l[from..to]
  }

  class VolumeHelper {
    var rows: seq<Row>
    var disk: Disk
    var links: Links
    var nodes: Nodes
    var published: seq<PublishRecord>

    function Store(): Store
      reads this
    {
      Catalogue.Store.Store(rows, disk, links)
    }

    constructor ()
      ensures Store() == Init().s && nodes == map[] && published == []
    {
      rows, disk, links := [], map[], map[];
      nodes, published := map[], [];
    }

    method GetVolume(volid: string) returns (vol: Option<Row>)
      ensures match FindId(rows, volid) case Some(i) => vol == Some(rows[i]) case None => vol == None
    {
      var i := FindId(rows, volid);
      vol := if i.Some? then Some(rows[i.value]) else None;
    }

    method GetVolumeIdByName(volname: string) returns (volid: Option<string>)
      ensures match FindName(rows, volname) case Some(i) => volid == Some(rows[i].id) case None => volid == None
    {
      var i := FindName(rows, volname);
      volid := if i.Some? then Some(rows[i.value].id) else None;
    }

    method PopulateVolumeIfRequired(vol: Row, works: bool) returns (filled: bool, ok: bool)
      modifies this`disk
      ensures Populated(disk, filled, ok) == Populate(old(disk), vol, works)
    {
      if !works {
        return false, false;
      }
      if vol.path !in disk {
        if vol.isBlock {
          if |vol.path| > 1 && vol.path[..|vol.path| - 1] !in disk {
            return false, false;
          }
          disk := disk[vol.path := File(vol.capacity)];
        } else {
          disk := MkdirAll(disk, vol.path);
        }
        return true, true;
      }
      return false, true;
    }

    method CreateVolume(volid: string, volname: string, pvname: string, pvcname: string, nsname: string,
                        capacity: int, isblock: bool, env: CreateEnv)
      returns (vol: Option<Row>)
      requires |volid| >= 6
      modifies this`rows, this`disk, this`links
      ensures var row := Row(volid, volname, pvname, pvcname, nsname, capacity, isblock, ShardPath(volid), false);
              var (after, ok) := CreateSpec(old(Store()), row, env);
              Store() == after && vol == if ok then Some(row) else None
    {
      disk := MakeShards(disk, volid, env.shards);
      if env.shards < 3 {
        return None;
      }
      var row := Row(volid, volname, pvname, pvcname, nsname, capacity, isblock, ShardPath(volid), false);
      if !env.inserts || Clashes(rows, row) {
        return None;
      }
      var filled, ok := PopulateVolumeIfRequired(row, env.fills);
      if !ok {
        return None;
      }
      links := Symlink(links, row.Key(), row.path, env.links);
      if !env.commits {
        disk := RemoveAll(disk, row.path, env.stuck);
        links := Unlink(links, row.Key(), env.unlinks);
        return None;
      }
      rows := rows + [row];
      vol := Some(row);
    }

    method DeleteVolume(volid: string, env: DeleteEnv) returns (ok: bool)
      modifies this`rows, this`disk, this`links
      ensures match FindId(old(rows), volid)
              case None => Store() == old(Store()) && !ok
              case Some(i) => (Store(), ok) == DeleteSpec(old(Store()), i, env)
    {
      var i := FindId(rows, volid);
      if i == None {
        return false;
      }
      var vol := rows[i.value];
      rows := SoftDeleted(rows, i.value);
      links := Unlink(links, vol.Key(), env.unlinks);
      var fails := RemoveFails(disk, vol.path, env.stuck);
      disk := RemoveAll(disk, vol.path, env.stuck);
      ok := !fails && env.commits;
    }

    method UpdateVolumeCapacity(vol: Row, capacity: int, env: ExpandEnv) returns (ok: bool)
      modifies this`rows, this`disk, this`links
      ensures (Store(), ok) == ExpandSpec(old(Store()), vol, capacity, env)
    {
      var oldCapacity := vol.capacity;
      if !env.updates {
        return false;
      }
      var i := FindId(rows, vol.id);
      if i.Some? {
        rows := Resized(rows, i.value, capacity);
      }
      if vol.isBlock {
        if !env.stats || vol.path !in disk {
          return false;
        }
        if disk[vol.path] != File(oldCapacity) {
          return false;
        }
        if !env.dd || (|vol.path| > 1 && vol.path[..|vol.path| - 1] !in disk) {
          return false;
        }
        disk := disk[vol.path := File(capacity)];
      }
      ok := env.commits;
    }

    method ReBuildSymLinks(env: RebuildEnv) returns (ok: bool)
      modifies this`links
      ensures Store() == RebuildSpec(old(Store()), env)
      ensures ok == RebuildOk(rows, env)
      ensures env.drops ==>
        (LinksComplete(rows, links) <==>
         forall v :: v in LiveRows(rows) ==> CallWorks(LiveRows(rows), env.bad, v.Key()))
    {
      if !env.drops {
        links := map k | k in links && k in env.left :: links[k];
        return false;
      }
      links := map[];
      var vols := LiveRows(rows);
      ok := LinkVolumes(vols, env.bad);
      RebuildCompleteExactly(rows, env.bad);
    }

    /** The loop of link calls, from an empty directory; it answers the outcome of the last one. */
    method LinkVolumes(vols: seq<Row>, bad: set<nat>) returns (ok: bool)
      requires links == map[]
      modifies this`links
      ensures links == LinkAll(map[], vols, bad)
      ensures ok == (vols != [] ==> !LastCallFails(vols, bad))
    {
      ok := true;
      var n := 0;
      while n < |vols|
        invariant 0 <= n <= |vols|
        invariant links == LinkAll(map[], vols[..n], bad)
        invariant ok == (n > 0 ==> !LastCallFails(vols[..n], bad))
      {
        var v := vols[n];
        LinkedExactly(vols[..n], bad, v.Key());
        ok := n !in bad && v.Key() !in links;
        links := Symlink(links, v.Key(), v.path, n !in bad);
        assert vols[..n + 1][..n] == vols[..n];
        n := n + 1;
      }
      assert vols[..n] == vols;
    }

    method GetVolumeWithDetail(volid: string, bad: set<Path>) returns (detail: Option<Detail>)
      ensures match FindId(rows, volid)
              case None => detail == None
              case Some(i) => detail == Some(DetailOf(rows[i], disk, published, bad))
    {
      var i := FindId(rows, volid);
      if i.None? {
        return None;
      }
      var d := Describe(rows[i.value], bad);
      detail := Some(d);
    }

    /** What the single and the list detail put together for one row. */
    method Describe(vol: Row, bad: set<Path>) returns (detail: Detail)
      ensures detail == DetailOf(vol, disk, published, bad)
    {
      var nodeIds := PublishedNodeIds(vol.id);
      var kind := "folder";
      if vol.isBlock {
        kind := "disk";
      }
      var condition := Unreadable;
      if vol.path !in bad && vol.path in disk {
        if vol.isBlock && disk[vol.path] != File(vol.capacity) {
          condition := SizeDiffers;
        } else {
          condition := Good;
        }
      }
      detail := Detail(vol.id, vol.pv, vol.pvc, vol.ns, kind, vol.capacity, nodeIds, condition);
    }

    /** The loop over a volume's publish records. */
    method PublishedNodeIds(volid: string) returns (nodeIds: seq<string>)
      ensures nodeIds == NodeIds(published, volid)
    {
      nodeIds := [];
      for n := 0 to |published|
        invariant nodeIds == NodeIds(published[..n], volid)
      {
        if !published[n].deleted && published[n].volId == volid {
          nodeIds := nodeIds + [published[n].nodeId];
        }
        assert published[..n + 1][..n] == published[..n];
      }
      assert published[..|published|] == published;
    }

    method GetVolumeCount() returns (count: nat)
      ensures count == |LiveRows(rows)|
    {
      count := 0;
      for n := 0 to |rows|
        invariant count == |LiveRows(rows[..n])|
      {
        if IsLive(rows[n]) {
          count := count + 1;
        }
        assert rows[..n + 1][..n] == rows[..n];
      }
      assert rows[..|rows|] == rows;
    }

    method GetVolumesWithDetail(offset: int, limit: int, bad: set<Path>) returns (details: seq<Detail>)
      ensures details == DetailsOf(Page(LiveRows(rows), offset, limit), disk, published, bad)
    {
      var vols := Page(LiveRows(rows), offset, limit);
      details := [];
      for n := 0 to |vols|
        invariant |details| == n && forall i :: 0 <= i < n ==> details[i] == DetailOf(vols[i], disk, published, bad)
      {
        var detail := Describe(vols[n], bad);
        details := details + [detail];
      }
    }

    method UpdateNodeInfoLastSeen(nodeId: string, lastSeen: int, writes: bool) returns (ok: bool)
      modifies this`nodes
      ensures ok == writes && nodes == if writes then old(nodes)[nodeId := lastSeen] else old(nodes)
    {
      if writes {
        nodes := nodes[nodeId := lastSeen];
      }
      ok := writes;
    }

    method GetNodeInfo(nodeId: string, now: int, age: int) returns (found: bool)
      ensures found == SeenWithin(nodes, nodeId, now, age)
    {
      found := nodeId in nodes && nodes[nodeId] >= now - age;
    }

    method CreateControllerPublishVolumeInfo(volId: string, nodeId: string, readonly: bool, inserts: bool)
      returns (ok: bool)
      modifies this`published
      ensures ok == inserts
      ensures published ==
        if inserts then old(published) + [PublishRecord(volId, nodeId, readonly, false)] else old(published)
    {
      if inserts {
        published := published + [PublishRecord(volId, nodeId, readonly, false)];
      }
      ok := inserts;
    }

    method GetControllerPublishVolumeInfo(volId: string, nodeId: string) returns (info: Option<PublishRecord>)
      ensures match FindRecord(published, volId, nodeId)
              case None => info == None
              case Some(i) => info == Some(published[i])
    {
      var i := FindRecord(published, volId, nodeId);
      info := if i.Some? then Some(published[i.value]) else None;
    }

    method DeleteControllerPublishVolumeInfo(volId: string, nodeId: string, deletes: bool) returns (ok: bool)
      modifies this`published
      ensures ok == deletes
      ensures published == if deletes then DeleteRecords(old(published), volId, nodeId) else old(published)
    {
      if deletes {
        published := DeleteRecords(published, volId, nodeId);
      }
      ok := deletes;
    }

    /** `filepath.Glob` with four components: every depth-four entry once. */
    method Glob() returns (fs: seq<Path>)
      ensures forall f :: f in fs <==> f in disk && |f| == 4
      ensures forall i, j :: 0 <= i < j < |fs| ==> fs[i] != fs[j]
    {
      fs := [];
      var todo := set k | k in disk && |k| == 4;
      while todo != {}
        invariant forall f :: f in fs || f in todo <==> f in disk && |f| == 4
        invariant forall f :: f in fs ==> f !in todo
        invariant forall i, j :: 0 <= i < j < |fs| ==> fs[i] != fs[j]
        decreases |todo|
      {
        var f :| f in todo;
        fs, todo := fs + [f], todo - {f};
      }
    }

    /** Phase 1: `vols/<id>` of every soft-deleted row. */
    method SweepDeleted(stuck: set<Path>)
      modifies this`disk
      ensures disk == SweepTops(old(disk), DeletedIds(rows), stuck)
    {
      var ids := DeletedIds(rows);
      var n := 0;
      while n < |ids|
        invariant 0 <= n <= |ids|
        invariant disk == SweepTops(old(disk), ids[..n], stuck)
      {
        var top := [ids[n]];
        if top in disk {
          disk := RemoveAll(disk, top, stuck);
        }
        assert ids[..n + 1][..n] == ids[..n];
        n := n + 1;
      }
      assert ids[..n] == ids;
    }

    /** Phase 2: every depth-four entry without a live row. */
    method SweepUnknown(stuck: set<Path>)
      modifies this`disk
      ensures disk == SweepDangling(old(disk), rows, stuck)
    {
      var fs := Glob();
      SweepSomeIsAll(disk, rows, stuck, fs);
      var n := 0;
      while n < |fs|
        invariant 0 <= n <= |fs|
        invariant disk == SweepSome(old(disk), rows, stuck, fs[..n])
      {
        assert fs[..n + 1] == fs[..n] + [fs[n]];
        SweepStep(old(disk), rows, stuck, fs[..n], fs[n]);
        if !LivePath(rows, fs[n]) {
          disk := RemoveAll(disk, fs[n], stuck);
        }
        n := n + 1;
      }
      assert fs[..n] == fs;
    }

    method CleanUpDanglingVolumes(stuck: set<Path>, env: RebuildEnv) returns (ok: bool)
      modifies this`rows, this`disk, this`links
      ensures Store() == CleanUpSpec(old(Store()), stuck, env) && ok == RebuildOk(rows, env)
    {
      SweepDeleted(stuck);
      SweepUnknown(stuck);
      ok := ReBuildSymLinks(env);
    }
  }

  // ---------------------------------------------------------------- what a rebuild's answer hides

  lemma TwoLive(a: Row, b: Row)
    requires IsLive(a) && IsLive(b)
    ensures LiveRows([a, b]) == [a, b]
  {
    assert [a, b][..1] == [a] && [a][..0] == [];
    assert LiveRows([a]) == [a];
  }

  /** Whenever the call of the first of two volumes fails, the rebuild answers success with that volume unlinked. */
  lemma RebuildHidesFailure(a: Row, b: Row)
    requires IsLive(a) && IsLive(b) && a.Key() != b.Key()
    ensures var env := RebuildEnv(true, {}, {0}); var s := Store([a, b], map[], map[]);
            RebuildOk(s.rows, env) && !LinksComplete(s.rows, RebuildSpec(s, env).links)
  {
    TwoLive(a, b);
    RebuildCompleteExactly([a, b], {0});
    assert !CallWorks([a, b], {0}, a.Key());
    assert a in [a, b] && [a, b][..1] == [a];
  }

  /** Whenever the last of two volumes shares the other's name, the rebuild answers an error with all volumes linked. */
  lemma RebuildDeniesSuccess(a: Row, b: Row)
    requires IsLive(a) && IsLive(b) && a.Key() == b.Key()
    ensures var env := RebuildEnv(true, {}, {}); var s := Store([a, b], map[], map[]);
            !RebuildOk(s.rows, env) && LinksComplete(s.rows, RebuildSpec(s, env).links)
  {
    TwoLive(a, b);
    RebuildCompleteExactly([a, b], {});
    assert [a, b][..1] == [a] && [a][0] == a;
    assert CallWorks([a], {}, a.Key()) && [a, b][0] == a;
    assert CallWorks([a, b], {}, a.Key());
  }

  /**
    * When the answer is wrong, for every outcome of the single calls. Success is wrong if and only
    * if the last call works and some live volume's calls all fail. An error is wrong if and only
    * if every name has a working call, the last volume's even before its own.
    */
  lemma RebuildAnswerExactly(s: Store, env: RebuildEnv)
    requires env.drops && LiveRows(s.rows) != []
    ensures var l := LiveRows(s.rows); var n := |l| - 1; var links := RebuildSpec(s, env).links;
            && (RebuildOk(s.rows, env) && !LinksComplete(s.rows, links) <==>
                !LastCallFails(l, env.bad) && exists v :: v in l && !CallWorks(l, env.bad, v.Key()))
            && (!RebuildOk(s.rows, env) && LinksComplete(s.rows, links) <==>
                CallWorks(l[..n], env.bad, l[n].Key()) && forall v :: v in l ==> CallWorks(l, env.bad, v.Key()))
  {
    RebuildCompleteExactly(s.rows, env.bad);
    var l := LiveRows(s.rows);
    var n := |l| - 1;
    if n in env.bad && CallWorks(l, env.bad, l[n].Key()) {
      var i :| 0 <= i < |l| && i !in env.bad && l[i].Key() == l[n].Key();
      assert l[..n][i] == l[i];
    }
    assert l[n] in l;
  }

  // ---------------------------------------------------------------- the second phase, entry by entry

  /** The sweep when only some of the globbed entries have been looked at. */
  ghost function SweepSome(disk: Disk, rows: seq<Row>, stuck: set<Path>, fs: seq<Path>): Disk {
    map k | k in disk && (|k| >= 4 && k[..4] in fs && Dangling(disk, rows, k[..4]) ==> Held(disk, stuck, k)) :: disk[k]
  }

  lemma SweepOneMore(disk: Disk, rows: seq<Row>, stuck: set<Path>, fs: seq<Path>, f: Path)
    requires Dangling(disk, rows, f) && f !in fs
    ensures SweepSome(disk, rows, stuck, fs + [f]) == RemoveAll(SweepSome(disk, rows, stuck, fs), f, stuck)
  {
    var d := SweepSome(disk, rows, stuck, fs);
    forall k | k in disk
      ensures f <= k <==> |k| >= 4 && k[..4] == f
      ensures f <= k ==> (Held(d, stuck, k) <==> Held(disk, stuck, k))
    {
      if f <= k && Held(disk, stuck, k) {
        var q :| q in stuck && q in disk && k <= q;
        assert q[..4] == k[..4] == f;
        assert q in d;
      }
    }
  }

  lemma SweepSkips(disk: Disk, rows: seq<Row>, stuck: set<Path>, fs: seq<Path>, f: Path)
    requires !Dangling(disk, rows, f)
    ensures SweepSome(disk, rows, stuck, fs + [f]) == SweepSome(disk, rows, stuck, fs)
  {
  }

  /** Looking up one more entry. */
  lemma SweepStep(disk: Disk, rows: seq<Row>, stuck: set<Path>, done: seq<Path>, f: Path)
    requires f in disk && |f| == 4 && f !in done
    ensures SweepSome(disk, rows, stuck, done + [f]) ==
            var d := SweepSome(disk, rows, stuck, done); if LivePath(rows, f) then d else RemoveAll(d, f, stuck)
  {
    if LivePath(rows, f) {
      SweepSkips(disk, rows, stuck, done, f);
    } else {
      SweepOneMore(disk, rows, stuck, done, f);
    }
  }

  lemma SweepSomeIsAll(disk: Disk, rows: seq<Row>, stuck: set<Path>, fs: seq<Path>)
    requires forall f :: f in fs <==> f in disk && |f| == 4
    ensures SweepSome(disk, rows, stuck, fs) == SweepDangling(disk, rows, stuck)
    ensures SweepSome(disk, rows, stuck, []) == disk
  {
  }
}
