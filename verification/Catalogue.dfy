/**
  * The facts the driver keeps about volumes: the volume table, the tree below `vols`, and
  * the symlinks below `syms`, with the operations that change one of them at a time.
  */
module Catalogue {
  import opened Prelude

  /** The components of a path below the `vols` directory. */
  type Path = seq<string>

  datatype Entry = Folder | File(size: int)

  type Disk = map<Path, Entry>

  /** A symlink below `syms`, named by namespace and PVC name. */
  datatype Link = Link(ns: string, pvc: string)

  type Links = map<Link, Path>

  datatype Row = Row(
    id: string, name: string, pv: string, pvc: string, ns: string,
    capacity: int, isBlock: bool, path: Path, deleted: bool)
  {
    function Key(): Link { Link(ns, pvc) }
  }

  datatype Store = Store(rows: seq<Row>, disk: Disk, links: Links)

  // ---------------------------------------------------------------- volume ids and paths

  predicate IdChar(c: char) {
    '0' <= c <= '9' || 'a' <= c <= 'f' || c == '-'
  }

  /** Ids have the characters of a textual UUID and at least the six the path is cut from. */
  predicate ValidId(id: string) {
    |id| >= 6 && forall c :: c in id ==> IdChar(c)
  }

  /** `vols/ab/cd/ef/abcdef...` */
  function ShardPath(id: string): Path
    requires |id| >= 6
  {
    [id[0..2], id[2..4], id[4..6], id]
  }

  /** A path as the operating system sees it, relative to `vols`. */
  function Render(p: Path): string {
    if p == [] then "" else "/" + p[0] + Render(p[1..])
  }

  predicate CleanComponents(p: Path) {
    forall i :: 0 <= i < |p| ==> '/' !in p[i]
  }

  /** Distinct component lists are distinct paths on disk. */
  lemma {:induction false} RenderInjective(p: Path, q: Path)
    requires CleanComponents(p) && CleanComponents(q) && Render(p) == Render(q)
    ensures p == q
  {
    if p == [] || q == [] {
    } else {
      var u, v := Render(p[1..]), Render(q[1..]);
      assert Render(p)[1..] == p[0] + u;
      assert Render(q)[1..] == q[0] + v;
      UpToOf('/', p[0], u);
      UpToOf('/', q[0], v);
      assert p[0] == (p[0] + u)[..|p[0]|] == (q[0] + v)[..|q[0]|] == q[0];
      assert u == (p[0] + u)[|p[0]|..] == (q[0] + v)[|q[0]|..] == v;
      RenderInjective(p[1..], q[1..]);
      assert p == [p[0]] + p[1..] && q == [q[0]] + q[1..];
    }
  }

  /** Two volumes with one path on disk are one volume. */
  lemma ShardPathInjective(a: string, b: string)
    requires ValidId(a) && ValidId(b) && Render(ShardPath(a)) == Render(ShardPath(b))
    ensures a == b
  {
    var p, q := ShardPath(a), ShardPath(b);
    forall i | 0 <= i < 4
      ensures '/' !in p[i] && '/' !in q[i]
    {
      assert forall c :: c in p[i] ==> c in a;
      assert forall c :: c in q[i] ==> c in b;
    }
    RenderInjective(p, q);
    assert p[3] == q[3];
  }

  // ---------------------------------------------------------------- the volume table

  predicate IsLive(r: Row) { !r.deleted }

  /** The first live row with the id (`GetVolume`). */
  function FindId(rows: seq<Row>, id: string): (r: Option<nat>)
    ensures r.Some? ==> r.value < |rows| && IsLive(rows[r.value]) && rows[r.value].id == id
    ensures r.None? ==> forall j :: 0 <= j < |rows| && IsLive(rows[j]) ==> rows[j].id != id
    ensures r.Some? ==> forall j :: 0 <= j < r.value && IsLive(rows[j]) ==> rows[j].id != id
  {
    if rows == [] then None else
      var n := |rows| - 1;
      var r := FindId(rows[..n], id);
      if r.Some? then r else if IsLive(rows[n]) && rows[n].id == id then Some(n) else None
  }

  /** The first live row with the volume name (`GetVolumeIdByName`). */
  function FindName(rows: seq<Row>, name: string): (r: Option<nat>)
    ensures r.Some? ==> r.value < |rows| && IsLive(rows[r.value]) && rows[r.value].name == name
    ensures r.None? ==> forall j :: 0 <= j < |rows| && IsLive(rows[j]) ==> rows[j].name != name
    ensures r.Some? ==> forall j :: 0 <= j < r.value && IsLive(rows[j]) ==> rows[j].name != name
  {
    if rows == [] then None else
      var n := |rows| - 1;
      var r := FindName(rows[..n], name);
      if r.Some? then r else if IsLive(rows[n]) && rows[n].name == name then Some(n) else None
  }

  /** Whether some live row has the path (`vol_path = ?`, soft-deleted rows excluded). */
  predicate LivePath(rows: seq<Row>, p: Path) {
    exists i :: 0 <= i < |rows| && IsLive(rows[i]) && rows[i].path == p
  }

  /** The unique indexes on id and path cover soft-deleted rows too. */
  predicate Clashes(rows: seq<Row>, r: Row) {
    exists i :: 0 <= i < |rows| && (rows[i].id == r.id || rows[i].path == r.path)
  }

  /** The live rows in scan order (`Find`). */
  function LiveRows(rows: seq<Row>): (l: seq<Row>)
    ensures forall i :: 0 <= i < |l| ==> l[i] in rows && IsLive(l[i])
    ensures forall i :: 0 <= i < |rows| && IsLive(rows[i]) ==> rows[i] in l
  {
    if rows == [] then [] else
      var n := |rows| - 1;
      var l := LiveRows(rows[..n]);
      if IsLive(rows[n]) then l + [rows[n]] else l
  }

  function SoftDeleted(rows: seq<Row>, i: nat): seq<Row>
    requires i < |rows|
  {
    rows[i := rows[i].(deleted := true)]
  }

  function Resized(rows: seq<Row>, i: nat, capacity: int): seq<Row>
    requires i < |rows|
  {
    rows[i := rows[i].(capacity := capacity)]
  }

  // ---------------------------------------------------------------- the tree below `vols`

  /** `os.MkdirAll`: every missing directory on the way to the path. */
  function MkdirAll(disk: Disk, p: Path): Disk {
    disk + (map i | 1 <= i <= |p| && p[..i] !in disk :: p[..i] := Folder)
  }

  /** An entry stays when it, or something below it, cannot be removed. */
  predicate Held(disk: Disk, stuck: set<Path>, k: Path) {
    exists q :: q in stuck && q in disk && k <= q
  }

  /** `os.RemoveAll`: everything at or below the path except what is held. */
  function RemoveAll(disk: Disk, p: Path, stuck: set<Path>): Disk {
    map k | k in disk && (p <= k ==> Held(disk, stuck, k)) :: disk[k]
  }

  /** `os.RemoveAll` reports an error exactly when something at or below the path stays. */
  predicate RemoveFails(disk: Disk, p: Path, stuck: set<Path>) {
    exists q :: q in stuck && q in disk && p <= q
  }

  lemma RemoveFailsExactly(disk: Disk, p: Path, stuck: set<Path>)
    ensures RemoveFails(disk, p, stuck) <==>
            exists k :: k in RemoveAll(disk, p, stuck) && p <= k
  {
    if RemoveFails(disk, p, stuck) {
      var q :| q in stuck && q in disk && p <= q;
      assert Held(disk, stuck, q);
      assert q in RemoveAll(disk, p, stuck) && p <= q;
    }
  }

  /** With an entry, every directory on the way to it is there. */
  ghost predicate Closed(disk: Disk) {
    forall k, n :: k in disk && 1 <= n <= |k| ==> k[..n] in disk
  }

  lemma MkdirAllKeepsClosed(disk: Disk, p: Path)
    requires Closed(disk)
    ensures Closed(MkdirAll(disk, p))
  {
    var d := MkdirAll(disk, p);
    forall k, n | k in d && 1 <= n <= |k| ensures k[..n] in d {
      if k !in disk {
        var i :| 1 <= i <= |p| && k == p[..i];
        assert k[..n] == p[..n];
      }
    }
  }

  lemma PutKeepsClosed(disk: Disk, p: Path, e: Entry)
    requires Closed(disk) && (|p| > 1 ==> p[..|p| - 1] in disk)
    ensures Closed(disk[p := e])
  {
    var d := disk[p := e];
    forall k, n | k in d && 1 <= n <= |k| ensures k[..n] in d {
      if k == p && n < |p| {
        assert p[..|p| - 1][..n] == p[..n];
      } else if k == p {
        assert p[..n] == p;
      }
    }
  }

  lemma RemoveAllKeepsClosed(disk: Disk, p: Path, stuck: set<Path>)
    requires Closed(disk)
    ensures Closed(RemoveAll(disk, p, stuck))
  {
    var d := RemoveAll(disk, p, stuck);
    forall k, n | k in d && 1 <= n <= |k| ensures k[..n] in d {
      if p <= k[..n] {
        HeldUp(disk, stuck, k, n);
      }
    }
  }

  /** What holds an entry holds the directories above it. */
  lemma HeldUp(disk: Disk, stuck: set<Path>, k: Path, n: nat)
    requires Held(disk, stuck, k) && n <= |k|
    ensures Held(disk, stuck, k[..n])
  {
    var q :| q in stuck && q in disk && k <= q;
    assert k[..n] <= q;
  }

  /** What populating a volume puts at its path. */
  function FreshEntry(r: Row): Entry {
    if r.isBlock then File(r.capacity) else Folder
  }

  datatype Populated = Populated(disk: Disk, filled: bool, ok: bool)

  /**
    * `PopulateVolumeIfRequired`: nothing when the path is there, otherwise `dd` makes a sparse
    * file (it needs the directory) or `MkdirAll` a folder. With `works` false the stat, `dd`
    * or `MkdirAll` fails.
    */
  function Populate(disk: Disk, r: Row, works: bool): Populated {
    if !works then Populated(disk, false, false)
    else if r.path in disk then Populated(disk, false, true)
    else if r.isBlock then
      if |r.path| > 1 && r.path[..|r.path| - 1] !in disk then Populated(disk, false, false)
      else Populated(disk[r.path := File(r.capacity)], true, true)
    else Populated(MkdirAll(disk, r.path), true, true)
  }

  // ---------------------------------------------------------------- the symlinks

  /** `os.Symlink`: fails, and changes nothing, when the name is taken. */
  function Symlink(links: Links, key: Link, target: Path, works: bool): Links {
    if works && key !in links then links[key := target] else links
  }

  function Unlink(links: Links, key: Link, works: bool): Links {
    if works then links - {key} else links
  }

  /** Linking a list of rows in turn; `bad` are the calls, counted from zero, that fail by themselves. */
  function LinkAll(links: Links, vols: seq<Row>, bad: set<nat>): Links {
    if vols == [] then links else
      var v := vols[|vols| - 1];
      Symlink(LinkAll(links, vols[..|vols| - 1], bad), v.Key(), v.path, |vols| - 1 !in bad)
  }

  /** The index a rebuild makes from nothing. */
  function Rebuilt(rows: seq<Row>): Links {
    LinkAll(map[], LiveRows(rows), {})
  }

  /** A live row has this namespace and PVC name, and this path. */
  ghost predicate RowCovers(rows: seq<Row>, key: Link, p: Path) {
    exists i :: 0 <= i < |rows| && IsLive(rows[i]) && rows[i].Key() == key && rows[i].path == p
  }

  /** Every symlink points to the path of a live volume of that namespace and PVC name. */
  ghost predicate LinksSound(rows: seq<Row>, links: Links) {
    forall key :: key in links ==> RowCovers(rows, key, links[key])
  }

  /** Every live volume's namespace and PVC name has a symlink. */
  ghost predicate LinksComplete(rows: seq<Row>, links: Links) {
    forall i :: 0 <= i < |rows| && IsLive(rows[i]) ==> rows[i].Key() in links
  }

  /** No two live volumes share namespace and PVC name. */
  ghost predicate NoSharing(rows: seq<Row>) {
    forall i, j :: 0 <= i < j < |rows| && IsLive(rows[i]) && IsLive(rows[j]) ==>
      rows[i].Key() != rows[j].Key()
  }

  /** Some link call for the name works. */
  predicate CallWorks(vols: seq<Row>, bad: set<nat>, key: Link) {
    exists n :: 0 <= n < |vols| && n !in bad && vols[n].Key() == key
  }

  /** Linking a list links exactly the names that have a working call. */
  lemma {:induction false} LinkedExactly(vols: seq<Row>, bad: set<nat>, key: Link)
    ensures key in LinkAll(map[], vols, bad) <==> CallWorks(vols, bad, key)
  {
    if vols != [] {
      var n := |vols| - 1;
      LinkedExactly(vols[..n], bad, key);
      assert forall i :: 0 <= i < n ==> vols[..n][i] == vols[i];
    }
  }

  /** A rebuild that empties the directory is complete if and only if every live volume's name has a working call. */
  lemma RebuildCompleteExactly(rows: seq<Row>, bad: set<nat>)
    ensures LinksComplete(rows, LinkAll(map[], LiveRows(rows), bad)) <==>
            forall v :: v in LiveRows(rows) ==> CallWorks(LiveRows(rows), bad, v.Key())
  {
    var l := LiveRows(rows);
    forall v | v in l
      ensures v.Key() in LinkAll(map[], l, bad) <==> CallWorks(l, bad, v.Key())
    {
      LinkedExactly(l, bad, v.Key());
    }
    forall v | v in l
      ensures exists i :: 0 <= i < |rows| && IsLive(rows[i]) && rows[i] == v
    {
      var j :| 0 <= j < |l| && l[j] == v;
      var i :| 0 <= i < |rows| && rows[i] == v;
    }
  }

  lemma {:induction false} LinkAllSoundComplete(vols: seq<Row>)
    requires forall v :: v in vols ==> IsLive(v)
    ensures LinksSound(vols, LinkAll(map[], vols, {}))
    ensures LinksComplete(vols, LinkAll(map[], vols, {}))
  {
    if vols != [] {
      var n := |vols| - 1;
      LinkAllSoundComplete(vols[..n]);
      var before, after := LinkAll(map[], vols[..n], {}), LinkAll(map[], vols, {});
      forall key | key in after
        ensures RowCovers(vols, key, after[key])
      {
        if key in before {
          var i :| 0 <= i < n && IsLive(vols[..n][i]) && vols[..n][i].Key() == key && vols[..n][i].path == before[key];
          assert vols[i] == vols[..n][i];
        } else {
          assert vols[n].Key() == key;
        }
      }
      forall i | 0 <= i < |vols| && IsLive(vols[i])
        ensures vols[i].Key() in after
      {
        if i < n { assert vols[..n][i] == vols[i]; }
      }
    }
  }

  /** A rebuilt index is sound and complete. */
  lemma RebuiltIsIndex(rows: seq<Row>)
    ensures LinksSound(rows, Rebuilt(rows)) && LinksComplete(rows, Rebuilt(rows))
  {
    var l := LiveRows(rows);
    LinkAllSoundComplete(l);
    forall key | key in Rebuilt(rows)
      ensures RowCovers(rows, key, Rebuilt(rows)[key])
    {
      var j :| 0 <= j < |l| && IsLive(l[j]) && l[j].Key() == key && l[j].path == Rebuilt(rows)[key];
      var i :| 0 <= i < |rows| && rows[i] == l[j];
    }
    forall i | 0 <= i < |rows| && IsLive(rows[i])
      ensures rows[i].Key() in Rebuilt(rows)
    {
      var j :| 0 <= j < |l| && l[j] == rows[i];
    }
  }

  /** Without sharing there is one sound and complete index: whatever the scan order, the rebuilt one. */
  lemma IndexIsRebuilt(rows: seq<Row>, links: Links)
    requires NoSharing(rows)
    ensures LinksSound(rows, links) && LinksComplete(rows, links) <==> links == Rebuilt(rows)
  {
    RebuiltIsIndex(rows);
    var r := Rebuilt(rows);
    if LinksSound(rows, links) && LinksComplete(rows, links) {
      forall key | key in links
        ensures key in r && r[key] == links[key]
      {
        var i :| 0 <= i < |rows| && IsLive(rows[i]) && rows[i].Key() == key && rows[i].path == links[key];
        assert rows[i].Key() in r;
        var j :| 0 <= j < |rows| && IsLive(rows[j]) && rows[j].Key() == key && rows[j].path == r[key];
        assert i == j;
      }
      assert forall key :: key in r ==> key in links;
    }
  }
}
