/** What one undisturbed clean-up restores, and that it is one run of the job. */
module CleanUp {
  import opened Catalogue
  import opened StepMachine
  import opened Invariants
  import opened Volumes

  // ---------------------------------------------------------------- phase by phase

  lemma DeletedIdsValid(rows: seq<Row>, used: set<string>)
    requires RowsInv(rows, used)
    ensures forall id :: id in DeletedIds(rows) ==> ValidId(id)
  {
  }

  /** Phase 1 looks for `vols/<id>`, which no state has: deleted rows' data is left to phase 2. */
  lemma {:induction false} TopsRemoveNothing(disk: Disk, used: set<string>, ids: seq<string>, stuck: set<Path>)
    requires DiskInv(disk, used) && forall id :: id in ids ==> ValidId(id)
    ensures SweepTops(disk, ids, stuck) == disk
  {
    if ids != [] {
      TopsRemoveNothing(disk, used, ids[..|ids| - 1], stuck);
      SweepRemovesNothing(disk, used, ids[|ids| - 1], stuck);
    }
  }

  /** Phase 1's target is never a prefix directory and never on the way to a live volume. */
  lemma TopIsNoShard(id: string, other: string)
    requires ValidId(id) && ValidId(other)
    ensures !([id] <= ShardPath(other)) && forall n :: 1 <= n <= 4 ==> ShardPath(other)[..n] != [id]
  {
    assert [id][0] == id && |ShardPath(other)[0]| == 2;
    assert forall n :: 1 <= n <= 4 ==> ShardPath(other)[..n][0] == ShardPath(other)[0];
  }

  lemma SweepTwice(disk: Disk, rows: seq<Row>)
    ensures SweepDangling(SweepDangling(disk, rows, {}), rows, {}) == SweepDangling(disk, rows, {})
  {
    var d := SweepDangling(disk, rows, {});
    forall k | k in d && |k| >= 4 ensures !Dangling(d, rows, k[..4]) {
    }
  }

  // ---------------------------------------------------------------- the whole clean-up

  /**
    * Whatever fails, a clean-up touches nothing at or below a live volume's path, adds nothing, and
    * leaves the table alone.
    */
  lemma CleanUpSparesLive(w: World, stuck: set<Path>, env: RebuildEnv)
    requires Inv(w)
    ensures var after := CleanUpSpec(w.s, stuck, env);
            && after.rows == w.s.rows
            && (forall k :: k in w.s.disk && (|k| < 4 || LivePath(w.s.rows, k[..4])) ==> k in after.disk)
            && (forall k :: k in after.disk ==> k in w.s.disk && after.disk[k] == w.s.disk[k])
  {
    DeletedIdsValid(w.s.rows, w.used);
    TopsRemoveNothing(w.s.disk, w.used, DeletedIds(w.s.rows), stuck);
  }

  /** A clean-up keeps the invariant, whatever fails in it. */
  lemma CleanUpKeepsInv(w: World, stuck: set<Path>, env: RebuildEnv)
    requires Inv(w) && w.ctl.Idle? && w.job.Resting?
    ensures Inv(w.(s := CleanUpSpec(w.s, stuck, env)))
    ensures Closed(w.s.disk) ==> Closed(CleanUpSpec(w.s, stuck, env).disk)
  {
    var after := CleanUpSpec(w.s, stuck, env);
    CleanUpSparesLive(w, stuck, env);
    forall k | k in after.disk ensures EntryOk(after.disk, w.used, k) {
      assert EntryOk(w.s.disk, w.used, k);
    }
    forall i | 0 <= i < |w.s.rows| ensures Sharded(after.disk, w.s.rows[i].path) {
      assert Sharded(w.s.disk, w.s.rows[i].path);
    }
    if Closed(w.s.disk) {
      SweepKeepsClosed(w.s.disk, w.s.rows, stuck);
      DeletedIdsValid(w.s.rows, w.used);
      TopsRemoveNothing(w.s.disk, w.used, DeletedIds(w.s.rows), stuck);
    }
  }

  lemma SweepKeepsClosed(disk: Disk, rows: seq<Row>, stuck: set<Path>)
    requires Closed(disk)
    ensures Closed(SweepDangling(disk, rows, stuck))
  {
    var d := SweepDangling(disk, rows, stuck);
    forall k, n | k in d && 1 <= n <= |k| ensures k[..n] in d {
      if n >= 4 && Held(disk, stuck, k) {
        HeldUp(disk, stuck, k, n);
      }
      assert n >= 4 ==> k[..n][..4] == k[..4];
    }
  }

  const ALL_WORKS: RebuildEnv := RebuildEnv(true, {}, {})

  /** The volume of a path that is at or below depth four has a live row. */
  ghost predicate Owned(rows: seq<Row>, k: Path) {
    |k| >= 4 && LivePath(rows, k[..4])
  }

  /**
    * From any reachable state, one clean-up whose removals work leaves as depth-four entries
    * exactly the live volumes' paths that were there, with all that lies below them, and the
    * symlinks of a fresh rebuild. A second one changes nothing.
    */
  lemma CleanUpRestores(w: World)
    requires Reachable(w)
    ensures var after := CleanUpSpec(w.s, {}, ALL_WORKS);
            && (forall p :: |p| == 4 ==> (p in after.disk <==> p in w.s.disk && LivePath(w.s.rows, p)))
            && (forall k :: k in w.s.disk && Owned(w.s.rows, k) ==> k in after.disk && after.disk[k] == w.s.disk[k])
            && (forall k :: k in after.disk && |k| >= 4 ==> Owned(w.s.rows, k))
            && after.rows == w.s.rows && after.links == Rebuilt(w.s.rows)
            && CleanUpSpec(after, {}, ALL_WORKS) == after
  {
    ReachableInv(w);
    var after := CleanUpSpec(w.s, {}, ALL_WORKS);
    CleanUpSparesLive(w, {}, ALL_WORKS);
    DeletedIdsValid(w.s.rows, w.used);
    TopsRemoveNothing(w.s.disk, w.used, DeletedIds(w.s.rows), {});
    assert after.disk == SweepDangling(w.s.disk, w.s.rows, {});
    assert forall p: Path :: |p| == 4 ==> p[..4] == p;
    forall k | k in after.disk ensures EntryOk(after.disk, w.used, k) {
      assert EntryOk(w.s.disk, w.used, k);
    }
    TopsRemoveNothing(after.disk, w.used, DeletedIds(w.s.rows), {});
    SweepTwice(w.s.disk, w.s.rows);
    forall k | k in after.disk && |k| >= 4 ensures Owned(w.s.rows, k) {
      assert k[..4] in w.s.disk;
      assert !Held(w.s.disk, {}, k);
    }
  }

  // ---------------------------------------------------------------- the clean-up is a run of the job

  ghost predicate JobOnly(steps: seq<Step>) {
    forall i :: 0 <= i < |steps| ==> steps[i].J?
  }

  /** A run of job steps followed by another is one run of job steps. */
  lemma Then(w: World, a: seq<Step>, b: seq<Step>)
    requires JobOnly(a) && JobOnly(b)
    ensures Run(w, a + b) == Run(Run(w, a), b) && JobOnly(a + b)
  {
    RunAppend(w, a, b);
  }

  lemma One(w: World, j: JobStep)
    ensures Run(w, [J(j)]) == Apply(w, J(j)) && JobOnly([J(j)])
  {
    RunSnoc(w, [], J(j));
  }

  lemma {:induction false} SweepRun(w: World) returns (steps: seq<Step>)
    requires w.job.Sweeping? && DiskInv(w.s.disk, w.used) && forall id :: id in w.job.ids ==> ValidId(id)
    ensures Run(w, steps) == w.(job := Sweeping([])) && JobOnly(steps)
    decreases |w.job.ids|
  {
    if w.job.ids == [] {
      return [];
    }
    SweepRemovesNothing(w.s.disk, w.used, w.job.ids[0], {});
    One(w, SweepTop({}));
    var rest := SweepRun(Run(w, [J(SweepTop({}))]));
    Then(w, [J(SweepTop({}))], rest);
    steps := [J(SweepTop({}))] + rest;
  }

  /** The depth-four entries in some order. */
  lemma {:induction false} Listing(todo: set<Path>) returns (fs: seq<Path>)
    ensures (forall f :: f in fs <==> f in todo) && forall i, j :: 0 <= i < j < |fs| ==> fs[i] != fs[j]
    decreases |todo|
  {
    if todo == {} {
      return [];
    }
    var f :| f in todo;
    var rest := Listing(todo - {f});
    fs := [f] + rest;
  }

  lemma {:induction false} GlobRun(w: World, fs: seq<Path>) returns (steps: seq<Step>)
    requires w.job.Globbing? && forall f :: f in fs ==> f in w.s.disk && |f| == 4
    ensures Run(w, steps) == w.(job := Globbing(w.job.found + fs)) && JobOnly(steps)
    decreases |fs|
  {
    if fs == [] {
      assert w.job.found + fs == w.job.found;
      return [];
    }
    One(w, See(fs[0]));
    var w1 := w.(job := Globbing(w.job.found + [fs[0]]));
    assert Run(w, [J(See(fs[0]))]) == w1;
    var rest := GlobRun(w1, fs[1..]);
    assert w.job.found + [fs[0]] + fs[1..] == w.job.found + fs;
    Then(w, [J(See(fs[0]))], rest);
    steps := [J(See(fs[0]))] + rest;
  }

  /** Looking up one entry, and removing it if it has no row. */
  lemma CheckOne(w: World, stuck: set<Path>) returns (steps: seq<Step>)
    requires w.job.Checking? && w.job.todo != []
    ensures var f := w.job.todo[0];
            var disk := if LivePath(w.s.rows, f) then w.s.disk else RemoveAll(w.s.disk, f, stuck);
            Run(w, steps) == w.(s := w.s.(disk := disk), job := Checking(w.job.todo[1..]))
    ensures JobOnly(steps)
  {
    One(w, Check);
    steps := [J(Check)];
    if !LivePath(w.s.rows, w.job.todo[0]) {
      One(Run(w, steps), Remove(stuck));
      Then(w, steps, [J(Remove(stuck))]);
      steps := steps + [J(Remove(stuck))];
      One(Run(w, steps), Removed);
      Then(w, steps, [J(Removed)]);
      steps := steps + [J(Removed)];
    }
  }

  /** The entries are in the tree, not yet looked at, and all different. */
  ghost predicate Pending(disk: Disk, done: seq<Path>, todo: seq<Path>) {
    && (forall f :: f in todo ==> f in disk && |f| == 4 && f !in done)
    && (forall i, j :: 0 <= i < j < |todo| ==> todo[i] != todo[j])
  }

  lemma PendingTail(disk: Disk, done: seq<Path>, todo: seq<Path>)
    requires Pending(disk, done, todo) && todo != []
    ensures Pending(disk, done + [todo[0]], todo[1..])
  {
  }

  /** Looking up the entries in turn, and removing those without a row. */
  function CheckAll(disk: Disk, rows: seq<Row>, todo: seq<Path>, stuck: set<Path>): Disk {
    if todo == [] then disk
    else CheckAll(if LivePath(rows, todo[0]) then disk else RemoveAll(disk, todo[0], stuck), rows, todo[1..], stuck)
  }

  lemma {:induction false} CheckAllSweeps(
    disk: Disk, rows: seq<Row>, stuck: set<Path>, done: seq<Path>, todo: seq<Path>)
    requires Pending(disk, done, todo)
    ensures CheckAll(SweepSome(disk, rows, stuck, done), rows, todo, stuck) == SweepSome(disk, rows, stuck, done + todo)
    decreases |todo|
  {
    if todo == [] {
      assert done + todo == done;
    } else {
      SweepStep(disk, rows, stuck, done, todo[0]);
      PendingTail(disk, done, todo);
      CheckAllSweeps(disk, rows, stuck, done + [todo[0]], todo[1..]);
      assert done + [todo[0]] + todo[1..] == done + todo;
    }
  }

  lemma {:induction false} CheckRun(w: World, stuck: set<Path>) returns (steps: seq<Step>)
    requires w.job.Checking?
    ensures Run(w, steps) == w.(s := w.s.(disk := CheckAll(w.s.disk, w.s.rows, w.job.todo, stuck)), job := Checking([]))
    ensures JobOnly(steps)
    decreases |w.job.todo|
  {
    if w.job.todo == [] {
      return [];
    }
    var first := CheckOne(w, stuck);
    var rest := CheckRun(Run(w, first), stuck);
    Then(w, first, rest);
    steps := first + rest;
  }

  lemma {:induction false} RelinkRun(w: World, vols: seq<Row>, n: nat, bad: set<nat>) returns (steps: seq<Step>)
    requires n <= |vols| && w.job == Relinking(vols[n..]) && w.s.links == LinkAll(map[], vols[..n], bad)
    ensures Run(w, steps) == w.(s := w.s.(links := LinkAll(map[], vols, bad)), job := Relinking([]))
    ensures JobOnly(steps)
    decreases |vols| - n
  {
    if n == |vols| {
      assert vols[..n] == vols;
      return [];
    }
    var st := Relink(n !in bad);
    One(w, st);
    assert vols[n..][1..] == vols[n + 1..];
    assert vols[..n + 1][..n] == vols[..n];
    var rest := RelinkRun(Run(w, [J(st)]), vols, n + 1, bad);
    Then(w, [J(st)], rest);
    steps := [J(st)] + rest;
  }

  lemma DropRun(w: World, left: set<Link>, drops: bool) returns (steps: seq<Step>)
    requires w.job.Dropping?
    ensures Run(w, steps) == w.(s := w.s.(links := map k | k in w.s.links && k in left :: w.s.links[k]),
                                job := if drops then Relinking(LiveRows(w.s.rows)) else Resting)
    ensures JobOnly(steps)
  {
    var names := w.s.links.Keys - left;
    One(w, Drop(names));
    One(Run(w, [J(Drop(names))]), DropDone(drops));
    Then(w, [J(Drop(names))], [J(DropDone(drops))]);
    steps := [J(Drop(names))] + [J(DropDone(drops))];
    assert w.s.links - names == map k | k in w.s.links && k in left :: w.s.links[k];
  }

  lemma RebuildRun(w: World, env: RebuildEnv) returns (steps: seq<Step>)
    requires w.job.Dropping?
    ensures Run(w, steps) == w.(s := RebuildSpec(w.s, env), job := Resting) && JobOnly(steps)
  {
    if !env.drops {
      steps := DropRun(w, env.left, false);
      return;
    }
    var front := DropRun(w, {}, true);
    var vols := LiveRows(w.s.rows);
    assert vols[0..] == vols;
    var links := RelinkRun(Run(w, front), vols, 0, env.bad);
    Then(w, front, links);
    One(Run(w, front + links), RelinkDone);
    Then(w, front + links, [J(RelinkDone)]);
    steps := front + links + [J(RelinkDone)];
  }

  lemma TopsRun(w: World) returns (steps: seq<Step>)
    requires Inv(w) && w.job.Resting?
    ensures Run(w, steps) == w.(job := Globbing([])) && JobOnly(steps)
  {
    DeletedIdsValid(w.s.rows, w.used);
    One(w, Start);
    var sweep := SweepRun(Run(w, [J(Start)]));
    Then(w, [J(Start)], sweep);
    One(Run(w, [J(Start)] + sweep), SweepDone);
    Then(w, [J(Start)] + sweep, [J(SweepDone)]);
    steps := [J(Start)] + sweep + [J(SweepDone)];
  }

  lemma DanglingRun(w: World, stuck: set<Path>) returns (steps: seq<Step>)
    requires w.job == Globbing([])
    ensures Run(w, steps) == w.(s := w.s.(disk := SweepDangling(w.s.disk, w.s.rows, stuck)), job := Checking([]))
    ensures JobOnly(steps)
  {
    var fs := Listing(set k | k in w.s.disk && |k| == 4);
    var glob := GlobRun(w, fs);
    assert [] + fs == fs;
    One(Run(w, glob), GlobDone);
    Then(w, glob, [J(GlobDone)]);
    var front := glob + [J(GlobDone)];
    var checks := CheckRun(Run(w, front), stuck);
    Then(w, front, checks);
    steps := front + checks;
    SweepSomeIsAll(w.s.disk, w.s.rows, stuck, fs);
    CheckAllSweeps(w.s.disk, w.s.rows, stuck, [], fs);
  }

  /** The undisturbed clean-up is a run of the job's steps: the sequential job is the interleaved one alone. */
  lemma CleanUpIsRun(w: World, stuck: set<Path>, env: RebuildEnv) returns (steps: seq<Step>)
    requires Inv(w) && w.job.Resting?
    ensures Run(w, steps) == w.(s := CleanUpSpec(w.s, stuck, env)) && JobOnly(steps)
  {
    DeletedIdsValid(w.s.rows, w.used);
    TopsRemoveNothing(w.s.disk, w.used, DeletedIds(w.s.rows), stuck);
    var tops := TopsRun(w);
    var sweep := DanglingRun(Run(w, tops), stuck);
    Then(w, tops, sweep);
    One(Run(w, tops + sweep), ToLinks);
    Then(w, tops + sweep, [J(ToLinks)]);
    var front := tops + sweep + [J(ToLinks)];
    var links := RebuildRun(Run(w, front), env);
    Then(w, front, links);
    steps := front + links;
  }
}
