/**
  * The symlink index over every run of controller, clean-up job and pods: exactly which steps
  * make it point to something that is no live volume, and exactly which make it miss one.
  */
module LinkRuns {
  import opened Catalogue
  import opened StepMachine
  import opened Invariants
  import opened RunProperties

  // ---------------------------------------------------------------- soundness

  /** The handler under way still has to commit, or to take away, this link. */
  ghost predicate CtlCovers(w: World, key: Link, p: Path) {
    match w.ctl
    case Linked(r) => r.Key() == key && r.path == p
    case Undo(r) => r.Key() == key && r.path == p
    case UndoLink(r) => r.Key() == key && r.path == p
    case Deleted(i) => i < |w.s.rows| && w.s.rows[i].Key() == key && w.s.rows[i].path == p
    case _ => false
  }

  ghost predicate Covered(w: World, key: Link, p: Path) {
    RowCovers(w.s.rows, key, p) || CtlCovers(w, key, p)
  }

  /** Every link points to a live volume of its name, or to the one the handler under way works on. */
  ghost predicate LinksCovered(w: World) {
    forall key :: key in w.s.links ==> Covered(w, key, w.s.links[key])
  }

  /** The link of the handler under way is in place. */
  ghost predicate OwnLink(w: World) {
    exists key :: key in w.s.links && CtlCovers(w, key, w.s.links[key])
  }

  /** The job links a volume it read as live that is not live any more. */
  ghost predicate StaleRelink(w: World, st: Step) {
    && st == J(Relink(true)) && w.job.Relinking? && w.job.vols != []
    && w.job.vols[0].Key() !in w.s.links && !Covered(w, w.job.vols[0].Key(), w.job.vols[0].path)
  }

  /** The steps that leave a link behind: a stale relink, or a handler that ends without taking its link away. */
  ghost predicate UnsoundStep(w: World, st: Step) {
    || StaleRelink(w, st)
    || (OwnLink(w) && (st == C(Crash)
                       || (st == C(DropLink(false)) && w.ctl.Deleted?)
                       || (st == C(UndoUnlink(false)) && w.ctl.UndoLink?)))
  }

  lemma RowsOfStep(w: World, st: Step, i: nat)
    requires i < |w.s.rows| && IsLive(w.s.rows[i])
    ensures i < |Apply(w, st).s.rows|
    ensures IsLive(Apply(w, st).s.rows[i]) || Apply(w, st).ctl == Deleted(i)
  {
  }

  lemma RowCoverKept(w: World, st: Step, key: Link, p: Path)
    requires RowCovers(w.s.rows, key, p)
    ensures Covered(Apply(w, st), key, p)
  {
    var i :| 0 <= i < |w.s.rows| && IsLive(w.s.rows[i]) && w.s.rows[i].Key() == key && w.s.rows[i].path == p;
    RowsOfStep(w, st, i);
    StepEvolves(w, st);
    assert RowEvolves(w.s.rows[i], Apply(w, st).s.rows[i]);
  }

  /** The steps with which a handler lets go of its link. */
  ghost predicate LetsGo(w: World, st: Step) {
    || st == C(Crash)
    || (st.C? && st.c.DropLink? && w.ctl.Deleted?)
    || (st.C? && st.c.UndoUnlink? && w.ctl.UndoLink?)
  }

  lemma CtlCoverKept(w: World, c: CtlStep, key: Link, p: Path)
    requires Inv(w) && CtlCovers(w, key, p) && !LetsGo(w, C(c))
    ensures Covered(ApplyCtl(w, c), key, p)
  {
    if c.Commit? && w.ctl.Linked? {
      var rows := ApplyCtl(w, c).s.rows;
      assert rows[|w.s.rows|] == w.ctl.row && IsLive(w.ctl.row);
    } else {
      OwnKept(w, c, key, p);
    }
  }

  lemma OwnKept(w: World, c: CtlStep, key: Link, p: Path)
    requires CtlCovers(w, key, p) && !LetsGo(w, C(c)) && !(c.Commit? && w.ctl.Linked?)
    ensures CtlCovers(ApplyCtl(w, c), key, p)
  {
  }

  lemma CoverKept(w: World, st: Step, key: Link, p: Path)
    requires Inv(w) && Covered(w, key, p) && !(LetsGo(w, st) && CtlCovers(w, key, p))
    ensures Covered(Apply(w, st), key, p)
  {
    if RowCovers(w.s.rows, key, p) {
      RowCoverKept(w, st, key, p);
    } else if st.C? {
      CtlCoverKept(w, st.c, key, p);
    } else {
      OthersLeaveRows(w, st);
    }
  }

  /** Where a link after a step comes from. */
  lemma LinkComesFrom(w: World, st: Step, key: Link)
    requires key in Apply(w, st).s.links
    ensures var p := Apply(w, st).s.links[key];
            || (key in w.s.links && w.s.links[key] == p)
            || (st == C(MakeLink(true)) && w.ctl.Filled? && key == w.ctl.row.Key() && p == w.ctl.row.path)
            || (st == J(Relink(true)) && w.job.Relinking? && w.job.vols != [] && key !in w.s.links
                && key == w.job.vols[0].Key() && p == w.job.vols[0].path)
  {
  }

  /** A handler that lets go of its link by removing it leaves no link of that name. */
  lemma LetGoRemoves(w: World, st: Step, key: Link)
    requires LetsGo(w, st) && key in w.s.links && CtlCovers(w, key, w.s.links[key]) && !UnsoundStep(w, st)
    ensures key !in Apply(w, st).s.links
  {
    assert OwnLink(w);
  }

  lemma SoundStepKeeps(w: World, st: Step)
    requires Inv(w) && LinksCovered(w) && !UnsoundStep(w, st)
    ensures LinksCovered(Apply(w, st))
  {
    forall key | key in Apply(w, st).s.links ensures Covered(Apply(w, st), key, Apply(w, st).s.links[key]) {
      LinkStaysCovered(w, st, key);
    }
  }

  lemma LinkStaysCovered(w: World, st: Step, key: Link)
    requires Inv(w) && !UnsoundStep(w, st) && key in Apply(w, st).s.links
    requires key in w.s.links ==> Covered(w, key, w.s.links[key])
    ensures Covered(Apply(w, st), key, Apply(w, st).s.links[key])
  {
    var p := Apply(w, st).s.links[key];
    LinkComesFrom(w, st, key);
    if key in w.s.links && w.s.links[key] == p {
      if LetsGo(w, st) && CtlCovers(w, key, p) { LetGoRemoves(w, st, key); }
      CoverKept(w, st, key, p);
    } else if st.J? {
      assert !StaleRelink(w, st);
      CoverKept(w, st, key, p);
    } else {
      assert Apply(w, st).ctl == Linked(w.ctl.row);
    }
  }

  /** What the handler works on is not live: its path is no live row's. */
  lemma OwnIsNotLive(w: World, key: Link, p: Path)
    requires Inv(w) && CtlCovers(w, key, p)
    ensures !RowCovers(w.s.rows, key, p)
  {
    if RowCovers(w.s.rows, key, p) {
      var j :| 0 <= j < |w.s.rows| && IsLive(w.s.rows[j]) && w.s.rows[j].Key() == key && w.s.rows[j].path == p;
      LivePathOwner(w, j);
      assert false;
    }
  }

  lemma UnsoundStepBreaks(w: World, st: Step)
    requires Inv(w) && UnsoundStep(w, st)
    ensures !LinksCovered(Apply(w, st))
  {
    if StaleRelink(w, st) {
      StaleRelinkBreaks(w, st);
    } else {
      OwnLinkBreaks(w, st);
    }
  }

  lemma OwnLinkBreaks(w: World, st: Step)
    requires Inv(w) && OwnLink(w)
    requires || st == C(Crash)
             || (st == C(DropLink(false)) && w.ctl.Deleted?)
             || (st == C(UndoUnlink(false)) && w.ctl.UndoLink?)
    ensures !LinksCovered(Apply(w, st))
  {
    var key :| key in w.s.links && CtlCovers(w, key, w.s.links[key]);
    OwnIsNotLive(w, key, w.s.links[key]);
    LeftBehind(w, st);
    BareLink(Apply(w, st), key);
  }

  lemma BareLink(w: World, key: Link)
    requires key in w.s.links && !RowCovers(w.s.rows, key, w.s.links[key]) && (w.ctl.Idle? || w.ctl.Unlinked?)
    ensures !LinksCovered(w)
  {
    assert !Covered(w, key, w.s.links[key]);
  }

  lemma LeftBehind(w: World, st: Step)
    requires || st == C(Crash) || (st == C(DropLink(false)) && w.ctl.Deleted? && w.ctl.i < |w.s.rows|)
             || (st == C(UndoUnlink(false)) && w.ctl.UndoLink?)
    ensures var w' := Apply(w, st);
            w'.s.links == w.s.links && w'.s.rows == w.s.rows && (w'.ctl.Idle? || w'.ctl.Unlinked?)
  {
  }

  lemma StaleRelinkBreaks(w: World, st: Step)
    requires StaleRelink(w, st)
    ensures !LinksCovered(Apply(w, st))
  {
    var v, w' := w.job.vols[0], Apply(w, st);
    assert w' == w.(s := w.s.(links := w.s.links[v.Key() := v.path]), job := w'.job);
    assert v.Key() in w'.s.links && w'.s.links[v.Key()] == v.path;
    assert Covered(w', v.Key(), v.path) == Covered(w, v.Key(), v.path);
  }

  ghost predicate UnsoundAt(steps: seq<Step>, n: nat)
    requires n < |steps|
  {
    UnsoundStep(Run(Init(), steps[..n]), steps[n])
  }

  /** In every run, failing or not, the links are covered at every moment if and only if no step is one of those. */
  lemma CoveredExactly(steps: seq<Step>)
    ensures (forall n :: 0 <= n <= |steps| ==> LinksCovered(Run(Init(), steps[..n]))) <==>
            (forall n :: 0 <= n < |steps| ==> !UnsoundAt(steps, n))
  {
    if forall n :: 0 <= n < |steps| ==> !UnsoundAt(steps, n) {
      forall n | 0 <= n <= |steps| ensures LinksCovered(Run(Init(), steps[..n])) {
        StaysCovered(steps, n);
      }
    } else {
      var n :| 0 <= n < |steps| && UnsoundAt(steps, n);
      RunKeeps(Init(), steps[..n]);
      UnsoundStepBreaks(Run(Init(), steps[..n]), steps[n]);
      Prefix(steps, n);
    }
  }

  lemma StaysCoveredOnce(steps: seq<Step>, n: nat)
    requires n < |steps| && LinksCovered(Run(Init(), steps[..n])) && !UnsoundAt(steps, n)
    ensures LinksCovered(Run(Init(), steps[..n + 1]))
  {
    RunKeeps(Init(), steps[..n]);
    SoundStepKeeps(Run(Init(), steps[..n]), steps[n]);
    Prefix(steps, n);
  }

  lemma {:induction false} StaysCovered(steps: seq<Step>, n: nat)
    requires n <= |steps| && forall m :: 0 <= m < n ==> !UnsoundAt(steps, m)
    ensures LinksCovered(Run(Init(), steps[..n]))
  {
    if n > 0 {
      StaysCovered(steps, n - 1);
      assert !UnsoundAt(steps, n - 1);
      StaysCoveredOnce(steps, n - 1);
    }
  }

  // ---------------------------------------------------------------- completeness

  /** A live row, or one about to be committed, has the name. */
  ghost predicate Wanted(w: World, key: Link) {
    || (exists i :: 0 <= i < |w.s.rows| && IsLive(w.s.rows[i]) && w.s.rows[i].Key() == key)
    || (w.ctl.Linked? && w.ctl.row.Key() == key)
  }

  ghost predicate Names(vols: seq<Row>, key: Link) {
    exists v :: v in vols && v.Key() == key
  }

  /** The job has yet to link the name. */
  ghost predicate JobWill(job: Job, key: Link) {
    job.Dropping? || (job.Relinking? && Names(job.vols, key))
  }

  ghost predicate Promised(w: World, key: Link) {
    key in w.s.links || JobWill(w.job, key)
  }

  /** Every volume's name is linked, or the job will link it. */
  ghost predicate NamesPromised(w: World) {
    forall key :: Wanted(w, key) ==> Promised(w, key)
  }

  /** A live row has the name. */
  ghost predicate NameLive(rows: seq<Row>, key: Link) {
    exists i :: 0 <= i < |rows| && IsLive(rows[i]) && rows[i].Key() == key
  }

  /** A handler takes a name away that a live volume has and the job will not link. */
  ghost predicate TakesName(w: World, key: Link) {
    NameLive(w.s.rows, key) && !JobWill(w.job, key)
  }

  ghost predicate LosingUnlink(w: World, st: Step) {
    || (st == C(DropLink(true)) && w.ctl.Deleted? && w.ctl.i < |w.s.rows| && TakesName(w, w.s.rows[w.ctl.i].Key()))
    || (st == C(UndoUnlink(true)) && w.ctl.UndoLink? && TakesName(w, w.ctl.row.Key()))
  }

  /** The job reads the table while a create whose link it dropped has yet to commit. */
  ghost predicate LateCommit(w: World, st: Step) {
    && st == J(DropDone(true)) && w.job.Dropping? && w.ctl.Linked?
    && w.ctl.row.Key() !in w.s.links && !NameLive(w.s.rows, w.ctl.row.Key())
  }

  /** A link call fails, or the job ends, while a name is missing. */
  ghost predicate FailedLink(w: World, st: Step) {
    || (st == C(MakeLink(false)) && w.ctl.Filled? && !Promised(w, w.ctl.row.Key()))
    || (st == J(Relink(false)) && w.job.Relinking? && w.job.vols != [] && w.job.vols[0].Key() !in w.s.links
        && Wanted(w, w.job.vols[0].Key()) && !Names(w.job.vols[1..], w.job.vols[0].Key()))
    || (((st == J(DropDone(false)) && w.job.Dropping?) || st == J(Kill))
        && exists key :: Wanted(w, key) && key !in w.s.links)
  }

  /** The steps that lose a name. */
  ghost predicate LosingStep(w: World, st: Step) {
    LosingUnlink(w, st) || LateCommit(w, st) || FailedLink(w, st)
  }

  lemma WantedComesFrom(w: World, st: Step, key: Link)
    requires Wanted(Apply(w, st), key)
    ensures Wanted(w, key) || (st.C? && st.c.MakeLink? && w.ctl.Filled? && key == w.ctl.row.Key())
  {
    var w' := Apply(w, st);
    if exists i :: 0 <= i < |w'.s.rows| && IsLive(w'.s.rows[i]) && w'.s.rows[i].Key() == key {
      var i :| 0 <= i < |w'.s.rows| && IsLive(w'.s.rows[i]) && w'.s.rows[i].Key() == key;
      NewRowWasPending(w, st);
      if i < |w.s.rows| {
        StepEvolves(w, st);
        assert RowEvolves(w.s.rows[i], w'.s.rows[i]);
      }
    }
  }

  /** A handler step loses no promise but by taking a name away. */
  lemma CtlPromiseKept(w: World, c: CtlStep, key: Link)
    requires Promised(w, key) && Wanted(ApplyCtl(w, c), key) && !LosingUnlink(w, C(c))
    ensures Promised(ApplyCtl(w, c), key)
  {
    var w' := ApplyCtl(w, c);
    UnlinkSteps(w, c, key);
    if key in w.s.links && key !in w'.s.links {
      assert NameLive(w.s.rows, key);
    }
  }

  lemma UnlinkSteps(w: World, c: CtlStep, key: Link)
    ensures var w' := ApplyCtl(w, c);
            w'.job == w.job &&
            (key in w.s.links && key !in w'.s.links ==>
               && w'.s.rows == w.s.rows && !w'.ctl.Linked?
               && ((c == DropLink(true) && w.ctl.Deleted? && w.ctl.i < |w.s.rows| && key == w.s.rows[w.ctl.i].Key())
                   || (c == UndoUnlink(true) && w.ctl.UndoLink? && key == w.ctl.row.Key())))
  {
  }

  lemma MadeLinkPromised(w: World, works: bool)
    requires w.ctl.Filled? && !FailedLink(w, C(MakeLink(works)))
    ensures Promised(ApplyCtl(w, MakeLink(works)), w.ctl.row.Key())
  {
  }

  lemma DropDonePromises(w: World, key: Link)
    requires w.job.Dropping? && Wanted(w, key) && !LateCommit(w, J(DropDone(true)))
    ensures Promised(ApplyJob(w, DropDone(true)), key)
  {
    if NameLive(w.s.rows, key) {
      var i :| 0 <= i < |w.s.rows| && IsLive(w.s.rows[i]) && w.s.rows[i].Key() == key;
      assert w.s.rows[i] in LiveRows(w.s.rows);
    }
  }

  lemma RelinkPromises(w: World, works: bool, key: Link)
    requires w.job.Relinking? && w.job.vols != [] && Promised(w, key) && Wanted(w, key)
    requires !FailedLink(w, J(Relink(works)))
    ensures Promised(ApplyJob(w, Relink(works)), key)
  {
    var vols := w.job.vols;
    assert vols == [vols[0]] + vols[1..];
  }

  lemma JobPromiseKept(w: World, j: JobStep, key: Link)
    requires Promised(w, key) && Wanted(w, key) && !LosingStep(w, J(j))
    ensures Promised(ApplyJob(w, j), key)
  {
    if j.DropDone? && w.job.Dropping? {
      if j.works { DropDonePromises(w, key); }
    } else if j.Relink? && w.job.Relinking? && w.job.vols != [] {
      RelinkPromises(w, j.works, key);
    } else if j.Kill? {
      assert key in w.s.links;
    }
  }

  lemma KeepingStepKeeps(w: World, st: Step)
    requires Inv(w) && NamesPromised(w) && !LosingStep(w, st)
    ensures NamesPromised(Apply(w, st))
  {
    var w' := Apply(w, st);
    forall key | Wanted(w', key) ensures Promised(w', key) {
      WantedComesFrom(w, st, key);
      if !Wanted(w, key) {
        MadeLinkPromised(w, st.c.works);
      } else {
        match st
        case C(c) => CtlPromiseKept(w, c, key);
        case J(j) =>
          OthersLeaveRows(w, st);
          JobPromiseKept(w, j, key);
        case U(u) =>
      }
    }
  }

  lemma LosingUnlinkLoses(w: World, st: Step)
    requires LosingUnlink(w, st)
    ensures !NamesPromised(Apply(w, st))
  {
    var key := if w.ctl.Deleted? then w.s.rows[w.ctl.i].Key() else w.ctl.row.Key();
    var w' := Apply(w, st);
    assert w'.s.rows == w.s.rows && w'.job == w.job && key !in w'.s.links;
    assert Wanted(w', key) && !Promised(w', key);
  }

  lemma LateCommitLoses(w: World, st: Step)
    requires LateCommit(w, st)
    ensures !NamesPromised(Apply(w, st))
  {
    var key, w' := w.ctl.row.Key(), Apply(w, st);
    assert Wanted(w', key);
    forall v | v in LiveRows(w.s.rows) ensures v.Key() != key {
      var i :| 0 <= i < |LiveRows(w.s.rows)| && LiveRows(w.s.rows)[i] == v;
      assert v in w.s.rows && IsLive(v);
    }
    assert !Promised(w', key);
  }

  lemma FailedLinkLoses(w: World, st: Step)
    requires FailedLink(w, st)
    ensures !NamesPromised(Apply(w, st))
  {
    var w' := Apply(w, st);
    if st.C? {
      assert Wanted(w', w.ctl.row.Key()) && !Promised(w', w.ctl.row.Key());
    } else if st.j.Relink? {
      OthersLeaveRows(w, st);
      var key := w.job.vols[0].Key();
      assert Wanted(w', key) && !Promised(w', key);
    } else {
      var key :| Wanted(w, key) && key !in w.s.links;
      OthersLeaveRows(w, st);
      assert Wanted(w', key) && !Promised(w', key);
    }
  }

  ghost predicate LosingAt(steps: seq<Step>, n: nat)
    requires n < |steps|
  {
    LosingStep(Run(Init(), steps[..n]), steps[n])
  }

  /** In every run, failing or not, the names are promised at every moment if and only if no step loses one. */
  lemma PromisedExactly(steps: seq<Step>)
    ensures (forall n :: 0 <= n <= |steps| ==> NamesPromised(Run(Init(), steps[..n]))) <==>
            (forall n :: 0 <= n < |steps| ==> !LosingAt(steps, n))
  {
    if forall n :: 0 <= n < |steps| ==> !LosingAt(steps, n) {
      forall n | 0 <= n <= |steps| ensures NamesPromised(Run(Init(), steps[..n])) {
        StaysPromised(steps, n);
      }
    } else {
      var n :| 0 <= n < |steps| && LosingAt(steps, n);
      RunKeeps(Init(), steps[..n]);
      LosingStepLoses(Run(Init(), steps[..n]), steps[n]);
      Prefix(steps, n);
    }
  }

  lemma StaysPromisedOnce(steps: seq<Step>, n: nat)
    requires n < |steps| && NamesPromised(Run(Init(), steps[..n])) && !LosingAt(steps, n)
    ensures NamesPromised(Run(Init(), steps[..n + 1]))
  {
    RunKeeps(Init(), steps[..n]);
    KeepingStepKeeps(Run(Init(), steps[..n]), steps[n]);
    Prefix(steps, n);
  }

  lemma {:induction false} StaysPromised(steps: seq<Step>, n: nat)
    requires n <= |steps| && forall m :: 0 <= m < n ==> !LosingAt(steps, m)
    ensures NamesPromised(Run(Init(), steps[..n]))
  {
    if n > 0 {
      StaysPromised(steps, n - 1);
      assert !LosingAt(steps, n - 1);
      StaysPromisedOnce(steps, n - 1);
    }
  }

  lemma LosingStepLoses(w: World, st: Step)
    requires LosingStep(w, st)
    ensures !NamesPromised(Apply(w, st))
  {
    if LosingUnlink(w, st) {
      LosingUnlinkLoses(w, st);
    } else if LateCommit(w, st) {
      LateCommitLoses(w, st);
    } else {
      FailedLinkLoses(w, st);
    }
  }

  // ---------------------------------------------------------------- the index between handlers and jobs

  ghost predicate Quiet(w: World) {
    w.ctl.Idle? && w.job.Resting?
  }

  lemma IdleIndex(w: World)
    requires w.ctl.Idle? && LinksCovered(w)
    ensures LinksSound(w.s.rows, w.s.links)
  {
    forall key | key in w.s.links ensures RowCovers(w.s.rows, key, w.s.links[key]) {
      assert Covered(w, key, w.s.links[key]);
    }
  }

  lemma QuietIndex(w: World)
    requires Quiet(w) && NamesPromised(w)
    ensures LinksComplete(w.s.rows, w.s.links)
  {
    forall i | 0 <= i < |w.s.rows| && IsLive(w.s.rows[i]) ensures w.s.rows[i].Key() in w.s.links {
      assert Wanted(w, w.s.rows[i].Key());
    }
  }

  /**
    * Whenever handlers and job rest after a run without such steps, the kept index is sound and
    * complete; if no two live volumes share a name it is the one a rebuild would make.
    */
  lemma LinksFollowRows(steps: seq<Step>)
    requires forall n :: 0 <= n < |steps| ==> !UnsoundAt(steps, n) && !LosingAt(steps, n)
    requires Quiet(Run(Init(), steps))
    ensures var s := Run(Init(), steps).s;
            && LinksSound(s.rows, s.links) && LinksComplete(s.rows, s.links)
            && (NoSharing(s.rows) ==> s.links == Rebuilt(s.rows))
  {
    StaysCovered(steps, |steps|);
    StaysPromised(steps, |steps|);
    assert steps[..|steps|] == steps;
    var s := Run(Init(), steps).s;
    IdleIndex(Run(Init(), steps));
    QuietIndex(Run(Init(), steps));
    if NoSharing(s.rows) { IndexIsRebuilt(s.rows, s.links); }
  }

  // ---------------------------------------------------------------- when no delete meets a relink

  /** What the job has yet to link is live. */
  ghost predicate ReadsLive(w: World) {
    w.job.Relinking? ==> forall v :: v in w.job.vols ==> RowCovers(w.s.rows, v.Key(), v.path)
  }

  /** No crash, no failing removal of a link, and no volume deleted while the job links what it read. */
  predicate Careful(w: World, st: Step) {
    && st != C(Crash) && st != C(DropLink(false)) && st != C(UndoUnlink(false))
    && !(st.C? && st.c.SoftDelete? && w.job.Relinking?)
  }

  lemma RowsStayLive(w: World, st: Step, i: nat)
    requires i < |w.s.rows| && IsLive(w.s.rows[i]) && !(st.C? && st.c.SoftDelete?)
    ensures i < |Apply(w, st).s.rows| && IsLive(Apply(w, st).s.rows[i])
  {
  }

  lemma ReadRowKept(w: World, st: Step, key: Link, p: Path)
    requires RowCovers(w.s.rows, key, p) && !(st.C? && st.c.SoftDelete?)
    ensures RowCovers(Apply(w, st).s.rows, key, p)
  {
    var i :| 0 <= i < |w.s.rows| && IsLive(w.s.rows[i]) && w.s.rows[i].Key() == key && w.s.rows[i].path == p;
    RowsStayLive(w, st, i);
    StepEvolves(w, st);
    assert RowEvolves(w.s.rows[i], Apply(w, st).s.rows[i]);
  }

  lemma JobReads(w: World, st: Step)
    requires Apply(w, st).job.Relinking?
    ensures || (w.job.Relinking? && forall v :: v in Apply(w, st).job.vols ==> v in w.job.vols)
            || (st == J(DropDone(true)) && w.job.Dropping? && Apply(w, st).job.vols == LiveRows(w.s.rows))
  {
    if st.J? && st.j.Relink? {
      assert w.job.Relinking?;
    } else if !st.J? {
      OthersLeaveJob(w, st);
    }
  }

  lemma OthersLeaveJob(w: World, st: Step)
    requires !st.J?
    ensures Apply(w, st).job == w.job
  {
  }

  lemma CarefulStepReadsLive(w: World, st: Step)
    requires ReadsLive(w) && Careful(w, st)
    ensures ReadsLive(Apply(w, st))
  {
    var w' := Apply(w, st);
    if w'.job.Relinking? {
      JobReads(w, st);
      forall v | v in w'.job.vols ensures RowCovers(w'.s.rows, v.Key(), v.path) {
        if w.job.Relinking? && v in w.job.vols {
          ReadRowKept(w, st, v.Key(), v.path);
        } else {
          OthersLeaveRows(w, st);
          var n :| 0 <= n < |LiveRows(w.s.rows)| && LiveRows(w.s.rows)[n] == v;
          var i :| 0 <= i < |w.s.rows| && w.s.rows[i] == v;
        }
      }
    }
  }

  ghost predicate CarefulAt(steps: seq<Step>, n: nat)
    requires n < |steps|
  {
    Careful(Run(Init(), steps[..n]), steps[n])
  }

  lemma {:induction false} CarefulRunReadsLive(steps: seq<Step>, n: nat)
    requires n <= |steps| && forall m :: 0 <= m < n ==> CarefulAt(steps, m)
    ensures ReadsLive(Run(Init(), steps[..n]))
  {
    if n > 0 {
      CarefulRunReadsLive(steps, n - 1);
      assert CarefulAt(steps, n - 1);
      Prefix(steps, n - 1);
      CarefulStepReadsLive(Run(Init(), steps[..n - 1]), steps[n - 1]);
    }
  }

  lemma CarefulStepIsSound(w: World, st: Step)
    requires ReadsLive(w) && Careful(w, st)
    ensures !UnsoundStep(w, st)
  {
    if w.job.Relinking? && w.job.vols != [] {
      assert w.job.vols[0] in w.job.vols;
    }
  }

  /**
    * In every interleaving without crash and failing link removal, in which no volume is deleted
    * while the job links what it read, the links are sound whenever no handler is under way.
    */
  lemma LinksStaySound(steps: seq<Step>)
    requires forall n :: 0 <= n < |steps| ==> CarefulAt(steps, n)
    requires Run(Init(), steps).ctl.Idle?
    ensures var s := Run(Init(), steps).s; LinksSound(s.rows, s.links)
  {
    forall n | 0 <= n < |steps| ensures !UnsoundAt(steps, n) {
      assert CarefulAt(steps, n);
      CarefulRunReadsLive(steps, n);
      CarefulStepIsSound(Run(Init(), steps[..n]), steps[n]);
    }
    StaysCovered(steps, |steps|);
    assert steps[..|steps|] == steps;
    IdleIndex(Run(Init(), steps));
  }

  // ---------------------------------------------------------------- orderly runs

  /** No call fails and nothing is cut off: no crash, no kill, no failing link call or commit. */
  predicate NothingFails(st: Step) {
    && st != C(Crash) && st != J(Kill) && st != C(CommitFails)
    && st != C(MakeLink(false)) && st != C(DropLink(false)) && st != C(UndoUnlink(false))
    && st != J(Relink(false)) && st != J(DropDone(false))
  }

  /** No two live volumes share a name, and no handler is under way while the job rebuilds the links. */
  ghost predicate OrderlyState(w: World) {
    NoSharing(w.s.rows) && (w.job.Dropping? || w.job.Relinking? ==> w.ctl.Idle?)
  }

  ghost predicate Orderly(steps: seq<Step>) {
    && (forall n :: 0 <= n < |steps| ==> NothingFails(steps[n]))
    && (forall n :: 0 <= n <= |steps| ==> OrderlyState(Run(Init(), steps[..n])))
  }

  /** In an orderly run no commit is undone, and a deleted row's name is no live row's. */
  ghost predicate OwnNames(w: World) {
    && !w.ctl.Undo? && !w.ctl.UndoLink?
    && (w.ctl.Deleted? && w.ctl.i < |w.s.rows| ==> !NameLive(w.s.rows, w.s.rows[w.ctl.i].Key()))
  }

  lemma DeletesOwnName(rows: seq<Row>, i: nat)
    requires NoSharing(rows) && i < |rows| && IsLive(rows[i])
    ensures !NameLive(SoftDeleted(rows, i), SoftDeleted(rows, i)[i].Key())
  {
    var rows' := SoftDeleted(rows, i);
    assert rows'[i] == rows[i].(deleted := true);
    forall j | 0 <= j < |rows'| && IsLive(rows'[j]) ensures rows'[j].Key() != rows'[i].Key() {
      assert rows'[j] == rows[j];
      assert i < j || j < i;
    }
  }

  lemma OwnNamesKept(w: World, st: Step)
    requires OwnNames(w) && OrderlyState(w) && NothingFails(st)
    ensures OwnNames(Apply(w, st))
  {
    if st.C? && st.c.SoftDelete? {
      if w.ctl.Idle? && st.c.at < |w.s.rows| && IsLive(w.s.rows[st.c.at]) {
        DeletesOwnName(w.s.rows, st.c.at);
      }
    } else if st.C? {
      DeletedRowsKept(w, st.c);
    } else {
      OthersLeaveRows(w, st);
    }
  }

  lemma DeletedRowsKept(w: World, c: CtlStep)
    requires !c.SoftDelete? && c != CommitFails && !w.ctl.Undo? && !w.ctl.UndoLink?
    ensures var w' := ApplyCtl(w, c);
            !w'.ctl.Undo? && !w'.ctl.UndoLink? && (w'.ctl.Deleted? ==> w'.ctl == w.ctl && w'.s.rows == w.s.rows)
  {
  }

  lemma OrderlyStepLosesNothing(w: World, st: Step)
    requires OwnNames(w) && OrderlyState(w) && NothingFails(st)
    ensures !LosingStep(w, st)
  {
  }

  lemma {:induction false} OrderlyNames(steps: seq<Step>, n: nat)
    requires Orderly(steps) && n <= |steps|
    ensures OwnNames(Run(Init(), steps[..n]))
  {
    if n > 0 {
      OrderlyNames(steps, n - 1);
      assert OrderlyState(Run(Init(), steps[..n - 1]));
      OwnNamesKept(Run(Init(), steps[..n - 1]), steps[n - 1]);
      Prefix(steps, n - 1);
    }
  }

  lemma DeleteLeavesBusy(w: World, i: nat)
    requires w.ctl.Idle? && w.job.Relinking? && i < |w.s.rows| && IsLive(w.s.rows[i])
    ensures !OrderlyState(Apply(w, C(SoftDelete(i))))
  {
  }

  /** A delete while the job links is not orderly: it leaves a handler under way. */
  lemma OrderlyReadsLive(w: World, st: Step)
    requires ReadsLive(w) && OrderlyState(w) && NothingFails(st) && OrderlyState(Apply(w, st))
    ensures ReadsLive(Apply(w, st)) && !UnsoundStep(w, st)
  {
    if Careful(w, st) {
      CarefulStepReadsLive(w, st);
      CarefulStepIsSound(w, st);
    } else if st.c.at < |w.s.rows| && IsLive(w.s.rows[st.c.at]) {
      DeleteLeavesBusy(w, st.c.at);
    } else {
      assert Apply(w, st) == w;
    }
  }

  lemma {:induction false} OrderlyRunReadsLive(steps: seq<Step>, n: nat)
    requires Orderly(steps) && n <= |steps|
    ensures ReadsLive(Run(Init(), steps[..n]))
  {
    if n > 0 {
      OrderlyRunReadsLive(steps, n - 1);
      OrderlyPair(steps, n - 1);
      OrderlyReadsLive(Run(Init(), steps[..n - 1]), steps[n - 1]);
    }
  }

  lemma OrderlyPair(steps: seq<Step>, n: nat)
    requires Orderly(steps) && n < |steps|
    ensures var w := Run(Init(), steps[..n]);
            OrderlyState(w) && NothingFails(steps[n]) && OrderlyState(Apply(w, steps[n]))
    ensures Run(Init(), steps[..n + 1]) == Apply(Run(Init(), steps[..n]), steps[n])
  {
    Prefix(steps, n);
    assert OrderlyState(Run(Init(), steps[..n])) && OrderlyState(Run(Init(), steps[..n + 1]));
  }

  /**
    * In every interleaving in which nothing fails or is cut off, no two live volumes ever share
    * a name, and no handler is under way while the job rebuilds the links, the kept index is
    * the one a rebuild would make whenever handlers and job rest.
    */
  lemma OrderlyLinksFollowRows(steps: seq<Step>)
    requires Orderly(steps) && Quiet(Run(Init(), steps))
    ensures Run(Init(), steps).s.links == Rebuilt(Run(Init(), steps).s.rows)
  {
    forall n | 0 <= n < |steps| ensures !UnsoundAt(steps, n) && !LosingAt(steps, n) {
      OrderlyPair(steps, n);
      OrderlyRunReadsLive(steps, n);
      OrderlyReadsLive(Run(Init(), steps[..n]), steps[n]);
      OrderlyNames(steps, n);
      OrderlyStepLosesNothing(Run(Init(), steps[..n]), steps[n]);
    }
    assert steps[..|steps|] == steps;
    assert OrderlyState(Run(Init(), steps[..|steps|]));
    LinksFollowRows(steps);
  }

  // ---------------------------------------------------------------- two runs without any failure

  lemma CreateUpToLink(w: World, r: Row)
    requires RowOk(r) && IsLive(r) && w.s == Init().s && w.used == {} && w.ctl.Idle?
    ensures var w' := Run(w, [C(Begin(r)), C(Fill(true)), C(MakeLink(true))]);
            w'.s.rows == [] && w'.s.links == map[r.Key() := r.path] && w'.ctl == Linked(r) && w'.job == w.job
  {
    Run3(w, C(Begin(r)), C(Fill(true)), C(MakeLink(true)));
    MakeShardsKeeps(map[], {}, r.id, 3);
    PopulateAt(MakeShards(map[], r.id, 3), r, true);
  }

  lemma JobDropsOne(w: World, key: Link)
    requires w.s.links.Keys == {key} && w.job.Resting?
    ensures Apply(Apply(w, J(StartRelink)), J(Drop({key}))) == w.(s := w.s.(links := map[]), job := Dropping)
  {
    assert w.s.links - {key} == map[];
  }

  lemma JobReadsRow(w: World, r: Row)
    requires w.s.rows == [r] && IsLive(r) && w.job.Dropping?
    ensures Apply(w, J(DropDone(true))) == w.(job := Relinking([r]))
  {
    assert [r][..0] == [] && LiveRows([r]) == [r];
  }

  lemma JobReadsOne(w: World, r: Row)
    requires w.s.rows == [r] && IsLive(r) && w.s.links == map[r.Key() := r.path] && w.job.Resting?
    ensures Run(w, [J(StartRelink), J(Drop({r.Key()})), J(DropDone(true))]) ==
            w.(s := w.s.(links := map[]), job := Relinking([r]))
  {
    Run3(w, J(StartRelink), J(Drop({r.Key()})), J(DropDone(true)));
    JobDropsOne(w, r.Key());
    JobReadsRow(w.(s := w.s.(links := map[]), job := Dropping), r);
  }

  lemma DeleteMeanwhile(w: World, r: Row)
    requires w.s.rows == [r] && IsLive(r) && w.s.links == map[] && w.ctl.Idle?
    ensures var w' := Run(w, [C(SoftDelete(0)), C(DropLink(true)), C(DeleteRemove({})), C(DeleteRemoved)]);
            w'.s.rows == [r.(deleted := true)] && w'.s.links == map[] && w'.ctl.Idle? && w'.job == w.job
  {
    Run4(w, C(SoftDelete(0)), C(DropLink(true)), C(DeleteRemove({})), C(DeleteRemoved));
  }

  lemma RelinkOne(w: World, r: Row)
    requires w.job == Relinking([r]) && w.s.links == map[]
    ensures Run(w, [J(Relink(true)), J(RelinkDone)]) == w.(s := w.s.(links := map[r.Key() := r.path]), job := Resting)
  {
    Run2(w, J(Relink(true)), J(RelinkDone));
  }

  /** Any volume, created and deleted while the job rebuilds the links, ends with a symlink to its removed path. */
  lemma StaleLinkHappens(r: Row) returns (steps: seq<Step>)
    requires RowOk(r) && IsLive(r)
    ensures var w := Run(Init(), steps);
            Quiet(w) && w.s.rows == [r.(deleted := true)] && w.s.links == map[r.Key() := r.path]
    ensures !LinksSound(Run(Init(), steps).s.rows, Run(Init(), steps).s.links)
  {
    var create := [C(Begin(r)), C(Fill(true)), C(MakeLink(true))] + [C(Commit)];
    var read := [J(StartRelink), J(Drop({r.Key()})), J(DropDone(true))];
    var delete := [C(SoftDelete(0)), C(DropLink(true)), C(DeleteRemove({})), C(DeleteRemoved)];
    var link := [J(Relink(true)), J(RelinkDone)];
    CreatedAlone(r);
    RunAppend(Init(), create, read);
    JobReadsOne(Run(Init(), create), r);
    RunAppend(Init(), create + read, delete);
    DeleteMeanwhile(Run(Init(), create + read), r);
    RunAppend(Init(), create + read + delete, link);
    RelinkOne(Run(Init(), create + read + delete), r);
    steps := create + read + delete + link;
    assert r.Key() in Run(Init(), steps).s.links;
  }

  lemma CreateMeetsDrop(r: Row)
    requires RowOk(r) && IsLive(r)
    ensures var w := Run(Init(), [J(StartRelink)] + [C(Begin(r)), C(Fill(true)), C(MakeLink(true))]);
            w.s.rows == [] && w.s.links == map[r.Key() := r.path] && w.ctl == Linked(r) && w.job.Dropping?
  {
    Run1(Init(), J(StartRelink));
    CreateUpToLink(Run(Init(), [J(StartRelink)]), r);
    RunAppend(Init(), [J(StartRelink)], [C(Begin(r)), C(Fill(true)), C(MakeLink(true))]);
  }

  lemma DropMeetsCommit(w: World, r: Row)
    requires w.s.rows == [] && w.s.links == map[r.Key() := r.path] && w.ctl == Linked(r) && w.job.Dropping?
    ensures var w' := Run(w, [J(Drop({r.Key()})), J(DropDone(true)), C(Commit), J(RelinkDone)]);
            w'.s.rows == [r] && w'.s.links == map[] && Quiet(w')
  {
    Run4(w, J(Drop({r.Key()})), J(DropDone(true)), C(Commit), J(RelinkDone));
  }

  /** Any volume committed after the job emptied the links and read the table ends without its symlink. */
  lemma MissingLinkHappens(r: Row) returns (steps: seq<Step>)
    requires RowOk(r) && IsLive(r)
    ensures var w := Run(Init(), steps); Quiet(w) && w.s.rows == [r] && w.s.links == map[]
    ensures !LinksComplete(Run(Init(), steps).s.rows, Run(Init(), steps).s.links)
  {
    var create := [J(StartRelink)] + [C(Begin(r)), C(Fill(true)), C(MakeLink(true))];
    var commit := [J(Drop({r.Key()})), J(DropDone(true)), C(Commit), J(RelinkDone)];
    CreateMeetsDrop(r);
    RunAppend(Init(), create, commit);
    DropMeetsCommit(Run(Init(), create), r);
    steps := create + commit;
    assert Run(Init(), steps).s.rows[0] == r && r.Key() !in Run(Init(), steps).s.links;
  }
}
