/**
  * Publish records over all runs: publishing, unpublishing and heartbeats on one clock, with
  * any steps of controller, clean-up job and pods in between.
  */
module PublishRuns {
  import opened Prelude
  import opened Catalogue
  import opened StepMachine
  import opened Invariants
  import opened RunProperties
  import opened Records

  datatype Cluster = Cluster(w: World, nodes: Nodes, recs: seq<PublishRecord>, now: int)

  datatype Event =
    | Steps(steps: seq<Step>)
    | Pass(ms: nat)
    | Tick(beating: string, written: bool)
    | Publish(req: PublishRequest, inserts: bool)
    | Unpublish(volId: string, nodeId: string, deletes: bool)

  ghost function Happen(t: Cluster, e: Event): Cluster {
    match e
    case Steps(steps) => t.(w := Run(t.w, steps))
    case Pass(ms) => t.(now := t.now + ms)
    case Tick(id, written) => if written then t.(nodes := t.nodes[id := t.now]) else t
    case Publish(req, inserts) => t.(recs := PublishHandler(t.w.s.rows, t.nodes, t.recs, req, t.now, inserts).0)
    case Unpublish(volId, nodeId, deletes) => t.(recs := UnpublishHandler(t.w.s.rows, t.recs, volId, nodeId, deletes).0)
  }

  ghost function HappenAll(t: Cluster, es: seq<Event>): Cluster {
    if es == [] then t else Happen(HappenAll(t, es[..|es| - 1]), es[|es| - 1])
  }

  /** Empty tables, time zero. */
  function Start(): Cluster {
    Cluster(Init(), map[], [], 0)
  }

  /** At most one live record per volume and node; every record is of a volume that exists, live or deleted. */
  ghost predicate RecordsInv(t: Cluster) {
    && (forall i, j :: 0 <= i < j < |t.recs| && !t.recs[i].deleted ==>
          !Matches(t.recs[j], t.recs[i].volId, t.recs[i].nodeId))
    && (forall i :: 0 <= i < |t.recs| ==> HasRow(t.w.s.rows, t.recs[i].volId))
  }

  ghost predicate HasRow(rows: seq<Row>, volId: string) {
    exists k :: 0 <= k < |rows| && rows[k].id == volId
  }

  lemma HasRowEvolves(rows: seq<Row>, rows': seq<Row>, volId: string)
    requires RowsEvolve(rows, rows') && HasRow(rows, volId)
    ensures HasRow(rows', volId)
  {
    var k :| 0 <= k < |rows| && rows[k].id == volId;
    assert RowEvolves(rows[k], rows'[k]);
  }

  lemma EventKeepsRecords(t: Cluster, e: Event)
    requires RecordsInv(t)
    ensures RecordsInv(Happen(t, e))
  {
    match e
    case Steps(steps) =>
      RunEvolves(t.w, steps);
      forall i | 0 <= i < |t.recs| ensures HasRow(Run(t.w, steps).s.rows, t.recs[i].volId) {
        HasRowEvolves(t.w.s.rows, Run(t.w, steps).s.rows, t.recs[i].volId);
      }
    case Publish(req, _) =>
      var found := FindId(t.w.s.rows, req.volId);
      assert found.Some? ==> t.w.s.rows[found.value].id == req.volId;
    case _ =>
  }

  lemma {:induction false} RunKeepsRecords(t: Cluster, es: seq<Event>)
    requires RecordsInv(t)
    ensures RecordsInv(HappenAll(t, es))
    decreases |es|
  {
    if es != [] {
      RunKeepsRecords(t, es[..|es| - 1]);
      EventKeepsRecords(HappenAll(t, es[..|es| - 1]), es[|es| - 1]);
    }
  }

  /** A record is never rewritten: while it lives its read-only flag is the one it was made with. */
  ghost predicate RecordsEvolve(recs: seq<PublishRecord>, recs': seq<PublishRecord>) {
    && |recs| <= |recs'|
    && forall i :: 0 <= i < |recs| ==> recs'[i] == recs[i] || recs'[i] == recs[i].(deleted := true)
  }

  lemma EventEvolves(t: Cluster, e: Event)
    ensures RecordsEvolve(t.recs, Happen(t, e).recs)
  {
  }

  lemma {:induction false} RecordsNeverRewritten(t: Cluster, es: seq<Event>)
    ensures RecordsEvolve(t.recs, HappenAll(t, es).recs)
    decreases |es|
  {
    if es != [] {
      RecordsNeverRewritten(t, es[..|es| - 1]);
      EventEvolves(HappenAll(t, es[..|es| - 1]), es[|es| - 1]);
    }
  }

  ghost predicate AllDifferent(ids: seq<string>) {
    forall i, j :: 0 <= i < j < |ids| ==> ids[i] != ids[j]
  }

  lemma {:induction false} DistinctNodes(recs: seq<PublishRecord>, volId: string)
    requires forall i, j :: 0 <= i < j < |recs| && !recs[i].deleted ==> !Matches(recs[j], recs[i].volId, recs[i].nodeId)
    ensures AllDifferent(NodeIds(recs, volId))
  {
    if recs != [] {
      var n := |recs| - 1;
      DistinctNodes(recs[..n], volId);
      assert Matches(recs[n], volId, recs[n].nodeId) ==>
        forall i :: 0 <= i < n ==> !Matches(recs[..n][i], volId, recs[n].nodeId);
      assert Matches(recs[n], volId, recs[n].nodeId) ==> recs[n].nodeId !in NodeIds(recs[..n], volId);
    }
  }

  /** No run reports a node twice for a volume, or a node for a volume that never existed. */
  lemma ReportedNodesDistinct(es: seq<Event>, volId: string)
    ensures var t := HappenAll(Start(), es); var ids := NodeIds(t.recs, volId);
            AllDifferent(ids) && (ids != [] ==> HasRow(t.w.s.rows, volId))
  {
    RunKeepsRecords(Start(), es);
    var t := HappenAll(Start(), es);
    DistinctNodes(t.recs, volId);
    if NodeIds(t.recs, volId) != [] {
      assert NodeIds(t.recs, volId)[0] in NodeIds(t.recs, volId);
    }
  }

  // ---------------------------------------------------------------- records and heartbeats

  /** The clock when an event happens. */
  ghost function TimeOf(es: seq<Event>, n: nat): int
    requires n <= |es|
  {
    HappenAll(Start(), es[..n]).now
  }

  /** A heartbeat of the node was written at this time, before event `n`. */
  ghost predicate BeatAt(es: seq<Event>, n: nat, nodeId: string, time: int) {
    exists m :: 0 <= m < n && m < |es| && es[m] == Tick(nodeId, true) && TimeOf(es, m) == time
  }

  lemma BeatAtLonger(es: seq<Event>, e: Event, n: nat, nodeId: string, time: int)
    requires n <= |es| && BeatAt(es, n, nodeId, time)
    ensures BeatAt(es + [e], n, nodeId, time)
  {
    var m :| 0 <= m < n && es[m] == Tick(nodeId, true) && TimeOf(es, m) == time;
    assert (es + [e])[..m] == es[..m] && (es + [e])[m] == es[m];
    assert TimeOf(es + [e], m) == time;
  }

  /** What the node table says is when the node last wrote a heartbeat. */
  lemma {:induction false} SeenMeansBeat(es: seq<Event>, nodeId: string)
    requires nodeId in HappenAll(Start(), es).nodes
    ensures BeatAt(es, |es|, nodeId, HappenAll(Start(), es).nodes[nodeId])
    decreases |es|
  {
    var n := |es| - 1;
    var before := HappenAll(Start(), es[..n]);
    if es[n] == Tick(nodeId, true) {
      assert TimeOf(es, n) == before.now;
    } else {
      SeenMeansBeat(es[..n], nodeId);
      BeatAtLonger(es[..n], es[n], n, nodeId, before.nodes[nodeId]);
      assert es[..n] + [es[n]] == es;
    }
  }

  /** Event `n` published the record, for a live volume, within 30 seconds of a written heartbeat of its node. */
  ghost predicate MadeBy(es: seq<Event>, r: PublishRecord, n: nat) {
    && n < |es| && es[n].Publish? && es[n].req.volId == r.volId
    && es[n].req.nodeId == r.nodeId && es[n].req.readOnly == r.readOnly
    && FindId(HappenAll(Start(), es[..n]).w.s.rows, r.volId).Some?
    && exists time :: BeatAt(es, n, r.nodeId, time) && TimeOf(es, n) - 30000 <= time
  }

  ghost predicate MadeBySome(es: seq<Event>, r: PublishRecord) {
    exists n :: MadeBy(es, r, n)
  }

  lemma MadeAlike(es: seq<Event>, r: PublishRecord, r': PublishRecord)
    requires MadeBySome(es, r) && (r' == r || r' == r.(deleted := true))
    ensures MadeBySome(es, r')
  {
    var n :| MadeBy(es, r, n);
    assert MadeBy(es, r', n);
  }

  lemma MadeByLonger(es: seq<Event>, e: Event, r: PublishRecord, n: nat)
    requires MadeBy(es, r, n)
    ensures MadeBySome(es + [e], r)
  {
    var time :| BeatAt(es, n, r.nodeId, time) && TimeOf(es, n) - 30000 <= time;
    BeatAtLonger(es, e, n, r.nodeId, time);
    assert (es + [e])[..n] == es[..n] && (es + [e])[n] == es[n];
    assert MadeBy(es + [e], r, n);
  }

  lemma PublishMakes(es: seq<Event>, n: nat)
    requires n + 1 == |es| && |HappenAll(Start(), es).recs| > |HappenAll(Start(), es[..n]).recs|
    ensures var recs, before := HappenAll(Start(), es).recs, HappenAll(Start(), es[..n]).recs;
            |recs| == |before| + 1 && recs[..|before|] == before && MadeBy(es, recs[|before|], n)
  {
    var t, req := HappenAll(Start(), es[..n]), es[n].req;
    SeenMeansBeat(es[..n], req.nodeId);
    BeatAtLonger(es[..n], es[n], n, req.nodeId, t.nodes[req.nodeId]);
    assert es[..n] + [es[n]] == es;
    assert TimeOf(es, n) - 30000 <= t.nodes[req.nodeId];
  }

  lemma MadeBySomeLonger(es: seq<Event>, e: Event, r: PublishRecord)
    requires MadeBySome(es, r)
    ensures MadeBySome(es + [e], r)
  {
    var m :| MadeBy(es, r, m);
    MadeByLonger(es, e, r, m);
  }

  lemma OldRecordMade(es: seq<Event>, k: nat)
    requires es != [] && k < |HappenAll(Start(), es[..|es| - 1]).recs|
    requires MadeBySome(es[..|es| - 1], HappenAll(Start(), es[..|es| - 1]).recs[k])
    ensures k < |HappenAll(Start(), es).recs| && MadeBySome(es, HappenAll(Start(), es).recs[k])
  {
    var n := |es| - 1;
    var t := HappenAll(Start(), es[..n]);
    MadeBySomeLonger(es[..n], es[n], t.recs[k]);
    assert es[..n] + [es[n]] == es;
    EventEvolves(t, es[n]);
    MadeAlike(es, t.recs[k], HappenAll(Start(), es).recs[k]);
  }

  /**
    * In every run, each publish record was made by a publish of a live volume, no more than 30
    * seconds after a written heartbeat of its node, with the read-only flag it still has.
    */
  lemma {:induction false} RecordsHaveHeartbeats(es: seq<Event>, k: nat)
    requires k < |HappenAll(Start(), es).recs|
    ensures MadeBySome(es, HappenAll(Start(), es).recs[k])
    decreases |es|
  {
    var n := |es| - 1;
    var before, after := HappenAll(Start(), es[..n]).recs, HappenAll(Start(), es).recs;
    if k < |before| {
      RecordsHaveHeartbeats(es[..n], k);
      OldRecordMade(es, k);
    } else {
      PublishMakes(es, n);
    }
  }

  // ---------------------------------------------------------------- repeating and undoing

  /** Publishing again answers as before and changes nothing; with the other flag it is refused. */
  lemma PublishIsIdempotent(t: Cluster, req: PublishRequest, inserts: bool, again: bool)
    requires RecordsInv(t) && PublishHandler(t.w.s.rows, t.nodes, t.recs, req, t.now, inserts).1.Ok?
    ensures var recs := PublishHandler(t.w.s.rows, t.nodes, t.recs, req, t.now, inserts).0;
            && PublishHandler(t.w.s.rows, t.nodes, recs, req, t.now, again) == (recs, Ok(()))
            && PublishHandler(t.w.s.rows, t.nodes, recs, req.(readOnly := !req.readOnly), t.now, again) ==
               (recs, Err(AlreadyExists))
  {
    var recs := PublishHandler(t.w.s.rows, t.nodes, t.recs, req, t.now, inserts).0;
    var found := FindRecord(t.recs, req.volId, req.nodeId);
    if found.None? {
      assert Matches(recs[|t.recs|], req.volId, req.nodeId);
    }
  }

  /** Unpublishing undoes publishing: the live records are those before the publish of a node without one. */
  lemma UnpublishUndoesPublish(t: Cluster, req: PublishRequest)
    requires PublishHandler(t.w.s.rows, t.nodes, t.recs, req, t.now, true).1.Ok?
    requires FindRecord(t.recs, req.volId, req.nodeId).None?
    ensures var recs := PublishHandler(t.w.s.rows, t.nodes, t.recs, req, t.now, true).0;
            var (recs', reply) := UnpublishHandler(t.w.s.rows, recs, req.volId, req.nodeId, true);
            reply.Ok? && |recs'| == |t.recs| + 1 && recs'[..|t.recs|] == t.recs && recs'[|t.recs|].deleted
  {
    var recs := PublishHandler(t.w.s.rows, t.nodes, t.recs, req, t.now, true).0;
    assert Matches(recs[|t.recs|], req.volId, req.nodeId);
    assert forall i :: 0 <= i < |t.recs| ==> recs[i] == t.recs[i] && !Matches(t.recs[i], req.volId, req.nodeId);
  }

  /**
    * When the table can be written, an unpublish leaves no live record of volume and node if and
    * only if the volume is live or there was none.
    */
  lemma UnpublishClearsExactly(t: Cluster, volId: string, nodeId: string)
    requires volId != ""
    ensures var recs := UnpublishHandler(t.w.s.rows, t.recs, volId, nodeId, true).0;
            FindRecord(recs, volId, nodeId).None? <==>
            (FindId(t.w.s.rows, volId).Some? || FindRecord(t.recs, volId, nodeId).None?)
  {
  }

  /** A live record of a volume that is deleted. */
  ghost predicate Orphaned(t: Cluster, r: PublishRecord, i: nat) {
    && i < |t.recs| && t.recs[i] == r && !r.deleted
    && HasRow(t.w.s.rows, r.volId) && FindId(t.w.s.rows, r.volId).None?
  }

  lemma StaysDeleted(rows: seq<Row>, rows': seq<Row>, used: set<string>, volId: string)
    requires RowsEvolve(rows, rows') && RowsInv(rows', used) && HasRow(rows, volId) && FindId(rows, volId).None?
    ensures HasRow(rows', volId) && FindId(rows', volId).None?
  {
    var k :| 0 <= k < |rows| && rows[k].id == volId;
    assert RowEvolves(rows[k], rows'[k]);
    assert forall j :: 0 <= j < |rows'| && rows'[j].id == volId ==> j == k;
  }

  lemma RecordUntouched(t: Cluster, e: Event, i: nat)
    requires i < |t.recs| && FindId(t.w.s.rows, t.recs[i].volId).None?
    ensures i < |Happen(t, e).recs| && Happen(t, e).recs[i] == t.recs[i]
  {
    if e.Unpublish? {
      assert e.volId == t.recs[i].volId ==> Happen(t, e) == t;
    }
  }

  lemma OrphanStays(t: Cluster, e: Event, r: PublishRecord, i: nat)
    requires Inv(t.w) && Orphaned(t, r, i)
    ensures Inv(Happen(t, e).w) && Orphaned(Happen(t, e), r, i)
  {
    RecordUntouched(t, e, i);
    if e.Steps? {
      var w' := Run(t.w, e.steps);
      RunKeeps(t.w, e.steps);
      RunEvolves(t.w, e.steps);
      StaysDeleted(t.w.s.rows, w'.s.rows, w'.used, r.volId);
    } else {
      assert Happen(t, e).w == t.w;
    }
  }

  /** Once a volume is deleted its live records stay, through every run: unpublishing it is refused from then on. */
  lemma {:induction false} DeletedVolumeKeepsRecords(t: Cluster, es: seq<Event>, r: PublishRecord, i: nat)
    requires Inv(t.w) && Orphaned(t, r, i)
    ensures Inv(HappenAll(t, es).w) && Orphaned(HappenAll(t, es), r, i)
    decreases |es|
  {
    if es != [] {
      var n := |es| - 1;
      DeletedVolumeKeepsRecords(t, es[..n], r, i);
      OrphanStays(HappenAll(t, es[..n]), es[n], r, i);
    }
  }
}
