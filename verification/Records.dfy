/** Publish records and node heartbeats: tables beside the volume table, with soft delete. */
module Records {
  import opened Prelude
  import opened Catalogue

  datatype PublishRecord = PublishRecord(volId: string, nodeId: string, readOnly: bool, deleted: bool)

  /** When each node was last seen, in milliseconds. */
  type Nodes = map<string, int>

  // ---------------------------------------------------------------- the record table

  predicate Matches(r: PublishRecord, volId: string, nodeId: string) {
    !r.deleted && r.volId == volId && r.nodeId == nodeId
  }

  /** The first live record of a volume and node. */
  function FindRecord(recs: seq<PublishRecord>, volId: string, nodeId: string): (r: Option<nat>)
    ensures r.Some? ==> r.value < |recs| && Matches(recs[r.value], volId, nodeId)
    ensures r.None? ==> forall j :: 0 <= j < |recs| ==> !Matches(recs[j], volId, nodeId)
  {
    if recs == [] then None else
      var n := |recs| - 1;
      var r := FindRecord(recs[..n], volId, nodeId);
      if r.Some? then r else if Matches(recs[n], volId, nodeId) then Some(n) else None
  }

  /** Soft-deletes every live record of a volume and node. */
  function DeleteRecords(recs: seq<PublishRecord>, volId: string, nodeId: string): (r: seq<PublishRecord>)
    ensures |r| == |recs|
    ensures forall i :: 0 <= i < |recs| ==>
      r[i] == if Matches(recs[i], volId, nodeId) then recs[i].(deleted := true) else recs[i]
  {
    if recs == [] then [] else
      var n := |recs| - 1;
      DeleteRecords(recs[..n], volId, nodeId) +
      [if Matches(recs[n], volId, nodeId) then recs[n].(deleted := true) else recs[n]]
  }

  /** The nodes a volume is reported to be published on. */
  function NodeIds(recs: seq<PublishRecord>, volId: string): (ids: seq<string>)
    ensures forall id :: id in ids <==> exists i :: 0 <= i < |recs| && Matches(recs[i], volId, id)
  {
    if recs == [] then [] else
      var n := |recs| - 1;
      var ids := NodeIds(recs[..n], volId);
      assert recs == recs[..n] + [recs[n]];
      if Matches(recs[n], volId, recs[n].nodeId) then
        assert forall id :: id in ids + [recs[n].nodeId] <==> id in ids || id == recs[n].nodeId;
        ids + [recs[n].nodeId]
      else ids
  }

  // ---------------------------------------------------------------- node publish records

  datatype NodeRecord = NodeRecord(
    volId: string, nodeId: string, mountPath: string, rawMount: bool, readOnly: bool, deleted: bool)

  predicate NodeMatches(r: NodeRecord, volId: string, nodeId: string, mountPath: string) {
    !r.deleted && r.volId == volId && r.nodeId == nodeId && r.mountPath == mountPath
  }

  /** Soft-deletes every live record of a volume, node and mount path. */
  function DeleteNodeRecords(recs: seq<NodeRecord>, volId: string, nodeId: string, mountPath: string)
    : (r: seq<NodeRecord>)
    ensures |r| == |recs|
    ensures forall i :: 0 <= i < |recs| ==>
      r[i] == if NodeMatches(recs[i], volId, nodeId, mountPath) then recs[i].(deleted := true) else recs[i]
  {
    if recs == [] then [] else
      var n := |recs| - 1;
      DeleteNodeRecords(recs[..n], volId, nodeId, mountPath) +
      [if NodeMatches(recs[n], volId, nodeId, mountPath) then recs[n].(deleted := true) else recs[n]]
  }

  // ---------------------------------------------------------------- the controller's publish handlers

  const NODE_AGE: int := 30 * 1000

  /** `GetNodeInfo`: the node was seen within the age. */
  predicate SeenWithin(nodes: Nodes, nodeId: string, now: int, age: int) {
    nodeId in nodes && nodes[nodeId] >= now - age
  }

  datatype PublishRequest = PublishRequest(volId: string, nodeId: string, hasCapability: bool, readOnly: bool)

  function PublishHandler(
    rows: seq<Row>, nodes: Nodes, recs: seq<PublishRecord>, req: PublishRequest, now: int, inserts: bool)
    : (seq<PublishRecord>, Reply<()>)
  {
    if req.volId == "" || req.nodeId == "" || !req.hasCapability then (recs, Err(InvalidArgument))
    else if FindId(rows, req.volId).None? then (recs, Err(NotFound))
    else if !SeenWithin(nodes, req.nodeId, now, NODE_AGE) then (recs, Err(NotFound))
    else
      var found := FindRecord(recs, req.volId, req.nodeId);
      if found.Some? then (recs, if recs[found.value].readOnly != req.readOnly then Err(AlreadyExists) else Ok(()))
      else if !inserts then (recs, Err(Internal))
      else (recs + [PublishRecord(req.volId, req.nodeId, req.readOnly, false)], Ok(()))
  }

  function UnpublishHandler(rows: seq<Row>, recs: seq<PublishRecord>, volId: string, nodeId: string, deletes: bool)
    : (seq<PublishRecord>, Reply<()>)
  {
    if volId == "" then (recs, Err(InvalidArgument))
    else if FindId(rows, volId).None? then (recs, Err(NotFound))
    else if FindRecord(recs, volId, nodeId).None? then (recs, Ok(()))
    else if !deletes then (recs, Err(Internal))
    else (DeleteRecords(recs, volId, nodeId), Ok(()))
  }
}
