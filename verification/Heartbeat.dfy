/** The node's heartbeat against the controller's 30-second check, on one clock in milliseconds. */
module Heartbeat {
  import opened Prelude
  import opened Catalogue
  import opened Records
  import opened Volumes

  const PERIOD: int := 5 * 1000

  /** The last tick whose write worked. */
  function LastWritten(writes: seq<bool>): (k: Option<nat>)
    ensures k.Some? ==> k.value < |writes| && writes[k.value] && forall j :: k.value < j < |writes| ==> !writes[j]
    ensures k.None? ==> forall j :: 0 <= j < |writes| ==> !writes[j]
  {
    if writes == [] then None
    else if writes[|writes| - 1] then Some(|writes| - 1)
    else LastWritten(writes[..|writes| - 1])
  }

  /** The node table after a node's ticks, each written or lost; tick `n` comes at `n` periods. */
  function Ticked(nodes: Nodes, nodeId: string, writes: seq<bool>): Nodes {
    match LastWritten(writes)
    case None => nodes
    case Some(k) => nodes[nodeId := k * PERIOD]
  }

  /** The first write at start-up and the ticker loop; a failed write is only logged. */
  method Beat(vh: VolumeHelper, nodeId: string, writes: seq<bool>)
    modifies vh`nodes
    ensures vh.nodes == Ticked(old(vh.nodes), nodeId, writes)
  {
    for n := 0 to |writes|
      invariant vh.nodes == Ticked(old(vh.nodes), nodeId, writes[..n])
    {
      var _ := vh.UpdateNodeInfoLastSeen(nodeId, n * PERIOD, writes[n]);
      assert writes[..n + 1][..n] == writes[..n];
    }
    assert writes[..|writes|] == writes;
  }

  /** Whether the controller finds the node at a time, its ticks up to then having been written or lost. */
  predicate SeenAt(nodes: Nodes, nodeId: string, writes: seq<bool>, now: nat)
    requires now / PERIOD < |writes|
  {
    SeenWithin(Ticked(nodes, nodeId, writes[..now / PERIOD + 1]), nodeId, now, NODE_AGE)
  }

  /** Six failures in a row somewhere. */
  ghost predicate SixLost(writes: seq<bool>, at: nat) {
    at + 6 <= |writes| && forall j :: at <= j < at + 6 ==> !writes[j]
  }

  /** One millisecond after the sixth lost heartbeat in a row the node is not found. */
  lemma SixLostHides(nodes: Nodes, nodeId: string, writes: seq<bool>, at: nat)
    requires SixLost(writes, at) && writes[0]
    ensures (at + 5) * PERIOD + 1 < |writes| * PERIOD && !SeenAt(nodes, nodeId, writes, (at + 5) * PERIOD + 1)
  {
    var now := (at + 5) * PERIOD + 1;
    assert now / PERIOD == at + 5;
    var front := writes[..at + 6];
    var k := LastWritten(front);
    assert front[0];
    assert forall j :: at <= j < at + 6 ==> !front[j];
    assert k.Some? && k.value < at;
  }

  lemma FiveLostIsFine(nodes: Nodes, nodeId: string, writes: seq<bool>, now: nat)
    requires now / PERIOD < |writes| && writes[0]
    requires forall at :: 0 <= at < |writes| ==> !SixLost(writes, at)
    ensures SeenAt(nodes, nodeId, writes, now)
  {
    var n := now / PERIOD + 1;
    var front := writes[..n];
    var k := LastWritten(front);
    assert front[0];
    if n - k.value > 6 {
      assert forall j :: k.value < j < n ==> !front[j] && front[j] == writes[j];
      assert SixLost(writes, k.value + 1);
      assert false;
    }
    assert now < n * PERIOD;
  }

  /**
    * A node whose first write works is found at every moment up to its last tick if and only
    * if at most five heartbeats in a row fail.
    */
  lemma AlwaysSeenExactly(nodes: Nodes, nodeId: string, writes: seq<bool>)
    requires writes != [] && writes[0]
    ensures (forall now: nat :: now / PERIOD < |writes| ==> SeenAt(nodes, nodeId, writes, now)) <==>
            (forall at :: 0 <= at < |writes| ==> !SixLost(writes, at))
  {
    if forall at :: 0 <= at < |writes| ==> !SixLost(writes, at) {
      forall now: nat | now / PERIOD < |writes| ensures SeenAt(nodes, nodeId, writes, now) {
        FiveLostIsFine(nodes, nodeId, writes, now);
      }
    } else {
      var at :| 0 <= at < |writes| && SixLost(writes, at);
      SixLostHides(nodes, nodeId, writes, at);
      assert ((at + 5) * PERIOD + 1) / PERIOD == at + 5;
    }
  }

  /** A publish of a live volume to the node meets the node in the table at this time. */
  predicate Published(
    rows: seq<Row>, nodes: Nodes, recs: seq<PublishRecord>, req: PublishRequest, inserts: bool,
    writes: seq<bool>, now: nat)
    requires now / PERIOD < |writes|
  {
    var seen := Ticked(nodes, req.nodeId, writes[..now / PERIOD + 1]);
    PublishHandler(rows, seen, recs, req, now, inserts).1 != Err(NotFound)
  }

  /**
    * Publishing a live volume is never refused for a missing node if and only if the node never
    * loses six heartbeats in a row.
    */
  lemma PublishSeesNodeExactly(
    rows: seq<Row>, nodes: Nodes, recs: seq<PublishRecord>, req: PublishRequest, inserts: bool, writes: seq<bool>)
    requires req.volId != "" && req.nodeId != "" && req.hasCapability && FindId(rows, req.volId).Some?
    requires writes != [] && writes[0]
    ensures (forall now: nat :: now / PERIOD < |writes| ==>
               Published(rows, nodes, recs, req, inserts, writes, now)) <==>
            (forall at :: 0 <= at < |writes| ==> !SixLost(writes, at))
  {
    AlwaysSeenExactly(nodes, req.nodeId, writes);
    assert forall now: nat :: now / PERIOD < |writes| ==>
      (Published(rows, nodes, recs, req, inserts, writes, now) <==> SeenAt(nodes, req.nodeId, writes, now));
  }
}
