/** `ListVolumes` as a function of the scanned volumes, and what following its tokens yields. */
module Paging {
  import opened Prelude
  import opened Catalogue
  import opened StepMachine
  import opened Invariants
  import opened Records
  import opened Volumes
  import opened Tokens

  /** An empty `next` is the response without a token. */
  datatype ListResponse<T> = ListResponse(entries: seq<T>, next: string)

  function StartOf(token: string): Option<int> {
    if token == "" then Some(0) else ParseInt32(token)
  }

  /** `ListVolumes` over the volumes in scan order; no limit is written as the largest 32-bit integer. */
  function ListHandler<T>(l: seq<T>, token: string, maxEntries: int): Reply<ListResponse<T>> {
    var start := StartOf(token);
    if start.None? then Err(Aborted)
    else
      var m := if maxEntries == 0 then INT32_MAX else maxEntries;
      var next := start.value + m;
      Ok(ListResponse(Page(l, start.value, m),
                      if m != INT32_MAX && next < |l| && next != -1 then FormatInt(next) else ""))
  }

  /** One call: the page from the start, and the token of the next page while volumes are left. */
  lemma OnePage<T>(l: seq<T>, token: string, m: int, start: int)
    requires 0 < m <= INT32_MAX && |l| <= INT32_MAX && StartOf(token) == Some(start) && 0 <= start <= |l|
    ensures var r := ListHandler(l, token, m); var end := if start + m < |l| then start + m else |l|;
            && r.Ok? && r.value.entries == l[start..end]
            && (start + m < |l| ==> r.value.next != "" && StartOf(r.value.next) == Some(end))
            && (start + m >= |l| ==> r.value.next == "")
  {
    if start + m < |l| {
      TokenRoundTrip(start + m);
    }
  }

  /** Following the tokens: everything listed from a token on, and the number of calls made. */
  ghost function Follow<T>(l: seq<T>, token: string, m: int): (seq<T>, nat)
    requires 0 < m <= INT32_MAX && |l| <= INT32_MAX
    requires StartOf(token).Some? && 0 <= StartOf(token).value <= |l|
    decreases |l| - StartOf(token).value
  {
    OnePage(l, token, m, StartOf(token).value);
    var r := ListHandler(l, token, m).value;
    if r.next == "" then (r.entries, 1)
    else
      var rest := Follow(l, r.next, m);
      (r.entries + rest.0, rest.1 + 1)
  }

  /** The number of calls is max(1, ceil(n/m)): the pages before the last are not enough, all of them are. */
  predicate CallsNeeded(calls: nat, n: nat, m: nat) {
    if n == 0 then calls == 1 else calls >= 1 && (calls - 1) * m < n <= calls * m
  }

  lemma OneMoreCall(calls: nat, n: nat, m: nat)
    requires 0 < m < n && CallsNeeded(calls, n - m, m)
    ensures CallsNeeded(calls + 1, n, m)
  {
    assert (calls + 1) * m == calls * m + m;
    assert calls * m == (calls - 1) * m + m;
  }

  lemma Cut<T>(l: seq<T>, a: nat, b: nat)
    requires a <= b <= |l|
    ensures l[a..b] + l[b..] == l[a..]
  {
  }

  lemma {:induction false} FollowFrom<T>(l: seq<T>, token: string, m: int)
    requires 0 < m <= INT32_MAX && |l| <= INT32_MAX
    requires StartOf(token).Some? && 0 <= StartOf(token).value <= |l|
    ensures var (entries, calls) := Follow(l, token, m); var start := StartOf(token).value;
            entries == l[start..] && CallsNeeded(calls, |l| - start, m)
    decreases |l| - StartOf(token).value
  {
    var start := StartOf(token).value;
    OnePage(l, token, m, start);
    if start + m < |l| {
      var next := ListHandler(l, token, m).value.next;
      FollowFrom(l, next, m);
      OneMoreCall(Follow(l, next, m).1, |l| - start, m);
      Cut(l, start, start + m);
    } else {
      assert l[start..|l|] == l[start..];
    }
  }

  /**
    * Following the tokens from the empty one over an unchanged table lists every live volume
    * exactly once, in scan order, in max(1, ceil(n/m)) calls.
    */
  lemma ListingIsComplete<T>(l: seq<T>, m: int)
    requires 0 < m <= INT32_MAX && |l| <= INT32_MAX
    ensures Follow(l, "", m).0 == l && CallsNeeded(Follow(l, "", m).1, |l|, m)
  {
    FollowFrom(l, "", m);
    assert l[0..] == l;
  }

  /** A page of details is the details of the page. */
  lemma PageOfDetails(vols: seq<Row>, disk: Disk, recs: seq<PublishRecord>, bad: set<Path>, offset: int, limit: int)
    ensures Page(DetailsOf(vols, disk, recs, bad), offset, limit) ==
            DetailsOf(Page(vols, offset, limit), disk, recs, bad)
  {
  }

  lemma {:induction false} LiveRowsOnce(rows: seq<Row>, used: set<string>)
    requires RowsInv(rows, used)
    ensures forall i, j :: 0 <= i < j < |LiveRows(rows)| ==> LiveRows(rows)[i].id != LiveRows(rows)[j].id
  {
    if rows != [] {
      var n := |rows| - 1;
      LiveRowsOnce(rows[..n], used);
      var before := LiveRows(rows[..n]);
      forall i | 0 <= i < |before| ensures before[i].id != rows[n].id {
        assert before[i] in rows[..n];
      }
    }
  }

  /** The details list each live volume once, and nothing else. */
  ghost predicate ListsOnce(listed: seq<Detail>, s: Store, recs: seq<PublishRecord>, bad: set<Path>) {
    && (forall i, j :: 0 <= i < j < |listed| ==> listed[i].volumeId != listed[j].volumeId)
    && (forall d :: d in listed ==> Describes(d, s, recs, bad))
    && (forall k :: 0 <= k < |s.rows| && IsLive(s.rows[k]) ==> DetailOf(s.rows[k], s.disk, recs, bad) in listed)
  }

  ghost predicate Describes(d: Detail, s: Store, recs: seq<PublishRecord>, bad: set<Path>) {
    exists k :: 0 <= k < |s.rows| && IsLive(s.rows[k]) && d == DetailOf(s.rows[k], s.disk, recs, bad)
  }

  lemma DetailsListOnce(s: Store, used: set<string>, recs: seq<PublishRecord>, bad: set<Path>)
    requires RowsInv(s.rows, used)
    ensures ListsOnce(DetailsOf(LiveRows(s.rows), s.disk, recs, bad), s, recs, bad)
  {
    var rows := LiveRows(s.rows);
    LiveRowsOnce(s.rows, used);
    var details := DetailsOf(rows, s.disk, recs, bad);
    forall d | d in details ensures Describes(d, s, recs, bad) {
      var i :| 0 <= i < |details| && details[i] == d;
      assert rows[i] in s.rows;
    }
    forall k | 0 <= k < |s.rows| && IsLive(s.rows[k]) ensures DetailOf(s.rows[k], s.disk, recs, bad) in details {
      var i :| 0 <= i < |rows| && rows[i] == s.rows[k];
      assert details[i] == DetailOf(rows[i], s.disk, recs, bad);
    }
  }

  /** In every reachable state, following the tokens names each live volume once, and nothing else. */
  lemma ListingNamesLiveVolumes(w: World, recs: seq<PublishRecord>, bad: set<Path>, m: int)
    requires Reachable(w) && 0 < m <= INT32_MAX && |LiveRows(w.s.rows)| <= INT32_MAX
    ensures ListsOnce(Follow(DetailsOf(LiveRows(w.s.rows), w.s.disk, recs, bad), "", m).0, w.s, recs, bad)
  {
    ReachableInv(w);
    DetailsListOnce(w.s, w.used, recs, bad);
    ListingIsComplete(DetailsOf(LiveRows(w.s.rows), w.s.disk, recs, bad), m);
  }
}
