/**
  * What the unique indexes give by themselves: no id and no path is used twice, whatever ids
  * are drawn, and whatever else happens to the tree and the symlinks between two requests.
  */
module TableRuns {
  import opened Prelude
  import opened Capacity
  import opened Catalogue
  import opened RunProperties
  import opened Volumes
  import opened Handlers

  /** The two unique columns, over live and deleted rows. */
  ghost predicate UniqueColumns(rows: seq<Row>) {
    forall i, j :: 0 <= i < j < |rows| ==> rows[i].id != rows[j].id && rows[i].path != rows[j].path
  }

  /** One table follows another by some request, whatever tree, symlinks and drawn id it meets. */
  ghost predicate Follows(rows: seq<Row>, rows': seq<Row>) {
    exists sv: Server, op: Op ::
      (op.Create? && op.uuid.Some? ==> |op.uuid.value| >= 6) && sv.s.rows == rows && Serve(sv, op).s.rows == rows'
  }

  ghost predicate TableHistory(tables: seq<seq<Row>>) {
    && tables != [] && tables[0] == []
    && forall i :: 0 <= i < |tables| - 1 ==> Follows(tables[i], tables[i + 1])
  }

  lemma CreateKeepsUnique(s: Store, row: Row, env: CreateEnv)
    requires |row.id| >= 6 && UniqueColumns(s.rows)
    ensures var rows := CreateSpec(s, row, env).0.rows; UniqueColumns(rows) && RowsEvolve(s.rows, rows)
  {
    var rows := CreateSpec(s, row, env).0.rows;
    if rows != s.rows {
      assert rows == s.rows + [row] && !Clashes(s.rows, row);
    }
  }

  lemma ServeKeepsUnique(sv: Server, op: Op)
    requires op.Create? && op.uuid.Some? ==> |op.uuid.value| >= 6
    requires UniqueColumns(sv.s.rows)
    ensures UniqueColumns(Serve(sv, op).s.rows) && RowsEvolve(sv.s.rows, Serve(sv, op).s.rows)
  {
    if op.Create? && Draws(sv.s, op.req, op.uuid) {
      CreateKeepsUnique(sv.s, NewRow(op.req, op.uuid.value, Admit(op.req).value), op.cenv);
    } else if !op.Create? {
      OneRowChanged(sv, op);
    } else {
      assert Serve(sv, op).s.rows == sv.s.rows;
    }
  }

  /** A delete or an expand changes at most the deleted flag or the capacity of one row. */
  lemma OneRowChanged(sv: Server, op: Op)
    requires !op.Create? && UniqueColumns(sv.s.rows)
    ensures var rows := Serve(sv, op).s.rows; UniqueColumns(rows) && RowsEvolve(sv.s.rows, rows)
  {
    var rows, rows' := sv.s.rows, Serve(sv, op).s.rows;
    if rows' == rows {
      assert RowsEvolve(rows, rows);
    } else if op.Delete? {
      var i := FindId(rows, op.id).value;
      RowEvolvesHere(rows, i, rows[i].(deleted := true));
    } else {
      var i := FindId(rows, op.eid).value;
      var capacity := FixCapacity(op.requiredBytes.value);
      assert rows' == Resized(rows, i, capacity) && rows[i].capacity < capacity;
      RowEvolvesHere(rows, i, rows[i].(capacity := capacity));
    }
  }

  lemma RowEvolvesHere(rows: seq<Row>, i: nat, r: Row)
    requires UniqueColumns(rows) && i < |rows| && RowEvolves(rows[i], r)
    ensures UniqueColumns(rows[i := r]) && RowsEvolve(rows, rows[i := r])
  {
  }

  lemma RowsEvolveOn(a: seq<Row>, b: seq<Row>, c: seq<Row>)
    requires RowsEvolve(a, b) && RowsEvolve(b, c)
    ensures RowsEvolve(a, c)
  {
    forall i | 0 <= i < |a| ensures RowEvolves(a[i], c[i]) {
      assert RowEvolves(a[i], b[i]) && RowEvolves(b[i], c[i]);
    }
  }

  lemma {:induction false} HistoryUnique(tables: seq<seq<Row>>, m: nat, n: nat)
    requires TableHistory(tables) && m <= n < |tables|
    ensures UniqueColumns(tables[n]) && RowsEvolve(tables[m], tables[n])
    decreases n
  {
    if n > 0 {
      HistoryUnique(tables, if m < n then m else n - 1, n - 1);
      assert Follows(tables[n - 1], tables[n]);
      var sv: Server, op: Op :|
        && (op.Create? && op.uuid.Some? ==> |op.uuid.value| >= 6)
        && sv.s.rows == tables[n - 1] && Serve(sv, op).s.rows == tables[n];
      ServeKeepsUnique(sv, op);
      if m < n {
        RowsEvolveOn(tables[m], tables[n - 1], tables[n]);
      }
    }
  }

  ghost predicate SameRow(a: Row, b: Row) {
    a.id == b.id || a.path == b.path
  }

  /** In every such history an id or a path once used belongs to one row for ever, and a deleted row stays deleted. */
  lemma NeverReused(tables: seq<seq<Row>>, m: nat, n: nat)
    requires TableHistory(tables) && m <= n < |tables|
    ensures forall i, j :: 0 <= i < |tables[m]| && 0 <= j < |tables[n]| ==>
              (SameRow(tables[m][i], tables[n][j]) ==> i == j)
    ensures forall i :: 0 <= i < |tables[m]| && !IsLive(tables[m][i]) ==> i < |tables[n]| && !IsLive(tables[n][i])
  {
    HistoryUnique(tables, m, n);
    forall i | 0 <= i < |tables[m]|
      ensures tables[n][i].id == tables[m][i].id && tables[n][i].path == tables[m][i].path
      ensures !IsLive(tables[m][i]) ==> !IsLive(tables[n][i])
    {
      assert RowEvolves(tables[m][i], tables[n][i]);
    }
  }

  /** A create that draws the id of a row, live or deleted, is refused and adds nothing. */
  lemma UsedIdRefused(s: Store, req: CreateRequest, uuid: Option<string>, env: CreateEnv, i: nat)
    requires Draws(s, req, uuid) && |uuid.value| >= 6 && i < |s.rows| && s.rows[i].id == uuid.value
    ensures var (after, reply) := CreateHandler(s, req, uuid, env);
            reply == Err(Internal) && after.rows == s.rows && after.links == s.links
  {
    assert Clashes(s.rows, NewRow(req, uuid.value, Admit(req).value));
  }
}
