/** The chunked, crash-prone import of leads and the plain upsert it stands for (ingest/app/jobs.py, ingest/app/db.py). */
module LeadImport {
  import opened Wrappers
  import opened Sheets
  import opened Leads
  import OrderedDict
  import JsSet

  /** A row of the lead table, its timestamps aside. */
  datatype Stored = Stored(lead: Lead, unassigned: bool, batch: string, period: Option<string>) {
    function Key(): string { lead.leadNo }
  }

  type Table = map<string, Stored>

  // ----- the simple thing: one upsert per row -----

  function Upsert(t: Table, row: Stored): Table {
    t[row.Key() := row]
  }

  /** Every row in turn; a later row for the same lead replaces the earlier one. */
  function UpsertAll(t: Table, rows: seq<Stored>): Table {
    if rows == [] then t else Upsert(UpsertAll(t, rows[..|rows| - 1]), rows[|rows| - 1])
  }

  /** The lead numbers the rows name. */
  function Keys(rows: seq<Stored>): set<string> {
    if rows == [] then {} else Keys(rows[..|rows| - 1]) + {rows[|rows| - 1].Key()}
  }

  lemma {:induction false} KeysAppend(rows: seq<Stored>, more: seq<Stored>)
    ensures Keys(rows + more) == Keys(rows) + Keys(more)
  {
    var all := rows + more;
    if more == [] {
      assert all == rows;
    } else {
      KeysAppend(rows, more[..|more| - 1]);
      assert all[..|all| - 1] == rows + more[..|more| - 1];
    }
  }

  lemma {:induction false} KeysMembers(rows: seq<Stored>, k: string)
    ensures k in Keys(rows) <==> exists i :: 0 <= i < |rows| && rows[i].Key() == k
  {
    if rows != [] {
      KeysMembers(rows[..|rows| - 1], k);
    }
  }

  /** After the upserts a lead in the rows holds the last row that named it. */
  lemma {:induction false} LastRowWins(t: Table, rows: seq<Stored>, i: nat)
    requires i < |rows|
    requires forall j :: i < j < |rows| ==> rows[j].Key() != rows[i].Key()
    ensures rows[i].Key() in UpsertAll(t, rows) && UpsertAll(t, rows)[rows[i].Key()] == rows[i]
  {
    if i < |rows| - 1 {
      LastRowWins(t, rows[..|rows| - 1], i);
    }
  }

  /** A lead the rows never name is as it was. */
  lemma {:induction false} OthersUntouched(t: Table, rows: seq<Stored>, k: string)
    requires k !in Keys(rows)
    ensures k in UpsertAll(t, rows) <==> k in t
    ensures k in t ==> UpsertAll(t, rows)[k] == t[k]
  {
    if rows != [] {
      var n := |rows| - 1;
      OthersUntouched(t, rows[..n], k);
    }
  }

  lemma {:induction false} UpsertAllIsOverlay(t: Table, rows: seq<Stored>)
    ensures UpsertAll(t, rows) == t + UpsertAll(map[], rows)
    ensures UpsertAll(map[], rows).Keys == Keys(rows)
  {
    if rows != [] {
      var n := |rows| - 1;
      UpsertAllIsOverlay(t, rows[..n]);
    }
  }

  lemma {:induction false} UpsertAllAppend(t: Table, a: seq<Stored>, b: seq<Stored>)
    ensures UpsertAll(t, a + b) == UpsertAll(UpsertAll(t, a), b)
  {
    if b == [] {
      assert a + b == a;
    } else {
      UpsertAllAppend(t, a, b[..|b| - 1]);
      assert (a + b)[..|a + b| - 1] == a + b[..|b| - 1];
    }
  }

  /** A run that stopped early leaves nothing a full run does not overwrite. */
  lemma RerunAbsorbsPrefix(t: Table, rows: seq<Stored>, n: nat)
    requires n <= |rows|
    ensures UpsertAll(UpsertAll(t, rows[..n]), rows) == UpsertAll(t, rows)
  {
    UpsertAllIsOverlay(UpsertAll(t, rows[..n]), rows);
    UpsertAllIsOverlay(t, rows);
    UpsertAllIsOverlay(t, rows[..n]);
    KeysAppend(rows[..n], rows[n..]);
    assert rows[..n] + rows[n..] == rows;
  }

  // ----- collapsing a chunk -----

  function Collapsed(rows: seq<Stored>): OrderedDict.Dict<Stored> {
    if rows == [] then []
    else OrderedDict.Put(Collapsed(rows[..|rows| - 1]), rows[|rows| - 1].Key(), rows[|rows| - 1])
  }

  function Values(d: OrderedDict.Dict<Stored>): (vs: seq<Stored>)
    ensures |vs| == |d|
  {
    seq(|d|, i requires 0 <= i < |d| => d[i].1)
  }

  /** The lead numbers of rows, in order. */
  function NumbersOf(rows: seq<Stored>): (keys: seq<string>)
    ensures |keys| == |rows|
  {
    seq(|rows|, i requires 0 <= i < |rows| => rows[i].Key())
  }

  lemma {:induction false} CollapsedKeys(rows: seq<Stored>)
    ensures OrderedDict.KeysOf(Collapsed(rows)) == JsSet.Distinct(NumbersOf(rows))
  {
    if rows != [] {
      var n := |rows| - 1;
      CollapsedKeys(rows[..n]);
      OrderedDict.PutKeepsOrder(Collapsed(rows[..n]), rows[n].Key(), rows[n]);
      assert NumbersOf(rows)[..n] == NumbersOf(rows[..n]);
    }
  }

  lemma {:induction false} CollapsedHoldsLast(rows: seq<Stored>, i: nat)
    requires i < |rows| && forall j :: i < j < |rows| ==> rows[j].Key() != rows[i].Key()
    ensures OrderedDict.Get(Collapsed(rows), rows[i].Key()) == Some(rows[i])
  {
    var n := |rows| - 1;
    OrderedDict.PutThenGet(Collapsed(rows[..n]), rows[n].Key(), rows[n], rows[i].Key());
    if i < n {
      CollapsedHoldsLast(rows[..n], i);
    }
  }

  /** One row a lead number, in the order the numbers first occur, and for each the last row that has it. */
  lemma CollapseKeepsFirstOrderLastRow(rows: seq<Stored>)
    ensures NumbersOf(Values(Collapsed(rows))) == JsSet.Distinct(NumbersOf(rows))
    ensures forall i :: 0 <= i < |rows| && (forall j :: i < j < |rows| ==> rows[j].Key() != rows[i].Key()) ==>
              rows[i] in Values(Collapsed(rows))
  {
    var d := Collapsed(rows);
    CollapsedKeys(rows);
    CollapsedIsKeyed(rows);
    assert NumbersOf(Values(d)) == OrderedDict.KeysOf(d);
    forall i: nat | i < |rows| && (forall j :: i < j < |rows| ==> rows[j].Key() != rows[i].Key())
      ensures rows[i] in Values(d)
    {
      CollapsedHoldsLast(rows, i);
      assert Values(d)[OrderedDict.IndexOf(d, rows[i].Key())] == rows[i];
    }
  }

  method CollapseDuplicateLeadNos(rows: seq<Stored>) returns (out: seq<Stored>)
    ensures out == Values(Collapsed(rows))
    ensures NumbersOf(out) == JsSet.Distinct(NumbersOf(rows))
    ensures forall i :: 0 <= i < |rows| && (forall j :: i < j < |rows| ==> rows[j].Key() != rows[i].Key()) ==> rows[i] in out
  {
    CollapseKeepsFirstOrderLastRow(rows);
    var byLeadNo: OrderedDict.Dict<Stored> := [];
    for i := 0 to |rows|
      invariant byLeadNo == Collapsed(rows[..i])
    {
      assert rows[..i + 1][..i] == rows[..i];
      byLeadNo := OrderedDict.Put(byLeadNo, rows[i].Key(), rows[i]);
    }
    assert rows[..|rows|] == rows;
    out := Values(byLeadNo);
  }

  ghost predicate DistinctLeads(rows: seq<Stored>) {
    forall i, j :: 0 <= i < j < |rows| ==> rows[i].Key() != rows[j].Key()
  }

  lemma {:induction false} CollapsedIsKeyed(rows: seq<Stored>)
    ensures OrderedDict.Distinct(Collapsed(rows))
    ensures forall i :: 0 <= i < |Collapsed(rows)| ==> Collapsed(rows)[i].0 == Collapsed(rows)[i].1.Key()
    ensures OrderedDict.AsMap(Collapsed(rows)) == UpsertAll(map[], rows)
    ensures |Collapsed(rows)| <= |rows|
  {
    if rows != [] {
      var n := |rows| - 1;
      CollapsedIsKeyed(rows[..n]);
      OrderedDict.PutIsUpdate(Collapsed(rows[..n]), rows[n].Key(), rows[n]);
    }
  }

  lemma {:induction false} AsMapIsUpserts(d: OrderedDict.Dict<Stored>)
    requires forall i :: 0 <= i < |d| ==> d[i].0 == d[i].1.Key()
    ensures OrderedDict.AsMap(d) == UpsertAll(map[], Values(d))
  {
    if d != [] {
      AsMapIsUpserts(d[..|d| - 1]);
      assert Values(d)[..|d| - 1] == Values(d[..|d| - 1]);
    }
  }

  /** A chunk collapsed to one row per lead writes what the whole chunk would have. */
  lemma CollapsePreservesUpserts(t: Table, rows: seq<Stored>)
    ensures DistinctLeads(Values(Collapsed(rows)))
    ensures UpsertAll(t, Values(Collapsed(rows))) == UpsertAll(t, rows)
    ensures |Values(Collapsed(rows))| == |Keys(rows)| <= |rows|
  {
    var out := Values(Collapsed(rows));
    CollapsedIsKeyed(rows);
    AsMapIsUpserts(Collapsed(rows));
    UpsertAllIsOverlay(t, rows);
    UpsertAllIsOverlay(t, out);
    DistinctCount(out);
  }

  lemma {:induction false} DistinctCount(rows: seq<Stored>)
    requires DistinctLeads(rows)
    ensures |Keys(rows)| == |rows|
  {
    if rows != [] {
      var n := |rows| - 1;
      DistinctCount(rows[..n]);
      KeysMembers(rows[..n], rows[n].Key());
    }
  }

  // ----- the database -----

  const MAX_ROWS_PER_STATEMENT := 1000
  const LEAD_CHUNK := 1000

  datatype DbError = TooManyRows | RowASecondTime

  /** One connection: what other sessions see, what this transaction sees, and every statement it sent. */
  class Connection {
    var committed: Table
    var working: Table
    ghost var statements: seq<seq<Stored>>

    /** `insert … on conflict (lead_no) do update`, which refuses to touch a row twice. */
    method Execute(rows: seq<Stored>) returns (r: Result<nat, DbError>)
      modifies this`working, this`statements
      ensures statements == old(statements) + [rows]
      ensures DistinctLeads(rows) ==> r == Ok(|rows|) && working == UpsertAll(old(working), rows)
      ensures !DistinctLeads(rows) ==> r == Err(RowASecondTime) && working == old(working)
    {
      statements := statements + [rows];
      var proposed: set<string> := {};
      var t := working;
      for i := 0 to |rows|
        invariant working == old(working) && statements == old(statements) + [rows]
        invariant proposed == Keys(rows[..i])
        invariant DistinctLeads(rows[..i])
        invariant t == UpsertAll(working, rows[..i])
      {
        assert rows[..i + 1][..i] == rows[..i];
        KeysMembers(rows[..i], rows[i].Key());
        if rows[i].Key() in proposed {
          return Err(RowASecondTime);
        }
        proposed := proposed + {rows[i].Key()};
        t := t[rows[i].Key() := rows[i]];
      }
      assert rows[..|rows|] == rows;
      working := t;
      r := Ok(|rows|);
    }

    method Commit()
      modifies this`committed
      ensures committed == working
    {
      committed := working;
    }

    /** Closing an interrupted connection loses what it had not committed. */
    method Close()
      modifies this`working
      ensures working == committed
    {
      working := committed;
    }
  }

  method UpsertLeads(rows: seq<Stored>, conn: Connection) returns (r: Result<nat, DbError>)
    modifies conn`working, conn`statements
    ensures |rows| > 1_000 ==>
              r == Err(TooManyRows) && conn.working == old(conn.working) && conn.statements == old(conn.statements)
    ensures |rows| <= 1_000 ==>
              r == Ok(|Keys(rows)|) && conn.working == UpsertAll(old(conn.working), rows)
    ensures 0 < |rows| <= MAX_ROWS_PER_STATEMENT ==>
              conn.statements == old(conn.statements) + [Values(Collapsed(rows))]
    ensures rows == [] ==> conn.statements == old(conn.statements)
  {
    if rows == [] {
      assert Keys(rows) == {};
      return Ok(0);
    }
    if |rows| > MAX_ROWS_PER_STATEMENT {
      return Err(TooManyRows);
    }
    var collapsed := CollapseDuplicateLeadNos(rows);
    CollapsePreservesUpserts(conn.working, rows);
    r := conn.Execute(collapsed);
  }
}
