/** The leads job: stream, count, buffer, upsert and commit chunk by chunk (ingest/app/jobs.py). */
module LeadJob {
  import opened Wrappers
  import opened Sheets
  import opened Leads
  import opened LeadImport
  import opened RawRows
  import Sorting
  import Text

  /** The batch and the period a run stamps on every lead it writes. */
  datatype Stamp = Stamp(batch: string, period: Option<string>)

  // ----- what the counters mean -----

  function ToStored(lead: Lead, stamp: Stamp): Stored {
    Stored(lead, IsUnassigned(lead.smCode), stamp.batch, stamp.period)
  }

  function StoredOf(row: Row, stamp: Stamp): Option<Stored> {
    var lead := LeadOf(row);
    if lead.Some? then Some(ToStored(lead.value, stamp)) else None
  }

  /** The rows that name a lead, in order, as they are to be stored. */
  function LeadsIn(rows: seq<Row>, store: Row -> Option<Stored>): (out: seq<Stored>)
    ensures |out| <= |rows|
  {
    if rows == [] then []
    else
      var stored := store(rows[|rows| - 1]);
      var before := LeadsIn(rows[..|rows| - 1], store);
      if stored.Some? then before + [stored.value] else before
  }

  function Unassigned(leads: seq<Stored>): (n: nat)
    ensures n <= |leads|
  {
    if leads == [] then 0
    else Unassigned(leads[..|leads| - 1]) + if leads[|leads| - 1].unassigned then 1 else 0
  }

  /** The codes of the leads that somebody owns. */
  function Codes(leads: seq<Stored>): set<string> {
    if leads == [] then {}
    else
      var last := leads[|leads| - 1];
      Codes(leads[..|leads| - 1])
      + if last.unassigned || last.lead.smCode.None? then {} else {last.lead.smCode.value}
  }

  /** The unassigned leads that are counted are those stored as unassigned. */
  lemma {:induction false} UnassignedExactly(leads: seq<Stored>)
    ensures Unassigned(leads) == |set i: nat | i < |leads| && leads[i].unassigned|
  {
    var places := set i: nat | i < |leads| && leads[i].unassigned;
    if leads != [] {
      var n := |leads| - 1;
      UnassignedExactly(leads[..n]);
      var before := set i: nat | i < n && leads[..n][i].unassigned;
      assert places == if leads[n].unassigned then before + {n} else before;
    }
  }

  /** The codes that are counted: those of the leads that somebody owns. */
  lemma {:induction false} CodesExactly(leads: seq<Stored>, code: string)
    ensures code in Codes(leads) <==>
              exists i :: 0 <= i < |leads| && !leads[i].unassigned && leads[i].lead.smCode == Some(code)
  {
    if leads != [] {
      var init := leads[..|leads| - 1];
      CodesExactly(init, code);
      assert forall i :: 0 <= i < |init| ==> init[i] == leads[i];
    }
  }

  /** What one more lead adds to everything that is counted. */
  lemma OneMore(leads: seq<Stored>, row: Stored)
    ensures Keys(leads + [row]) == Keys(leads) + {row.Key()}
    ensures Unassigned(leads + [row]) == Unassigned(leads) + if row.unassigned then 1 else 0
    ensures Codes(leads + [row]) == Codes(leads) + (if row.unassigned || row.lead.smCode.None? then {} else {row.lead.smCode.value})
  {
    var more := leads + [row];
    assert more[..|more| - 1] == leads;
  }

  function RowsSent(statements: seq<seq<Stored>>): nat {
    if statements == [] then 0
    else RowsSent(statements[..|statements| - 1]) + |statements[|statements| - 1]|
  }

  /** Every statement sent has 1 to 1,000 rows, and no two of them for the same lead. */
  ghost predicate LegalStatements(statements: seq<seq<Stored>>) {
    statements == [] ||
    (var last := statements[|statements| - 1];
     && 0 < |last| <= 1_000 && DistinctLeads(last)
     && LegalStatements(statements[..|statements| - 1]))
  }

  // ----- the counters -----

  datatype Report = Report(
    totalRows: nat, written: nat, attributed: nat, unassigned: nat, skippedNoLeadNo: nat,
    duplicateLeadNos: nat, distinctSmCodes: nat, orphanSmCodes: seq<string>, orphanCount: nat)

  // ----- the codes without a roster row -----

  /** At most how many of them a report lists. */
  const LISTED: nat := 100

  /** The first codes in text order, up to the limit, each once: no code left out precedes a listed one. */
  ghost predicate ListsFirst(listed: seq<string>, codes: set<string>) {
    && |listed| == Min(100, |codes|)
    && (forall i, j :: 0 <= i < j < |listed| ==> listed[i] != listed[j] && Text.AtMost(listed[i], listed[j]))
    && (forall c :: c in listed ==> c in codes)
    && (forall c, d :: c in listed && d in codes && d !in listed ==> Text.AtMost(c, d))
  }

  lemma {:induction false} TextOrderIsTotal(a: string, b: string)
    ensures Text.AtMost(a, b) || Text.AtMost(b, a)
  {
    if a != [] && b != [] {
      TextOrderIsTotal(a[1..], b[1..]);
    }
  }

  lemma {:induction false} TextOrderIsTransitive(a: string, b: string, c: string)
    requires Text.AtMost(a, b) && Text.AtMost(b, c)
    ensures Text.AtMost(a, c)
  {
    if a != [] && a[0] == c[0] {
      TextOrderIsTransitive(a[1..], b[1..], c[1..]);
    }
  }

  lemma TextOrder()
    ensures Sorting.TotalPreorder(Text.AtMost)
  {
    forall a, b ensures Text.AtMost(a, b) || Text.AtMost(b, a) {
      TextOrderIsTotal(a, b);
    }
    forall a, b, c | Text.AtMost(a, b) && Text.AtMost(b, c) ensures Text.AtMost(a, c) {
      TextOrderIsTransitive(a, b, c);
    }
  }

  /** `sorted(codes)` of a set. */
  method SortedCodes(codes: set<string>) returns (sorted: seq<string>)
    ensures |sorted| == |codes| && multiset(sorted) == multiset(codes)
    ensures Sorting.InOrder(sorted, Text.AtMost)
  {
    hide Sorting.Insert, Sorting.TotalPreorder, Text.AtMost;
    TextOrder();
    var rest := codes;
    sorted := [];
    while rest != {}
      invariant |sorted| + |rest| == |codes|
      invariant multiset(sorted) + multiset(rest) == multiset(codes)
      invariant Sorting.InOrder(sorted, Text.AtMost)
      decreases |rest|
    {
      var c :| c in rest;
      Sorting.InsertAdds(c, sorted, Text.AtMost);
      Sorting.InsertKeepsOrder(c, sorted, Text.AtMost);
      assert multiset(rest) == multiset(rest - {c}) + multiset{c};
      ghost var before := sorted;
      sorted := Sorting.Insert(c, sorted, Text.AtMost);
      assert |multiset(sorted)| == |multiset(before)| + 1;
      rest := rest - {c};
    }
  }

  /** Cutting the sorted codes leaves the first of them. */
  lemma CutListsFirst(sorted: seq<string>, codes: set<string>)
    requires |sorted| == |codes| && multiset(sorted) == multiset(codes)
    requires Sorting.InOrder(sorted, Text.AtMost)
    ensures ListsFirst(sorted[..Min(LISTED, |sorted|)], codes)
  {
    hide Text.AtMost;
    var listed := sorted[..Min(LISTED, |sorted|)];
    forall i, j | 0 <= i < j < |sorted| ensures sorted[i] != sorted[j] {
      var others := sorted[..j] + sorted[j + 1..];
      Sorting.TakeOut(sorted, j);
      assert others[i] == sorted[i] && others[i] in multiset(others);
      assert sorted[j] in multiset(sorted) && multiset(codes)[sorted[j]] == 1;
    }
    forall c | c in listed ensures c in codes {
      assert c in multiset(sorted);
    }
    forall c, d | c in listed && d in codes && d !in listed ensures Text.AtMost(c, d) {
      assert d in multiset(sorted);
      var i :| 0 <= i < |listed| && listed[i] == c;
      var j :| 0 <= j < |sorted| && sorted[j] == d;
      assert forall k :: 0 <= k < |listed| ==> sorted[k] in listed;
    }
  }

  class LeadOutcome {
    var totalRows: nat
    var parsed: nat
    var skippedNoLeadNo: nat
    var unassigned: nat
    var duplicates: nat
    var seenLeadNos: set<string>
    var seenCodes: set<string>

    constructor ()
      ensures Counts(0, [])
    {
      totalRows, parsed, skippedNoLeadNo, unassigned, duplicates := 0, 0, 0, 0, 0;
      seenLeadNos, seenCodes := {}, {};
    }

    /** Every counter, after `n` rows of which `leads` named a lead. */
    ghost predicate Counts(n: nat, leads: seq<Stored>)
      reads this
    {
      && totalRows == n == parsed + skippedNoLeadNo
      && parsed == |leads|
      && unassigned == Unassigned(leads)
      && seenLeadNos == Keys(leads)
      && duplicates + |seenLeadNos| == |leads|
      && seenCodes == Codes(leads)
    }

    /** One streamed row: the lead it names, counted, or one more row without a lead number. */
    method Take(row: Row, store: Row -> Option<Stored>, ghost n: nat, ghost leads: seq<Stored>) returns (taken: Option<Stored>)
      requires Counts(n, leads)
      modifies this
      ensures taken == store(row)
      ensures Counts(n + 1, if taken.Some? then leads + [taken.value] else leads)
    {
      taken := store(row);
      if taken.None? {
        totalRows := totalRows + 1;
        skippedNoLeadNo := skippedNoLeadNo + 1;
        return;
      }
      Count(taken.value, n, leads);
    }

    method Count(row: Stored, ghost n: nat, ghost leads: seq<Stored>)
      requires Counts(n, leads)
      modifies this
      ensures Counts(n + 1, leads + [row])
    {
      hide Keys, Codes, Unassigned;
      totalRows := totalRows + 1;
      OneMore(leads, row);
      if row.Key() in seenLeadNos {
        duplicates := duplicates + 1;
      } else {
        seenLeadNos := seenLeadNos + {row.Key()};
      }
      if row.unassigned {
        unassigned := unassigned + 1;
      } else if row.lead.smCode.Some? {
        seenCodes := seenCodes + {row.lead.smCode.value};
      }
      parsed := parsed + 1;
    }

    method ToReport(written: nat, roster: set<string>, ghost rows: seq<Row>, ghost store: Row -> Option<Stored>) returns (report: Report)
      requires Counts(|rows|, LeadsIn(rows, store))
      requires |Keys(LeadsIn(rows, store))| <= written <= |LeadsIn(rows, store)|
      ensures Balanced(report, rows, store, roster) && report.written == written
    {
      var orphans := seenCodes - roster;
      var sorted := SortedCodes(orphans);
      CutListsFirst(sorted, orphans);
      report := Report(totalRows, written, parsed - unassigned, unassigned, skippedNoLeadNo,
                       duplicates, |seenCodes|, sorted[..Min(LISTED, |sorted|)], |orphans|);
    }
  }

  // ----- the job -----

  datatype JobResult = Succeeded(report: Report) | Failed(error: DbError) | Killed

  /** How many buffered rows make a chunk: the test follows the append, so never fewer than one. */
  function ChunkSize(chunk: nat): (size: nat)
    ensures size > 0
  {
    if chunk == 0 then 1 else chunk
  }

  ghost predicate Balanced(report: Report, rows: seq<Row>, store: Row -> Option<Stored>, roster: set<string>) {
    var leads := LeadsIn(rows, store);
    && report.totalRows == |rows|
    && report.totalRows == report.attributed + report.unassigned + report.skippedNoLeadNo
    && report.attributed + report.unassigned == |leads|
    && report.unassigned == Unassigned(leads)
    && |leads| - report.duplicateLeadNos == |Keys(leads)| <= report.written <= |leads|
    && report.distinctSmCodes == |Codes(leads)|
    && report.orphanCount == |Codes(leads) - roster|
    && ListsFirst(report.orphanSmCodes, Codes(leads) - roster)
  }

  /** One transaction: upsert the buffer and commit it. */
  method FlushChunk(conn: Connection, buffer: seq<Stored>) returns (r: Result<nat, DbError>)
    requires buffer != [] && conn.working == conn.committed && LegalStatements(conn.statements)
    modifies conn
    ensures LegalStatements(conn.statements)
    ensures r.Ok? <==> |buffer| <= MAX_ROWS_PER_STATEMENT
    ensures r.Ok? ==> conn.working == conn.committed == UpsertAll(old(conn.committed), buffer)
    ensures r.Ok? ==> r.value == |Keys(buffer)| && RowsSent(conn.statements) == RowsSent(old(conn.statements)) + r.value
    ensures r.Err? ==> conn.working == conn.committed == old(conn.committed)
    ensures r.Err? ==> conn.statements == old(conn.statements)
  {
    CollapsePreservesUpserts(conn.committed, buffer);
    ghost var before := conn.statements;
    r := UpsertLeads(buffer, conn);
    if r.Err? {
      return;
    }
    assert conn.statements[..|conn.statements| - 1] == before;
    conn.Commit();
  }

  /** A whole number of chunks. */
  predicate WholeChunks(n: nat, size: nat)
    requires size > 0
  {
    n == 0 || (n >= size && WholeChunks(n - size, size))
  }

  /** Of `leads`, `done` are committed and the rest are buffered; `written` is what their statements sent. */
  ghost predicate Progress(conn: Connection, start: Table, sentBefore: nat, done: seq<Stored>, written: nat)
    reads conn
  {
    && conn.working == conn.committed == UpsertAll(start, done)
    && LegalStatements(conn.statements)
    && |Keys(done)| <= written <= |done|
    && RowsSent(conn.statements) == sentBefore + written
  }

  lemma WrittenGrows(done: seq<Stored>, buffer: seq<Stored>, written: nat)
    requires |Keys(done)| <= written <= |done|
    ensures |Keys(done + buffer)| <= written + |Keys(buffer)| <= |done + buffer|
  {
    CollapsePreservesUpserts(map[], buffer);
    KeysAppend(done, buffer);
    UnionSize(Keys(done), Keys(buffer));
  }

  lemma UnionSize(a: set<string>, b: set<string>)
    ensures |a + b| <= |a| + |b|
  {
    assert |a + b| == |a| + |b - a| && (b - a) + (b * a) == b;
  }

  /** `written += upsert_leads(buffer, conn); conn.commit()`. */
  method FlushBuffer(conn: Connection, buffer: seq<Stored>, written: nat, ghost start: Table, ghost sentBefore: nat,
                     ghost done: seq<Stored>) returns (r: Result<nat, DbError>)
    requires buffer != [] && Progress(conn, start, sentBefore, done, written)
    modifies conn
    ensures r.Ok? <==> |buffer| <= MAX_ROWS_PER_STATEMENT
    ensures r.Ok? ==> Progress(conn, start, sentBefore, done + buffer, r.value)
    ensures r.Err? ==> Progress(conn, start, sentBefore, done, written)
  {
    var sent := FlushChunk(conn, buffer);
    if sent.Err? {
      return sent;
    }
    UpsertAllAppend(start, done, buffer);
    WrittenGrows(done, buffer, written);
    r := Ok(written + sent.value);
  }

  lemma {:induction false} PrefixLeads(rows: seq<Row>, i: nat, store: Row -> Option<Stored>)
    requires i <= |rows|
    ensures LeadsIn(rows[..i], store) <= LeadsIn(rows, store)
  {
    if i < |rows| {
      PrefixLeads(rows[..|rows| - 1], i, store);
      assert rows[..|rows| - 1][..i] == rows[..i];
    } else {
      assert rows[..i] == rows;
    }
  }

  /** What a stretch of the stream leaves behind: the rows not yet flushed and the rows sent so far. */
  datatype Stretch = Stretch(buffer: seq<Stored>, written: nat)

  /** The loop's invariant: after `n` rows naming `leads`, `done` are committed and the rest are in the buffer. */
  ghost predicate Streaming(conn: Connection, outcome: LeadOutcome, n: nat, leads: seq<Stored>, s: Stretch,
                            chunk: nat, start: Table, sentBefore: nat, done: seq<Stored>)
    reads conn, outcome
  {
    && outcome.Counts(n, leads)
    && leads == done + s.buffer
    && Progress(conn, start, sentBefore, done, s.written)
    && |s.buffer| < ChunkSize(chunk) && WholeChunks(|done|, ChunkSize(chunk))
    && (chunk > MAX_ROWS_PER_STATEMENT ==> done == [] && s.written == 0)
  }

  /** One turn of the loop: count the row, buffer its lead, flush when the buffer is full. */
  method Feed(conn: Connection, outcome: LeadOutcome, row: Row, store: Row -> Option<Stored>, s: Stretch, chunk: nat,
              ghost n: nat, ghost leads: seq<Stored>, ghost start: Table, ghost sentBefore: nat, ghost done: seq<Stored>)
    returns (r: Result<Stretch, DbError>, ghost done': seq<Stored>)
    requires Streaming(conn, outcome, n, leads, s, chunk, start, sentBefore, done)
    modifies conn, outcome
    ensures var leads' := if store(row).Some? then leads + [store(row).value] else leads;
            && (r.Ok? ==> Streaming(conn, outcome, n + 1, leads', r.value, chunk, start, sentBefore, done'))
            && (r.Err? ==> MAX_ROWS_PER_STATEMENT < chunk && MAX_ROWS_PER_STATEMENT < |leads'|)
    ensures r.Err? ==> Progress(conn, start, sentBefore, [], 0)
  {
    hide LeadOutcome.Counts, Progress;
    done' := done;
    var taken := outcome.Take(row, store, n, leads);
    if taken.None? {
      return Ok(s), done;
    }
    var buffer := s.buffer + [taken.value];
    assert leads + [taken.value] == done + buffer;
    if |buffer| < chunk {
      return Ok(Stretch(buffer, s.written)), done;
    }
    var sent := FlushBuffer(conn, buffer, s.written, start, sentBefore, done);
    if sent.Err? {
      return Err(sent.error), done;
    }
    done' := done + buffer;
    assert |done'| - ChunkSize(chunk) == |done|;
    r := Ok(Stretch([], sent.value));
  }

  /** The streaming loop. */
  method StreamRows(conn: Connection, outcome: LeadOutcome, rows: seq<Row>, store: Row -> Option<Stored>, chunk: nat,
                    ghost start: Table, ghost sentBefore: nat) returns (r: Result<Stretch, DbError>, ghost done: seq<Stored>)
    requires outcome.Counts(0, []) && Progress(conn, start, sentBefore, [], 0)
    modifies conn, outcome
    ensures r.Ok? ==> Streaming(conn, outcome, |rows|, LeadsIn(rows, store), r.value, chunk, start, sentBefore, done)
    ensures r.Err? ==> Progress(conn, start, sentBefore, [], 0)
    ensures r.Err? ==> MAX_ROWS_PER_STATEMENT < chunk && MAX_ROWS_PER_STATEMENT < |LeadsIn(rows, store)|
  {
    hide *;
    var s := Stretch([], 0);
    done := [];
    StartStreaming(conn, outcome, rows, store, chunk, start, sentBefore);
    for i := 0 to |rows|
      invariant Streaming(conn, outcome, i, LeadsIn(rows[..i], store), s, chunk, start, sentBefore, done)
    {
      NextLead(rows, i, store);
      PrefixLeads(rows, i + 1, store);
      var fed;
      fed, done := Feed(conn, outcome, rows[i], store, s, chunk, i, LeadsIn(rows[..i], store), start, sentBefore, done);
      if fed.Err? {
        return Err(fed.error), done;
      }
      s := fed.value;
    }
    assert rows[..|rows|] == rows;
    r := Ok(s);
  }

  lemma NextLead(rows: seq<Row>, i: nat, store: Row -> Option<Stored>)
    requires i < |rows|
    ensures LeadsIn(rows[..i + 1], store) ==
            if store(rows[i]).Some? then LeadsIn(rows[..i], store) + [store(rows[i]).value] else LeadsIn(rows[..i], store)
  {
    assert rows[..i + 1][..i] == rows[..i];
  }

  lemma StartStreaming(conn: Connection, outcome: LeadOutcome, rows: seq<Row>, store: Row -> Option<Stored>,
                       chunk: nat, start: Table, sentBefore: nat)
    requires outcome.Counts(0, []) && Progress(conn, start, sentBefore, [], 0)
    ensures Streaming(conn, outcome, 0, LeadsIn(rows[..0], store), Stretch([], 0), chunk, start, sentBefore, [])
  {
    assert [] + Stretch([], 0).buffer == [];
  }

  /**
   * Streams the rows into the table. `killAt` is where the process dies: before reading that row, or before
   * the last flush when it is the number of rows; past that it lives. `durable` is how many leads were committed.
   */
  method RunLeads(conn: Connection, rows: seq<Row>, store: Row -> Option<Stored>, roster: set<string>, chunk: nat, killAt: nat)
    returns (r: JobResult, ghost durable: nat)
    requires conn.working == conn.committed && LegalStatements(conn.statements)
    modifies conn
    ensures conn.working == conn.committed && LegalStatements(conn.statements)
    ensures durable <= |LeadsIn(rows, store)|
    ensures conn.committed == UpsertAll(old(conn.committed), LeadsIn(rows, store)[..durable])
    ensures r.Succeeded? ==> killAt > |rows| && durable == |LeadsIn(rows, store)|
    ensures r.Succeeded? ==> Balanced(r.report, rows, store, roster)
    ensures r.Succeeded? ==> RowsSent(conn.statements) == RowsSent(old(conn.statements)) + r.report.written
    ensures r.Killed? ==> killAt <= |rows| && WholeChunks(durable, ChunkSize(chunk))
    ensures r.Killed? ==> 0 <= |LeadsIn(rows[..killAt], store)| - durable < ChunkSize(chunk)
    ensures r.Failed? ==> durable == 0 && MAX_ROWS_PER_STATEMENT < chunk && MAX_ROWS_PER_STATEMENT < |LeadsIn(rows, store)|
  {
    hide LeadOutcome.Counts, Balanced, RowsSent, LegalStatements, WholeChunks, LeadsIn;
    var outcome := new LeadOutcome();
    ghost var start, sentBefore := conn.committed, RowsSent(conn.statements);
    ghost var done;
    var read := if killAt <= |rows| then rows[..killAt] else rows;
    PrefixLeads(rows, |read|, store);
    assert Keys([]) == {};
    var streamed;
    streamed, done := StreamRows(conn, outcome, read, store, chunk, start, sentBefore);
    if streamed.Err? {
      return Failed(streamed.error), 0;
    }
    assert LeadsIn(rows, store)[..|done|] == done;
    if killAt <= |rows| {
      conn.Close();
      return Killed, |done|;
    }
    r := Finish(conn, outcome, rows, store, roster, streamed.value, chunk, start, sentBefore, done);
    durable := if r.Succeeded? then |LeadsIn(rows, store)| else 0;
    assert LeadsIn(rows, store)[..|LeadsIn(rows, store)|] == LeadsIn(rows, store);
  }

  /** The last, partial flush and the report. */
  method Finish(conn: Connection, outcome: LeadOutcome, rows: seq<Row>, store: Row -> Option<Stored>, roster: set<string>, s: Stretch,
                chunk: nat, ghost start: Table, ghost sentBefore: nat, ghost done: seq<Stored>) returns (r: JobResult)
    requires Streaming(conn, outcome, |rows|, LeadsIn(rows, store), s, chunk, start, sentBefore, done)
    modifies conn
    ensures conn.working == conn.committed && LegalStatements(conn.statements)
    ensures r.Succeeded? ==> conn.committed == UpsertAll(start, LeadsIn(rows, store))
    ensures r.Succeeded? ==> Balanced(r.report, rows, store, roster)
    ensures r.Succeeded? ==> RowsSent(conn.statements) == sentBefore + r.report.written
    ensures !r.Succeeded? ==> r.Failed? && conn.committed == start
    ensures !r.Succeeded? ==> MAX_ROWS_PER_STATEMENT < chunk && MAX_ROWS_PER_STATEMENT < |LeadsIn(rows, store)|
  {
    var written := s.written;
    if s.buffer != [] {
      var sent := FlushBuffer(conn, s.buffer, written, start, sentBefore, done);
      if sent.Err? {
        return Failed(sent.error);
      }
      written := sent.value;
    } else {
      assert done == LeadsIn(rows, store);
    }
    var report := outcome.ToReport(written, roster, rows, store);
    r := Succeeded(report);
  }

  /** Any number of interrupted runs and then a whole one leave exactly what one upsert per row would. */
  method RunUntilDone(conn: Connection, rows: seq<Row>, store: Row -> Option<Stored>, roster: set<string>, chunk: nat, kills: seq<nat>)
    returns (r: JobResult)
    requires conn.working == conn.committed && LegalStatements(conn.statements)
    requires chunk <= MAX_ROWS_PER_STATEMENT
    modifies conn
    ensures r.Succeeded? && Balanced(r.report, rows, store, roster)
    ensures conn.committed == UpsertAll(old(conn.committed), LeadsIn(rows, store))
    ensures LegalStatements(conn.statements)
  {
    ghost var start, leads := conn.committed, LeadsIn(rows, store);
    for k := 0 to |kills|
      invariant conn.working == conn.committed && LegalStatements(conn.statements)
      invariant UpsertAll(conn.committed, leads) == UpsertAll(start, leads)
    {
      ghost var before := conn.committed;
      var _, durable := RunLeads(conn, rows, store, roster, chunk, kills[k]);
      RerunAbsorbsPrefix(before, leads, durable);
    }
    ghost var durable;
    r, durable := RunLeads(conn, rows, store, roster, chunk, |rows| + 1);
    assert leads[..|leads|] == leads;
  }

  function Storer(stamp: Stamp): Row -> Option<Stored> {
    row => StoredOf(row, stamp)
  }

  // ----- what the table holds in the end -----

  /** How a row is stored: its lead, stamped, and unassigned when it has no code or the pool's. */
  ghost predicate Filed(row: Row, stamp: Stamp, s: Stored) {
    && LeadOf(row) == Some(s.lead) && s.batch == stamp.batch && s.period == stamp.period
    && (s.unassigned <==> s.lead.smCode.None? || s.lead.smCode == Some("111222-UN"))
  }

  predicate NamesLead(row: Row, k: string) {
    LeadOf(row).Some? && LeadOf(row).value.leadNo == k
  }

  predicate NamedFrom(rows: seq<Row>, i: nat, k: string) {
    exists j :: i <= j < |rows| && NamesLead(rows[j], k)
  }

  /** Each lead number holds the lead of the last row that names it, and one that no row names what it held. */
  ghost predicate HoldsLast(start: Table, rows: seq<Row>, stamp: Stamp, table: Table) {
    && (forall i, k :: 0 <= i < |rows| && NamesLead(rows[i], k) && !NamedFrom(rows, i + 1, k) ==>
          k in table && Filed(rows[i], stamp, table[k]))
    && (forall k :: !NamedFrom(rows, 0, k) ==>
          (k in table <==> k in start) && (k in start ==> table[k] == start[k]))
  }

  lemma CodesAreCapitals(row: Row)
    ensures LeadOf(row).Some? && LeadOf(row).value.smCode.Some? ==>
              Text.Upper(LeadOf(row).value.smCode.value) == LeadOf(row).value.smCode.value
  {
    hide MappedOf, ExtraOf, NormalizeText, NormalizeIdentifier, ExcelSerialToDay;
  }

  lemma StoredIsFiled(row: Row, stamp: Stamp)
    ensures Storer(stamp)(row).Some? <==> LeadOf(row).Some?
    ensures LeadOf(row).Some? ==>
              Filed(row, stamp, Storer(stamp)(row).value) && NamesLead(row, Storer(stamp)(row).value.Key())
  {
    hide LeadOf;
    CodesAreCapitals(row);
  }

  lemma {:induction false} UpsertsHoldLast(start: Table, rows: seq<Row>, stamp: Stamp)
    ensures HoldsLast(start, rows, stamp, UpsertAll(start, LeadsIn(rows, Storer(stamp))))
  {
    hide Filed, NamesLead, HoldsLast, Storer;
    if rows == [] {
      NothingHeld(start, stamp);
    } else {
      var n := |rows| - 1;
      UpsertsHoldLast(start, rows[..n], stamp);
      StoredIsFiled(rows[n], stamp);
      var before := UpsertAll(start, LeadsIn(rows[..n], Storer(stamp)));
      OneMoreHeld(start, rows, stamp, before, Storer(stamp)(rows[n]));
      var stored := Storer(stamp)(rows[n]);
      if stored.Some? {
        var leads := LeadsIn(rows[..n], Storer(stamp)) + [stored.value];
        assert leads[..|leads| - 1] == LeadsIn(rows[..n], Storer(stamp));
      }
    }
  }

  lemma NothingHeld(start: Table, stamp: Stamp)
    ensures HoldsLast(start, [], stamp, start)
  {
  }

  lemma NamesOne(row: Row, k: string, stored: Option<Stored>)
    requires NamesLead(row, k) && (stored.Some? <==> LeadOf(row).Some?)
    requires stored.Some? ==> NamesLead(row, stored.value.Key())
    ensures stored.Some? && stored.value.Key() == k
  {
  }

  lemma OneMoreHeld(start: Table, rows: seq<Row>, stamp: Stamp, before: Table, stored: Option<Stored>)
    requires rows != [] && HoldsLast(start, rows[..|rows| - 1], stamp, before)
    requires var last := rows[|rows| - 1];
             && (stored.Some? <==> LeadOf(last).Some?)
             && (stored.Some? ==> Filed(last, stamp, stored.value) && NamesLead(last, stored.value.Key()))
    ensures HoldsLast(start, rows, stamp, if stored.Some? then Upsert(before, stored.value) else before)
  {
    hide Filed, LeadOf, NamesLead, NamedFrom;
    var n := |rows| - 1;
    var after := if stored.Some? then Upsert(before, stored.value) else before;
    var init := rows[..n];
    forall i: nat, k | i < |rows| && NamesLead(rows[i], k) && !NamedFrom(rows, i + 1, k)
      ensures k in after && Filed(rows[i], stamp, after[k])
    {
      NamedBefore(rows, i + 1, k);
      if i < n {
        assert init[i] == rows[i];
        OnlyLead(rows[n], k, stored);
      } else {
        NamesOne(rows[n], k, stored);
      }
    }
    forall k | !NamedFrom(rows, 0, k) ensures (k in after <==> k in start) && (k in start ==> after[k] == start[k]) {
      NamedBefore(rows, 0, k);
      OnlyLead(rows[n], k, stored);
    }
  }

  lemma NamedBefore(rows: seq<Row>, i: nat, k: string)
    requires rows != []
    ensures i < |rows| ==> (NamedFrom(rows, i, k) <==> NamedFrom(rows[..|rows| - 1], i, k) || NamesLead(rows[|rows| - 1], k))
  {
    hide NamesLead;
    if j: nat :| i <= j < |rows| - 1 && NamesLead(rows[j], k) {
      assert NamesLead(rows[..|rows| - 1][j], k);
    }
  }

  /** A row that does not name a lead does not write it, and one that does names no other. */
  lemma OnlyLead(row: Row, k: string, stored: Option<Stored>)
    requires stored.Some? ==> NamesLead(row, stored.value.Key())
    ensures !NamesLead(row, k) && stored.Some? ==> stored.value.Key() != k
  {
  }

  /** The whole import, sheet records to table: the narrow two-pass stream, the chunks and the interruptions do not show. */
  method ImportLeads(conn: Connection, items: seq<Item>, declared: nat, stamp: Stamp, roster: set<string>, kills: seq<nat>)
    returns (r: JobResult)
    requires conn.working == conn.committed && LegalStatements(conn.statements)
    modifies conn
    ensures r.Succeeded? && Balanced(r.report, OnePass(items, declared, 1), Storer(stamp), roster)
    ensures conn.committed == UpsertAll(old(conn.committed), LeadsIn(OnePass(items, declared, 1), Storer(stamp)))
    ensures exists rows :: InSheetOrder(Read(items, declared), 1, rows) && HoldsLast(old(conn.committed), rows, stamp, conn.committed)
    ensures LegalStatements(conn.statements)
  {
    hide Read, InSheetOrder, HoldsLast;
    UpsertsHoldLast(conn.committed, OnePass(items, declared, 1), stamp);
    var rows := StreamLeads(items, declared, 1);
    r := RunUntilDone(conn, rows, Storer(stamp), roster, LEAD_CHUNK, kills);
  }
}
