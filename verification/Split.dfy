/** Writing one sheet to a file of its own, and what reading that file back gives (ingest/app/split.py). */
module Split {
  import opened Wrappers
  import opened Cells
  import opened Sheets
  import Columns
  import Decimal
  import OrderedDict
  import RawRows
  import Text

  type Grid = seq<seq<Cell>>

  // ----- writing -----

  /** Code points XML 1.0 cannot carry. */
  predicate XmlIllegal(c: char) {
    c <= '\U{8}' || c == '\U{B}' || c == '\U{C}' || '\U{E}' <= c <= '\U{1F}'
  }

  predicate Clean(s: string) {
    forall i :: 0 <= i < |s| ==> !XmlIllegal(s[i])
  }

  function Sanitize(s: string): string {
    if s == [] then [] else (if XmlIllegal(s[0]) then [] else [s[0]]) + Sanitize(s[1..])
  }

  lemma {:induction false} SanitizeKeepsExactlyClean(s: string)
    ensures |Sanitize(s)| <= |s|
    ensures Sanitize(s) == s <==> Clean(s)
  {
    if s != [] {
      SanitizeKeepsExactlyClean(s[1..]);
      assert s == [s[0]] + s[1..];
      if Clean(s[1..]) && !XmlIllegal(s[0]) {
        assert Clean(s);
      }
    }
  }

  lemma {:induction false} SanitizeAppends(a: string, b: string)
    ensures Sanitize(a + b) == Sanitize(a) + Sanitize(b)
  {
    if a == [] {
      assert a + b == b;
    } else {
      SanitizeAppends(a[1..], b);
      assert (a + b)[1..] == a[1..] + b;
      Text.Regroup(if XmlIllegal(a[0]) then [] else [a[0]], Sanitize(a[1..]), Sanitize(b));
    }
  }

  /** The characters that survive are the tab, the two line ends and everything from the blank on, in their order. */
  lemma SanitizeIsByCharacter(a: string, c: char, b: string)
    ensures Sanitize(a + [c] + b) ==
            Sanitize(a) + (if c == '\t' || c == '\n' || c == '\r' || c >= ' ' then [c] else []) + Sanitize(b)
    ensures Sanitize("") == ""
  {
    assert [c][1..] == [];
    assert Sanitize([c]) == if XmlIllegal(c) then [] else [c];
    SanitizeAppends(a + [c], b);
    SanitizeAppends(a, [c]);
    hide Sanitize;
  }

  function WrittenCell(c: Cell): Cell {
    if c.Str? then Str(Sanitize(c.text)) else c
  }

  function WrittenRow(values: seq<Cell>): (r: seq<Cell>)
    ensures |r| == |values|
  {
    seq(|values|, i requires 0 <= i < |values| => WrittenCell(values[i]))
  }

  /** `[row.get(name) for name in columns]`. */
  function ValuesOf(columns: seq<string>, row: Row): (values: seq<Cell>)
    ensures |values| == |columns|
  {
    seq(|columns|, i requires 0 <= i < |columns| =>
      var v := OrderedDict.Get(row, columns[i]);
      if v.Some? then v.value else Nil)
  }

  function FileBody(columns: seq<string>, rows: seq<Row>): (body: Grid)
    ensures |body| == |rows|
  {
    seq(|rows|, i requires 0 <= i < |rows| => WrittenRow(ValuesOf(columns, rows[i])))
  }

  function File(columns: seq<string>, rows: seq<Row>): Grid {
    [WrittenRow(Columns.AsCells(columns))] + FileBody(columns, rows)
  }

  /** The file has the names in its first row and under each name, row for row, the cell the row holds there, or nothing. */
  lemma FileExactly(columns: seq<string>, rows: seq<Row>)
    ensures var file := File(columns, rows);
            && |file| == |rows| + 1 && (forall i :: 0 <= i < |file| ==> |file[i]| == |columns|)
            && (forall j :: 0 <= j < |columns| ==> file[0][j] == Str(Sanitize(columns[j])))
            && forall i, j :: 0 <= i < |rows| && 0 <= j < |columns| ==>
                 var value := OrderedDict.Get(rows[i], columns[j]);
                 file[i + 1][j] == if value.None? then Nil
                                   else if value.value.Str? then Str(Sanitize(value.value.text)) else value.value
  {
    hide OrderedDict.Get, Sanitize;
    var file := File(columns, rows);
    forall i | 0 <= i < |rows| ensures file[i + 1] == WrittenRow(ValuesOf(columns, rows[i])) {
      assert file[i + 1] == FileBody(columns, rows)[i];
    }
  }

  /** Streams the header and then each row to the file; returns how many body rows were written. */
  method Write(columns: seq<string>, rows: seq<Row>) returns (file: Grid, written: nat)
    ensures file == File(columns, rows)
    ensures written == |rows|
  {
    file := [WrittenRow(Columns.AsCells(columns))];
    written := 0;
    for i := 0 to |rows|
      invariant written == i
      invariant file == File(columns, rows[..i])
    {
      file := file + [WrittenRow(ValuesOf(columns, rows[i]))];
      written := written + 1;
      assert FileBody(columns, rows[..i + 1]) == FileBody(columns, rows[..i]) + [WrittenRow(ValuesOf(columns, rows[i]))];
    }
    assert rows[..|rows|] == rows;
  }

  // ----- reading back -----

  /** The grid reader hands over a rectangle in which an empty cell is an empty string. */
  function ReadCell(row: seq<Cell>, i: nat): Cell {
    if i < |row| && row[i] != Nil then row[i] else Str("")
  }

  function ReadRow(row: seq<Cell>, width: nat): (r: seq<Cell>)
    ensures |r| == width
  {
    seq(width, i requires 0 <= i < width => ReadCell(row, i))
  }

  function Widest(grid: Grid): (w: nat)
    ensures forall i :: 0 <= i < |grid| ==> |grid[i]| <= w
    ensures grid != [] ==> exists i :: 0 <= i < |grid| && |grid[i]| == w
  {
    if grid == [] then 0
    else
      var w := Widest(grid[1..]);
      if |grid[0]| > w then |grid[0]| else w
  }

  function ReadBack(file: Grid): (grid: Grid)
    ensures |grid| == |file|
  {
    seq(|file|, i requires 0 <= i < |file| => ReadRow(file[i], Widest(file)))
  }

  // ----- the round trip -----

  /** A body row as the grid reader gives it: no absent cells, and no text XML would refuse. */
  ghost predicate Readable(cells: seq<Cell>) {
    forall i :: 0 <= i < |cells| ==> cells[i] != Nil && (cells[i].Str? ==> Clean(cells[i].text))
  }

  /** The row reaches past its header and the last cell the header does name is blank. */
  predicate LosesTail(columns: seq<string>, cells: seq<Cell>)
    requires columns != []
  {
    |Trimmed(cells)| > |columns| && Blank(cells[|columns| - 1])
  }

  lemma {:induction false} KeyedIsZip(columns: seq<string>, cells: seq<Cell>, n: nat)
    requires Columns.Distinct(columns) && n <= |columns| && n <= |cells|
    ensures |Keyed(columns, cells, n)| == n
    ensures forall i :: 0 <= i < n ==> Keyed(columns, cells, n)[i] == (columns[i], cells[i])
  {
    if n > 0 {
      hide OrderedDict.Put;
      KeyedIsZip(columns, cells, n - 1);
      OrderedDict.PutAbsent(Keyed(columns, cells, n - 1), columns[n - 1], cells[n - 1]);
    }
  }

  function KeyedRow(columns: seq<string>, cells: seq<Cell>): Row {
    var t := Trimmed(cells);
    Keyed(columns, t, Min(|columns|, |t|))
  }

  /** A written and re-read row holds the original's named cells, then empty strings. */
  lemma RowComesBack(columns: seq<string>, cells: seq<Cell>)
    requires Columns.Distinct(columns) && Readable(cells)
    ensures var t := Trimmed(cells);
            var m := Min(|columns|, |t|);
            ReadRow(WrittenRow(ValuesOf(columns, KeyedRow(columns, cells))), |columns|)
            == cells[..m] + seq(|columns| - m, _ => Str(""))
  {
    var t := Trimmed(cells);
    var m := Min(|columns|, |t|);
    var row := KeyedRow(columns, cells);
    KeyedIsZip(columns, t, m);
    var back := ReadRow(WrittenRow(ValuesOf(columns, row)), |columns|);
    forall i | 0 <= i < |columns| ensures back[i] == if i < m then cells[i] else Str("") {
      var at := OrderedDict.IndexOf(row, columns[i]);
      if i < m {
        assert at == i;
        if cells[i].Str? {
          SanitizeKeepsExactlyClean(cells[i].text);
        }
      } else {
        assert at == |row|;
      }
    }
  }

  lemma EmptyIsBlank(n: nat, i: nat)
    requires i < n
    ensures Blank(seq(n, _ => Str(""))[i])
  {
  }

  /** Empty strings after a populated cell are trimmed off again. */
  lemma PaddingIsTrimmed(kept: seq<Cell>, n: nat)
    requires kept != [] && !Blank(kept[|kept| - 1])
    ensures Trimmed(kept + seq(n, _ => Str(""))) == kept
  {
    hide Blank;
    var padded := kept + seq(n, _ => Str(""));
    forall i | |kept| <= i < |padded| ensures Blank(padded[i]) {
      EmptyIsBlank(n, i - |kept|);
    }
    TrimmedUnique(padded, kept);
  }

  /** Re-keyed, that row is the original again unless it lost its tail. */
  lemma RowRoundTrip(columns: seq<string>, cells: seq<Cell>)
    requires columns != [] && Columns.Distinct(columns) && Readable(cells)
    requires Trimmed(cells) != [] && !LosesTail(columns, cells)
    ensures var back := ReadRow(WrittenRow(ValuesOf(columns, KeyedRow(columns, cells))), |columns|);
            Trimmed(back) != [] && KeyedRow(columns, back) == KeyedRow(columns, cells)
  {
    hide ReadRow, WrittenRow, ValuesOf, Keyed, Blank, Readable, Columns.Distinct;
    var t := Trimmed(cells);
    var m := Min(|columns|, |t|);
    RowComesBack(columns, cells);
    assert t[..m] == cells[..m];
    PaddingIsTrimmed(cells[..m], |columns| - m);
    assert cells[..m][..m] == t[..m];
    KeyedByPrefix(columns, t, cells[..m], m);
  }

  /** The dict of a row depends only on the cells it keys. */
  lemma KeyedByPrefix(columns: seq<string>, a: seq<Cell>, b: seq<Cell>, n: nat)
    requires Columns.Distinct(columns) && n <= |columns| && n <= |a| && n <= |b| && a[..n] == b[..n]
    ensures Keyed(columns, a, n) == Keyed(columns, b, n)
  {
    hide Keyed;
    KeyedIsZip(columns, a, n);
    KeyedIsZip(columns, b, n);
    assert forall i :: 0 <= i < n ==> a[i] == a[..n][i] == b[i];
  }

  function Returned(columns: seq<string>, rows: seq<Row>): Grid {
    seq(|rows|, i requires 0 <= i < |rows| => ReadRow(WrittenRow(ValuesOf(columns, rows[i])), |columns|))
  }

  lemma {:induction false} BodyRoundTrip(columns: seq<string>, body: Grid)
    requires columns != [] && Columns.Distinct(columns)
    requires forall i :: 0 <= i < |body| ==> Readable(body[i]) && !LosesTail(columns, body[i])
    ensures GridRows(columns, Returned(columns, GridRows(columns, body))) == GridRows(columns, body)
  {
    hide Keyed, ReadRow, WrittenRow, ValuesOf, LosesTail, Trimmed;
    if body != [] {
      BodyRoundTrip(columns, body[1..]);
      var rest := GridRows(columns, body[1..]);
      var back := Returned(columns, GridRows(columns, body));
      if Trimmed(body[0]) == [] {
        assert GridRows(columns, body) == rest;
      } else {
        RowRoundTrip(columns, body[0]);
        assert GridRows(columns, body) == [KeyedRow(columns, body[0])] + rest;
        assert back[1..] == Returned(columns, rest);
      }
    }
  }

  /** A kept row's last keyed cell is populated when the row stays within its header. */
  predicate EndsBlank(row: Row) {
    row == [] || Blank(row[|row| - 1].1)
  }

  lemma {:induction false} NarrowRowsEndPopulated(columns: seq<string>, body: Grid)
    requires columns != [] && Columns.Distinct(columns)
    requires forall i :: 0 <= i < |body| ==> |body[i]| == |columns|
    ensures forall r :: r in GridRows(columns, body) ==> !EndsBlank(r)
  {
    if body != [] {
      NarrowRowsEndPopulated(columns, body[1..]);
      var t := Trimmed(body[0]);
      KeyedIsZip(columns, t, Min(|columns|, |t|));
    }
  }

  lemma {:induction false} LostTailEndsBlank(columns: seq<string>, body: Grid, k: nat)
    requires columns != [] && Columns.Distinct(columns)
    requires k < |body| && LosesTail(columns, body[k])
    ensures exists r :: r in GridRows(columns, body) && EndsBlank(r)
  {
    if k > 0 {
      LostTailEndsBlank(columns, body[1..], k - 1);
      var r :| r in GridRows(columns, body[1..]) && EndsBlank(r);
      assert r in GridRows(columns, body);
    } else {
      KeyedIsZip(columns, Trimmed(body[0]), |columns|);
      assert KeyedRow(columns, body[0]) in GridRows(columns, body);
    }
  }

  /** The header survives the trip exactly when its names are distinct. */
  lemma HeaderRoundTrip(grid: Grid)
    requires grid != []
    requires forall i :: 0 <= i < |GridColumns(grid, 1)| ==> Clean(GridColumns(grid, 1)[i])
    ensures var columns := GridColumns(grid, 1);
            var rows := GridRows(columns, GridBody(grid, 1));
            GridColumns(ReadBack(File(columns, rows)), 1) == columns <==> Columns.Distinct(columns)
  {
    var columns := GridColumns(grid, 1);
    var rows := GridRows(columns, GridBody(grid, 1));
    var back := ReadBack(File(columns, rows));
    assert Widest(File(columns, rows)) == |columns|;
    forall i | 0 <= i < |columns| ensures back[0][i] == Str(columns[i]) {
      SanitizeKeepsExactlyClean(columns[i]);
    }
    assert back[0] == Columns.AsCells(columns);
    Columns.RenamingIsIdentity(grid[0]);
  }

  lemma BodyComesBackExactly(columns: seq<string>, body: Grid)
    requires columns != [] && Columns.Distinct(columns)
    requires forall i :: 0 <= i < |body| ==> Readable(body[i])
    ensures GridRows(columns, Returned(columns, GridRows(columns, body))) == GridRows(columns, body) <==>
            forall i :: 0 <= i < |body| ==> !LosesTail(columns, body[i])
  {
    hide LosesTail, GridRows, Columns.Distinct, WrittenRow, ValuesOf;
    if k :| 0 <= k < |body| && LosesTail(columns, body[k]) {
      LostTailEndsBlank(columns, body, k);
      NarrowRowsEndPopulated(columns, Returned(columns, GridRows(columns, body)));
    } else {
      BodyRoundTrip(columns, body);
    }
  }

  /** Splitting a sheet out and reading it back gives the same rows exactly when no row loses its tail. */
  lemma SplitRoundTrip(grid: Grid)
    requires grid != [] && GridColumns(grid, 1) != [] && Columns.Distinct(GridColumns(grid, 1))
    requires forall i :: 0 <= i < |GridColumns(grid, 1)| ==> Clean(GridColumns(grid, 1)[i])
    requires forall i :: 1 <= i < |grid| ==> Readable(grid[i])
    ensures var columns := GridColumns(grid, 1);
            var body := GridBody(grid, 1);
            var back := ReadBack(File(columns, GridRows(columns, body)));
            && GridColumns(back, 1) == columns
            && (GridRows(columns, GridBody(back, 1)) == GridRows(columns, body) <==>
                forall i :: 0 <= i < |body| ==> !LosesTail(columns, body[i]))
  {
    var columns := GridColumns(grid, 1);
    var body := GridBody(grid, 1);
    assert forall i :: 0 <= i < |body| ==> body[i] == grid[i + 1];
    hide *;
    HeaderRoundTrip(grid);
    FileComesBack(columns, GridRows(columns, body));
    BodyComesBackExactly(columns, body);
  }

  /** Every row of the file is as wide as its header, so that is the width it is read back at. */
  lemma FileComesBack(columns: seq<string>, rows: seq<Row>)
    ensures GridBody(ReadBack(File(columns, rows)), 1) == Returned(columns, rows)
  {
    hide ReadRow, WrittenRow, ValuesOf;
    FileIsEven(columns, rows);
    hide Widest;
  }

  lemma FileIsEven(columns: seq<string>, rows: seq<Row>)
    ensures Widest(File(columns, rows)) == |columns|
  {
    hide WrittenRow, ValuesOf;
    var file := File(columns, rows);
    forall i | 0 <= i < |file| ensures |file[i]| == |columns| {
      if i > 0 {
        assert file[i] == FileBody(columns, rows)[i - 1];
      }
    }
  }

  // ----- deciding what is a table -----

  /** The placeholder a blank header gets, recognised by its text. */
  predicate Unnamed(name: string) {
    && |name| > 9
    && name[..8] == "(column "
    && name[|name| - 1] == ')'
    && forall i :: 8 <= i < |name| - 1 ==> Decimal.IsDigit(name[i])
  }

  function NamedColumns(columns: seq<string>): (n: nat)
    ensures n <= |columns|
  {
    if columns == [] then 0
    else NamedColumns(columns[..|columns| - 1]) + if Unnamed(columns[|columns| - 1]) then 0 else 1
  }

  lemma OneParenthesis(name: string, i: nat)
    requires 0 < i < |name| && name[i] == '('
    ensures !Unnamed(name)
  {
    var prefix := "(column ";
    assert forall j :: 0 < j < |prefix| ==> prefix[j] != '(';
    if i < 8 <= |name| {
      assert name[..8][i] == '(';
    }
  }

  /** A column reads as unnamed exactly when its header was blank or itself reads like a placeholder, once. */
  lemma UnnamedExactly(hs: seq<string>, i: nat)
    requires i < |hs|
    ensures Unnamed(Columns.Name(hs, i)) <==>
              hs[i] == "" || (Columns.Count(hs, hs[i]) == 1 && Unnamed(hs[i]))
  {
    var name := Columns.Name(hs, i);
    Columns.OccurrenceInRange(hs, i);
    if hs[i] == "" {
      var d := Decimal.Render(i + 1);
      assert forall j :: 8 <= j < |name| - 1 ==> name[j] == d[j - 8];
    } else if Columns.Count(hs, hs[i]) > 1 {
      Columns.LastParenthesis(hs[i], Columns.Occurrence(hs, i));
      OneParenthesis(name, |hs[i]| + 1);
    }
  }

  predicate HeadsATable(columns: seq<string>) {
    columns != [] && NamedColumns(columns) * 2 > |columns|
  }

  /** Digits in parentheses after the word `column`. */
  ghost predicate ColumnNumber(name: string) {
    exists d :: d != "" && Decimal.AllDigits(d) && name == "(column " + d + ")"
  }

  lemma PlaceholderExactly(name: string)
    ensures Unnamed(name) <==> ColumnNumber(name)
  {
    if Unnamed(name) {
      var d := name[8..|name| - 1];
      assert d != "" && Decimal.AllDigits(d) && name == "(column " + d + ")";
    }
    if d :| d != "" && Decimal.AllDigits(d) && name == "(column " + d + ")" {
      assert forall i :: 8 <= i < |name| - 1 ==> name[i] == d[i - 8];
    }
  }

  ghost function NamedPlaces(columns: seq<string>): set<nat> {
    set i: nat | i < |columns| && !ColumnNumber(columns[i])
  }

  /** A header is a table's exactly when more than half of its columns have a name that is no column number. */
  lemma {:induction false} TableExactly(columns: seq<string>)
    ensures HeadsATable(columns) <==> 2 * |NamedPlaces(columns)| > |columns|
    ensures NamedColumns(columns) == |NamedPlaces(columns)|
  {
    hide Unnamed, ColumnNumber;
    if columns != [] {
      var n := |columns| - 1;
      TableExactly(columns[..n]);
      PlaceholderExactly(columns[n]);
      var before, all := NamedPlaces(columns[..n]), NamedPlaces(columns);
      forall i: nat ensures i in all <==> i in before || (i == n && !ColumnNumber(columns[n])) {
        assert i < n ==> columns[..n][i] == columns[i];
      }
      assert all == if ColumnNumber(columns[n]) then before else before + {n};
    }
  }

  // ----- one sheet -----

  datatype Refusal =
    | NoHeader
    | BlankFirstRow
    | NotATable(named: nat, of: nat, rows: nat)
    | NoData
    | Raised(message: string)

  /** An exception of the libraries: while the grid or the header is read, or while rows are streamed and saved. */
  datatype Fault = Reading(message: string) | Writing(message: string)

  /** `file` stands for the path: what was written, when something was. */
  datatype SheetOutcome = SheetOutcome(columns: nat, rows: nat, file: Option<Grid>, reason: Option<Refusal>, failed: bool)

  function LeadColumns(items: seq<RawRows.Item>, declared: nat): seq<string> {
    var wide := RawRows.Read(items, declared);
    if wide == [] then [] else HeaderOf(wide[0]).columns
  }

  lemma {:induction false} SegmentNumbers(items: seq<RawRows.Item>, num: int, open: Option<seq<RawRows.Item>>)
    requires open.Some? ==> num >= 0
    ensures forall i :: 0 <= i < |RawRows.Segments(items, num, open)| ==> RawRows.Segments(items, num, open)[i].num >= 0
  {
    if items != [] && !items[0].EndOfData? {
      if items[0].RowStart? && items[0].r != num {
        SegmentNumbers(items[1..], items[0].r, Some([]));
      } else if items[0].Value? && open.Some? {
        SegmentNumbers(items[1..], num, Some(open.value + [items[0]]));
      } else {
        SegmentNumbers(items[1..], num, open);
      }
    }
  }

  /** The header written first names the same columns the streamed rows are keyed by. */
  lemma LeadHeaderMatchesStream(items: seq<RawRows.Item>, declared: nat)
    ensures var wide := RawRows.Read(items, declared);
            wide != [] ==> OnePass(items, declared, 1) == Body(wide, 1, HeaderOf(wide[0]))
    ensures RawRows.Read(items, declared) != [] ==>
              LeadColumns(items, declared) == HeaderOf(RawRows.Read(items, declared)[0]).columns
    ensures RawRows.Read(items, declared) == [] ==> OnePass(items, declared, 1) == [] && LeadColumns(items, declared) == []
    ensures InSheetOrder(RawRows.Read(items, declared), 1, OnePass(items, declared, 1))
  {
    SegmentNumbers(items, -1, None);
    OnePassInOrder(items, declared, 1);
  }

  /** Whether a sheet of these columns and rows is one to write. */
  predicate Writable(lead: bool, columns: seq<string>, rows: seq<Row>) {
    if lead then columns != [] else HeadsATable(columns) && rows != []
  }

  /**
   * Every sheet is written or explained, never both and never neither. An exception is reported as
   * a failure wherever it strikes, leaves no file, and strikes a write only where there is one.
   */
  method SplitSheet(sheetName: string, grid: Grid, items: seq<RawRows.Item>, declared: nat, fault: Option<Fault>)
    returns (outcome: SheetOutcome)
    ensures outcome.file.None? <==> outcome.reason.Some?
    ensures outcome.failed <==> outcome.reason.Some? && outcome.reason.value.Raised?
    ensures outcome.failed ==> fault.Some? && outcome.reason == Some(Raised(fault.value.message))
    ensures var lead := Text.Lower(Strip(sheetName)) == "lead dump";
            var columns := if lead then LeadColumns(items, declared) else GridColumns(grid, 1);
            var rows := if lead then OnePass(items, declared, 1) else GridRows(columns, GridBody(grid, 1));
            && (outcome.file.Some? <==> Writable(lead, columns, rows) && fault.None?)
            && (outcome.failed <==> fault.Some? && (fault.value.Reading? || Writable(lead, columns, rows)))
            && (outcome.file.Some? ==> outcome.file.value == File(columns, rows))
            && (outcome.file.Some? ==> outcome.rows == |rows| && outcome.columns == |columns|)
            && (!lead && !(fault.Some? && fault.value.Reading?) ==> outcome.rows == |rows| && outcome.columns == |columns|)
            && (lead && outcome.file.None? ==> outcome.rows == 0)
            && (outcome.file.None? && !outcome.failed ==>
                  outcome.reason == Some(
                    if lead then NoHeader
                    else if columns == [] then BlankFirstRow
                    else if !HeadsATable(columns) then NotATable(NamedColumns(columns), |columns|, |rows|)
                    else NoData))
            && (fault.Some? && fault.value.Reading? ==> outcome.rows == outcome.columns == 0)
  {
    hide InSheetOrder, KeyedFrom, Columns.Names, Columns.Headers, File, Text.Lower, Strip;
    if fault.Some? && fault.value.Reading? {
      return SheetOutcome(0, 0, None, Some(Raised(fault.value.message)), true);
    }
    var lead := Text.Lower(Strip(sheetName)) == LEAD_SHEET;
    if lead {
      var columns := LeadColumns(items, declared);
      if columns == [] {
        return SheetOutcome(0, 0, None, Some(NoHeader), false);
      }
      if fault.Some? {
        return SheetOutcome(|columns|, 0, None, Some(Raised(fault.value.message)), true);
      }
      var rows := StreamLeads(items, declared, 1);
      var file, written := Write(columns, rows);
      return SheetOutcome(|columns|, written, Some(file), None, false);
    }
    var r := ReadSheet(grid, sheetName, 1, None);
    var parsed := r.value;
    if parsed.columns == [] {
      return SheetOutcome(0, parsed.totalRows, None, Some(BlankFirstRow), false);
    }
    if !HeadsATable(parsed.columns) {
      var named := NamedColumns(parsed.columns);
      return SheetOutcome(|parsed.columns|, parsed.totalRows, None,
                          Some(NotATable(named, |parsed.columns|, parsed.totalRows)), false);
    }
    if parsed.totalRows == 0 {
      return SheetOutcome(|parsed.columns|, 0, None, Some(NoData), false);
    }
    if fault.Some? {
      return SheetOutcome(|parsed.columns|, parsed.totalRows, None, Some(Raised(fault.value.message)), true);
    }
    assert parsed.rows == GridRows(parsed.columns, GridBody(grid, 1));
    var file, written := Write(parsed.columns, parsed.rows);
    outcome := SheetOutcome(|parsed.columns|, written, Some(file), None, false);
  }

  // ----- file names -----

  /** The two-digit ordinal that starts every file name. */
  function Ordinal(index: nat): string {
    var d := Decimal.Render(index);
    if |d| < 2 then "0" + d else d
  }

  function IsSlugChar(c: char): bool {
    'a' <= c <= 'z' || 'A' <= c <= 'Z' || Decimal.IsDigit(c)
  }

  /** `[^A-Za-z0-9]+` replaced by one hyphen. */
  function Hyphenate(s: string): string {
    if s == [] then []
    else if IsSlugChar(s[0]) then [s[0]] + Hyphenate(s[1..])
    else (if |s| > 1 && !IsSlugChar(s[1]) then [] else ['-']) + Hyphenate(s[1..])
  }

  function Slug(sheetName: string): string {
    var hyphen := (c: char) => c == '-';
    var lowered := Text.Lower(Text.Strip(Hyphenate(sheetName), hyphen));
    Text.Strip(lowered[..Min(60, |lowered|)], hyphen)
  }

  function OutputName(index: nat, sheetName: string): string {
    Ordinal(index) + "-" + (if Slug(sheetName) == "" then "sheet" else Slug(sheetName)) + ".xlsx"
  }

  /** What a file system takes anywhere: digits, small letters, hyphens and the point of the extension. */
  predicate SafeChar(c: char) {
    'a' <= c <= 'z' || '0' <= c <= '9' || c == '-' || c == '.'
  }

  lemma {:induction false} HyphenatedIsSafe(s: string)
    ensures forall i :: 0 <= i < |Hyphenate(s)| ==> SafeChar(Text.LowerChar(Hyphenate(s)[i]))
  {
    if s != [] {
      HyphenatedIsSafe(s[1..]);
    }
  }

  ghost predicate SafeText(s: string) {
    forall i :: 0 <= i < |s| ==> SafeChar(s[i])
  }

  /** Trimming leaves a part, and a part of what is safe in small letters is. */
  lemma TrimmedIsSafe(s: string)
    ensures SafeText(Text.Lower(s)) ==> SafeText(Text.Lower(Text.Strip(s, (c: char) => c == '-')))
    ensures SafeText(s) ==> SafeText(Text.Strip(s, (c: char) => c == '-'))
    ensures |Text.Strip(s, (c: char) => c == '-')| <= |s|
  {
    hide SafeChar, Text.Strip, Text.LowerChar;
    var hyphen := (c: char) => c == '-';
    Text.StripIsPart(s, hyphen);
    var a, b :| 0 <= a <= b <= |s| && Text.Strip(s, hyphen) == s[a..b];
    assert forall i :: 0 <= i < b - a ==> s[a..b][i] == s[a + i] && Text.Lower(s[a..b])[i] == Text.Lower(s)[a + i];
  }

  lemma SlugIsSafe(sheetName: string)
    ensures |Slug(sheetName)| <= 60 && SafeText(Slug(sheetName))
  {
    hide Hyphenate, SafeChar, Text.Strip;
    HyphenatedIsSafe(sheetName);
    var whole := Hyphenate(sheetName);
    assert SafeText(Text.Lower(whole));
    TrimmedIsSafe(whole);
    var lowered := Text.Lower(Text.Strip(whole, (c: char) => c == '-'));
    var cut := lowered[..Min(60, |lowered|)];
    assert SafeText(cut);
    TrimmedIsSafe(cut);
  }

  lemma OrdinalIsLong(index: nat)
    ensures |Ordinal(index)| >= 2
    ensures Decimal.AllDigits(Ordinal(index)) && Decimal.Parse(Ordinal(index)) == index
  {
    Decimal.ParseRender(index);
    LeadingZero(Decimal.Render(index));
  }

  lemma {:induction false} PlainIsKept(s: string)
    requires forall i :: 0 <= i < |s| ==> IsSlugChar(s[i])
    ensures Hyphenate(s) == s
  {
    if s != [] {
      PlainIsKept(s[1..]);
    }
  }

  /** Words of small letters and digits with a hyphen, a blank or anything else between them come out with one hyphen. */
  lemma {:induction false} WordsAreJoined(a: string, c: char, b: string)
    requires forall i :: 0 <= i < |a| ==> IsSlugChar(a[i])
    requires !IsSlugChar(c) && b != "" && IsSlugChar(b[0])
    ensures Hyphenate(a + [c] + b) == a + ['-'] + Hyphenate(b)
  {
    if a == [] {
      assert a + [c] + b == [c] + b && ([c] + b)[1..] == b;
    } else {
      WordsAreJoined(a[1..], c, b);
      assert (a + [c] + b)[1..] == a[1..] + [c] + b;
    }
  }

  /** Two words of a sheet's name, of sixty characters or fewer in all, are the words of its file's name in small letters. */
  lemma NameIsRecognised(index: nat, a: string, c: char, b: string)
    requires a != "" && b != "" && |a| + 1 + |b| <= 60 && !IsSlugChar(c)
    requires forall i :: 0 <= i < |a| ==> IsSlugChar(a[i])
    requires forall i :: 0 <= i < |b| ==> IsSlugChar(b[i])
    ensures OutputName(index, a + [c] + b) == Ordinal(index) + "-" + Text.Lower(a + ['-'] + b) + ".xlsx"
  {
    hide Hyphenate, Ordinal, Text.StripLeft, Text.StripRight;
    var hyphen := (c: char) => c == '-';
    PlainIsKept(b);
    WordsAreJoined(a, c, b);
    var words := a + ['-'] + b;
    assert words[0] == a[0] && words[|words| - 1] == b[|b| - 1];
    Text.StripFixpoint(words, hyphen);
    var lowered := Text.Lower(words);
    assert lowered[..|lowered|] == lowered;
    Text.StripFixpoint(lowered, hyphen);
  }

  lemma RenderIsSafe(index: nat)
    ensures forall i :: 0 <= i < |Ordinal(index)| ==> SafeChar(Ordinal(index)[i])
  {
  }

  /** Whatever the sheet is called, the name is short, ends as a workbook does and holds safe characters only. */
  lemma OutputNameIsSafe(index: nat, sheetName: string)
    ensures var name := OutputName(index, sheetName);
            && (forall i :: 0 <= i < |name| ==> SafeChar(name[i]))
            && |Ordinal(index)| + 6 < |name| <= |Ordinal(index)| + 66
            && name[|name| - 5..] == ".xlsx"
            && name[..|Ordinal(index)| + 1] == Ordinal(index) + "-"
            && |Ordinal(index)| >= 2
  {
    OrdinalIsLong(index);
    hide Slug, Ordinal;
    SlugIsSafe(sheetName);
    RenderIsSafe(index);
    var middle := if Slug(sheetName) == "" then "sheet" else Slug(sheetName);
    var name, ordinal := OutputName(index, sheetName), Ordinal(index);
    assert name == (ordinal + "-") + (middle + ".xlsx");
    assert name[..|ordinal| + 1] == ordinal + "-";
    assert name[|name| - 5..] == ".xlsx";
    assert forall i :: 0 <= i < |middle| ==> SafeChar(middle[i]);
  }

  /** Sheets at different positions never share a file, however alike their names. */
  lemma OutputNamesNeverCollide(i: nat, a: string, j: nat, b: string)
    requires OutputName(i, a) == OutputName(j, b)
    ensures i == j
  {
    var n, m := OutputName(i, a), OutputName(j, b);
    var p, q := Ordinal(i), Ordinal(j);
    assert Decimal.AllDigits(p) && Decimal.AllDigits(q);
    assert n[|p|] == '-' && m[|q|] == '-';
    assert forall k :: 0 <= k < |p| ==> n[k] == p[k];
    assert forall k :: 0 <= k < |q| ==> m[k] == q[k];
    assert |p| == |q|;
    assert p == n[..|p|] && q == m[..|q|];
    OrdinalInjective(i, j);
  }

  lemma OrdinalInjective(i: nat, j: nat)
    requires Ordinal(i) == Ordinal(j)
    ensures i == j
  {
    var d, e := Decimal.Render(i), Decimal.Render(j);
    Decimal.ParseRender(i);
    Decimal.ParseRender(j);
    LeadingZero(d);
    LeadingZero(e);
  }

  lemma {:induction false} LeadingZero(d: string)
    requires Decimal.AllDigits(d)
    ensures Decimal.AllDigits("0" + d) && Decimal.Parse("0" + d) == Decimal.Parse(d)
  {
    var z := "0" + d;
    assert forall i :: 0 < i < |z| ==> z[i] == d[i - 1];
    if d != [] {
      LeadingZero(d[..|d| - 1]);
      assert z[..|z| - 1] == "0" + d[..|d| - 1];
    } else {
      assert z[..0] == [];
    }
  }
}
