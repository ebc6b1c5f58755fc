/** The two sheet readers: the streaming one for leads and the grid one for everything else (ingest/app/workbook.py). */
module Sheets {
  import opened Wrappers
  import opened Cells
  import opened RawRows
  import OrderedDict
  import JsSet
  import Columns
  import Text

  // ----- how wide the table really is -----

  /** The run of populated cells before the first gap. */
  function TableWidth(cells: seq<Cell>): (w: nat)
    ensures w <= |cells|
    ensures forall i :: 0 <= i < w ==> !Blank(cells[i])
    ensures w < |cells| ==> Blank(cells[w])
  {
    if cells == [] || Blank(cells[0]) then 0 else 1 + TableWidth(cells[1..])
  }

  method ContiguousWidth(headerCells: seq<Cell>) returns (w: nat)
    ensures w == TableWidth(headerCells)
  {
    var trimmed := TrimTrailingBlanks(headerCells);
    for index := 0 to |trimmed|
      invariant forall i :: 0 <= i < index ==> !Blank(trimmed[i])
    {
      if Blank(trimmed[index]) {
        WidthUnique(headerCells, index);
        return index;
      }
    }
    WidthUnique(headerCells, |trimmed|);
    w := |trimmed|;
  }

  lemma {:induction false} WidthUnique(cells: seq<Cell>, w: nat)
    requires w <= |cells|
    requires forall i :: 0 <= i < w ==> !Blank(cells[i])
    requires w < |cells| ==> Blank(cells[w])
    ensures TableWidth(cells) == w
  {
    var v := TableWidth(cells);
    assert v >= w && w >= v;
  }

  /** A contiguous header names every one of its columns, so each body cell has a name to be keyed by. */
  lemma ContiguousNames(cells: seq<Cell>, w: nat)
    requires w == TableWidth(cells)
    ensures |Columns.Names(Columns.Headers(cells[..w]))| == w
  {
    TrimmedUnique(cells[..w], cells[..w]);
  }

  // ----- rows keyed by column name -----

  type Row = OrderedDict.Dict<Cell>

  /** `{columns[i]: cells[i] for i in range(n)}`. */
  function Keyed(columns: seq<string>, cells: seq<Cell>, n: nat): Row
    requires n <= |columns| && n <= |cells|
  {
    if n == 0 then [] else OrderedDict.Put(Keyed(columns, cells, n - 1), columns[n - 1], cells[n - 1])
  }

  lemma {:induction false} KeyedInOrder(columns: seq<string>, cells: seq<Cell>, n: nat)
    requires n <= |columns| && n <= |cells|
    ensures OrderedDict.KeysOf(Keyed(columns, cells, n)) == JsSet.Distinct(columns[..n])
  {
    hide OrderedDict.Put;
    if n > 0 {
      KeyedInOrder(columns, cells, n - 1);
      OrderedDict.PutKeepsOrder(Keyed(columns, cells, n - 1), columns[n - 1], cells[n - 1]);
      assert columns[..n][..n - 1] == columns[..n - 1];
    }
  }

  lemma {:induction false} KeyedIsLast(columns: seq<string>, cells: seq<Cell>, n: nat, i: nat)
    requires n <= |columns| && n <= |cells| && i < n && forall j :: i < j < n ==> columns[j] != columns[i]
    ensures OrderedDict.Get(Keyed(columns, cells, n), columns[i]) == Some(cells[i])
  {
    hide OrderedDict.Put, OrderedDict.Get;
    OrderedDict.PutThenGet(Keyed(columns, cells, n - 1), columns[n - 1], cells[n - 1], columns[i]);
    if i < n - 1 {
      KeyedIsLast(columns, cells, n - 1, i);
    }
  }

  /** The names in the order they first occur, and under each the last cell it heads. */
  lemma KeyedIsLastUnderName(columns: seq<string>, cells: seq<Cell>, n: nat)
    requires n <= |columns| && n <= |cells|
    ensures OrderedDict.KeysOf(Keyed(columns, cells, n)) == JsSet.Distinct(columns[..n])
    ensures forall i :: 0 <= i < n && (forall j :: i < j < n ==> columns[j] != columns[i]) ==>
              OrderedDict.Get(Keyed(columns, cells, n), columns[i]) == Some(cells[i])
  {
    hide Keyed, OrderedDict.Get;
    KeyedInOrder(columns, cells, n);
    forall i: nat | i < n && forall j :: i < j < n ==> columns[j] != columns[i]
      ensures OrderedDict.Get(Keyed(columns, cells, n), columns[i]) == Some(cells[i])
    {
      KeyedIsLast(columns, cells, n, i);
    }
  }

  method KeyRow(columns: seq<string>, cells: seq<Cell>, n: nat) returns (row: Row)
    requires n <= |columns| && n <= |cells|
    ensures row == Keyed(columns, cells, n)
    ensures OrderedDict.KeysOf(row) == JsSet.Distinct(columns[..n])
    ensures forall i :: 0 <= i < n && (forall j :: i < j < n ==> columns[j] != columns[i]) ==>
              OrderedDict.Get(row, columns[i]) == Some(cells[i])
  {
    KeyedIsLastUnderName(columns, cells, n);
    row := [];
    for i := 0 to n
      invariant row == Keyed(columns, cells, i)
    {
      row := OrderedDict.Put(row, columns[i], cells[i]);
    }
  }

  function Min(a: nat, b: nat): nat {
    if a < b then a else b
  }

  // ----- Lead Dump, streamed -----

  /** The first row at or past the header's row number, or the number of rows. */
  function HeaderIndex(rows: seq<RawRow>, headerRow: int): (h: nat)
    ensures h <= |rows|
    ensures forall i :: 0 <= i < h ==> rows[i].num + 1 < headerRow
    ensures h < |rows| ==> rows[h].num + 1 >= headerRow
  {
    if rows == [] || rows[0].num + 1 >= headerRow then 0 else 1 + HeaderIndex(rows[1..], headerRow)
  }

  function Cut(row: RawRow, width: nat): seq<Cell> {
    if width <= |row.cells| then row.cells[..width] else row.cells
  }

  /** A row that is past the header's row number and holds something inside the table. */
  predicate Streams(row: RawRow, headerRow: int, width: nat) {
    row.num + 1 > headerRow && Trimmed(Cut(row, width)) != []
  }

  function KeyedCut(row: RawRow, header: Header): Row {
    var cells := Trimmed(Cut(row, header.width));
    Keyed(header.columns, cells, Min(|header.columns|, |cells|))
  }

  /** Rows read wide, cut to the table, trimmed, dropped when empty and keyed by name. */
  function Body(rows: seq<RawRow>, headerRow: int, header: Header): seq<Row> {
    if rows == [] then []
    else
      var last := rows[|rows| - 1];
      Body(rows[..|rows| - 1], headerRow, header)
      + if Streams(last, headerRow, header.width) then [KeyedCut(last, header)] else []
  }

  /** What the first pass learns: the table's width and the names of its columns. */
  datatype Header = Header(width: nat, columns: seq<string>)

  function HeaderOf(row: RawRow): (h: Header)
    ensures h.width == |h.columns| <= |row.cells|
  {
    var width := TableWidth(row.cells);
    ContiguousNames(row.cells, width);
    Header(width, Columns.Names(Columns.Headers(row.cells[..width])))
  }

  /** One pass over the full declared width, which is what the two passes stand for. */
  function OnePass(items: seq<Item>, declared: nat, headerRow: int): seq<Row> {
    var wide := Read(items, declared);
    var h := HeaderIndex(wide, headerRow);
    if h == |wide| then []
    else
      Body(wide, headerRow, HeaderOf(wide[h]))
  }

  /** First pass, at the declared width: narrow the header row, then name what is left of it. */
  method ReadHeader(items: seq<Item>, declared: nat, headerRow: int) returns (header: Option<Header>)
    ensures var wide := Read(items, declared);
            var h := HeaderIndex(wide, headerRow);
            header == if h == |wide| then None else Some(HeaderOf(wide[h]))
  {
    hide Read, Columns.Names, Columns.Headers, Trimmed, Blank;
    var wide := IterRawRows(items, declared);
    for h := 0 to |wide|
      invariant forall i :: 0 <= i < h ==> wide[i].num + 1 < headerRow
    {
      if wide[h].num + 1 < headerRow {
        continue;
      }
      var headerCells := TrimTrailingBlanks(wide[h].cells);
      var width := ContiguousWidth(headerCells);
      WidthUnique(wide[h].cells, width);
      assert headerCells[..width] == wide[h].cells[..width];
      var columns := Columns.BuildColumns(headerCells[..width]);
      return Some(Header(width, columns));
    }
    header := None;
  }

  /** Second pass, at the table's width. */
  method ReadBody(rows: seq<RawRow>, headerRow: int, header: Header) returns (out: seq<Row>)
    requires header.width == |header.columns|
    requires forall i :: 0 <= i < |rows| ==> |rows[i].cells| == header.width
    ensures out == Body(rows, headerRow, header)
  {
    out := [];
    for i := 0 to |rows|
      invariant out == Body(rows[..i], headerRow, header)
    {
      assert rows[..i + 1][..i] == rows[..i];
      assert Cut(rows[i], header.width) == rows[i].cells;
      var cells := TrimTrailingBlanks(rows[i].cells);
      if rows[i].num + 1 <= headerRow || cells == [] {
        continue;
      }
      var row := KeyRow(header.columns, cells, Min(header.width, |cells|));
      out := out + [row];
    }
    assert rows[..|rows|] == rows;
  }

  lemma {:induction false} BodyOfTruncated(wide: seq<RawRow>, narrow: seq<RawRow>, headerRow: int, header: Header)
    requires forall i :: 0 <= i < |wide| ==> header.width <= |wide[i].cells|
    requires narrow == Truncate(wide, header.width)
    ensures Body(narrow, headerRow, header) == Body(wide, headerRow, header)
  {
    if wide != [] {
      var n := |wide| - 1;
      BodyOfTruncated(wide[..n], narrow[..n], headerRow, header);
      assert Cut(narrow[n], header.width) == Cut(wide[n], header.width);
    }
  }

  // ----- which rows are streamed, and what they hold -----

  /** The first place at or past the header's number, or the number of rows. */
  ghost predicate HeaderStands(wide: seq<RawRow>, headerRow: int, h: nat) {
    && h <= |wide|
    && (forall i :: 0 <= i < h ==> wide[i].num + 1 < headerRow)
    && (h < |wide| ==> wide[h].num + 1 >= headerRow)
  }

  /** One of the first cells says something. */
  ghost predicate SaysSomething(cells: seq<Cell>, width: nat) {
    exists c :: 0 <= c < width && c < |cells| && !Blank(cells[c])
  }

  /** Under each of the first names the last cell it heads, in the order the names first occur. */
  ghost predicate KeyedBy(row: Row, columns: seq<string>, cells: seq<Cell>, n: nat)
    requires n <= |columns| && n <= |cells|
  {
    && OrderedDict.KeysOf(row) == JsSet.Distinct(columns[..n])
    && forall i :: 0 <= i < n && (forall j :: i < j < n ==> columns[j] != columns[i]) ==>
         OrderedDict.Get(row, columns[i]) == Some(cells[i])
  }

  /** Of the first `width` cells, those up to here are all that say anything. */
  ghost predicate Reaches(cells: seq<Cell>, width: nat, n: nat) {
    && n <= |cells| && n <= width
    && (n > 0 ==> !Blank(cells[n - 1]))
    && forall c :: n <= c < width && c < |cells| ==> Blank(cells[c])
  }

  ghost predicate RowHolds(row: Row, columns: seq<string>, cells: seq<Cell>, width: nat) {
    exists n: nat :: Reaches(cells, width, n) && KeyedBy(row, columns, cells, if n < |columns| then n else |columns|)
  }

  /** The row is past the header's number and says something inside the table. */
  ghost predicate InBody(row: RawRow, headerRow: int, width: nat) {
    row.num + 1 > headerRow && SaysSomething(row.cells, width)
  }

  /**
   * The rows past the header's number that say something inside the table, each once, in the order of the sheet, and
   * each holding its own cells under the table's names.
   */
  ghost predicate StreamedFrom(wide: seq<RawRow>, headerRow: int, columns: seq<string>, out: seq<Row>, at: seq<nat>) {
    && |at| == |out| && Increasing(at)
    && (forall i: nat :: i in at <==> i < |wide| && InBody(wide[i], headerRow, |columns|))
    && (forall k :: 0 <= k < |at| ==> at[k] < |wide| && RowHolds(out[k], columns, wide[at[k]].cells, |columns|))
  }

  /** The table is the header row's cells up to its first gap, and the rows are streamed from under it. */
  ghost predicate StreamedUnder(wide: seq<RawRow>, headerRow: int, h: nat, width: nat, out: seq<Row>, at: seq<nat>) {
    && h < |wide|
    && width <= |wide[h].cells|
    && (forall c :: 0 <= c < width ==> !Blank(wide[h].cells[c]))
    && (width < |wide[h].cells| ==> Blank(wide[h].cells[width]))
    && StreamedFrom(wide, headerRow, Columns.Names(Columns.Headers(wide[h].cells[..width])), out, at)
  }

  ghost predicate InSheetOrder(wide: seq<RawRow>, headerRow: int, out: seq<Row>) {
    exists h: nat :: HeaderStands(wide, headerRow, h)
             && if h < |wide| then exists width, at :: StreamedUnder(wide, headerRow, h, width, out, at) else out == []
  }

  lemma StreamsExactly(row: RawRow, headerRow: int, width: nat)
    ensures Streams(row, headerRow, width) <==> InBody(row, headerRow, width)
  {
    hide Blank;
    var cut := Cut(row, width);
    if Trimmed(cut) != [] {
      assert !Blank(row.cells[|Trimmed(cut)| - 1]);
    } else if c: nat :| c < width && c < |row.cells| && !Blank(row.cells[c]) {
      assert Blank(cut[c]);
    }
  }

  lemma KeyedHolds(columns: seq<string>, cells: seq<Cell>, width: nat, t: seq<Cell>)
    requires t <= cells && Reaches(cells, width, |t|)
    ensures RowHolds(Keyed(columns, t, Min(|columns|, |t|)), columns, cells, width)
  {
    hide Keyed, OrderedDict.Get, JsSet.Distinct, OrderedDict.KeysOf, Reaches, Blank;
    var n := Min(|columns|, |t|);
    KeyedIsLastUnderName(columns, t, n);
    assert KeyedBy(Keyed(columns, t, n), columns, cells, n);
  }

  /** A row's dict has each name once. */
  lemma HeldIsDistinct(row: Row, columns: seq<string>, cells: seq<Cell>, width: nat)
    requires RowHolds(row, columns, cells, width)
    ensures OrderedDict.Distinct(row)
  {
    hide OrderedDict.Get, Blank;
    var n: nat :| Reaches(cells, width, n) && KeyedBy(row, columns, cells, if n < |columns| then n else |columns|);
    JsSet.DistinctKeepsFirsts(columns[..if n < |columns| then n else |columns|]);
    assert forall i :: 0 <= i < |row| ==> OrderedDict.KeysOf(row)[i] == row[i].0;
  }

  lemma CutHolds(row: RawRow, header: Header)
    requires header.width == |header.columns|
    ensures RowHolds(KeyedCut(row, header), header.columns, row.cells, header.width)
  {
    hide Keyed, RowHolds, Blank;
    var cut := Cut(row, header.width);
    assert forall c :: |Trimmed(cut)| <= c < |cut| ==> Blank(cut[c]);
    KeyedHolds(header.columns, row.cells, header.width, Trimmed(cut));
  }

  lemma {:induction false} BodyInOrder(rows: seq<RawRow>, headerRow: int, header: Header) returns (at: seq<nat>)
    requires header.width == |header.columns|
    ensures StreamedFrom(rows, headerRow, header.columns, Body(rows, headerRow, header), at)
  {
    hide Streams, InBody, RowHolds, KeyedCut, StreamedFrom;
    if rows == [] {
      at := [];
      NothingStreamed(headerRow, header.columns);
    } else {
      var n := |rows| - 1;
      at := BodyInOrder(rows[..n], headerRow, header);
      StreamsExactly(rows[n], headerRow, header.width);
      CutHolds(rows[n], header);
      var out := Body(rows[..n], headerRow, header);
      OneMoreStreamed(rows, headerRow, header.columns, out, at, KeyedCut(rows[n], header));
      if Streams(rows[n], headerRow, header.width) {
        at := at + [n];
      } else {
        assert out + [] == out;
      }
    }
  }

  lemma NothingStreamed(headerRow: int, columns: seq<string>)
    ensures StreamedFrom([], headerRow, columns, [], [])
  {
  }

  lemma OneMoreStreamed(rows: seq<RawRow>, headerRow: int, columns: seq<string>, out: seq<Row>, at: seq<nat>, last: Row)
    requires rows != [] && StreamedFrom(rows[..|rows| - 1], headerRow, columns, out, at)
    requires RowHolds(last, columns, rows[|rows| - 1].cells, |columns|)
    ensures var n := |rows| - 1;
            if InBody(rows[n], headerRow, |columns|) then StreamedFrom(rows, headerRow, columns, out + [last], at + [n])
            else StreamedFrom(rows, headerRow, columns, out, at)
  {
    hide InBody, RowHolds;
    var n := |rows| - 1;
    var init, more := rows[..n], at + [n];
    assert forall i :: 0 <= i < n ==> init[i] == rows[i];
    assert forall k :: 0 <= k < |at| ==> at[k] in at && at[k] < n;
    assert forall i: nat :: i in more <==> i in at || i == n;
  }

  lemma OnePassInOrder(items: seq<Item>, declared: nat, headerRow: int)
    ensures InSheetOrder(Read(items, declared), headerRow, OnePass(items, declared, headerRow))
  {
    hide Read, StreamedFrom, Columns.Names, Columns.Headers;
    var wide := Read(items, declared);
    var h := HeaderIndex(wide, headerRow);
    assert HeaderStands(wide, headerRow, h);
    if h < |wide| {
      var header := HeaderOf(wide[h]);
      var at := BodyInOrder(wide, headerRow, header);
      assert StreamedUnder(wide, headerRow, h, header.width, OnePass(items, declared, headerRow), at);
    }
  }

  /** Two passes over the records: one for the header, one for the body at the width it showed. */
  method StreamLeads(items: seq<Item>, declared: nat, headerRow: int) returns (out: seq<Row>)
    ensures out == OnePass(items, declared, headerRow)
    ensures InSheetOrder(Read(items, declared), headerRow, out)
  {
    hide InSheetOrder, Columns.Names, Columns.Headers, Trimmed, Blank;
    OnePassInOrder(items, declared, headerRow);
    out := [];
    var header := ReadHeader(items, declared, headerRow);
    if header.None? {
      return;
    }
    var rows := IterRawRows(items, header.value.width);
    out := ReadBody(rows, headerRow, header.value);
    NarrowIsTruncatedWide(items, declared, header.value.width);
    BodyOfTruncated(Read(items, declared), rows, headerRow, header.value);
  }

  ghost predicate Ascending(rows: seq<RawRow>) {
    forall i, j :: 0 <= i < j < |rows| ==> rows[i].num < rows[j].num
  }

  /**
   * The row the columns were named from is streamed as data too, exactly when the sheet has no row
   * at the header's number and the stand-in header names something.
   */
  lemma HeaderStreamedAsData(items: seq<Item>, declared: nat, headerRow: int)
    requires Ascending(Read(items, declared))
    requires HeaderIndex(Read(items, declared), headerRow) < |Read(items, declared)|
    ensures var wide := Read(items, declared);
            var h := HeaderIndex(wide, headerRow);
            var width := TableWidth(wide[h].cells);
            Streams(wide[h], headerRow, width) <==>
              width > 0 && !exists i :: 0 <= i < |wide| && wide[i].num + 1 == headerRow
  {
    var wide := Read(items, declared);
    var h := HeaderIndex(wide, headerRow);
    var width := TableWidth(wide[h].cells);
    TrimmedUnique(wide[h].cells[..width], wide[h].cells[..width]);
    if wide[h].num + 1 > headerRow {
      assert forall i :: h <= i < |wide| ==> wide[h].num <= wide[i].num;
    }
  }

  // ----- every other sheet, as a grid -----

  datatype ParsedSheet = ParsedSheet(columns: seq<string>, rows: seq<Row>, totalRows: nat)

  /** Every row of the body that trims to something, keyed by the columns it reaches. */
  function GridRows(columns: seq<string>, body: seq<seq<Cell>>): seq<Row> {
    if body == [] then []
    else
      var cells := Trimmed(body[0]);
      (if cells == [] then [] else [Keyed(columns, cells, Min(|columns|, |cells|))])
      + GridRows(columns, body[1..])
  }

  lemma GridStep(columns: seq<string>, body: seq<seq<Cell>>, i: nat)
    requires i < |body|
    ensures var cells := Trimmed(body[i]);
            var rest := GridRows(columns, body[i + 1..]);
            GridRows(columns, body[i..]) ==
              if cells == [] then rest else [Keyed(columns, cells, Min(|columns|, |cells|))] + rest
  {
    assert body[i..][1..] == body[i + 1..];
  }

  lemma GridDone(columns: seq<string>, body: seq<seq<Cell>>)
    ensures GridRows(columns, body[|body|..]) == []
  {
  }

  /** The rows that say something, each once, in order, each holding its own cells under the columns' names. */
  ghost predicate KeyedFrom(columns: seq<string>, body: seq<seq<Cell>>, out: seq<Row>, at: seq<nat>) {
    && |at| == |out| && Increasing(at)
    && (forall i: nat :: i in at <==> i < |body| && SaysSomething(body[i], |body[i]|))
    && (forall k :: 0 <= k < |at| ==> at[k] < |body| && RowHolds(out[k], columns, body[at[k]], |body[at[k]]|))
  }

  lemma GridRowHolds(columns: seq<string>, cells: seq<Cell>)
    ensures Trimmed(cells) != [] <==> SaysSomething(cells, |cells|)
    ensures RowHolds(Keyed(columns, Trimmed(cells), Min(|columns|, |Trimmed(cells)|)), columns, cells, |cells|)
  {
    hide Keyed, RowHolds, Blank;
    KeyedHolds(columns, cells, |cells|, Trimmed(cells));
    if Trimmed(cells) != [] {
      assert !Blank(cells[|Trimmed(cells)| - 1]);
    }
  }

  lemma {:induction false} GridRowsAppend(columns: seq<string>, body: seq<seq<Cell>>, last: seq<Cell>)
    ensures GridRows(columns, body + [last]) == GridRows(columns, body) + GridRows(columns, [last])
  {
    hide Keyed, Trimmed;
    if body == [] {
      assert body + [last] == [last];
    } else {
      GridRowsAppend(columns, body[1..], last);
      assert (body + [last])[1..] == body[1..] + [last];
    }
  }

  lemma {:induction false} GridInOrder(columns: seq<string>, body: seq<seq<Cell>>) returns (at: seq<nat>)
    ensures KeyedFrom(columns, body, GridRows(columns, body), at)
  {
    hide RowHolds, SaysSomething, Keyed, Trimmed, KeyedFrom;
    if body == [] {
      at := [];
      NothingKeyed(columns);
    } else {
      var n := |body| - 1;
      at := GridInOrder(columns, body[..n]);
      GridRowHolds(columns, body[n]);
      GridRowsAppend(columns, body[..n], body[n]);
      assert body == body[..n] + [body[n]];
      GridDone(columns, [body[n]][1..]);
      var keyed := Keyed(columns, Trimmed(body[n]), Min(|columns|, |Trimmed(body[n])|));
      OneMoreKeyed(columns, body, GridRows(columns, body[..n]), at, keyed);
      if Trimmed(body[n]) != [] {
        at := at + [n];
        assert GridRows(columns, [body[n]]) == [keyed];
      } else {
        assert GridRows(columns, body[..n]) + [] == GridRows(columns, body[..n]);
      }
    }
  }

  lemma NothingKeyed(columns: seq<string>)
    ensures KeyedFrom(columns, [], [], [])
  {
  }

  lemma OneMoreKeyed(columns: seq<string>, body: seq<seq<Cell>>, out: seq<Row>, at: seq<nat>, last: Row)
    requires body != [] && KeyedFrom(columns, body[..|body| - 1], out, at)
    requires RowHolds(last, columns, body[|body| - 1], |body[|body| - 1]|)
    ensures var n := |body| - 1;
            if SaysSomething(body[n], |body[n]|) then KeyedFrom(columns, body, out + [last], at + [n])
            else KeyedFrom(columns, body, out, at)
  {
    hide RowHolds, SaysSomething;
    var n := |body| - 1;
    var init, more := body[..n], at + [n];
    assert forall i :: 0 <= i < n ==> init[i] == body[i];
    assert forall k :: 0 <= k < |at| ==> at[k] in at && at[k] < n;
    assert forall i: nat :: i in more <==> i in at || i == n;
  }

  /** Where the header row lies; counted from the end when its number is not positive. */
  function HeaderAt(rows: nat, headerRow: int): (at: Option<nat>)
    ensures at.Some? ==> at.value < rows
  {
    var at := if headerRow >= 1 then headerRow - 1 else rows + headerRow - 1;
    if 0 <= at < rows then Some(at) else None
  }

  /** Where a slice from the header's number starts. */
  function BodyFrom(rows: nat, headerRow: int): (at: nat)
    ensures at <= rows
  {
    if headerRow >= 0 then Min(headerRow, rows) else if rows + headerRow < 0 then 0 else rows + headerRow
  }

  function GridColumns(grid: seq<seq<Cell>>, headerRow: int): seq<string> {
    var at := HeaderAt(|grid|, headerRow);
    if at.None? then [] else Columns.Names(Columns.Headers(grid[at.value]))
  }

  function GridBody(grid: seq<seq<Cell>>, headerRow: int): seq<seq<Cell>> {
    if HeaderAt(|grid|, headerRow).None? then [] else grid[BodyFrom(|grid|, headerRow)..]
  }

  /** A cap on the rows is applied after a row is kept, so it never cuts below one. */
  predicate Capped(n: nat, maxRows: Option<int>) {
    maxRows.Some? && n > 0 && n >= maxRows.value
  }

  const LEAD_SHEET := "lead dump"

  /** The refusal of the streamed sheet, and Python's own of a row that is not there. */
  datatype ReadError = MustStream | NoSuchRow

  method ReadSheet(grid: seq<seq<Cell>>, sheetName: string, headerRow: int, maxRows: Option<int>)
    returns (r: Result<ParsedSheet, ReadError>)
    ensures r == Err(MustStream) <==> Text.Lower(Strip(sheetName)) == "lead dump"
    ensures r == Err(NoSuchRow) <==>
              Text.Lower(Strip(sheetName)) != "lead dump" && headerRow < 1 && HeaderAt(|grid|, headerRow).None?
    ensures r.Ok? <==>
              Text.Lower(Strip(sheetName)) != LEAD_SHEET && (headerRow >= 1 || HeaderAt(|grid|, headerRow).Some?)
    ensures r.Ok? && 1 <= headerRow <= |grid| ==>
              && r.value.columns == Columns.Names(Columns.Headers(grid[headerRow - 1]))
              && exists all, at :: KeyedFrom(r.value.columns, grid[headerRow..], all, at)
                                && r.value.rows <= all && r.value.totalRows == |all|
    ensures r.Ok? && headerRow > |grid| ==> r.value == ParsedSheet([], [], 0)
    ensures r.Ok? && maxRows.None? ==> |r.value.rows| == r.value.totalRows
    ensures r.Ok? && maxRows.Some? && maxRows.value >= 1 ==> |r.value.rows| <= maxRows.value
    ensures r.Ok? && maxRows.Some? && |r.value.rows| < maxRows.value ==> |r.value.rows| == r.value.totalRows
    ensures r.Ok? ==> r.value.columns == GridColumns(grid, headerRow)
    ensures r.Ok? ==> r.value.totalRows == |GridRows(r.value.columns, GridBody(grid, headerRow))|
    ensures r.Ok? ==> r.value.rows <= GridRows(r.value.columns, GridBody(grid, headerRow))
    ensures r.Ok? ==> |r.value.rows| == r.value.totalRows || Capped(|r.value.rows|, maxRows)
    ensures r.Ok? && |r.value.rows| > 0 ==> !Capped(|r.value.rows| - 1, maxRows)
  {
    if Text.Lower(Strip(sheetName)) == LEAD_SHEET {
      return Err(MustStream);
    }
    if |grid| < headerRow {
      return Ok(ParsedSheet([], [], 0));
    }
    var at := HeaderAt(|grid|, headerRow);
    if at.None? {
      return Err(NoSuchRow);
    }
    var columns := Columns.BuildColumns(grid[at.value]);
    var body := grid[BodyFrom(|grid|, headerRow)..];
    var rows := KeyGrid(columns, body, maxRows);
    ghost var places := GridInOrder(columns, body);
    assert KeyedFrom(columns, body, GridRows(columns, body), places);
    var total := 0;
    for j := 0 to |body|
      invariant total + |GridRows(columns, body[j..])| == |GridRows(columns, body)|
    {
      GridStep(columns, body, j);
      var trimmed := TrimTrailingBlanks(body[j]);
      if trimmed != [] {
        total := total + 1;
      }
    }
    r := Ok(ParsedSheet(columns, rows, total));
  }

  method KeyGrid(columns: seq<string>, body: seq<seq<Cell>>, maxRows: Option<int>) returns (rows: seq<Row>)
    ensures rows <= GridRows(columns, body)
    ensures rows == GridRows(columns, body) || Capped(|rows|, maxRows)
    ensures |rows| > 0 ==> !Capped(|rows| - 1, maxRows)
  {
    hide Keyed, Trimmed, Blank, GridRows;
    rows := [];
    GridDone(columns, body);
    assert body[0..] == body;
    for i := 0 to |body|
      invariant rows + GridRows(columns, body[i..]) == GridRows(columns, body)
      invariant !Capped(|rows|, maxRows)
      invariant |rows| > 0 ==> !Capped(|rows| - 1, maxRows)
    {
      GridStep(columns, body, i);
      var trimmed := TrimTrailingBlanks(body[i]);
      if trimmed == [] {
        continue;
      }
      var row := KeyRow(columns, trimmed, Min(|columns|, |trimmed|));
      assert rows + [row] + GridRows(columns, body[i + 1..]) == GridRows(columns, body);
      rows := rows + [row];
      if Capped(|rows|, maxRows) {
        return;
      }
    }
  }
}
