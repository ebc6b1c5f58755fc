/** Turning a stream of BIFF records into rows at a chosen width (ingest/app/workbook.py). */
module RawRows {
  import opened Wrappers
  import opened Cells

  /** One record of the sheet stream; a string cell carries the text its table index stands for. */
  datatype Item =
    | RowStart(r: nat)
    | Value(c: nat, v: Cell)
    | EndOfData
    | Ignored

  /** A zero-based row number and the cells read for it. */
  datatype RawRow = RawRow(num: int, cells: seq<Cell>)

  // ----- what a row reads as, with no buffer in sight -----

  /** The value records between one row start and the next. */
  datatype Segment = Segment(num: int, values: seq<Item>)

  /** Cuts the stream at every change of row number; records before the first row belong to none. */
  function Segments(items: seq<Item>, num: int, open: Option<seq<Item>>): seq<Segment> {
    if items == [] || items[0].EndOfData? then Closed(num, open)
    else if items[0].RowStart? && items[0].r != num then
      Closed(num, open) + Segments(items[1..], items[0].r, Some([]))
    else if items[0].Value? && open.Some? then
      Segments(items[1..], num, Some(open.value + [items[0]]))
    else
      Segments(items[1..], num, open)
  }

  /** The value a column ends up with: the last one written to it. */
  function LastValue(values: seq<Item>, c: nat): Cell {
    if values == [] then Nil
    else
      var last := values[|values| - 1];
      if last.Value? && last.c == c then last.v else LastValue(values[..|values| - 1], c)
  }

  function RowOf(values: seq<Item>, width: nat): (cells: seq<Cell>)
    ensures |cells| == width
  {
    seq(width, c requires 0 <= c < width => LastValue(values, c))
  }

  function Rows(segments: seq<Segment>, width: nat): (rows: seq<RawRow>)
    ensures |rows| == |segments|
  {
    seq(|segments|, i requires 0 <= i < |segments| => RawRow(segments[i].num, RowOf(segments[i].values, width)))
  }

  function Read(items: seq<Item>, width: nat): seq<RawRow> {
    Rows(Segments(items, -1, None), width)
  }

  // ----- the reader -----

  ghost function Buffered(row: array?<Cell>): Option<seq<Cell>>
    reads row
  {
    if row == null then None else Some(row[..])
  }

  /** Streams the rows of a sheet, allocating exactly `width` cells for each. */
  method IterRawRows(items: seq<Item>, width: nat) returns (rows: seq<RawRow>)
    ensures rows == Read(items, width)
  {
    hide RowOf, LastValue, Segments, Rows;
    rows := [];
    var rowNum: int := -1;
    var row: array?<Cell> := null;
    ghost var segments: seq<Segment> := [];
    ghost var open: Option<seq<Item>> := None;
    NoRows(width);
    assert items[0..] == items;
    for i := 0 to |items|
      invariant row != null ==> fresh(row) && open.Some? && row[..] == RowOf(open.value, width)
      invariant row == null ==> open.None?
      invariant segments + Segments(items[i..], rowNum, open) == Segments(items, -1, None)
      invariant rows == Rows(segments, width)
    {
      var item := items[i];
      SegmentsStep(items, i, rowNum, open);
      if item.RowStart? && item.r != rowNum {
        if row != null {
          rows := rows + [RawRow(rowNum, row[..])];
          RowsAppend(segments, Segment(rowNum, open.value), width);
          segments := segments + [Segment(rowNum, open.value)];
        }
        rowNum := item.r;
        row := new Cell[width](_ => Nil);
        open := Some([]);
        EmptyRow(width, row[..]);
      } else if item.Value? {
        if row != null {
          ghost var before := row[..];
          if item.c < row.Length {
            row[item.c] := item.v;
          }
          WriteIsLastValue(open.value, item, width, before, row[..]);
          open := Some(open.value + [item]);
        }
      } else if item.EndOfData? {
        if row != null {
          rows := rows + [RawRow(rowNum, row[..])];
          RowsAppend(segments, Segment(rowNum, open.value), width);
        }
        assert segments + Closed(rowNum, open) == Segments(items, -1, None);
        assert open.None? ==> segments + Closed(rowNum, open) == segments;
        return;
      }
    }
    SegmentsEnd(rowNum, open);
    assert items[|items|..] == [];
    assert open.None? ==> segments + Closed(rowNum, open) == segments;
    if row != null {
      rows := rows + [RawRow(rowNum, row[..])];
      RowsAppend(segments, Segment(rowNum, open.value), width);
    }
  }

  /** What closing the open row, if there is one, adds. */
  function Closed(num: int, open: Option<seq<Item>>): seq<Segment> {
    if open.Some? then [Segment(num, open.value)] else []
  }

  lemma SegmentsStep(items: seq<Item>, i: nat, num: int, open: Option<seq<Item>>)
    requires i < |items|
    ensures var item, rest := items[i], items[i + 1..];
            Segments(items[i..], num, open) ==
              if item.EndOfData? then Closed(num, open)
              else if item.RowStart? && item.r != num then Closed(num, open) + Segments(rest, item.r, Some([]))
              else if item.Value? && open.Some? then Segments(rest, num, Some(open.value + [item]))
              else Segments(rest, num, open)
  {
    assert items[i..][1..] == items[i + 1..];
  }

  lemma SegmentsEnd(num: int, open: Option<seq<Item>>)
    ensures Segments([], num, open) == Closed(num, open)
  {
  }

  lemma NoRows(width: nat)
    ensures Rows([], width) == []
  {
  }

  lemma RowsAppend(segments: seq<Segment>, last: Segment, width: nat)
    ensures Rows(segments + [last], width) == Rows(segments, width) + [RawRow(last.num, RowOf(last.values, width))]
  {
  }

  lemma EmptyRow(width: nat, cells: seq<Cell>)
    requires |cells| == width && forall c :: 0 <= c < width ==> cells[c] == Nil
    ensures cells == RowOf([], width)
  {
  }

  lemma WriteIsLastValue(values: seq<Item>, item: Item, width: nat, before: seq<Cell>, after: seq<Cell>)
    requires item.Value? && before == RowOf(values, width) && |after| == width
    requires after == if item.c < width then before[item.c := item.v] else before
    ensures after == RowOf(values + [item], width)
  {
    var more := values + [item];
    assert more[..|more| - 1] == values;
    forall c | 0 <= c < width ensures after[c] == LastValue(more, c) {
    }
  }

  // ----- which records make which cell -----

  /** Where the data ends: at its end record, or at the end of the stream. */
  function EndOf(items: seq<Item>): (e: nat)
    ensures e <= |items|
    ensures forall i :: 0 <= i < e ==> !items[i].EndOfData?
    ensures e < |items| ==> items[e].EndOfData?
  {
    if items == [] || items[0].EndOfData? then 0 else 1 + EndOf(items[1..])
  }

  /** A row start whose number is not that of the row start before it. */
  ghost predicate StartsRow(items: seq<Item>, i: nat) {
    && i < |items| && items[i].RowStart?
    && forall j :: 0 <= j < i && items[j].RowStart? && (forall k :: j < k < i ==> !items[k].RowStart?) ==>
         items[j].r != items[i].r
  }

  predicate Writes(item: Item, c: nat) {
    item.Value? && item.c == c
  }

  /** The last value written to the column strictly between two places, or nothing when none is. */
  ghost predicate LastWritten(items: seq<Item>, from: nat, to: nat, c: nat, v: Cell)
    requires to <= |items|
  {
    || (v == Nil && forall j :: from < j < to ==> !Writes(items[j], c))
    || (exists j :: from < j < to && Writes(items[j], c) && items[j].v == v
                 && forall k :: j < k < to ==> !Writes(items[k], c))
  }

  ghost predicate Increasing(at: seq<nat>) {
    forall j, k :: 0 <= j < k < |at| ==> at[j] < at[k]
  }

  /** Where the row that starts at the k-th place stops. */
  function StopOf(at: seq<nat>, k: nat, end: nat): nat {
    if k + 1 < |at| then at[k + 1] else end
  }

  /** One segment for each place a row starts at: its number, and the last value of every column. */
  ghost predicate Tells(items: seq<Item>, segments: seq<Segment>, at: seq<nat>) {
    && |at| == |segments| && Increasing(at)
    && (forall k :: 0 <= k < |at| ==> at[k] < EndOf(items) && items[at[k]].RowStart? && segments[k].num == items[at[k]].r)
    && (forall k, c: nat :: 0 <= k < |at| ==> TellsCell(items, segments, at, k, c))
  }

  ghost predicate TellsCell(items: seq<Item>, segments: seq<Segment>, at: seq<nat>, k: nat, c: nat)
    requires k < |at| == |segments|
  {
    var to := StopOf(at, k, EndOf(items));
    to <= |items| && LastWritten(items, at[k], to, c, LastValue(segments[k].values, c))
  }

  /** The number the stream is at: that of the last row start, or -1. */
  ghost predicate NumberAt(items: seq<Item>, p: nat, num: int)
    requires p <= |items|
  {
    && (num < 0 <==> forall j :: 0 <= j < p ==> !items[j].RowStart?)
    && forall j :: 0 <= j < p && items[j].RowStart? && (forall k :: j < k < p ==> !items[k].RowStart?) ==> items[j].r == num
  }

  lemma {:induction false} LastStart(items: seq<Item>, p: nat) returns (j: nat)
    requires p <= |items| && exists i :: 0 <= i < p && items[i].RowStart?
    ensures j < p && items[j].RowStart? && forall k :: j < k < p ==> !items[k].RowStart?
  {
    if items[p - 1].RowStart? {
      j := p - 1;
    } else {
      j := LastStart(items, p - 1);
    }
  }

  lemma NumberMoves(items: seq<Item>, p: nat, num: int)
    requires p < |items| && NumberAt(items, p, num)
    ensures NumberAt(items, p + 1, if items[p].RowStart? then items[p].r else num)
    ensures StartsRow(items, p) <==> items[p].RowStart? && items[p].r != num
  {
    if exists j :: 0 <= j < p && items[j].RowStart? {
      var j := LastStart(items, p);
    }
  }

  lemma ValueMoves(items: seq<Item>, from: nat, p: nat, values: seq<Item>, c: nat)
    requires from < p < |items| && LastWritten(items, from, p, c, LastValue(values, c))
    ensures LastWritten(items, from, p + 1, c, LastValue(if items[p].Value? then values + [items[p]] else values, c))
  {
    assert (values + [items[p]])[..|values|] == values;
    if Writes(items[p], c) {
      assert LastValue(values + [items[p]], c) == items[p].v;
    }
  }

  /** The rows from a place in the stream on; the one in progress, if any, started at `from`. */
  lemma {:induction false} SegmentsByRecords(items: seq<Item>, p: nat, num: int, open: Option<seq<Item>>, from: nat)
    returns (at: seq<nat>)
    requires p <= EndOf(items) && NumberAt(items, p, num) && (open.Some? <==> num >= 0)
    requires open.Some? ==> from < p && items[from].RowStart? && items[from].r == num
    requires open.Some? ==> forall c: nat :: LastWritten(items, from, p, c, LastValue(open.value, c))
    ensures Tells(items, Segments(items[p..], num, open), at)
    ensures open.Some? ==> |at| > 0 && at[0] == from
    ensures forall k :: 0 <= k < |at| ==> at[k] >= p || (k == 0 && open.Some?)
    ensures forall i :: p <= i < EndOf(items) ==> (i in at <==> StartsRow(items, i))
    decreases |items| - p
  {
    hide LastWritten, StartsRow, NumberAt, LastValue, Tells;
    var rest := items[p..];
    if p == EndOf(items) {
      at := if open.Some? then [from] else [];
      LastRowTells(items, num, open, from);
    } else {
      assert rest[0] == items[p] && rest[1..] == items[p + 1..];
      NumberMoves(items, p, num);
      if items[p].RowStart? && items[p].r != num {
        forall c: nat ensures LastWritten(items, p, p + 1, c, LastValue([], c)) {
          NothingWritten(items, p, c);
        }
        var more := SegmentsByRecords(items, p + 1, items[p].r, Some([]), p);
        at := (if open.Some? then [from] else []) + more;
        OneMoreRow(items, Segments(items[p + 1..], items[p].r, Some([])), more, num, open, from);
        if open.None? {
          assert at == more && Segments(rest, num, open) == Segments(items[p + 1..], items[p].r, Some([]));
        }
      } else {
        var open' := if items[p].Value? && open.Some? then Some(open.value + [items[p]]) else open;
        if open.Some? {
          forall c: nat ensures LastWritten(items, from, p + 1, c, LastValue(open'.value, c)) {
            ValueMoves(items, from, p, open.value, c);
          }
        }
        at := SegmentsByRecords(items, p + 1, num, open', from);
      }
    }
  }

  lemma NothingWritten(items: seq<Item>, p: nat, c: nat)
    requires p < |items|
    ensures LastWritten(items, p, p + 1, c, LastValue([], c))
  {
  }

  lemma LastRowTells(items: seq<Item>, num: int, open: Option<seq<Item>>, from: nat)
    requires open.Some? ==> from < EndOf(items) && items[from].RowStart? && items[from].r == num
    requires open.Some? ==> forall c: nat :: LastWritten(items, from, EndOf(items), c, LastValue(open.value, c))
    ensures Segments(items[EndOf(items)..], num, open) == Closed(num, open)
    ensures Tells(items, Closed(num, open), if open.Some? then [from] else [])
  {
    hide LastWritten, LastValue;
  }

  /** The row in progress closes where the next one starts. */
  lemma OneMoreRow(items: seq<Item>, segments: seq<Segment>, more: seq<nat>, num: int, open: Option<seq<Item>>, from: nat)
    requires Tells(items, segments, more) && more != []
    requires open.Some? ==> from < more[0] && items[from].RowStart? && items[from].r == num
    requires open.Some? ==> forall c: nat :: LastWritten(items, from, more[0], c, LastValue(open.value, c))
    ensures open.Some? ==> Tells(items, [Segment(num, open.value)] + segments, [from] + more)
  {
    hide LastWritten, LastValue;
    if open.Some? {
      var at, all := [from] + more, [Segment(num, open.value)] + segments;
      forall k, c: nat | 0 <= k < |at| ensures TellsCell(items, all, at, k, c) {
        if k > 0 {
          assert TellsCell(items, segments, more, k - 1, c);
          assert StopOf(at, k, EndOf(items)) == StopOf(more, k - 1, EndOf(items));
        }
      }
    }
  }

  /** Rows start at these records, in this order, and hold these values. */
  ghost predicate ReadFrom(items: seq<Item>, width: nat, rows: seq<RawRow>, at: seq<nat>) {
    && |at| == |rows| && Increasing(at)
    && (forall i: nat :: i in at <==> i < EndOf(items) && StartsRow(items, i))
    && (forall k :: 0 <= k < |at| ==>
         && at[k] < EndOf(items) && items[at[k]].RowStart? && StopOf(at, k, EndOf(items)) <= |items|
         && rows[k].num == items[at[k]].r && |rows[k].cells| == width
         && forall c :: 0 <= c < width ==> LastWritten(items, at[k], StopOf(at, k, EndOf(items)), c, rows[k].cells[c]))
  }

  /**
   * A row for each record that starts one, in the order of the stream, under that record's number; each of its cells
   * is the last value written to that column before the next row starts or the data ends.
   */
  lemma ReadByRecords(items: seq<Item>, width: nat) returns (at: seq<nat>)
    ensures ReadFrom(items, width, Read(items, width), at)
  {
    hide LastWritten, StartsRow, LastValue, Segments;
    at := SegmentsByRecords(items, 0, -1, None, 0);
    assert items[0..] == items;
    var segments, rows := Segments(items, -1, None), Read(items, width);
    forall k, c: nat | 0 <= k < |at| && c < width
      ensures LastWritten(items, at[k], StopOf(at, k, EndOf(items)), c, rows[k].cells[c])
    {
      assert TellsCell(items, segments, at, k, c);
      assert rows[k].cells[c] == LastValue(segments[k].values, c);
    }
  }

  // ----- narrow is a truncation of wide -----

  function Truncate(rows: seq<RawRow>, w: nat): (cut: seq<RawRow>)
    requires forall i :: 0 <= i < |rows| ==> w <= |rows[i].cells|
    ensures |cut| == |rows|
  {
    seq(|rows|, i requires 0 <= i < |rows| => RawRow(rows[i].num, rows[i].cells[..w]))
  }

  /** Reading at a narrow width yields the same rows as reading wide and keeping the first cells of each. */
  lemma NarrowIsTruncatedWide(items: seq<Item>, declared: nat, w: nat)
    requires w <= declared
    ensures Read(items, w) == Truncate(Read(items, declared), w)
  {
    var segments := Segments(items, -1, None);
    forall i | 0 <= i < |segments|
      ensures RowOf(segments[i].values, w) == RowOf(segments[i].values, declared)[..w]
    {
    }
  }
}
