/** One spreadsheet cell as the Python readers hand it over, and the trimming every reader applies to a row. */
module Cells {
  import Text

  /** `shown` is Python's `str()` of a number or a date. */
  datatype Cell =
    | Nil
    | Str(text: string)
    | Number(value: real, shown: string)
    | Day(serial: int, shown: string)

  function Show(c: Cell): string {
    match c
    case Nil => "None"
    case Str(text) => text
    case Number(_, shown) => shown
    case Day(_, shown) => shown
  }

  function Strip(s: string): (r: string)
    ensures Stripped(r)
  {
    Text.Strip(s, Text.PythonSpace)
  }

  predicate Stripped(s: string) {
    Text.Stripped(s, Text.PythonSpace)
  }

  predicate Blank(c: Cell) {
    c.Nil? || (c.Str? && Strip(c.text) == "")
  }

  /** The cells up to and including the last one that is not blank. */
  function Trimmed(cells: seq<Cell>): (r: seq<Cell>)
    ensures r <= cells
    ensures r == [] || !Blank(r[|r| - 1])
    ensures forall i :: |r| <= i < |cells| ==> Blank(cells[i])
  {
    if cells != [] && Blank(cells[|cells| - 1]) then Trimmed(cells[..|cells| - 1]) else cells
  }

  method TrimTrailingBlanks(cells: seq<Cell>) returns (r: seq<Cell>)
    ensures r == Trimmed(cells)
  {
    var end := |cells|;
    while end > 0 && Blank(cells[end - 1])
      invariant 0 <= end <= |cells|
      invariant Trimmed(cells[..end]) == Trimmed(cells)
    {
      assert cells[..end][..end - 1] == cells[..end - 1];
      end := end - 1;
    }
    r := cells[..end];
  }

  /** A prefix whose last cell is populated and past which everything is blank is the trimmed row. */
  lemma TrimmedUnique(cells: seq<Cell>, r: seq<Cell>)
    requires r <= cells
    requires r == [] || !Blank(r[|r| - 1])
    requires forall i :: |r| <= i < |cells| ==> Blank(cells[i])
    ensures Trimmed(cells) == r
  {
    var t := Trimmed(cells);
    assert |t| >= |r| by {
      if r != [] {
        assert !Blank(cells[|r| - 1]);
      }
    }
    assert |r| >= |t| by {
      if t != [] {
        assert !Blank(cells[|t| - 1]);
      }
    }
  }
}
