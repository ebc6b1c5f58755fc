/** Naming the columns of a sheet from a malformed header row (ingest/app/workbook.py). */
module Columns {
  import opened Cells
  import Decimal
  import Text

  // ----- the names -----

  function Placeholder(position: nat): string {
    "(column " + Decimal.Render(position) + ")"
  }

  function Suffixed(header: string, k: nat): string {
    header + " (" + Decimal.Render(k) + ")"
  }

  /** The stripped header texts, with `""` for a blank cell. */
  function Headers(cells: seq<Cell>): (hs: seq<string>)
    ensures |hs| == |Trimmed(cells)|
    ensures forall i :: 0 <= i < |hs| ==> Stripped(hs[i])
  {
    var t := Trimmed(cells);
    seq(|t|, i requires 0 <= i < |t| => HeaderText(t[i]))
  }

  function HeaderText(c: Cell): (h: string)
    ensures Stripped(h)
  {
    if Blank(c) then "" else Strip(Show(c))
  }

  function Count(hs: seq<string>, h: string): nat {
    multiset(hs)[h]
  }

  /** How many headers up to and including position `i` read the same as the one there. */
  function Occurrence(hs: seq<string>, i: nat): nat
    requires i < |hs|
  {
    Count(hs[..i + 1], hs[i])
  }

  function Name(hs: seq<string>, i: nat): string
    requires i < |hs|
  {
    if hs[i] == "" then Placeholder(i + 1)
    else if Count(hs, hs[i]) > 1 then Suffixed(hs[i], Occurrence(hs, i))
    else hs[i]
  }

  function Names(hs: seq<string>): (names: seq<string>)
    ensures |names| == |hs|
  {
    seq(|hs|, i requires 0 <= i < |hs| => Name(hs, i))
  }

  method BuildColumns(headerCells: seq<Cell>) returns (out: seq<string>)
    ensures out == Names(Headers(headerCells))
  {
    var trimmed := TrimTrailingBlanks(headerCells);
    var headers := [];
    for i := 0 to |trimmed|
      invariant |headers| == i && forall j :: 0 <= j < i ==> headers[j] == HeaderText(trimmed[j])
    {
      headers := headers + [HeaderText(trimmed[i])];
    }
    assert headers == Headers(headerCells);
    var totals := CountHeaders(headers);
    out := NameHeaders(headers, totals);
  }

  /** `counts.get(h, 0)`. */
  function Tally(counts: map<string, nat>, h: string): nat {
    if h in counts then counts[h] else 0
  }

  lemma TallyPut(counts: map<string, nat>, h: string, n: nat, x: string)
    ensures Tally(counts[h := n], x) == if x == h then n else Tally(counts, x)
  {
  }

  lemma CountStep(hs: seq<string>, i: nat, h: string)
    requires i < |hs|
    ensures Count(hs[..i + 1], h) == Count(hs[..i], h) + if h == hs[i] then 1 else 0
  {
    assert hs[..i + 1] == hs[..i] + [hs[i]];
  }

  lemma CountNone(hs: seq<string>)
    ensures forall h :: Count(hs[..0], h) == 0 == Tally(map[], h)
  {
  }

  /** First pass: how often each populated header occurs. */
  method CountHeaders(headers: seq<string>) returns (totals: map<string, nat>)
    ensures forall h :: h != "" ==> Tally(totals, h) == Count(headers, h)
  {
    hide Tally, Count;
    totals := map[];
    CountNone(headers);
    for i := 0 to |headers|
      invariant forall h :: h != "" ==> Tally(totals, h) == Count(headers[..i], h)
    {
      var h := headers[i];
      ghost var before := totals;
      if h != "" {
        totals := totals[h := Tally(totals, h) + 1];
      }
      forall x | x != "" ensures Tally(totals, x) == Count(headers[..i + 1], x) {
        CountStep(headers, i, x);
        TallyPut(before, h, Tally(before, h) + 1, x);
      }
    }
    assert headers[..|headers|] == headers;
  }

  /** Second pass: number the repeats in the order they are met. */
  method NameHeaders(headers: seq<string>, totals: map<string, nat>) returns (out: seq<string>)
    requires forall h :: h != "" ==> Tally(totals, h) == Count(headers, h)
    ensures out == Names(headers)
  {
    hide Placeholder, Suffixed, Count, Name, Occurrence, Tally;
    var seen: map<string, nat> := map[];
    out := [];
    CountNone(headers);
    for i := 0 to |headers|
      invariant |out| == i && forall j :: 0 <= j < i ==> out[j] == Name(headers, j)
      invariant forall h :: h != "" && Tally(totals, h) > 1 ==> Tally(seen, h) == Count(headers[..i], h)
    {
      var h := headers[i];
      NameCases(headers, i);
      CountStep(headers, i, h);
      var k := Tally(seen, h) + 1;
      ghost var before := seen;
      if h == "" {
        out := out + [Placeholder(i + 1)];
      } else if Tally(totals, h) > 1 {
        seen := seen[h := k];
        out := out + [Suffixed(h, k)];
      } else {
        out := out + [h];
      }
      forall x | x != "" && Tally(totals, x) > 1 ensures Tally(seen, x) == Count(headers[..i + 1], x) {
        CountStep(headers, i, x);
        TallyPut(before, h, k, x);
      }
    }
  }

  lemma NameCases(hs: seq<string>, i: nat)
    requires i < |hs|
    ensures hs[i] == "" ==> Name(hs, i) == Placeholder(i + 1)
    ensures hs[i] != "" && Count(hs, hs[i]) > 1 ==> Name(hs, i) == Suffixed(hs[i], Count(hs[..i + 1], hs[i]))
    ensures hs[i] != "" && Count(hs, hs[i]) <= 1 ==> Name(hs, i) == hs[i]
  {
  }

  // ----- suffixes can be read back -----

  /** The last opening parenthesis of a numbered header is the one before its number. */
  lemma LastParenthesis(h: string, k: nat)
    ensures var s := Suffixed(h, k);
            |s| > |h| + 1 && s[|h| + 1] == '(' && forall i :: |h| + 1 < i < |s| ==> s[i] != '('
  {
    var s, d := Suffixed(h, k), Decimal.Render(k);
    forall i | |h| + 1 < i < |s| - 1 ensures s[i] != '(' {
      assert s[i] == d[i - |h| - 2];
    }
  }

  lemma SuffixedInjective(h: string, k: nat, h': string, k': nat)
    requires Suffixed(h, k) == Suffixed(h', k')
    ensures h == h' && k == k'
  {
    var s, s' := Suffixed(h, k), Suffixed(h', k');
    LastParenthesis(h, k);
    LastParenthesis(h', k');
    assert |h| == |h'|;
    assert h == s[..|h|] && h' == s'[..|h|];
    assert Decimal.Render(k) == s[|h| + 2..|s| - 1] && Decimal.Render(k') == s'[|h| + 2..|s| - 1];
    Decimal.RenderInjective(k, k');
  }

  lemma PlaceholderInjective(m: nat, n: nat)
    requires Placeholder(m) == Placeholder(n)
    ensures m == n
  {
    var s, s' := Placeholder(m), Placeholder(n);
    assert Decimal.Render(m) == s[8..|s| - 1];
    assert Decimal.Render(n) == s'[8..|s| - 1];
    Decimal.RenderInjective(m, n);
  }

  lemma PlaceholderIsNotSuffixed(n: nat, h: string, k: nat)
    requires h != ""
    ensures Placeholder(n) != Suffixed(h, k)
  {
    var s, d := Placeholder(n), Decimal.Render(n);
    LastParenthesis(h, k);
    forall i | 0 < i < |s| ensures s[i] != '(' {
      if 8 <= i < |s| - 1 {
        assert s[i] == d[i - 8];
      }
    }
  }

  // ----- when the names are distinct -----

  ghost predicate Distinct(names: seq<string>) {
    forall i, j :: 0 <= i < j < |names| ==> names[i] != names[j]
  }

  /** `name` is one `BuildColumns` makes up for these headers: a numbered repeat or a blank's placeholder. */
  ghost predicate Generated(hs: seq<string>, name: string) {
    || (exists h, k: nat :: h in hs && h != "" && Count(hs, h) > 1 && 1 <= k <= Count(hs, h) && name == Suffixed(h, k))
    || (exists n: nat :: n < |hs| && hs[n] == "" && name == Placeholder(n + 1))
  }

  /** Some header that occurs exactly once already reads like a generated name. */
  ghost predicate Clash(hs: seq<string>) {
    exists i :: 0 <= i < |hs| && hs[i] != "" && Count(hs, hs[i]) == 1 && Generated(hs, hs[i])
  }

  lemma {:induction false} OccurrenceExists(hs: seq<string>, h: string, k: nat) returns (i: nat)
    requires 1 <= k <= Count(hs, h)
    ensures i < |hs| && hs[i] == h && Occurrence(hs, i) == k
  {
    var n := |hs| - 1;
    assert hs == hs[..n] + [hs[n]];
    if k <= Count(hs[..n], h) {
      i := OccurrenceExists(hs[..n], h, k);
      assert hs[..n][..i + 1] == hs[..i + 1];
    } else {
      i := n;
      assert hs[..n + 1] == hs;
    }
  }

  lemma OccurrenceGrows(hs: seq<string>, i: nat, j: nat)
    requires i < j < |hs| && hs[i] == hs[j]
    ensures 1 <= Occurrence(hs, i) < Occurrence(hs, j)
  {
    assert hs[..j + 1] == hs[..i + 1] + hs[i + 1..j + 1];
    assert hs[i + 1..j + 1][j - i - 1] == hs[j];
    assert hs[..i + 1] == hs[..i] + [hs[i]];
  }

  lemma OccurrenceInRange(hs: seq<string>, i: nat)
    requires i < |hs|
    ensures 1 <= Occurrence(hs, i) <= Count(hs, hs[i])
  {
    assert hs[..i + 1] == hs[..i] + [hs[i]];
    assert hs == hs[..i + 1] + hs[i + 1..];
  }

  lemma TwiceIsRepeated(hs: seq<string>, i: nat, j: nat)
    requires i < j < |hs| && hs[i] == hs[j]
    ensures Count(hs, hs[i]) > 1
  {
    OccurrenceGrows(hs, i, j);
    OccurrenceInRange(hs, j);
  }

  /** A name that is not the header itself is a generated one. */
  lemma MadeUpIsGenerated(hs: seq<string>, i: nat)
    requires i < |hs| && (hs[i] == "" || Count(hs, hs[i]) > 1)
    ensures Generated(hs, Name(hs, i))
  {
    OccurrenceInRange(hs, i);
  }

  /** Two names that agree come from one once-occurring header and one generated name. */
  lemma EqualNamesClash(hs: seq<string>, i: nat, j: nat)
    requires i < j < |hs| && Name(hs, i) == Name(hs, j)
    ensures Clash(hs)
  {
    var once := (x: string) => x != "" && Count(hs, x) == 1;
    if once(hs[i]) || once(hs[j]) {
      if once(hs[i]) && once(hs[j]) {
        TwiceIsRepeated(hs, i, j);
      } else if once(hs[i]) {
        assert hs[j] in hs;
        MadeUpIsGenerated(hs, j);
      } else {
        assert hs[i] in hs;
        MadeUpIsGenerated(hs, i);
      }
    } else if hs[i] == "" && hs[j] == "" {
      PlaceholderInjective(i + 1, j + 1);
    } else if hs[i] == "" {
      PlaceholderIsNotSuffixed(i + 1, hs[j], Occurrence(hs, j));
    } else if hs[j] == "" {
      PlaceholderIsNotSuffixed(j + 1, hs[i], Occurrence(hs, i));
    } else {
      SuffixedInjective(hs[i], Occurrence(hs, i), hs[j], Occurrence(hs, j));
      OccurrenceGrows(hs, i, j);
    }
  }

  lemma ClashGivesEqualNames(hs: seq<string>) returns (i: nat, j: nat)
    requires Clash(hs)
    ensures i < |hs| && j < |hs| && i != j && Name(hs, i) == Name(hs, j)
  {
    i :| 0 <= i < |hs| && hs[i] != "" && Count(hs, hs[i]) == 1 && Generated(hs, hs[i]);
    if n: nat :| n < |hs| && hs[n] == "" && hs[i] == Placeholder(n + 1) {
      j := n;
    } else {
      var h, k: nat :| h in hs && h != "" && Count(hs, h) > 1 && 1 <= k <= Count(hs, h) && hs[i] == Suffixed(h, k);
      j := OccurrenceExists(hs, h, k);
    }
  }

  /** Names are distinct exactly when no once-occurring header reads like a generated name. */
  lemma DistinctExactlyWithoutClash(hs: seq<string>)
    ensures Distinct(Names(hs)) <==> !Clash(hs)
  {
    if Clash(hs) {
      var i, j := ClashGivesEqualNames(hs);
      if i < j {
        assert Names(hs)[i] == Names(hs)[j];
      } else {
        assert Names(hs)[j] == Names(hs)[i];
      }
    } else {
      forall i, j | 0 <= i < j < |hs| ensures Names(hs)[i] != Names(hs)[j] {
        if Name(hs, i) == Name(hs, j) {
          EqualNamesClash(hs, i, j);
        }
      }
    }
  }

  // ----- naming is stable -----

  function AsCells(names: seq<string>): (cells: seq<Cell>)
    ensures |cells| == |names|
  {
    seq(|names|, i requires 0 <= i < |names| => Str(names[i]))
  }

  lemma NamesAreStripped(hs: seq<string>, i: nat)
    requires i < |hs| && Stripped(hs[i])
    ensures Name(hs, i) != "" && Stripped(Name(hs, i))
  {
    var name := Name(hs, i);
    if hs[i] == "" {
      assert name[0] == '(' && name[|name| - 1] == ')';
    } else if Count(hs, hs[i]) > 1 {
      assert name[0] == hs[i][0] && name[|name| - 1] == ')';
    }
  }

  /** A header row of stripped, populated texts reads back as itself. */
  lemma HeadersOfNames(names: seq<string>)
    requires forall i :: 0 <= i < |names| ==> names[i] != "" && Stripped(names[i])
    ensures Headers(AsCells(names)) == names
  {
    var cells := AsCells(names);
    forall i | 0 <= i < |cells| ensures !Blank(cells[i]) && HeaderText(cells[i]) == names[i] {
      Text.StripFixpoint(names[i], Text.PythonSpace);
    }
    TrimmedUnique(cells, cells);
  }

  lemma DistinctOccurOnce(names: seq<string>, i: nat)
    requires Distinct(names) && i < |names|
    ensures Count(names, names[i]) == 1
  {
    assert names == names[..i] + [names[i]] + names[i + 1..];
  }

  /** Naming the named row again changes nothing, exactly when the names were distinct. */
  lemma RenamingIsIdentity(cells: seq<Cell>)
    ensures var names := Names(Headers(cells));
            Names(Headers(AsCells(names))) == names <==> Distinct(names)
  {
    var hs := Headers(cells);
    var names := Names(hs);
    forall i | 0 <= i < |hs| ensures names[i] != "" && Stripped(names[i]) {
      NamesAreStripped(hs, i);
    }
    HeadersOfNames(names);
    if Distinct(names) {
      forall i | 0 <= i < |names| ensures Name(names, i) == names[i] {
        DistinctOccurOnce(names, i);
      }
    } else {
      var i, j :| 0 <= i < j < |names| && names[i] == names[j];
      TwiceIsRepeated(names, i, j);
      assert |Name(names, i)| > |names[i]|;
    }
  }

  // ----- narrowing before naming -----

  /** Naming a row before cutting it to `w` columns. */
  function CutAfterNaming(hs: seq<string>, w: nat): seq<string>
    requires w <= |hs|
  {
    Names(hs)[..w]
  }

  /** Debris past the cut renames a real column exactly when it repeats a header that occurred once. */
  lemma NarrowingOrderMatters(hs: seq<string>, w: nat)
    requires w <= |hs|
    ensures CutAfterNaming(hs, w) == Names(hs[..w])
       <==> forall h :: h in hs[w..] && h != "" ==> Count(hs[..w], h) != 1
  {
    var run, debris := hs[..w], hs[w..];
    assert hs == run + debris;
    if h :| h in debris && h != "" && Count(run, h) == 1 {
      assert h in run;
      var i :| 0 <= i < w && run[i] == h;
      assert CutAfterNaming(hs, w)[i] == Suffixed(h, Occurrence(hs, i));
      assert Names(run)[i] == h;
    } else {
      forall i | 0 <= i < w ensures Name(hs, i) == Name(run, i) {
        assert run[..i + 1] == hs[..i + 1];
        assert run[i] in run;
        if run[i] != "" && Count(run, run[i]) == 1 {
          assert run[i] !in debris;
        }
      }
    }
  }

  /** A header is its cell's text without the white space around it, as far as the last cell that has any. */
  lemma HeadersExactly(cells: seq<Cell>, i: nat)
    requires i < |Headers(cells)|
    ensures i < |cells| && (Blank(cells[i]) ==> Headers(cells)[i] == "")
    ensures cells[i].Str? ==> Headers(cells)[i] == Text.Strip(cells[i].text, Text.PythonSpace)
    ensures !Blank(cells[i]) && !cells[i].Str? ==> Headers(cells)[i] == Text.Strip(cells[i].shown, Text.PythonSpace)
    ensures forall j :: |Headers(cells)| <= j < |cells| ==> Blank(cells[j])
  {
    hide Text.StripLeft, Text.StripRight;
  }

  // ----- the text of a generated name -----

  /** The first places that hold a header. */
  ghost function Places(hs: seq<string>, n: nat, h: string): set<nat>
    requires n <= |hs|
  {
    set j: nat | j < n && hs[j] == h
  }

  lemma PlacesStep(hs: seq<string>, n: nat, h: string)
    requires n < |hs|
    ensures Places(hs, n + 1, h) == if hs[n] == h then Places(hs, n, h) + {n} else Places(hs, n, h)
    ensures |Places(hs, n + 1, h)| == |Places(hs, n, h)| + if hs[n] == h then 1 else 0
  {
  }

  lemma {:induction false} OccurrencesAreCounted(hs: seq<string>, n: nat, h: string)
    requires n <= |hs|
    ensures Count(hs[..n], h) == |Places(hs, n, h)|
  {
    hide Places, Count;
    if n == 0 {
      NoPlaces(hs, h);
    } else {
      OccurrencesAreCounted(hs, n - 1, h);
      CountStep(hs, n - 1, h);
      PlacesStep(hs, n - 1, h);
    }
  }

  lemma NoPlaces(hs: seq<string>, h: string)
    ensures Places(hs, 0, h) == {} && Count(hs[..0], h) == 0
  {
  }

  lemma RepeatedExactly(hs: seq<string>, i: nat)
    requires i < |hs|
    ensures Count(hs, hs[i]) > 1 <==> exists j :: 0 <= j < |hs| && j != i && hs[j] == hs[i]
  {
    hide Count;
    OccurrencesAreCounted(hs, |hs|, hs[i]);
    assert hs[..|hs|] == hs;
    var all := Places(hs, |hs|, hs[i]);
    assert i in all && |all - {i}| == |all| - 1;
    if j: nat :| j < |hs| && j != i && hs[j] == hs[i] {
      assert j in all - {i};
    } else {
      assert all - {i} == {};
    }
  }

  /**
   * A header that occurs once names its column; of several equal ones each gets a number in parentheses, its place
   * among them; a blank one gets its position in the sheet.
   */
  lemma NamesExactly(hs: seq<string>, i: nat)
    requires i < |hs|
    ensures hs[i] == "" ==> Names(hs)[i] == "(column " + Decimal.Render(i + 1) + ")"
    ensures hs[i] != "" && (forall j :: 0 <= j < |hs| && j != i ==> hs[j] != hs[i]) ==> Names(hs)[i] == hs[i]
    ensures hs[i] != "" && (exists j :: 0 <= j < |hs| && j != i && hs[j] == hs[i]) ==>
              Names(hs)[i] == hs[i] + " (" + Decimal.Render(|Places(hs, i + 1, hs[i])|) + ")"
  {
    hide Decimal.Render, Count, Places;
    OccurrencesAreCounted(hs, i + 1, hs[i]);
    RepeatedExactly(hs, i);
  }

  /** The first of equal headers is numbered 1, the second 2. */
  lemma FirstTwoRepeats(hs: seq<string>, i: nat, k: nat)
    requires i < k < |hs| && hs[i] == hs[k] != ""
    requires forall j :: 0 <= j < k && j != i ==> hs[j] != hs[i]
    ensures Names(hs)[i] == hs[i] + " (1)" && Names(hs)[k] == hs[i] + " (2)"
  {
    NamesExactly(hs, i);
    NamesExactly(hs, k);
    hide Names;
    assert Places(hs, i + 1, hs[i]) == {i} && Places(hs, k + 1, hs[i]) == {i, k};
    assert Decimal.Render(1) == "1" && Decimal.Render(2) == "2";
  }
}
