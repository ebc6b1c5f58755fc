/** One streamed row to one lead, or to nothing when the row has no identity (ingest/app/leads.py). */
module Leads {
  import opened Wrappers
  import opened Cells
  import opened Sheets
  import Decimal
  import OrderedDict
  import Text

  // ----- normalising a cell -----

  const SENTINELS: set<string> := {"-", "na", "n/a", "null", "#n/a", "nil", "none", ""}

  function NormalizeText(value: Cell): Option<string> {
    if value.Nil? then None
    else
      var text := Strip(Text.Collapse(Show(value), Text.PythonSpace));
      if Text.Lower(text) in SENTINELS || text == "" then None else Some(text)
  }

  function ShowInt(n: int): string {
    if n < 0 then "-" + Decimal.Render(-n) else Decimal.Render(n)
  }

  /** An integral number becomes its plain digits; anything else is text. */
  function NormalizeIdentifier(value: Cell): Option<string> {
    if value.Number? && value.value.Floor as real == value.value then Some(ShowInt(value.value.Floor))
    else NormalizeText(value)
  }

  predicate CodeChar(c: char) {
    'A' <= c <= 'Z' || Decimal.IsDigit(c)
  }

  /** `^[A-Z0-9][A-Z0-9\-]{2,31}$`. */
  predicate IsSmCode(s: string) {
    3 <= |s| <= 32 && CodeChar(s[0]) && forall i :: 1 <= i < |s| ==> CodeChar(s[i]) || s[i] == '-'
  }

  function NormalizeSmCode(value: Cell): Option<string> {
    var text := NormalizeIdentifier(value);
    if text.Some? && IsSmCode(Text.Upper(text.value)) then Some(Text.Upper(text.value)) else None
  }

  /** Serials below 1 are times of day and above 60000 are likelier identifiers. */
  function ExcelSerialToDay(value: Cell): Option<int> {
    match value
    case Day(serial, _) => Some(serial)
    case Number(x, _) => if x < 1.0 || x > 60000.0 then None else Some(x.Floor)
    case _ => None
  }

  const UNASSIGNED_SM_CODE := "111222-UN"

  predicate IsUnassigned(code: Option<string>) {
    code.None? || Text.Upper(code.value) == UNASSIGNED_SM_CODE
  }

  // ----- mapping a row -----

  /** The targets named by the column map; `SourceTarget` is named but no lead carries it. */
  datatype Target =
    | LeadNo | ProdId | ProductMix | TlName | Location | LocationAlt | SavingFlag | RegisterDate
    | ProductType | Source | SmName | SmCode | CcmName | CcmCode | SourceTarget

  function TargetOf(header: string): Option<Target> {
    match header
    case "LEAD_NO" => Some(LeadNo)
    case "PROD_ID" => Some(ProdId)
    case "Product Mix" => Some(ProductMix)
    case "TL_NAME" => Some(TlName)
    case "Location (1)" => Some(Location)
    case "Location (2)" => Some(LocationAlt)
    case "Location" => Some(Location)
    case "Saving Yes/No" => Some(SavingFlag)
    case "Register Date" => Some(RegisterDate)
    case "Product type" => Some(ProductType)
    case "Source" => Some(Source)
    case "SM Name" => Some(SmName)
    case "SM_CODE" => Some(SmCode)
    case "CCM" => Some(CcmName)
    case "CCM Code" => Some(CcmCode)
    case "Source For Jun Target" => Some(SourceTarget)
    case _ => None
  }

  /** The column feeds a field that a lead has. */
  predicate FeedsField(header: string) {
    TargetOf(header).Some? && !TargetOf(header).value.SourceTarget?
  }

  type Mapped = map<Target, Cell>

  function MappedOf(row: Row): Mapped {
    if row == [] then map[]
    else
      var (header, value) := row[|row| - 1];
      var m := MappedOf(row[..|row| - 1]);
      if FeedsField(header) then m[TargetOf(header).value := value] else m
  }

  function ExtraOf(row: Row): OrderedDict.Dict<string> {
    if row == [] then []
    else
      var (header, value) := row[|row| - 1];
      var extra := ExtraOf(row[..|row| - 1]);
      if !FeedsField(header) && NormalizeText(value).Some?
      then OrderedDict.Put(extra, header, NormalizeText(value).value) else extra
  }

  datatype Lead = Lead(
    leadNo: string, smCode: Option<string>, smName: Option<string>, tlName: Option<string>,
    ccmName: Option<string>, ccmCode: Option<string>, location: Option<string>, locationAlt: Option<string>,
    registerDay: Option<int>, source: Option<string>, productType: Option<string>, productMix: Option<string>,
    prodId: Option<string>, savingFlag: Option<string>, extra: OrderedDict.Dict<string>)

  function Field(m: Mapped, t: Target): Cell {
    if t in m then m[t] else Nil
  }

  function FromMapped(m: Mapped, extra: OrderedDict.Dict<string>): Option<Lead> {
    var leadNo := NormalizeIdentifier(Field(m, LeadNo));
    if leadNo.None? || leadNo.value == "" then None
    else Some(Lead(
      leadNo.value,
      NormalizeSmCode(Field(m, SmCode)), NormalizeText(Field(m, SmName)), NormalizeText(Field(m, TlName)),
      NormalizeText(Field(m, CcmName)), NormalizeIdentifier(Field(m, CcmCode)), NormalizeText(Field(m, Location)),
      NormalizeText(Field(m, LocationAlt)), ExcelSerialToDay(Field(m, RegisterDate)), NormalizeText(Field(m, Source)),
      NormalizeText(Field(m, ProductType)), NormalizeText(Field(m, ProductMix)), NormalizeIdentifier(Field(m, ProdId)),
      NormalizeText(Field(m, SavingFlag)), extra))
  }

  function LeadOf(row: Row): Option<Lead> {
    FromMapped(MappedOf(row), ExtraOf(row))
  }

  method RowToLead(row: Row) returns (lead: Option<Lead>)
    ensures lead == LeadOf(row)
  {
    var mapped: Mapped := map[];
    var extra: OrderedDict.Dict<string> := [];
    for i := 0 to |row|
      invariant mapped == MappedOf(row[..i])
      invariant extra == ExtraOf(row[..i])
    {
      assert row[..i + 1][..i] == row[..i];
      var (header, value) := row[i];
      if !FeedsField(header) {
        var text := NormalizeText(value);
        if text.Some? {
          extra := OrderedDict.Put(extra, header, text.value);
        }
      } else {
        mapped := mapped[TargetOf(header).value := value];
      }
    }
    assert row[..|row|] == row;
    lead := FromMapped(mapped, extra);
  }

  // ----- nothing is lost -----

  /** A column outside the lead's fields is kept under its header exactly when it says something. */
  lemma {:induction false} UnmappedColumnsKept(row: Row, header: string)
    requires OrderedDict.Distinct(row)
    ensures OrderedDict.Get(ExtraOf(row), header) ==
            var value := OrderedDict.Get(row, header);
            if value.Some? && !FeedsField(header) then NormalizeText(value.value) else None
  {
    if row != [] {
      var n := |row| - 1;
      UnmappedColumnsKept(row[..n], header);
      var (last, value) := row[n];
      if !FeedsField(last) && NormalizeText(value).Some? {
        OrderedDict.PutThenGet(ExtraOf(row[..n]), last, NormalizeText(value).value, header);
      }
      GetPrefix(row, header);
    }
  }

  lemma GetPrefix(row: Row, header: string)
    requires row != [] && OrderedDict.Distinct(row)
    ensures OrderedDict.Get(row, header) ==
            if row[|row| - 1].0 == header then Some(row[|row| - 1].1) else OrderedDict.Get(row[..|row| - 1], header)
    ensures row[|row| - 1].0 == header ==> OrderedDict.Get(row[..|row| - 1], header) == None
  {
    var i, j := OrderedDict.IndexOf(row, header), OrderedDict.IndexOf(row[..|row| - 1], header);
    if j < |row| - 1 {
      assert row[j].0 == header;
    }
  }

  /** A field holds the last of the columns that feed it, and is empty when none does. */
  lemma {:induction false} FieldIsLastFeeding(row: Row, i: nat)
    requires i < |row| && FeedsField(row[i].0)
    requires forall j :: i < j < |row| ==> TargetOf(row[j].0) != TargetOf(row[i].0)
    ensures Field(MappedOf(row), TargetOf(row[i].0).value) == row[i].1
  {
    if i < |row| - 1 {
      FieldIsLastFeeding(row[..|row| - 1], i);
    }
  }

  // ----- which header fills which field -----

  /** The cell under a header, and an absent one when the row has no such column. */
  function Under(row: Row, header: string): Cell {
    var value := OrderedDict.Get(row, header);
    if value.Some? then value.value else Nil
  }

  /** A field that one header of the row feeds holds the cell under it. */
  lemma {:induction false} FieldIsUnder(row: Row, header: string, t: Target)
    requires OrderedDict.Distinct(row) && TargetOf(header) == Some(t) && t != SourceTarget
    requires forall i :: 0 <= i < |row| && TargetOf(row[i].0) == Some(t) ==> row[i].0 == header
    ensures Field(MappedOf(row), t) == Under(row, header)
  {
    hide TargetOf;
    if row != [] {
      FieldIsUnder(row[..|row| - 1], header, t);
      GetPrefix(row, header);
    }
  }

  lemma LocationHeaders(header: string)
    ensures TargetOf(header) == Some(Location) <==> header == "Location" || header == "Location (1)"
  {
  }

  /** Of the two headers that feed the location, the one further right wins. */
  lemma {:induction false} LocationIsLater(row: Row)
    requires OrderedDict.Distinct(row)
    ensures var first, plain := OrderedDict.IndexOf(row, "Location (1)"), OrderedDict.IndexOf(row, "Location");
            Field(MappedOf(row), Location) ==
            Under(row, if first < |row| && (plain == |row| || plain < first) then "Location (1)" else "Location")
  {
    hide TargetOf, OrderedDict.IndexOf, OrderedDict.Get;
    if row != [] {
      var n := |row| - 1;
      LocationIsLater(row[..n]);
      GetPrefix(row, "Location");
      GetPrefix(row, "Location (1)");
      IndexPrefix(row, "Location");
      IndexPrefix(row, "Location (1)");
      LocationHeaders(row[n].0);
    } else {
      NothingUnder("Location");
    }
  }

  lemma NothingUnder(header: string)
    ensures Under([], header) == Nil
  {
  }

  lemma IndexPrefix(row: Row, header: string)
    requires row != [] && OrderedDict.Distinct(row)
    ensures var i, j, n := OrderedDict.IndexOf(row, header), OrderedDict.IndexOf(row[..|row| - 1], header), |row| - 1;
            && (row[n].0 == header ==> i == n == j)
            && (row[n].0 != header ==> (j < n ==> i == j) && (j == n ==> i == n + 1))
  {
    hide OrderedDict.IndexOf;
    var i, j, n := OrderedDict.IndexOf(row, header), OrderedDict.IndexOf(row[..|row| - 1], header), |row| - 1;
    assert forall k :: 0 <= k < n ==> row[..n][k] == row[k];
  }

  /** The fifteen headers that fill a field of a lead. */
  const FIELD_HEADERS: set<string> := {
    "LEAD_NO", "PROD_ID", "Product Mix", "TL_NAME", "Location (1)", "Location (2)", "Location", "Saving Yes/No",
    "Register Date", "Product type", "Source", "SM Name", "SM_CODE", "CCM", "CCM Code"}

  lemma FieldHeadersExactly(header: string)
    ensures FeedsField(header) <==> header in FIELD_HEADERS
  {
  }

  /** Every field but the location is fed by one header. */
  lemma OneHeaderEach(a: string, b: string)
    requires TargetOf(a) == TargetOf(b) && TargetOf(a).Some? && TargetOf(a) != Some(Location)
    ensures a == b
  {
  }

  lemma FieldAt(row: Row, header: string, t: Target)
    requires OrderedDict.Distinct(row) && TargetOf(header) == Some(t) && t != SourceTarget && t != Location
    ensures Field(MappedOf(row), t) == Under(row, header)
  {
    hide TargetOf;
    forall i | 0 <= i < |row| && TargetOf(row[i].0) == Some(t) ensures row[i].0 == header {
      OneHeaderEach(header, row[i].0);
    }
    FieldIsUnder(row, header, t);
  }

  /** The field of every target but the location, by header. */
  ghost predicate FieldsAreUnder(row: Row) {
    var m := MappedOf(row);
    && Field(m, LeadNo) == Under(row, "LEAD_NO") && Field(m, SmCode) == Under(row, "SM_CODE")
    && Field(m, SmName) == Under(row, "SM Name") && Field(m, TlName) == Under(row, "TL_NAME")
    && Field(m, CcmName) == Under(row, "CCM") && Field(m, CcmCode) == Under(row, "CCM Code")
    && Field(m, LocationAlt) == Under(row, "Location (2)") && Field(m, RegisterDate) == Under(row, "Register Date")
    && Field(m, Source) == Under(row, "Source") && Field(m, ProductType) == Under(row, "Product type")
    && Field(m, ProductMix) == Under(row, "Product Mix") && Field(m, ProdId) == Under(row, "PROD_ID")
    && Field(m, SavingFlag) == Under(row, "Saving Yes/No")
  }

  lemma FieldsByHeader(row: Row)
    requires OrderedDict.Distinct(row)
    ensures FieldsAreUnder(row)
  {
    hide MappedOf, Under, Field, OrderedDict.Distinct;
    FieldAt(row, "LEAD_NO", LeadNo);
    FieldAt(row, "SM_CODE", SmCode);
    FieldAt(row, "SM Name", SmName);
    FieldAt(row, "TL_NAME", TlName);
    FieldAt(row, "CCM", CcmName);
    FieldAt(row, "CCM Code", CcmCode);
    FieldAt(row, "Location (2)", LocationAlt);
    FieldAt(row, "Register Date", RegisterDate);
    FieldAt(row, "Source", Source);
    FieldAt(row, "Product type", ProductType);
    FieldAt(row, "Product Mix", ProductMix);
    FieldAt(row, "PROD_ID", ProdId);
    FieldAt(row, "Saving Yes/No", SavingFlag);
  }

  /** A row is a lead exactly when it has a lead number, and each field is read from the column the sheet calls by this name. */
  lemma LeadFieldsExactly(row: Row)
    requires OrderedDict.Distinct(row)
    ensures var number := NormalizeIdentifier(Under(row, "LEAD_NO"));
            LeadOf(row).Some? <==> number.Some? && number.value != ""
    ensures LeadOf(row).Some? ==>
              var lead := LeadOf(row).value;
              && NormalizeIdentifier(Under(row, "LEAD_NO")) == Some(lead.leadNo)
              && lead.smCode == NormalizeSmCode(Under(row, "SM_CODE")) && lead.smName == NormalizeText(Under(row, "SM Name"))
              && lead.tlName == NormalizeText(Under(row, "TL_NAME"))
              && lead.ccmName == NormalizeText(Under(row, "CCM")) && lead.ccmCode == NormalizeIdentifier(Under(row, "CCM Code"))
              && lead.locationAlt == NormalizeText(Under(row, "Location (2)"))
              && lead.registerDay == ExcelSerialToDay(Under(row, "Register Date"))
              && lead.source == NormalizeText(Under(row, "Source"))
              && lead.productType == NormalizeText(Under(row, "Product type"))
              && lead.productMix == NormalizeText(Under(row, "Product Mix"))
              && lead.prodId == NormalizeIdentifier(Under(row, "PROD_ID"))
              && lead.savingFlag == NormalizeText(Under(row, "Saving Yes/No"))
  {
    hide NormalizeText, NormalizeIdentifier, NormalizeSmCode, ExcelSerialToDay, MappedOf, ExtraOf, Under, Field;
    FieldsByHeader(row);
  }

  /** The location is the one further right of its two columns, and every column that fills no field is kept under its header. */
  lemma LeadRestExactly(row: Row)
    requires OrderedDict.Distinct(row) && LeadOf(row).Some?
    ensures var first, plain := OrderedDict.IndexOf(row, "Location (1)"), OrderedDict.IndexOf(row, "Location");
            LeadOf(row).value.location ==
            NormalizeText(Under(row, if first < |row| && (plain == |row| || plain < first) then "Location (1)" else "Location"))
    ensures forall header :: OrderedDict.Get(LeadOf(row).value.extra, header) ==
                             if header in FIELD_HEADERS then None else NormalizeText(Under(row, header))
  {
    hide NormalizeText, NormalizeIdentifier, NormalizeSmCode, ExcelSerialToDay, MappedOf, ExtraOf, Under, Field, OrderedDict.Get;
    LocationIsLater(row);
    forall header
      ensures OrderedDict.Get(ExtraOf(row), header) == if header in FIELD_HEADERS then None else NormalizeText(Under(row, header))
    {
      ExtraIsUnder(row, header);
    }
  }

  lemma ExtraIsUnder(row: Row, header: string)
    requires OrderedDict.Distinct(row)
    ensures OrderedDict.Get(ExtraOf(row), header) ==
            if header in FIELD_HEADERS then None else NormalizeText(Under(row, header))
  {
    hide TargetOf, OrderedDict.Get;
    UnmappedColumnsKept(row, header);
    FieldHeadersExactly(header);
  }

  // ----- what a cell reads as -----

  /** The words that stand for nothing. */
  lemma WordsForNothing(word: string)
    ensures word in SENTINELS <==>
              || word == "" || word == "-" || word == "na" || word == "n/a" || word == "#n/a"
              || word == "null" || word == "nil" || word == "none"
  {
  }

  /**
   * Text loses nothing but white space: what is left is single-spaced and trimmed, and it is nothing exactly when the
   * cell is absent or says one of the words for nothing.
   */
  lemma TextKeepsItsWords(value: Cell)
    ensures var text := NormalizeText(value);
            && (text.None? <==> value.Nil? || Text.Lower(Strip(Text.Collapse(Show(value), Text.PythonSpace))) in SENTINELS)
            && (text.Some? ==>
                  && Text.Squeeze(text.value, Text.PythonSpace) == Text.Squeeze(Show(value), Text.PythonSpace)
                  && Text.Singles(text.value, Text.PythonSpace) && Stripped(text.value) && text.value != "")
  {
    hide Text.Singles, Text.Stripped;
    assert Text.Lower("") == "";
    if !value.Nil? {
      var collapsed := Text.Collapse(Show(value), Text.PythonSpace);
      Text.CollapseKeeps(Show(value), Text.PythonSpace);
      Text.CollapseSingles(Show(value), Text.PythonSpace);
      Text.StripKeeps(collapsed, Text.PythonSpace);
      Text.StripSingles(collapsed, Text.PythonSpace);
    }
  }

  /** A whole number is its digits, whatever the reader shows for it. */
  lemma WholeNumberIsItsDigits(n: nat, shown: string)
    ensures NormalizeIdentifier(Number(n as real, shown)) == Some(Decimal.Render(n))
  {
  }

  /** A code is 3 to 32 capital letters, digits and hyphens, the first no hyphen. */
  lemma SmCodeShape(value: Cell)
    ensures var text, code := NormalizeIdentifier(value), NormalizeSmCode(value);
            && (code.Some? ==> text.Some? && code.value == Text.Upper(text.value))
            && (code.Some? <==>
                  && text.Some? && 3 <= |text.value| <= 32 && text.value[0] != '-'
                  && forall i :: 0 <= i < |text.value| ==>
                       var c := Text.Upper(text.value)[i]; 'A' <= c <= 'Z' || '0' <= c <= '9' || c == '-')
  {
  }

  /** A date is a date cell, or a number from 1 to 60,000 as a serial; a time of day, an identifier or a text is none. */
  lemma DaysExactly(value: Cell)
    ensures ExcelSerialToDay(value) ==
            if value.Day? then Some(value.serial)
            else if value.Number? && 1.0 <= value.value <= 60_000.0 then Some(value.value.Floor)
            else None
  {
  }
}
