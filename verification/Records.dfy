/** A sales record, its version chain, and what an approved correction does to them (src/lib/approvals/record-apply.ts, src/lib/fields.ts). */
module Records {
  import opened Wrappers
  import opened Normalize
  import opened TeamScope
  import opened Premiums
  import opened Calendar
  import Amounts = Money

  // ----- the field registry -----

  datatype Field =
    | AppsNo | PolicyNo | ClientName | LeadId | AgentId | SmId | SmName | TlId | TlName | CcmId | CcmName
    | Location | LoginDate | IssuedDate | Fp | Anp | ProductName | ProductType | ProductVariant
    | BookingFrequency | PayMode | StatusText | Status2 | Autopay | SourceChannel

  datatype Kind = Identifier | PlainText | Date | Money | AutopayKind | StatusKind

  function KindOf(f: Field): Kind {
    match f
    case AppsNo | PolicyNo | AgentId => Identifier
    case LoginDate | IssuedDate => Date
    case Fp | Anp => Money
    case StatusText | Status2 => StatusKind
    case Autopay => AutopayKind
    case _ => PlainText
  }

  predicate Required(f: Field) {
    f.AppsNo? || f.SmId?
  }

  datatype Category = AutopayCategory | Mapping | IssuanceDate | AgentIdCategory | BauToBfl | Others

  /** The one field a category pins, or nothing when the submitter names it. */
  function PinnedField(c: Category): Option<Field> {
    match c
    case AutopayCategory => Some(Autopay)
    case Mapping => Some(SmId)
    case IssuanceDate => Some(IssuedDate)
    case AgentIdCategory => Some(AgentId)
    case BauToBfl => Some(SourceChannel)
    case Others => None
  }

  /** A stored field name is free text; only some of it names a field. */
  datatype FieldName = Known(field: Field) | Unregistered(text: string)

  // ----- records -----

  /** A column that is NULL has no entry. */
  datatype Row = Row(values: map<Field, string>, periodId: Option<string>, currentVersion: nat, hasCorrections: bool) {
    function Get(f: Field): Option<string> {
      if f in values then Some(values[f]) else None
    }
  }

  ghost const EXAMPLE_ROW := Row(map[AppsNo := "1", SmId := "A"], None, 1, false)

  /** The two columns that are NOT NULL. */
  type Record = r: Row | AppsNo in r.values && SmId in r.values ghost witness EXAMPLE_ROW

  function Put(values: map<Field, string>, f: Field, v: Option<string>): map<Field, string> {
    if v.Some? then values[f := v.value] else values - {f}
  }

  /** The snapshot a request carries: an empty text counts as nothing. */
  function SnapshotOriginal(r: Row, f: Field): Option<string> {
    if r.Get(f) == Some("") then None else r.Get(f)
  }

  /** One row of the version table. */
  datatype Version = Version(version: nat, data: Row, changedFields: seq<Field>, requestId: Option<nat>)

  // ----- resolving and coercing -----

  /** `OutOfRange` is the database refusing the update; the others are refusals of the code. */
  datatype ApplyError = UnknownField | InvalidValue | OutOfRange

  /** A category that pins a field wins over the name the submitter sent. */
  function ResolveTargetField(c: Category, name: FieldName): Result<Field, ApplyError> {
    if PinnedField(c).Some? then Ok(PinnedField(c).value)
    else if name.Unregistered? then Err(UnknownField)
    else Ok(name.field)
  }

  function CoerceKind(f: Field, raw: string): Normalized {
    if f.SmId? then Normalized(NormalizeSmId(raw), false)
    else match KindOf(f)
      case Money => NormalizeMoney(raw)
      case Date => NormalizeDate(raw)
      case AutopayKind => Normalized(NormalizeAutopay(raw), false)
      case StatusKind => Normalized(NormalizeStatus(raw), false)
      case Identifier | PlainText => Normalized(NormalizeText(raw), false)
  }

  function CoerceValue(f: Field, raw: string): (r: Result<Option<string>, ApplyError>)
    ensures r.Ok? && Required(f) ==> r.value.Some?
  {
    var n := CoerceKind(f, raw);
    if n.error || (n.value.None? && Required(f)) then Err(InvalidValue) else Ok(n.value)
  }

  /** What a column holds after it is given a value: an amount is kept to two decimals and printed, everything else as it is. */
  function ColumnOf(f: Field, v: Option<string>): (r: Result<Option<string>, ApplyError>)
    ensures v.None? ==> r == Ok(None)
    ensures v.Some? && r.Ok? ==> r.value.Some?
  {
    if KindOf(f).Money? && v.Some? then
      if Kept(v.value).Some? then Ok(Kept(v.value)) else Err(OutOfRange)
    else Ok(v)
  }

  // ----- applying -----

  datatype Warning = NamelessRosterRow(code: string) | NotInRoster(code: string) | NoAccount(code: string)

  datatype Application = Application(
    field: Field, previous: Option<string>, newValue: Option<string>, record: Record, version: Version,
    warnings: seq<Warning>)

  function RosterName(w: World, code: string): Option<string> {
    if code in w.roster then w.roster[code].smName else None
  }

  function MappingWarnings(w: World, losing: string, gaining: string): seq<Warning> {
    (if Present(RosterName(w, gaining)) then []
     else if gaining in w.roster then [NamelessRosterRow(gaining)] else [NotInRoster(gaining)])
    + (if losing !in w.accounts && losing != gaining then [NoAccount(losing)] else [])
    + (if gaining in w.accounts then [] else [NoAccount(gaining)])
  }

  /** The patched record and the version row that carries it. */
  function Apply(w: World, record: Record, c: Category, name: FieldName, proposed: string, requestId: nat)
    : Result<Application, ApplyError>
  {
    var target := ResolveTargetField(c, name);
    if target.Err? then Err(target.error)
    else
      var f := target.value;
      var coerced := CoerceValue(f, proposed);
      if coerced.Err? then Err(coerced.error)
      else
        var v := coerced.value;
        var kept := ColumnOf(f, v);
        if kept.Err? then Err(kept.error)
        else
          var gaining := if v.Some? then v.value else "";
          var patched := Put(record.values, f, kept.value);
          var values := if c.Mapping? then Put(patched, SmName, RosterName(w, gaining)) else patched;
          var updated := Row(values, record.periodId, record.currentVersion + 1, true);
          Ok(Application(
            f, record.Get(f), v, updated,
            Version(record.currentVersion + 1, updated, if c.Mapping? then [f, SmName] else [f], Some(requestId)),
            if c.Mapping? then MappingWarnings(w, record.values[SmId], gaining) else []))
  }

  /** Everything an application leaves alone, and the one or two columns it does not. */
  lemma ApplyFrame(w: World, record: Record, c: Category, name: FieldName, proposed: string, id: nat)
    requires Apply(w, record, c, name, proposed, id).Ok?
    ensures var a := Apply(w, record, c, name, proposed, id).value;
            && (forall g :: g != a.field && (g.SmName? ==> !c.Mapping?) ==> a.record.Get(g) == record.Get(g))
            && Ok(a.record.Get(a.field)) == ColumnOf(a.field, a.newValue)
            && (c.Mapping? ==> a.field == SmId && a.record.Get(SmName) == RosterName(w, a.record.values[SmId]))
            && a.record.periodId == record.periodId
            && a.record.currentVersion == record.currentVersion + 1 == a.version.version
            && a.version.data == a.record
            && (forall g :: g !in a.version.changedFields ==> a.record.Get(g) == record.Get(g))
  {
    hide CoerceValue, RosterName, MappingWarnings, Kept;
    var a := Apply(w, record, c, name, proposed, id).value;
    var kept := ColumnOf(a.field, a.newValue).value;
    var patched := Put(record.values, a.field, kept);
    PutFrame(record.values, a.field, kept);
    assert a.field in a.version.changedFields;
    if c.Mapping? {
      PutFrame(patched, SmName, RosterName(w, a.record.values[SmId]));
      assert a.version.changedFields[1] == SmName;
    }
  }

  /** Which column each category writes, what a mapping makes of the rep's name, and what the version row remembers. */
  lemma ApplyWritesExactly(w: World, record: Record, c: Category, name: FieldName, proposed: string, id: nat)
    requires Apply(w, record, c, name, proposed, id).Ok?
    ensures var a := Apply(w, record, c, name, proposed, id).value;
            && (match c
                case AutopayCategory => a.field == Autopay
                case Mapping => a.field == SmId
                case IssuanceDate => a.field == IssuedDate
                case AgentIdCategory => a.field == AgentId
                case BauToBfl => a.field == SourceChannel
                case Others => name == Known(a.field))
            && CoerceValue(a.field, proposed) == Ok(a.newValue) && a.previous == record.Get(a.field)
            && (c.Mapping? ==>
                  var owner := a.record.values[SmId];
                  a.record.Get(SmName) == if owner in w.roster then w.roster[owner].smName else None)
            && (!c.Mapping? && a.field != SmName ==> a.record.Get(SmName) == record.Get(SmName))
            && a.record.hasCorrections && a.version.requestId == Some(id)
            && a.version.changedFields == (if c.Mapping? then [SmId, SmName] else [a.field])
  {
    hide CoerceValue, MappingWarnings, Kept;
    ApplyFrame(w, record, c, name, proposed, id);
  }

  lemma PutFrame(values: map<Field, string>, f: Field, v: Option<string>)
    ensures forall p, n, h :: Row(Put(values, f, v), p, n, h).Get(f) == v
    ensures forall p, n, h, g :: g != f ==> Row(Put(values, f, v), p, n, h).Get(g) == Row(values, p, n, h).Get(g)
  {
  }

  /** The approver is told that the name was cleared exactly when it was, and of each side that has no login. */
  lemma WarnedExactly(w: World, record: Record, name: FieldName, proposed: string, id: nat)
    requires Apply(w, record, Mapping, name, proposed, id).Ok?
    ensures var a := Apply(w, record, Mapping, name, proposed, id).value;
            var losing, gaining := record.values[SmId], a.record.values[SmId];
            && (!Present(a.record.Get(SmName)) <==> NamelessRosterRow(gaining) in a.warnings || NotInRoster(gaining) in a.warnings)
            && (NotInRoster(gaining) in a.warnings <==> gaining !in w.roster)
            && (NoAccount(gaining) in a.warnings <==> gaining !in w.accounts)
            && (NoAccount(losing) in a.warnings <==> losing !in w.accounts)
            && forall i, j :: 0 <= i < j < |a.warnings| ==> a.warnings[i] != a.warnings[j]
  {
    hide CoerceValue, MappingWarnings, RosterName, Present;
    var a := Apply(w, record, Mapping, name, proposed, id).value;
    assert a.record.Get(SmName) == RosterName(w, a.record.values[SmId]);
    WarningsSay(w, record.values[SmId], a.record.values[SmId]);
  }

  lemma WarningsSay(w: World, losing: string, gaining: string)
    ensures var warnings := MappingWarnings(w, losing, gaining);
            && (!Present(RosterName(w, gaining)) <==> NamelessRosterRow(gaining) in warnings || NotInRoster(gaining) in warnings)
            && (NotInRoster(gaining) in warnings <==> gaining !in w.roster)
            && (NoAccount(gaining) in warnings <==> gaining !in w.accounts)
            && (NoAccount(losing) in warnings <==> losing !in w.accounts)
            && forall i, j :: 0 <= i < j < |warnings| ==> warnings[i] != warnings[j]
  {
  }

  // ----- what the approver is shown -----

  datatype Preview = Preview(field: Option<Field>, liveValue: Option<string>, problem: Option<ApplyError>)

  function PreviewTarget(record: Record, c: Category, name: FieldName, proposed: string): Preview {
    var target := ResolveTargetField(c, name);
    if target.Err? then Preview(None, None, Some(target.error))
    else
      var coerced := CoerceValue(target.value, proposed);
      if coerced.Err? then Preview(None, None, Some(coerced.error))
      else Preview(Some(target.value), record.Get(target.value), None)
  }

  /**
   * The preview shows what an approval would overwrite, and reports the problem of every approval that would fail,
   * except one: an amount its column has no room for.
   */
  lemma PreviewPredictsApply(w: World, record: Record, c: Category, name: FieldName, proposed: string, id: nat)
    ensures var p := PreviewTarget(record, c, name, proposed);
            var a := Apply(w, record, c, name, proposed, id);
            && (a.Err? <==> p.problem.Some? || a == Err(OutOfRange))
            && (p.problem.Some? ==> a == Err(p.problem.value))
            && (a == Err(OutOfRange) <==>
                && p.problem.None? && p.field.Some? && KindOf(p.field.value).Money?
                && CoerceValue(p.field.value, proposed).value.Some?
                && Kept(CoerceValue(p.field.value, proposed).value.value).None?)
            && (a.Ok? ==> p.field == Some(a.value.field) && p.liveValue == a.value.previous)
  {
  }

  // ----- the version chain -----

  /** Versions 1 to n, in order. */
  ghost predicate Numbered(chain: seq<Version>) {
    forall k :: 0 <= k < |chain| ==> chain[k].version == k + 1 == chain[k].data.currentVersion
  }

  /** Each version differs from the one before only in the fields it says it changed. */
  ghost predicate HonestDiffs(chain: seq<Version>) {
    forall k :: 0 < k < |chain| ==>
      && chain[k].data.periodId == chain[k - 1].data.periodId
      && forall f :: f !in chain[k].changedFields ==> chain[k].data.Get(f) == chain[k - 1].data.Get(f)
  }

  /** Copying each version's changed fields forward from the first. */
  function Replay(chain: seq<Version>): map<Field, string>
    requires chain != []
  {
    if |chain| == 1 then chain[0].data.values
    else
      var last := chain[|chain| - 1];
      CopyFields(Replay(chain[..|chain| - 1]), last.data, last.changedFields)
  }

  function CopyFields(values: map<Field, string>, from: Row, fields: seq<Field>): map<Field, string> {
    if fields == [] then values
    else
      var f := fields[|fields| - 1];
      Put(CopyFields(values, from, fields[..|fields| - 1]), f, from.Get(f))
  }

  lemma {:induction false} CopyFieldsAt(values: map<Field, string>, from: Row, fields: seq<Field>, f: Field)
    ensures var copied := CopyFields(values, from, fields);
            Row(copied, None, 0, false).Get(f) == if f in fields then from.Get(f) else Row(values, None, 0, false).Get(f)
  {
    if fields != [] {
      CopyFieldsAt(values, from, fields[..|fields| - 1], f);
    }
  }

  lemma SameColumns(a: map<Field, string>, b: map<Field, string>)
    requires forall f: Field :: Row(a, None, 0, false).Get(f) == Row(b, None, 0, false).Get(f)
    ensures a == b
  {
    forall f: Field ensures (f in a <==> f in b) && (f in a ==> a[f] == b[f]) {
      assert Row(a, None, 0, false).Get(f) == Row(b, None, 0, false).Get(f);
    }
  }

  /** An honest chain replays to its top row. */
  lemma {:induction false} ReplayRebuilds(chain: seq<Version>)
    requires chain != [] && HonestDiffs(chain)
    ensures Replay(chain) == chain[|chain| - 1].data.values
    ensures chain[0].data.periodId == chain[|chain| - 1].data.periodId
  {
    var n := |chain| - 1;
    if n > 0 {
      ReplayRebuilds(chain[..n]);
      var before, last := chain[n - 1].data, chain[n];
      forall f: Field
        ensures Row(Replay(chain), None, 0, false).Get(f) == Row(last.data.values, None, 0, false).Get(f)
      {
        CopyFieldsAt(before.values, last.data, last.changedFields, f);
        assert last.data.Get(f) == Row(last.data.values, None, 0, false).Get(f);
        assert before.Get(f) == Row(before.values, None, 0, false).Get(f);
      }
      SameColumns(Replay(chain), last.data.values);
    }
  }
}
