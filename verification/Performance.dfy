/** The performance report: outcomes, grouping at three rungs, exact sums (src/lib/dashboard/performance.ts, src/lib/dashboard/sql.ts). */
module Performance {
  import opened Wrappers
  import opened Text
  import opened TeamScope
  import opened Money
  import opened JsSet
  import opened Sorting

  // ----- outcomes -----

  /** The columns of a sale the report reads; money in paise, NULL where the sheet had none. */
  datatype Sale = Sale(smId: string, status: Option<string>, status2: Option<string>, anp: Option<int>, fp: Option<int>)

  predicate Blank(c: char) {
    c == ' '
  }

  /** `upper(btrim(coalesce(column, '')))`. */
  function Tidied(column: Option<string>): string {
    Upper(Strip(if column.Some? then column.value else "", Blank))
  }

  function EffectiveStatus(s: Sale): string {
    var status, status2 := Tidied(s.status), Tidied(s.status2);
    if status == "ISSUED" && status2 == "FREELOOK CANCEL" then "REJECTED"
    else if status == "ISSUED" && status2 == "APPROVED" then "PENDING"
    else if status == "ISSUED" || status == "REJECTED" then status
    else "PENDING"
  }

  predicate IsIssued(s: Sale) {
    EffectiveStatus(s) == "ISSUED"
  }

  predicate IsRejected(s: Sale) {
    EffectiveStatus(s) == "REJECTED"
  }

  predicate IsPending(s: Sale) {
    EffectiveStatus(s) == "PENDING"
  }

  predicate IsUnclassified(s: Sale) {
    Tidied(s.status) !in {"ISSUED", "PENDING", "REJECTED"}
  }

  function OneIf(b: bool): int {
    if b then 1 else 0
  }

  /** Every sale has exactly one outcome, and an unrecognised status always reads as pending. */
  lemma OneOutcome(s: Sale)
    ensures OneIf(IsIssued(s)) + OneIf(IsRejected(s)) + OneIf(IsPending(s)) == 1
    ensures IsUnclassified(s) ==> IsPending(s)
    ensures IsIssued(s) <==> Tidied(s.status) == "ISSUED" && Tidied(s.status2) !in {"FREELOOK CANCEL", "APPROVED"}
    ensures IsRejected(s) <==>
              Tidied(s.status) == "REJECTED" || (Tidied(s.status) == "ISSUED" && Tidied(s.status2) == "FREELOOK CANCEL")
    ensures IsPending(s) <==>
              || (Tidied(s.status) == "ISSUED" && Tidied(s.status2) == "APPROVED")
              || Tidied(s.status) !in {"ISSUED", "REJECTED"}
    ensures IsUnclassified(s) <==> Tidied(s.status) != "ISSUED" && Tidied(s.status) != "PENDING" && Tidied(s.status) != "REJECTED"
  {
  }

  lemma {:induction false} BlankInFront(s: string)
    ensures StripLeft(" " + s, Blank) == StripLeft(s, Blank)
  {
    assert (" " + s)[1..] == s;
  }

  lemma {:induction false} StripIgnoresBlankAfter(s: string)
    ensures Strip(s + " ", Blank) == Strip(s, Blank)
  {
    if s == [] {
      assert s + " " == " " && " "[1..] == "";
    } else if s[0] == ' ' {
      assert (s + " ")[1..] == s[1..] + " ";
      StripIgnoresBlankAfter(s[1..]);
    } else {
      assert (s + " ")[..|s|] == s;
    }
  }

  /** A status is read without the blanks around it and in any case, and a missing one is an empty one. */
  lemma TidiedExactly(s: string)
    ensures Tidied(None) == Tidied(Some("")) == ""
    ensures Tidied(Some(" " + s)) == Tidied(Some(s)) == Tidied(Some(s + " "))
    ensures s == "" || (s[0] != ' ' && s[|s| - 1] != ' ') ==>
              |Tidied(Some(s))| == |s| && forall i :: 0 <= i < |s| ==>
                Tidied(Some(s))[i] == if 'a' <= s[i] <= 'z' then (s[i] as int - 32) as char else s[i]
  {
    BlankInFront(s);
    StripIgnoresBlankAfter(s);
    if s == "" || (s[0] != ' ' && s[|s| - 1] != ' ') {
      StripFixpoint(s, Blank);
    }
  }

  // ----- the SQL aggregates -----

  function CountWhere(sales: seq<Sale>, p: Sale -> bool): int {
    if sales == [] then 0 else CountWhere(sales[..|sales| - 1], p) + OneIf(p(sales[|sales| - 1]))
  }

  function Column(sales: seq<Sale>, of: Sale -> Option<int>): (r: seq<Option<int>>)
    ensures |r| == |sales|
  {
    seq(|sales|, i requires 0 <= i < |sales| => of(sales[i]))
  }

  function AnpOf(s: Sale): Option<int> { s.anp }

  function FpOf(s: Sale): Option<int> { s.fp }

  datatype Counts = Counts(logins: int, issued: int, rejected: int, unclassified: int, anp: string, fp: string)

  datatype Metrics = Metrics(logins: int, issued: int, rejected: int, pending: int, unclassified: int, anp: string, fp: string)

  function Aggregate(sales: seq<Sale>): Counts {
    Counts(|sales|, CountWhere(sales, IsIssued), CountWhere(sales, IsRejected), CountWhere(sales, IsUnclassified),
           SumText(Column(sales, AnpOf)), SumText(Column(sales, FpOf)))
  }

  /** Pending is the remainder, never counted. */
  function WithPending(c: Counts): Metrics {
    Metrics(c.logins, c.issued, c.rejected, c.logins - c.issued - c.rejected, c.unclassified, c.anp, c.fp)
  }

  // ----- what the figures mean -----

  /** The seven figures as numbers, money in paise. */
  datatype Tally = Tally(logins: int, issued: int, rejected: int, pending: int, unclassified: int, anp: int, fp: int) {
    function Plus(t: Tally): Tally {
      Tally(logins + t.logins, issued + t.issued, rejected + t.rejected, pending + t.pending,
            unclassified + t.unclassified, anp + t.anp, fp + t.fp)
    }

    predicate Balanced() {
      issued + rejected + pending == logins && 0 <= unclassified <= pending && 0 <= issued && 0 <= rejected
    }
  }

  const ZERO := Tally(0, 0, 0, 0, 0, 0, 0)

  function One(s: Sale): Tally {
    Tally(1, OneIf(IsIssued(s)), OneIf(IsRejected(s)), OneIf(IsPending(s)), OneIf(IsUnclassified(s)),
          OrZero(s.anp), OrZero(s.fp))
  }

  /** Counting and adding sale by sale. */
  function Total(sales: seq<Sale>): Tally {
    if sales == [] then ZERO else Total(sales[..|sales| - 1]).Plus(One(sales[|sales| - 1]))
  }

  function Figures(m: Metrics): Tally {
    Tally(m.logins, m.issued, m.rejected, m.pending, m.unclassified, ToPaise(m.anp), ToPaise(m.fp))
  }

  lemma {:induction false} TotalIsBalanced(sales: seq<Sale>)
    ensures Total(sales).Balanced() && Total(sales).logins == |sales|
  {
    hide IsIssued, IsRejected, IsPending, IsUnclassified;
    if sales != [] {
      TotalIsBalanced(sales[..|sales| - 1]);
      OneOutcome(sales[|sales| - 1]);
    }
  }

  lemma {:induction false} TotalCounts(sales: seq<Sale>)
    ensures var t := Total(sales);
            && t.logins == |sales| && t.issued == CountWhere(sales, IsIssued) && t.rejected == CountWhere(sales, IsRejected)
            && t.unclassified == CountWhere(sales, IsUnclassified)
            && t.anp == SumPaise(Column(sales, AnpOf)) && t.fp == SumPaise(Column(sales, FpOf))
  {
    hide IsIssued, IsRejected, IsPending, IsUnclassified;
    if sales != [] {
      var n := |sales| - 1;
      TotalCounts(sales[..n]);
      assert Column(sales, AnpOf)[..n] == Column(sales[..n], AnpOf);
      assert Column(sales, FpOf)[..n] == Column(sales[..n], FpOf);
    }
  }

  /** The row Postgres returns, pending by subtraction and money as text included, is the sale-by-sale count. */
  lemma AggregateIsExact(sales: seq<Sale>)
    ensures Figures(WithPending(Aggregate(sales))) == Total(sales)
    ensures Figures(WithPending(Aggregate(sales))).Balanced()
  {
    hide ToPaise, SumText, SumPaise, Total, CountWhere;
    TotalCounts(sales);
    TotalIsBalanced(sales);
    SumIsRead(Column(sales, AnpOf));
    SumIsRead(Column(sales, FpOf));
  }

  // ----- adding rows up -----

  function TotalFigures(rows: seq<Metrics>): Tally {
    if rows == [] then ZERO else TotalFigures(rows[..|rows| - 1]).Plus(Figures(rows[|rows| - 1]))
  }

  function Printed(t: Tally): Metrics {
    Metrics(t.logins, t.issued, t.rejected, t.pending, t.unclassified, FromPaise(t.anp), FromPaise(t.fp))
  }

  method SumMetrics(rows: seq<Metrics>) returns (total: Metrics)
    ensures total == Printed(TotalFigures(rows))
    ensures Figures(total) == TotalFigures(rows)
  {
    hide ToPaise, FromPaise;
    total := Metrics(0, 0, 0, 0, 0, "0.00", "0.00");
    var anp, fp := 0, 0;
    for i := 0 to |rows|
      invariant TotalFigures(rows[..i])
                == Tally(total.logins, total.issued, total.rejected, total.pending, total.unclassified, anp, fp)
    {
      assert rows[..i + 1][..i] == rows[..i];
      var row := rows[i];
      total := total.(logins := total.logins + row.logins, issued := total.issued + row.issued,
                      rejected := total.rejected + row.rejected, pending := total.pending + row.pending,
                      unclassified := total.unclassified + row.unclassified);
      anp := anp + ToPaise(row.anp);
      fp := fp + ToPaise(row.fp);
    }
    assert rows[..|rows|] == rows;
    total := total.(anp := FromPaise(anp), fp := FromPaise(fp));
    ReadPrinted(anp);
    ReadPrinted(fp);
  }

  lemma Regroup(a: Tally, b: Tally, c: Tally)
    ensures a.Plus(b).Plus(c) == a.Plus(c).Plus(b) == a.Plus(b.Plus(c))
    ensures a.Plus(ZERO) == ZERO.Plus(a) == a && b.Plus(ZERO) == b && a.Plus(b).Plus(ZERO) == a.Plus(b)
  {
  }

  // ----- grouping -----

  datatype Rung = Sm | Tl | Acm

  /** `GROUP BY 1, 2`: the code and whether the sale sits in one of the sheet's own buckets. */
  datatype Key = Key(code: Option<string>, placeholder: bool)

  predicate InBucket(s: Sale) {
    Upper(Strip(s.smId, Blank)) in PLACEHOLDERS
  }

  /** The roster and the pins are joined separately, so a pin counts with or without a roster row. */
  function JoinedTl(w: World, smId: string): Option<string> {
    if smId in w.pins && w.pins[smId].tlId.Some? then w.pins[smId].tlId
    else if smId in w.roster then w.roster[smId].tlId
    else None
  }

  function JoinedAcm(w: World, smId: string): Option<string> {
    if smId in w.pins && w.pins[smId].ccmId.Some? then w.pins[smId].ccmId
    else if smId in w.roster then w.roster[smId].ccmId
    else None
  }

  /** At the manager rungs a bucket belongs to nobody, whatever the sheet says. */
  function KeyOf(w: World, rung: Rung, s: Sale): Key {
    match rung
    case Sm => Key(Some(s.smId), InBucket(s))
    case Tl => Key(if InBucket(s) then None else JoinedTl(w, s.smId), InBucket(s))
    case Acm => Key(if InBucket(s) then None else JoinedAcm(w, s.smId), InBucket(s))
  }

  function Under(w: World, rung: Rung, sales: seq<Sale>, key: Key): seq<Sale> {
    if sales == [] then []
    else Under(w, rung, sales[..|sales| - 1], key)
         + if KeyOf(w, rung, sales[|sales| - 1]) == key then [sales[|sales| - 1]] else []
  }

  datatype Group = Group(key: Key, counts: Counts)

  ghost predicate DistinctKeys(raw: seq<Group>) {
    forall i, j :: 0 <= i < j < |raw| ==> raw[i].key != raw[j].key
  }

  predicate Grouped(w: World, rung: Rung, raw: seq<Group>, s: Sale) {
    exists k :: 0 <= k < |raw| && raw[k].key == KeyOf(w, rung, s)
  }

  predicate CountsItsOwn(w: World, rung: Rung, sales: seq<Sale>, g: Group) {
    g.counts == Aggregate(Under(w, rung, sales, g.key)) && Under(w, rung, sales, g.key) != []
  }

  /** What the grouped query may return: one row for each key that occurs, in any order, with that key's aggregates. */
  ghost predicate GroupsOf(raw: seq<Group>, w: World, rung: Rung, sales: seq<Sale>) {
    && DistinctKeys(raw)
    && (forall i :: 0 <= i < |sales| ==> Grouped(w, rung, raw, sales[i]))
    && (forall k :: 0 <= k < |raw| ==> CountsItsOwn(w, rung, sales, raw[k]))
  }

  function GroupsTotal(raw: seq<Group>): Tally {
    if raw == [] then ZERO
    else GroupsTotal(raw[..|raw| - 1]).Plus(Figures(WithPending(raw[|raw| - 1].counts)))
  }

  /** The sales under none of the keys of the first `n` groups. */
  function Others(w: World, rung: Rung, sales: seq<Sale>, raw: seq<Group>): seq<Sale> {
    if sales == [] then []
    else Others(w, rung, sales[..|sales| - 1], raw)
         + if Grouped(w, rung, raw, sales[|sales| - 1]) then [] else [sales[|sales| - 1]]
  }

  /** A new key takes its own sales out of the rest, and no others. */
  lemma {:induction false} OneMoreKey(w: World, rung: Rung, sales: seq<Sale>, raw: seq<Group>, g: Group)
    requires forall k :: 0 <= k < |raw| ==> raw[k].key != g.key
    ensures Total(Others(w, rung, sales, raw))
            == Total(Others(w, rung, sales, raw + [g])).Plus(Total(Under(w, rung, sales, g.key)))
  {
    hide *;
    if sales == [] {
      NothingYet(w, rung, raw, g);
    } else {
      var s := sales[|sales| - 1];
      OneMoreKey(w, rung, sales[..|sales| - 1], raw, g);
      GroupedByOneMore(w, rung, raw, g, s);
      OneMoreSale(w, rung, sales, raw, g.key);
      OneMoreSale(w, rung, sales, raw + [g], g.key);
      Regroup(Total(Others(w, rung, sales[..|sales| - 1], raw + [g])), Total(Under(w, rung, sales[..|sales| - 1], g.key)), One(s));
    }
  }

  lemma NothingYet(w: World, rung: Rung, raw: seq<Group>, g: Group)
    ensures Total(Others(w, rung, [], raw))
            == Total(Others(w, rung, [], raw + [g])).Plus(Total(Under(w, rung, [], g.key)))
  {
  }

  /** What the last sale adds to the rest and to a key. */
  lemma OneMoreSale(w: World, rung: Rung, sales: seq<Sale>, raw: seq<Group>, key: Key)
    requires sales != []
    ensures var init, s := sales[..|sales| - 1], sales[|sales| - 1];
            && Total(Others(w, rung, sales, raw))
               == Total(Others(w, rung, init, raw)).Plus(if Grouped(w, rung, raw, s) then ZERO else One(s))
            && Total(Under(w, rung, sales, key))
               == Total(Under(w, rung, init, key)).Plus(if KeyOf(w, rung, s) == key then One(s) else ZERO)
  {
    hide Total, Grouped, KeyOf, One;
    TotalOfOneMore(Others(w, rung, sales[..|sales| - 1], raw), sales[|sales| - 1]);
    TotalOfOneMore(Under(w, rung, sales[..|sales| - 1], key), sales[|sales| - 1]);
  }

  lemma GroupedByOneMore(w: World, rung: Rung, raw: seq<Group>, g: Group, s: Sale)
    requires forall k :: 0 <= k < |raw| ==> raw[k].key != g.key
    ensures Grouped(w, rung, raw + [g], s) <==> Grouped(w, rung, raw, s) || g.key == KeyOf(w, rung, s)
    ensures !(Grouped(w, rung, raw, s) && g.key == KeyOf(w, rung, s))
  {
    hide KeyOf;
    var more := raw + [g];
    assert more[|raw|] == g;
    if k :| 0 <= k < |raw| && raw[k].key == KeyOf(w, rung, s) {
      assert more[k].key == KeyOf(w, rung, s);
    }
  }

  lemma TotalOfOneMore(sales: seq<Sale>, s: Sale)
    ensures Total(sales + [s]) == Total(sales).Plus(One(s))
    ensures Total(sales + []) == Total(sales)
  {
    assert (sales + [s])[..|sales|] == sales;
    assert sales + [] == sales;
  }

  lemma {:induction false} NothingTakenOut(w: World, rung: Rung, sales: seq<Sale>)
    ensures Others(w, rung, sales, []) == sales
  {
    if sales != [] {
      NothingTakenOut(w, rung, sales[..|sales| - 1]);
    }
  }

  lemma {:induction false} NothingLeft(w: World, rung: Rung, sales: seq<Sale>, raw: seq<Group>)
    requires forall i :: 0 <= i < |sales| ==> Grouped(w, rung, raw, sales[i])
    ensures Others(w, rung, sales, raw) == []
  {
    if sales != [] {
      NothingLeft(w, rung, sales[..|sales| - 1], raw);
    }
  }

  /** The groups so far and the sales they leave out add up to everything. */
  lemma {:induction false} GroupsSoFar(w: World, rung: Rung, sales: seq<Sale>, raw: seq<Group>)
    requires DistinctKeys(raw)
    requires forall k :: 0 <= k < |raw| ==> CountsItsOwn(w, rung, sales, raw[k])
    ensures GroupsTotal(raw).Plus(Total(Others(w, rung, sales, raw))) == Total(sales)
  {
    hide *;
    if raw == [] {
      GroupsStep(raw);
      NothingTakenOut(w, rung, sales);
      Regroup(Total(sales), ZERO, ZERO);
    } else {
      var init, g := raw[..|raw| - 1], raw[|raw| - 1];
      assert DistinctKeys(init) by {
        FewerKeys(raw);
      }
      GroupsSoFar(w, rung, sales, init);
      NewKey(raw);
      OneMoreKey(w, rung, sales, init, g);
      assert init + [g] == raw;
      assert CountsItsOwn(w, rung, sales, g);
      RowIsExact(w, rung, sales, g);
      GroupsStep(raw);
      Regroup(GroupsTotal(init), Total(Others(w, rung, sales, raw)), Total(Under(w, rung, sales, g.key)));
    }
  }

  /** A row of the report is the sale-by-sale count of its own sales, and its three outcomes make up its logins. */
  lemma RowIsExact(w: World, rung: Rung, sales: seq<Sale>, g: Group)
    requires CountsItsOwn(w, rung, sales, g)
    ensures Figures(WithPending(g.counts)) == Total(Under(w, rung, sales, g.key))
    ensures Figures(WithPending(g.counts)).Balanced()
  {
    hide Figures, WithPending, Aggregate, Total, Under;
    AggregateIsExact(Under(w, rung, sales, g.key));
  }

  lemma FewerKeys(raw: seq<Group>)
    requires DistinctKeys(raw) && raw != []
    ensures DistinctKeys(raw[..|raw| - 1])
  {
  }

  lemma NewKey(raw: seq<Group>)
    requires DistinctKeys(raw) && raw != []
    ensures forall k :: 0 <= k < |raw| - 1 ==> raw[k].key != raw[|raw| - 1].key
  {
  }

  lemma GroupsStep(raw: seq<Group>)
    ensures raw == [] ==> GroupsTotal(raw) == ZERO
    ensures raw != [] ==>
              GroupsTotal(raw) == GroupsTotal(raw[..|raw| - 1]).Plus(Figures(WithPending(raw[|raw| - 1].counts)))
  {
  }

  /** Whatever the rung, the groups of any set of sales add up to the sales, in every count and to the paisa. */
  lemma GroupingConserves(w: World, rung: Rung, sales: seq<Sale>, raw: seq<Group>)
    requires GroupsOf(raw, w, rung, sales)
    ensures GroupsTotal(raw) == Total(sales)
  {
    hide Total, Others, GroupsTotal, CountsItsOwn, Grouped;
    GroupsSoFar(w, rung, sales, raw);
    NothingLeft(w, rung, sales, raw);
    EmptyTotal();
    Regroup(GroupsTotal(raw), ZERO, ZERO);
  }

  lemma EmptyTotal()
    ensures Total([]) == ZERO
  {
  }

  // ----- one such answer -----

  function Keys(w: World, rung: Rung, sales: seq<Sale>): (r: seq<Key>)
    ensures |r| == |sales|
  {
    seq(|sales|, i requires 0 <= i < |sales| => KeyOf(w, rung, sales[i]))
  }

  function GroupBy(w: World, rung: Rung, sales: seq<Sale>): seq<Group> {
    var keys := Distinct(Keys(w, rung, sales));
    seq(|keys|, i requires 0 <= i < |keys| => Group(keys[i], Aggregate(Under(w, rung, sales, keys[i]))))
  }

  lemma {:induction false} UnderIsNotEmpty(w: World, rung: Rung, sales: seq<Sale>, key: Key)
    ensures Under(w, rung, sales, key) != [] <==> key in Keys(w, rung, sales)
  {
    if sales != [] {
      var n := |sales| - 1;
      UnderIsNotEmpty(w, rung, sales[..n], key);
      assert Keys(w, rung, sales) == Keys(w, rung, sales[..n]) + [KeyOf(w, rung, sales[n])];
    }
  }

  lemma GroupByGroups(w: World, rung: Rung, sales: seq<Sale>)
    ensures GroupsOf(GroupBy(w, rung, sales), w, rung, sales)
  {
    hide *;
    var keys, raw := Distinct(Keys(w, rung, sales)), GroupBy(w, rung, sales);
    DistinctKeepsFirsts(Keys(w, rung, sales));
    GroupByAt(w, rung, sales);
    KeysAt(w, rung, sales);
    DistinctlyKeyed(raw, keys);
    forall i | 0 <= i < |sales| ensures Grouped(w, rung, raw, sales[i]) {
      assert Keys(w, rung, sales)[i] in keys;
      var k: nat :| k < |keys| && keys[k] == KeyOf(w, rung, sales[i]);
      HasKey(w, rung, raw, sales[i], k);
    }
    forall k | 0 <= k < |raw| ensures CountsItsOwn(w, rung, sales, raw[k]) {
      assert keys[k] in keys;
      UnderIsNotEmpty(w, rung, sales, keys[k]);
      GroupByCounts(w, rung, sales, k);
    }
    ItGroups(raw, w, rung, sales);
  }

  lemma HasKey(w: World, rung: Rung, raw: seq<Group>, s: Sale, k: nat)
    requires k < |raw| && raw[k].key == KeyOf(w, rung, s)
    ensures Grouped(w, rung, raw, s)
  {
  }

  lemma GroupByAt(w: World, rung: Rung, sales: seq<Sale>)
    ensures var keys, raw := Distinct(Keys(w, rung, sales)), GroupBy(w, rung, sales);
            |raw| == |keys| && forall k :: 0 <= k < |raw| ==> raw[k].key == keys[k]
  {
  }

  lemma GroupByCounts(w: World, rung: Rung, sales: seq<Sale>, k: nat)
    requires k < |GroupBy(w, rung, sales)|
    requires Under(w, rung, sales, GroupBy(w, rung, sales)[k].key) != []
    ensures CountsItsOwn(w, rung, sales, GroupBy(w, rung, sales)[k])
  {
  }

  lemma KeysAt(w: World, rung: Rung, sales: seq<Sale>)
    ensures forall i :: 0 <= i < |sales| ==> Keys(w, rung, sales)[i] == KeyOf(w, rung, sales[i])
  {
  }

  lemma DistinctlyKeyed(raw: seq<Group>, keys: seq<Key>)
    requires |raw| == |keys| && NoRepeats(keys) && forall k :: 0 <= k < |raw| ==> raw[k].key == keys[k]
    ensures DistinctKeys(raw)
  {
  }

  lemma ItGroups(raw: seq<Group>, w: World, rung: Rung, sales: seq<Sale>)
    requires DistinctKeys(raw)
    requires forall i :: 0 <= i < |sales| ==> Grouped(w, rung, raw, sales[i])
    requires forall k :: 0 <= k < |raw| ==> CountsItsOwn(w, rung, sales, raw[k])
    ensures GroupsOf(raw, w, rung, sales)
  {
  }

  // ----- the report -----

  datatype Row = Row(code: Option<string>, placeholder: bool, metrics: Metrics)

  datatype Report = Report(rows: seq<Row>, placeholders: seq<Row>, totals: Metrics)

  function RowOf(g: Group): Row {
    Row(g.key.code, g.key.placeholder, WithPending(g.counts))
  }

  /** The unplaced row last, then the biggest book first. */
  predicate BookOrder(a: Row, b: Row) {
    if a.code.None? != b.code.None? then b.code.None? else b.metrics.logins <= a.metrics.logins
  }

  predicate SizeOrder(a: Row, b: Row) {
    b.metrics.logins <= a.metrics.logins
  }

  /** The groups that are buckets, or those that are not. */
  function Chosen(raw: seq<Group>, placeholder: bool): seq<Row> {
    if raw == [] then []
    else Chosen(raw[..|raw| - 1], placeholder)
         + if raw[|raw| - 1].key.placeholder == placeholder then [RowOf(raw[|raw| - 1])] else []
  }

  /** Rows passed where metrics are expected. */
  function Figured(rows: seq<Row>): seq<Metrics> {
    if rows == [] then [] else Figured(rows[..|rows| - 1]) + [rows[|rows| - 1].metrics]
  }

  method LoadPerformance(raw: seq<Group>) returns (report: Report)
    ensures report.rows == Sorted(Chosen(raw, false), BookOrder)
    ensures report.placeholders == Sorted(Chosen(raw, true), SizeOrder)
    ensures report.totals == Printed(TotalFigures(Figured(report.rows + report.placeholders)))
  {
    var rows, placeholders: seq<Row> := [], [];
    for i := 0 to |raw|
      invariant rows == Chosen(raw[..i], false) && placeholders == Chosen(raw[..i], true)
    {
      assert raw[..i + 1][..i] == raw[..i];
      var entry := RowOf(raw[i]);
      if entry.placeholder {
        placeholders := placeholders + [entry];
      } else {
        rows := rows + [entry];
      }
    }
    assert raw[..|raw|] == raw;
    rows := Sorted(rows, BookOrder);
    placeholders := Sorted(placeholders, SizeOrder);
    var totals := SumMetrics(Figured(rows + placeholders));
    return Report(rows, placeholders, totals);
  }

  function RowsTotal(rows: seq<Row>): Tally {
    if rows == [] then ZERO else RowsTotal(rows[..|rows| - 1]).Plus(Figures(rows[|rows| - 1].metrics))
  }

  lemma RowsStep(rows: seq<Row>, row: Row)
    ensures RowsTotal([]) == ZERO
    ensures RowsTotal(rows + [row]) == RowsTotal(rows).Plus(Figures(row.metrics))
  {
    assert (rows + [row])[..|rows|] == rows;
  }

  lemma {:induction false} FiguredTotal(rows: seq<Row>)
    ensures TotalFigures(Figured(rows)) == RowsTotal(rows)
  {
    hide Figures;
    if rows != [] {
      FiguredTotal(rows[..|rows| - 1]);
    }
  }

  lemma {:induction false} RowsAppend(a: seq<Row>, b: seq<Row>)
    ensures RowsTotal(a + b) == RowsTotal(a).Plus(RowsTotal(b))
  {
    hide *;
    if b == [] {
      assert a + b == a;
      RowsStep(a, Row(None, false, Metrics(0, 0, 0, 0, 0, "", "")));
      Regroup(RowsTotal(a), ZERO, ZERO);
    } else {
      var init, row := b[..|b| - 1], b[|b| - 1];
      RowsAppend(a, init);
      assert a + b == (a + init) + [row] && b == init + [row];
      RowsStep(a + init, row);
      RowsStep(init, row);
      Regroup(RowsTotal(a), RowsTotal(init), Figures(row.metrics));
    }
  }

  lemma RowsTakeOut(rows: seq<Row>, k: nat)
    requires k < |rows|
    ensures RowsTotal(rows) == RowsTotal(rows[..k] + rows[k + 1..]).Plus(RowsTotal([rows[k]]))
  {
    hide *;
    var before, row, after := rows[..k], [rows[k]], rows[k + 1..];
    assert rows == (before + row) + after;
    RowsAppend(before + row, after);
    RowsAppend(before, row);
    RowsAppend(before, after);
    Regroup(RowsTotal(before), RowsTotal(after), RowsTotal(row));
  }

  /** The sum does not depend on the order of the rows. */
  lemma {:induction false} RowsUnordered(a: seq<Row>, b: seq<Row>)
    requires multiset(a) == multiset(b)
    ensures RowsTotal(a) == RowsTotal(b)
  {
    hide *;
    if a == [] {
      SameLength(a, b);
    } else {
      assert a[0] in multiset(b);
      var k :| 0 <= k < |b| && b[k] == a[0];
      Cancel(a, b, k);
      RowsUnordered(a[1..], b[..k] + b[k + 1..]);
      RowsTakeOut(a, 0);
      RowsTakeOut(b, k);
      assert a[..0] + a[1..] == a[1..];
    }
  }

  /** Buckets and the rest together are every group, once. */
  lemma {:induction false} ChosenIsAll(raw: seq<Group>)
    ensures RowsTotal(Chosen(raw, false)).Plus(RowsTotal(Chosen(raw, true))) == GroupsTotal(raw)
  {
    hide *;
    ChosenStep(raw);
    GroupsStep(raw);
    if raw == [] {
      RowsStep([], Row(None, false, Metrics(0, 0, 0, 0, 0, "", "")));
      Regroup(ZERO, ZERO, ZERO);
    } else {
      var init, row := raw[..|raw| - 1], RowOf(raw[|raw| - 1]);
      var rows, buckets := Chosen(init, false), Chosen(init, true);
      ChosenIsAll(init);
      RowsStep(rows, row);
      RowsStep(buckets, row);
      Regroup(RowsTotal(rows), RowsTotal(buckets), Figures(row.metrics));
    }
  }

  lemma ChosenStep(raw: seq<Group>)
    ensures raw == [] ==> Chosen(raw, false) == Chosen(raw, true) == []
    ensures raw != [] ==>
              var n := |raw| - 1;
              var row := RowOf(raw[n]);
              && Chosen(raw, row.placeholder) == Chosen(raw[..n], row.placeholder) + [row]
              && Chosen(raw, !row.placeholder) == Chosen(raw[..n], !row.placeholder)
              && row.metrics == WithPending(raw[n].counts)
  {
    hide WithPending;
  }

  /** People and buckets together add up to the sales, whatever the rung, the order of the groups or the roster. */
  lemma ReportConserves(w: World, rung: Rung, sales: seq<Sale>, raw: seq<Group>, report: Report)
    requires GroupsOf(raw, w, rung, sales)
    requires report.rows == Sorted(Chosen(raw, false), BookOrder)
    requires report.placeholders == Sorted(Chosen(raw, true), SizeOrder)
    requires report.totals == Printed(TotalFigures(Figured(report.rows + report.placeholders)))
    ensures Figures(report.totals) == Total(sales) == Figures(WithPending(Aggregate(sales)))
    ensures report.totals == Printed(Total(sales))
    ensures Figures(report.totals).Balanced() && report.totals.logins == |sales|
  {
    hide *;
    var rows, buckets := Chosen(raw, false), Chosen(raw, true);
    SortedIsOrdered(rows, BookOrder);
    SortedIsOrdered(buckets, SizeOrder);
    assert multiset(report.rows + report.placeholders) == multiset(rows + buckets);
    RowsUnordered(report.rows + report.placeholders, rows + buckets);
    RowsAppend(rows, buckets);
    FiguredTotal(report.rows + report.placeholders);
    ChosenIsAll(raw);
    GroupingConserves(w, rung, sales, raw);
    PrintedReads(Total(sales));
    AggregateIsExact(sales);
    TotalIsBalanced(sales);
    LoginsAreFigured(report.totals);
  }

  lemma LoginsAreFigured(m: Metrics)
    ensures Figures(m).logins == m.logins
  {
  }

  lemma PrintedReads(t: Tally)
    ensures Figures(Printed(t)) == t
  {
    hide ToPaise, FromPaise;
    ReadPrinted(t.anp);
    ReadPrinted(t.fp);
  }

  /** The two totals read the same, and are the same text exactly when some sale has an amount. */
  lemma TotalTextExactly(sales: seq<Sale>)
    ensures Printed(Total(sales)).anp == Aggregate(sales).anp <==> exists i :: 0 <= i < |sales| && sales[i].anp.Some?
    ensures Printed(Total(sales)).fp == Aggregate(sales).fp <==> exists i :: 0 <= i < |sales| && sales[i].fp.Some?
  {
    hide FromPaise, Total, SumPaise, CountWhere;
    TotalCounts(sales);
    LongerThanZero(Total(sales).anp);
    LongerThanZero(Total(sales).fp);
    SomeAmount(sales, AnpOf);
    SomeAmount(sales, FpOf);
  }

  lemma LongerThanZero(n: int)
    ensures FromPaise(n) != "0"
  {
    assert |FromPaise(n)| > 1;
  }

  lemma SomeAmount(sales: seq<Sale>, of: Sale -> Option<int>)
    ensures (forall i :: 0 <= i < |sales| ==> Column(sales, of)[i].None?) <==> forall i :: 0 <= i < |sales| ==> of(sales[i]).None?
  {
    if forall i :: 0 <= i < |sales| ==> Column(sales, of)[i].None? {
      forall i | 0 <= i < |sales| ensures of(sales[i]).None? {
        assert Column(sales, of)[i].None?;
      }
    }
  }

  /** Biggest book first, and the row for unplaced sales after every manager's, whatever its size. */
  lemma RowsAreRanked(w: World, rung: Rung, sales: seq<Sale>, raw: seq<Group>)
    requires GroupsOf(raw, w, rung, sales)
    ensures var rows := Sorted(Chosen(raw, false), BookOrder);
            && multiset(rows) == multiset(Chosen(raw, false))
            && (forall i, j :: 0 <= i < j < |rows| ==>
                 && (rows[i].code.None? ==> rows[j].code.None?)
                 && (rows[i].code.None? == rows[j].code.None? ==> rows[j].metrics.logins <= rows[i].metrics.logins))
  {
    hide Sorted, Chosen, GroupsOf;
    var rows := Sorted(Chosen(raw, false), BookOrder);
    SortedIsOrdered(Chosen(raw, false), BookOrder);
    assert TotalPreorder(BookOrder);
    forall i, j | 0 <= i < j < |rows| ensures BookOrder(rows[i], rows[j]) {
    }
  }

  // ----- what one row of the report says -----

  ghost predicate NoLeader(w: World, sm: string) {
    forall code :: !TlIs(w, sm, code)
  }

  ghost predicate NoManager(w: World, sm: string) {
    forall code :: !AcmIs(w, sm, code)
  }

  /** The sale is one of this row's: the rep's own code, or that of the leader or manager of a rep who is no bucket. */
  ghost predicate CountsUnder(w: World, rung: Rung, s: Sale, code: Option<string>, placeholder: bool) {
    && (placeholder <==> Upper(Strip(s.smId, Blank)) == "111222-UN" || Upper(Strip(s.smId, Blank)) == "DIY")
    && match rung
       case Sm => code == Some(s.smId)
       case Tl =>
         if placeholder then code.None? else if code.Some? then TlIs(w, s.smId, code.value) else NoLeader(w, s.smId)
       case Acm =>
         if placeholder then code.None? else if code.Some? then AcmIs(w, s.smId, code.value) else NoManager(w, s.smId)
  }

  lemma KeyExactly(w: World, rung: Rung, s: Sale, code: Option<string>, placeholder: bool)
    ensures KeyOf(w, rung, s) == Key(code, placeholder) <==> CountsUnder(w, rung, s, code, placeholder)
  {
    forall c ensures JoinedTl(w, s.smId) == Some(c) <==> TlIs(w, s.smId, c)
             ensures JoinedAcm(w, s.smId) == Some(c) <==> AcmIs(w, s.smId, c)
    {
      JoinedExactly(w, s.smId, c);
    }
    hide JoinedTl, JoinedAcm, TlIs, AcmIs;
    if JoinedTl(w, s.smId).Some? {
      assert TlIs(w, s.smId, JoinedTl(w, s.smId).value);
    }
    if JoinedAcm(w, s.smId).Some? {
      assert AcmIs(w, s.smId, JoinedAcm(w, s.smId).value);
    }
  }

  /** The places of a row's sales among all of them, and of those with some property. */
  ghost function Own(w: World, rung: Rung, sales: seq<Sale>, row: Row): (own: set<nat>)
    ensures forall i :: i in own ==> i < |sales|
  {
    set i: nat | i < |sales| && CountsUnder(w, rung, sales[i], row.code, row.placeholder)
  }

  ghost function Counted(w: World, rung: Rung, sales: seq<Sale>, key: Key, p: Sale -> bool): set<nat> {
    set i: nat | i < |sales| && KeyOf(w, rung, sales[i]) == key && p(sales[i])
  }

  lemma CountedStep(w: World, rung: Rung, sales: seq<Sale>, key: Key, p: Sale -> bool)
    requires sales != []
    ensures var n := |sales| - 1;
            |Counted(w, rung, sales, key, p)| ==
            |Counted(w, rung, sales[..n], key, p)| + OneIf(KeyOf(w, rung, sales[n]) == key && p(sales[n]))
  {
    hide KeyOf;
    var n := |sales| - 1;
    var before, all := Counted(w, rung, sales[..n], key, p), Counted(w, rung, sales, key, p);
    assert forall i :: 0 <= i < n ==> sales[..n][i] == sales[i];
    assert all == if KeyOf(w, rung, sales[n]) == key && p(sales[n]) then before + {n} else before;
  }

  lemma {:induction false} UnderCounts(w: World, rung: Rung, sales: seq<Sale>, key: Key, p: Sale -> bool)
    ensures CountWhere(Under(w, rung, sales, key), p) == |Counted(w, rung, sales, key, p)|
  {
    hide KeyOf, Counted;
    if sales == [] {
      NothingCounted(w, rung, key, p);
    } else {
      var n := |sales| - 1;
      UnderCounts(w, rung, sales[..n], key, p);
      CountedStep(w, rung, sales, key, p);
      var own := Under(w, rung, sales[..n], key);
      assert own + [] == own && (own + [sales[n]])[..|own|] == own;
    }
  }

  lemma NothingCounted(w: World, rung: Rung, key: Key, p: Sale -> bool)
    ensures |Counted(w, rung, [], key, p)| == 0
  {
    assert Counted(w, rung, [], key, p) == {};
  }

  /** The amounts of a row's sales, added up; NULL adds nothing. */
  ghost function SumUnder(w: World, rung: Rung, sales: seq<Sale>, row: Row, of: Sale -> Option<int>): int {
    if sales == [] then 0
    else
      var n := |sales| - 1;
      SumUnder(w, rung, sales[..n], row, of)
      + if CountsUnder(w, rung, sales[n], row.code, row.placeholder) && of(sales[n]).Some? then of(sales[n]).value else 0
  }

  lemma {:induction false} UnderSums(w: World, rung: Rung, sales: seq<Sale>, row: Row, of: Sale -> Option<int>)
    ensures SumPaise(Column(Under(w, rung, sales, Key(row.code, row.placeholder)), of)) == SumUnder(w, rung, sales, row, of)
  {
    hide KeyOf, CountsUnder;
    if sales != [] {
      var n := |sales| - 1;
      UnderSums(w, rung, sales[..n], row, of);
      KeyExactly(w, rung, sales[n], row.code, row.placeholder);
      var own := Under(w, rung, sales[..n], Key(row.code, row.placeholder));
      var more := Column(own + [sales[n]], of);
      assert own + [] == own;
      assert more[..|own|] == Column(own, of);
    }
  }

  // What the two status columns of a sale say.

  predicate SaysIssued(s: Sale) {
    Tidied(s.status) == "ISSUED" && Tidied(s.status2) != "FREELOOK CANCEL" && Tidied(s.status2) != "APPROVED"
  }

  predicate SaysRejected(s: Sale) {
    Tidied(s.status) == "REJECTED" || (Tidied(s.status) == "ISSUED" && Tidied(s.status2) == "FREELOOK CANCEL")
  }

  predicate SaysOther(s: Sale) {
    Tidied(s.status) != "ISSUED" && Tidied(s.status) != "PENDING" && Tidied(s.status) != "REJECTED"
  }

  ghost function Among(sales: seq<Sale>, own: set<nat>, p: Sale -> bool): set<nat> {
    set i | i in own && i < |sales| && p(sales[i])
  }

  /** What each figure of a row means. */
  ghost predicate RowSays(w: World, rung: Rung, sales: seq<Sale>, row: Row) {
    var own, m := Own(w, rung, sales, row), row.metrics;
    && own != {} && m.logins == |own|
    && m.issued == |Among(sales, own, SaysIssued)| && m.rejected == |Among(sales, own, SaysRejected)|
    && m.pending == m.logins - m.issued - m.rejected && m.unclassified == |Among(sales, own, SaysOther)|
    && ToPaise(m.anp) == SumUnder(w, rung, sales, row, AnpOf) && ToPaise(m.fp) == SumUnder(w, rung, sales, row, FpOf)
  }

  lemma OwnIsCounted(w: World, rung: Rung, sales: seq<Sale>, row: Row, p: Sale -> bool)
    ensures CountWhere(Under(w, rung, sales, Key(row.code, row.placeholder)), p)
            == |Among(sales, Own(w, rung, sales, row), p)|
  {
    hide KeyOf, CountsUnder, Under, CountWhere;
    var key := Key(row.code, row.placeholder);
    UnderCounts(w, rung, sales, key, p);
    forall i: nat | i < |sales|
      ensures KeyOf(w, rung, sales[i]) == key <==> CountsUnder(w, rung, sales[i], row.code, row.placeholder)
    {
      KeyExactly(w, rung, sales[i], row.code, row.placeholder);
    }
    assert Counted(w, rung, sales, key, p) == Among(sales, Own(w, rung, sales, row), p);
  }

  lemma {:induction false} CountAll(sales: seq<Sale>)
    ensures CountWhere(sales, s => true) == |sales|
  {
    if sales != [] {
      CountAll(sales[..|sales| - 1]);
    }
  }

  lemma OwnLogins(w: World, rung: Rung, sales: seq<Sale>, row: Row)
    ensures |Under(w, rung, sales, Key(row.code, row.placeholder))| == |Own(w, rung, sales, row)|
  {
    hide Under, CountWhere;
    var all := (s: Sale) => true;
    CountAll(Under(w, rung, sales, Key(row.code, row.placeholder)));
    OwnIsCounted(w, rung, sales, row, all);
    assert Own(w, rung, sales, row) == Among(sales, Own(w, rung, sales, row), all);
  }

  lemma GroupSays(w: World, rung: Rung, sales: seq<Sale>, g: Group)
    requires CountsItsOwn(w, rung, sales, g)
    ensures RowSays(w, rung, sales, RowOf(g))
  {
    hide KeyOf, Under, CountWhere, ToPaise, SumText, SumPaise, Own, Among, SumUnder, IsIssued, IsRejected, IsUnclassified;
    var row := RowOf(g);
    assert Key(row.code, row.placeholder) == g.key;
    UnderSums(w, rung, sales, row, AnpOf);
    UnderSums(w, rung, sales, row, FpOf);
    SumIsRead(Column(Under(w, rung, sales, g.key), AnpOf));
    SumIsRead(Column(Under(w, rung, sales, g.key), FpOf));
    OwnLogins(w, rung, sales, row);
    OwnIsCounted(w, rung, sales, row, IsIssued);
    OwnIsCounted(w, rung, sales, row, IsRejected);
    OwnIsCounted(w, rung, sales, row, IsUnclassified);
    OutcomesOf(sales, Own(w, rung, sales, row));
    SomeOwn(w, rung, sales, g);
  }

  lemma SomeOwn(w: World, rung: Rung, sales: seq<Sale>, g: Group)
    requires CountsItsOwn(w, rung, sales, g)
    ensures Own(w, rung, sales, RowOf(g)) != {}
  {
    hide KeyOf, Under, Aggregate, CountsUnder;
    UnderIsNotEmpty(w, rung, sales, g.key);
    var i: nat :| i < |sales| && Keys(w, rung, sales)[i] == g.key;
    KeyExactly(w, rung, sales[i], g.key.code, g.key.placeholder);
    assert i in Own(w, rung, sales, RowOf(g));
  }

  lemma OutcomesOf(sales: seq<Sale>, own: set<nat>)
    ensures Among(sales, own, IsIssued) == Among(sales, own, SaysIssued)
    ensures Among(sales, own, IsRejected) == Among(sales, own, SaysRejected)
    ensures Among(sales, own, IsUnclassified) == Among(sales, own, SaysOther)
  {
    hide IsIssued, IsRejected;
    forall s: Sale ensures IsIssued(s) == SaysIssued(s) && IsRejected(s) == SaysRejected(s) && IsUnclassified(s) == SaysOther(s) {
      OneOutcome(s);
    }
  }

  /** The rows chosen are the groups of their kind. */
  lemma {:induction false} ChosenFrom(raw: seq<Group>, placeholder: bool)
    ensures forall row :: row in Chosen(raw, placeholder) <==>
              exists k :: 0 <= k < |raw| && raw[k].key.placeholder == placeholder && row == RowOf(raw[k])
  {
    hide RowOf;
    if raw != [] {
      var init := raw[..|raw| - 1];
      ChosenFrom(init, placeholder);
      assert forall k :: 0 <= k < |init| ==> init[k] == raw[k];
    }
  }

  ghost predicate IsRow(raw: seq<Group>, row: Row) {
    exists k :: 0 <= k < |raw| && row == RowOf(raw[k])
  }

  lemma RowsAreGroups(raw: seq<Group>, rows: seq<Row>, placeholder: bool, mayPrecede: (Row, Row) -> bool)
    requires rows == Sorted(Chosen(raw, placeholder), mayPrecede)
    ensures forall row :: row in rows <==> IsRow(raw, row) && row.placeholder == placeholder
  {
    hide Sorted, Chosen, WithPending;
    SortedIsOrdered(Chosen(raw, placeholder), mayPrecede);
    ChosenFrom(raw, placeholder);
    forall row ensures row in rows <==> row in Chosen(raw, placeholder) {
      assert row in rows <==> row in multiset(rows);
    }
  }

  lemma OneGroupEach(raw: seq<Group>, a: Row, b: Row)
    requires DistinctKeys(raw) && IsRow(raw, a) && IsRow(raw, b) && a.code == b.code && a.placeholder == b.placeholder
    ensures a == b
  {
    var j :| 0 <= j < |raw| && a == RowOf(raw[j]);
    var k :| 0 <= k < |raw| && b == RowOf(raw[k]);
    assert raw[j].key == raw[k].key;
  }

  ghost predicate Reports(report: Report, row: Row) {
    row in report.rows || row in report.placeholders
  }

  ghost predicate OnSomeRow(w: World, rung: Rung, report: Report, s: Sale) {
    exists row :: Reports(report, row) && CountsUnder(w, rung, s, row.code, row.placeholder)
  }

  /**
   * In the report each row says of exactly its own sales what their columns say, buckets and people are apart, and
   * every sale counts on one row and no other.
   */
  lemma ReportSays(w: World, rung: Rung, sales: seq<Sale>, raw: seq<Group>, report: Report)
    requires GroupsOf(raw, w, rung, sales)
    requires report.rows == Sorted(Chosen(raw, false), BookOrder)
    requires report.placeholders == Sorted(Chosen(raw, true), SizeOrder)
    ensures forall row :: Reports(report, row) ==>
              RowSays(w, rung, sales, row) && (row.placeholder <==> row in report.placeholders)
    ensures forall i :: 0 <= i < |sales| ==> OnSomeRow(w, rung, report, sales[i])
    ensures forall i, a, b ::
              && 0 <= i < |sales| && Reports(report, a) && Reports(report, b)
              && CountsUnder(w, rung, sales[i], a.code, a.placeholder) && CountsUnder(w, rung, sales[i], b.code, b.placeholder)
              ==> a == b
  {
    hide Sorted, Chosen, RowSays, CountsUnder, CountsItsOwn, KeyOf, Grouped, WithPending, IsRow;
    RowsAreGroups(raw, report.rows, false, BookOrder);
    RowsAreGroups(raw, report.placeholders, true, SizeOrder);
    assert forall row :: Reports(report, row) <==> IsRow(raw, row);
    forall row | IsRow(raw, row) ensures RowSays(w, rung, sales, row) {
      RowIsGroup(raw, w, rung, sales, row);
    }
    forall i | 0 <= i < |sales| ensures OnSomeRow(w, rung, report, sales[i]) {
      assert Grouped(w, rung, raw, sales[i]);
      var row := RowOfSale(raw, w, rung, sales[i]);
      KeyExactly(w, rung, sales[i], row.code, row.placeholder);
      assert Reports(report, row);
    }
    forall i, a, b |
      && 0 <= i < |sales| && Reports(report, a) && Reports(report, b)
      && CountsUnder(w, rung, sales[i], a.code, a.placeholder) && CountsUnder(w, rung, sales[i], b.code, b.placeholder)
      ensures a == b
    {
      KeyExactly(w, rung, sales[i], a.code, a.placeholder);
      KeyExactly(w, rung, sales[i], b.code, b.placeholder);
      OneGroupEach(raw, a, b);
    }
  }

  lemma RowIsGroup(raw: seq<Group>, w: World, rung: Rung, sales: seq<Sale>, row: Row)
    requires GroupsOf(raw, w, rung, sales) && IsRow(raw, row)
    ensures RowSays(w, rung, sales, row)
  {
    hide RowSays, CountsItsOwn, Grouped, RowOf;
    var k :| 0 <= k < |raw| && row == RowOf(raw[k]);
    GroupSays(w, rung, sales, raw[k]);
  }

  lemma RowOfSale(raw: seq<Group>, w: World, rung: Rung, s: Sale) returns (row: Row)
    requires Grouped(w, rung, raw, s)
    ensures IsRow(raw, row) && Key(row.code, row.placeholder) == KeyOf(w, rung, s)
  {
    hide KeyOf, WithPending;
    var k :| 0 <= k < |raw| && raw[k].key == KeyOf(w, rung, s);
    row := RowOf(raw[k]);
  }

  /** Buckets are listed biggest first. */
  lemma BucketsAreRanked(raw: seq<Group>)
    ensures var buckets := Sorted(Chosen(raw, true), SizeOrder);
            forall i, j :: 0 <= i < j < |buckets| ==> buckets[j].metrics.logins <= buckets[i].metrics.logins
  {
    hide Sorted, Chosen;
    SortedIsOrdered(Chosen(raw, true), SizeOrder);
    assert TotalPreorder(SizeOrder);
    var buckets := Sorted(Chosen(raw, true), SizeOrder);
    forall i, j | 0 <= i < j < |buckets| ensures SizeOrder(buckets[i], buckets[j]) {
    }
  }

  // ----- whose row a sale counts on, and who may read it -----

  /**
   * A sale that counts on a manager's row can be read by that manager exactly when its rep has a roster row or is the
   * manager: a pin without a roster row moves the figures but not the scope.
   */
  lemma CountedIsReadExactly(w: World, s: Sale, code: string)
    ensures KeyOf(w, Rung.Tl, s).code == Some(code) ==> (s.smId in TlTeam(w, code) <==> s.smId in w.roster || s.smId == code)
    ensures KeyOf(w, Rung.Acm, s).code == Some(code) ==> (s.smId in AcmTeam(w, code) <==> s.smId in w.roster || s.smId == code)
  {
  }

  /** A rep a team leader reads counts on that leader's row, unless the code is the leader's own or a bucket. */
  lemma ReadIsCounted(w: World, s: Sale, code: string)
    requires s.smId in TlTeam(w, code) && s.smId != code && !InBucket(s)
    ensures KeyOf(w, Rung.Tl, s).code == Some(code)
  {
  }

  lemma JoinedExactly(w: World, sm: string, code: string)
    ensures JoinedTl(w, sm) == Some(code) <==> TlIs(w, sm, code)
    ensures JoinedAcm(w, sm) == Some(code) <==> AcmIs(w, sm, code)
  {
  }

  /**
   * A rostered rep, no bucket, is read by another area manager exactly when their sales count on that manager's row or
   * on the row of a rostered leader whose own sales would.
   */
  lemma ReadByManagerExactly(w: World, s: Sale, code: string)
    requires s.smId != code && !InBucket(s)
    ensures s.smId in AcmTeam(w, code) <==>
              && s.smId in w.roster
              && (|| KeyOf(w, Rung.Acm, s).code == Some(code)
                  || exists tl :: tl in w.roster && KeyOf(w, Rung.Tl, s).code == Some(tl) && JoinedAcm(w, tl) == Some(code))
  {
    hide AcmTeam, JoinedTl, JoinedAcm, TlIs, AcmIs;
    AcmTeamExactly(w, code, s.smId);
    JoinedExactly(w, s.smId, code);
    forall tl ensures JoinedTl(w, s.smId) == Some(tl) <==> TlIs(w, s.smId, tl)
              ensures JoinedAcm(w, tl) == Some(code) <==> AcmIs(w, tl, code)
    {
      JoinedExactly(w, s.smId, tl);
      JoinedExactly(w, tl, code);
    }
    if tl :| tl in w.roster && TlIs(w, s.smId, tl) && AcmIs(w, tl, code) {
      assert KeyOf(w, Rung.Tl, s).code == Some(tl);
    }
  }
}
