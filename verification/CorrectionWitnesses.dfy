/** Concrete runs that show the exceptions in the theorems do happen. */
module CorrectionWitnesses {
  import opened Wrappers
  import opened Normalize
  import opened TeamScope
  import opened Records
  import opened Corrections
  import opened CorrectionTheorems
  import opened Text
  import opened Premiums
  import opened Calendar
  import opened Money
  import Decimal

  const ASHA_ROW: Record :=
    Row(map[AppsNo := "1", SmId := "A", SmName := "Asha", PolicyNo := "P7", Location := "Pune", Fp := "7.00"], None, 1, false)
  const ASHA := User("u", Sales, Some("A"), None, None)

  /** One imported record, owned by the one rep on the roster. */
  function OneRecord(): State {
    State([ASHA_ROW], [[Version(1, ASHA_ROW, [], None)]], [], [],
          World(map["A" := Rep(Some("Asha"), None, None)], map[], {}, {}, "2026-08-08"))
  }

  /** The form of a correction under OTHERS. */
  function OthersInput(f: Field, value: string): Input {
    Input(Some(Others), None, "1", value, Some("note"), Known(f), true, true)
  }

  /** Asha raises it and it is approved, or an approval is tried. */
  function RaisedAndApproved(f: Field, value: string): seq<Action> {
    [DoSubmit(ASHA, OthersInput(f, value)), DoDecide(0, Approve)]
  }

  /** A value OTHERS takes for the field, that the one record does not hold. */
  predicate Raisable(f: Field, value: string) {
    && !OthersForbidden(f) && Stripped(value, ScriptSpace) && value != ""
    && Acceptable(ProposedValue(f, value)) && ProposedValue(f, value).value != ASHA_ROW.Get(f)
  }

  lemma OthersParses(latestIssue: string, f: Field, value: string)
    requires !OthersForbidden(f) && Stripped(value, ScriptSpace) && value != ""
    requires Acceptable(ProposedValue(f, value))
    ensures Parse(latestIssue, OthersInput(f, value)) == Some(Submission(Others, None, "1", value, Some("note"), f))
  {
    hide ProposedValue, Acceptable;
    StripFixpoint("1", ScriptSpace);
    StripFixpoint("note", ScriptSpace);
    StripFixpoint(value, ScriptSpace);
  }

  lemma OneIsAnIdentifier()
    ensures NormalizeIdentifier("1") == Normalized(Some("1"), false)
  {
    StripFixpoint("1", ScriptSpace);
    assert Lower("1") == "1";
    SqueezeNoSpace("1");
    assert "1"[1..] == "";
  }

  /** The row such a submission inserts. */
  function RaisedRow(f: Field, value: string): Request
    requires Acceptable(ProposedValue(f, value))
  {
    Request(0, "1", Others, None, Known(f), ASHA_ROW.Get(f), ProposedValue(f, value).value.value,
            Some("note"), "u", "A", Pending, None, 0, None, None)
  }

  function RaisedState(f: Field, value: string): State
    requires Acceptable(ProposedValue(f, value))
  {
    OneRecord().(requests := [RaisedRow(f, value)], events := [Event(0, Submitted, None, Pending)])
  }

  lemma OthersIsRaised(f: Field, value: string)
    requires Raisable(f, value)
    ensures Submit(OneRecord(), ASHA, OthersInput(f, value)) == Ok(RaisedState(f, value))
  {
    hide ProposedValue, Parse, NormalizeIdentifier, ActorBooks, ResolveRecord;
    OthersParses("2026-08-08", f, value);
    OneIsAnIdentifier();
    BooksAndRecord();
    assert CheckOwnership(OneRecord().world, Books({"A"}, Some("A")), None, value, "A") == None;
    assert SnapshotOriginal(ASHA_ROW, f) == ASHA_ROW.Get(f);
    assert !PeriodIsClosed(OneRecord().world, None);
    var row := NewRequest(OneRecord(), ASHA, OthersInput(f, value)).value;
    assert OneRecord().requests + [row] == [row];
    assert OneRecord().events + [Event(0, Submitted, None, Pending)] == [Event(0, Submitted, None, Pending)];
  }

  lemma BooksAndRecord()
    ensures ActorBooks(OneRecord().world, ASHA) == Some(Books({"A"}, Some("A")))
    ensures ResolveRecord(OneRecord(), Books({"A"}, Some("A")), None, "1") == Ok(0)
  {
    var s := OneRecord();
    assert ActorBooks(s.world, ASHA) == Some(Books({"A"}, Some("A")));
    assert Matches(s.records[0], AppsNo, "1", None);
    assert ResolveRecord(s, Books({"A"}, Some("A")), None, "1") == Ok(0);
  }

  /** Such a run is the approval of the raised row. */
  lemma OthersRun(f: Field, value: string)
    requires Raisable(f, value)
    ensures Run(OneRecord(), RaisedAndApproved(f, value)[..1]) == RaisedState(f, value)
    ensures Run(OneRecord(), RaisedAndApproved(f, value)) == Step(RaisedState(f, value), DoDecide(0, Approve))
  {
    hide ProposedValue, Submit;
    var actions := RaisedAndApproved(f, value);
    OthersIsRaised(f, value);
    assert actions[..1][..0] == [] && actions[..1] == [actions[0]];
    assert Run(OneRecord(), actions[..1]) == RaisedState(f, value);
  }

  /** What an approval that goes through leaves on the record. */
  lemma OthersApplied(f: Field, value: string)
    requires Raisable(f, value)
    requires var coerced := CoerceValue(f, ProposedValue(f, value).value.value); coerced.Ok? && ColumnOf(f, coerced.value).Ok?
    ensures var t := Run(OneRecord(), RaisedAndApproved(f, value));
            && |t.requests| == |t.records| == 1
            && t.requests[0].status == Approved && t.requests[0].proposed == ProposedValue(f, value).value.value
            && t.requests[0].fieldName == Known(f)
            && Ok(t.records[0].Get(f)) == ColumnOf(f, CoerceValue(f, t.requests[0].proposed).value)
            && forall g :: g != f ==> t.records[0].Get(g) == ASHA_ROW.Get(g)
  {
    hide ProposedValue, CoerceValue, ColumnOf, Run;
    OthersRun(f, value);
  }

  /** An approval that is refused leaves the request where it was, and every table. */
  lemma OthersStuck(f: Field, value: string)
    requires Raisable(f, value)
    requires var coerced := CoerceValue(f, ProposedValue(f, value).value.value);
             coerced.Ok? ==> ColumnOf(f, coerced.value).Err?
    ensures var t := Run(OneRecord(), RaisedAndApproved(f, value));
            var coerced := CoerceValue(f, ProposedValue(f, value).value.value);
            && t == RaisedState(f, value) && t.requests[0].status == Pending
            && Decide(t, 0, Approve) == Err(NotAppliable(if coerced.Err? then coerced.error else ColumnOf(f, coerced.value).error))
  {
    hide ProposedValue, CoerceValue, ColumnOf, Run;
    OthersRun(f, value);
  }

  // ----- an identifier that is lost -----

  lemma NaIdentifier()
    ensures NormalizeIdentifier("n a") == Normalized(Some("na"), false) && NormalizeText("na") == None
  {
    StripFixpoint("n a", ScriptSpace);
    StripFixpoint("na", ScriptSpace);
    assert Lower("n a") == "n a" && Lower("na") == "na";
    assert Squeeze("n a", ScriptSpace) == "na" by {
      assert "n a"[1..] == " a" && " a"[1..] == "a" && "a"[1..] == "";
    }
  }

  /** A policy number of `n a` is accepted as `na`, and its approval clears the column. */
  lemma IdentifierIsLost()
    ensures Imported(OneRecord()) && ASHA_ROW.Get(PolicyNo) == Some("P7")
    ensures var t := Run(OneRecord(), RaisedAndApproved(PolicyNo, "n a"));
            && |t.requests| == |t.records| == 1
            && t.requests[0].status == Approved && t.requests[0].proposed == "na"
            && t.records[0].Get(PolicyNo) == None
  {
    hide NormalizeIdentifier, NormalizeText, Run, StripRight, StripLeft;
    NaIdentifier();
    OthersApplied(PolicyNo, "n a");
  }

  // ----- a name that leaves the roster -----

  lemma PlainWord(word: string)
    requires word != "" && NoSpace(word) && Lower(word) !in SENTINELS
    ensures NormalizeText(word) == Some(word) && Stripped(word, ScriptSpace)
  {
    StripFixpoint(word, ScriptSpace);
    NoSpaceText(word);
  }

  lemma Words()
    ensures NormalizeText("Bina") == Some("Bina") && NormalizeText("Goa") == Some("Goa") && NormalizeText("Pune") == Some("Pune")
    ensures Stripped("Bina", ScriptSpace) && Stripped("Goa", ScriptSpace) && Stripped("Pune", ScriptSpace)
  {
    hide NormalizeText;
    assert Lower("Bina") == "bina" && Lower("Goa") == "goa" && Lower("Pune") == "pune";
    PlainWord("Bina");
    PlainWord("Goa");
    PlainWord("Pune");
  }

  /** A correction under OTHERS may name the rep's name, and then the record's name is not the roster's. */
  lemma NameLeavesRoster()
    ensures Imported(OneRecord()) && NamedByRoster(OneRecord().world, OneRecord().records[0])
    ensures var t := Run(OneRecord(), RaisedAndApproved(SmName, "Bina"));
            && |t.records| == 1 && t.records[0].values[SmId] == "A" && t.records[0].Get(SmName) == Some("Bina")
            && !NamedByRoster(OneRecord().world, t.records[0])
  {
    hide NormalizeText, Run, StripRight, StripLeft;
    Words();
    OthersApplied(SmName, "Bina");
    var t := Run(OneRecord(), RaisedAndApproved(SmName, "Bina"));
    assert t.records[0].Get(SmId) == ASHA_ROW.Get(SmId);
  }

  // ----- a date that can never be applied -----

  const FAR_DAY := Day(12026, 3, 4)

  lemma FarDayIsRead()
    ensures NormalizeDate("12026-03-04") == Normalized(Some(IsoText(FAR_DAY)), false)
    ensures Stripped("12026-03-04", ScriptSpace)
  {
    hide LeadingDigits, Decimal.Parse, IsoText, IsSerial, StripLeft, StripRight, Pieces, IsDigits;
    StripFixpoint("12026-03-04", ScriptSpace);
    LongIsNoSentinel("12026-03-04");
    assert "12026-03-04" == "12026" + ("-" + "03-04");
    DashIsNoSerial("12026", "03-04");
    FarPieces();
    OnlyDigits("12026");
    OnlyDigits("03");
    OnlyDigits("04");
    FarNumbers();
  }

  lemma FarPieces()
    ensures Pieces("12026-03-04") == ["12026", "03", "04"]
  {
    hide Pieces;
    PieceThenRest("12026", '-', "03-04");
    PieceThenRest("03", '-', "04");
    OnePiece("04");
    assert "12026-03-04" == "12026" + ['-'] + "03-04" && "03-04" == "03" + ['-'] + "04";
  }

  lemma FarNumbers()
    ensures Decimal.Parse("12026") == 12026 && Decimal.Parse("03") == 3 && Decimal.Parse("04") == 4
  {
    assert "1"[..0] == [] && Decimal.Parse("1") == 1;
    assert "12"[..1] == "1" && Decimal.Parse("12") == 12;
    assert "120"[..2] == "12" && Decimal.Parse("120") == 120;
    assert "1202"[..3] == "120" && Decimal.Parse("1202") == 1202;
    assert "12026"[..4] == "1202";
    assert "0"[..0] == [] && Decimal.Parse("0") == 0;
    assert "03"[..1] == "0" && "04"[..1] == "0";
  }

  /** A login date of 4 March 12026 is accepted, and no approval of it ever goes through. */
  lemma FarDateIsStuck()
    ensures Imported(OneRecord())
    ensures var t := Run(OneRecord(), RaisedAndApproved(LoginDate, "12026-03-04"));
            && |t.requests| == 1 && t.requests[0].status == Pending && t.requests[0].proposed == IsoText(FAR_DAY)
            && Decide(t, 0, Approve).Err? && Unwritable(t.requests[0])
            && t.records == OneRecord().records
  {
    hide NormalizeDate, IsoText, Run, StripRight, StripLeft;
    FarDayIsRead();
    SixDigitsAreRefused(FAR_DAY);
    IsoIsNotEmpty(FAR_DAY);
    OthersStuck(LoginDate, "12026-03-04");
  }

  // ----- an amount that is printed differently, and one there is no room for -----

  lemma DigitsAsAmount(digits: string)
    requires digits != "" && Decimal.AllDigits(digits)
    requires Lower(digits) !in SENTINELS
    ensures NormalizeMoney(digits) == Normalized(Some(digits + ".00"), false)
    ensures Stripped(digits, ScriptSpace)
    ensures Normal(digits + ".00", false, digits, "00")
  {
    hide MatchUnsigned, Decimal.Parse, Squeeze, StripLeft, StripRight;
    StripFixpoint(digits, ScriptSpace);
    NoiseFree(digits);
    assert Unwrapped(digits) == digits;
    assert DropSign(digits) == digits;
    UnsignedReads(digits, "");
    assert TwoDigits("") == "00";
    assert Minus(false) + (digits + "." + "00") == digits + ".00";
  }

  lemma SevenIsSeven()
    ensures Kept("007.00") == Some("7.00")
  {
    hide ToPaise, Decimal.Render;
    assert "007.00" == Minus(false) + ("007" + "." + "00");
    AmountReads("007.00", false, "007", "00");
    assert "0"[..0] == [] && Decimal.Parse("0") == 0;
    assert "00"[..1] == "0" && Decimal.Parse("00") == 0;
    assert "007"[..2] == "00" && Decimal.Parse("007") == 7;
    assert ToPaise("007.00") == 700;
    RenderDigit(7);
    RenderDigit(0);
    assert Decimal.Digit(7) == '7' && Decimal.Digit(0) == '0';
    assert Padded(0) == "00";
    assert FromPaise(700) == "7.00";
  }

  /** A premium of `007` is accepted where `7.00` stands; the approval writes a version, changes nothing and never holds `007.00`. */
  lemma AmountIsReprinted()
    ensures Imported(OneRecord()) && ASHA_ROW.Get(Fp) == Some("7.00")
    ensures var t := Run(OneRecord(), RaisedAndApproved(Fp, "007"));
            && |t.requests| == |t.records| == 1
            && t.requests[0].status == Approved && t.requests[0].proposed == "007.00" && Reprinted(t.requests[0])
            && t.records[0].Get(Fp) == Some("7.00") && t.records[0].currentVersion == 2
  {
    hide ProposedValue, CoerceValue, ColumnOf, Run, StripRight, StripLeft;
    SevenSteps();
    OthersApplied(Fp, "007");
    VersionTwo(Fp, "007");
  }

  lemma SevenSteps()
    ensures Stripped("007", ScriptSpace) && ProposedValue(Fp, "007") == Normalized(Some("007.00"), false)
    ensures CoerceValue(Fp, "007.00") == Ok(Some("007.00")) && ColumnOf(Fp, Some("007.00")) == Ok(Some("7.00"))
  {
    hide NormalizeMoney, ToPaise, FromPaise, StripRight, StripLeft, Normal;
    assert Lower("007") == "007";
    DigitsAsAmount("007");
    assert "007" + ".00" == "007.00";
    NormalIsStable("007.00", false, "007", "00");
    SevenIsSeven();
  }

  lemma VersionTwo(f: Field, value: string)
    requires Raisable(f, value)
    requires Run(OneRecord(), RaisedAndApproved(f, value)).requests != []
             && Run(OneRecord(), RaisedAndApproved(f, value)).requests[0].status == Approved
    ensures var t := Run(OneRecord(), RaisedAndApproved(f, value));
            |t.records| == 1 && t.records[0].currentVersion == 2
  {
    hide ProposedValue, CoerceValue, ColumnOf, Run;
    OthersRun(f, value);
  }

  const TOO_MUCH := "99999999999999999"

  lemma TooMuchIsDigits()
    ensures Decimal.AllDigits(TOO_MUCH) && Lower(TOO_MUCH) !in SENTINELS
  {
    assert |Lower(TOO_MUCH)| == 17;
  }

  lemma TooMuchIsTooMuch()
    ensures Kept(TOO_MUCH + ".00").None?
  {
    hide Kept, Normal;
    TooMuchIsDigits();
    DigitsAsAmount(TOO_MUCH);
    assert DropLeadingZeros(TOO_MUCH) == TOO_MUCH;
    KeptExactly(TOO_MUCH + ".00", false, TOO_MUCH, "00");
  }

  /** A premium of seventeen digits is accepted, and its column never takes it. */
  lemma AmountIsStuck()
    ensures Imported(OneRecord())
    ensures var t := Run(OneRecord(), RaisedAndApproved(Fp, TOO_MUCH));
            && |t.requests| == 1 && t.requests[0].status == Pending && t.requests[0].proposed == TOO_MUCH + ".00"
            && Decide(t, 0, Approve) == Err(NotAppliable(OutOfRange)) && Unwritable(t.requests[0])
            && t.records == OneRecord().records
  {
    hide ProposedValue, CoerceValue, ColumnOf, Decide, Run, StripRight, StripLeft, Kept;
    TooMuchSteps();
    TooMuchIsTooMuch();
    assert ColumnOf(Fp, Some(TOO_MUCH + ".00")) == Err(OutOfRange) by {
      NoRoom(TOO_MUCH + ".00");
    }
    OthersStuck(Fp, TOO_MUCH);
  }

  lemma NoRoom(amount: string)
    requires Kept(amount).None?
    ensures ColumnOf(Fp, Some(amount)) == Err(OutOfRange)
  {
    hide Kept;
  }

  lemma TooMuchSteps()
    ensures Stripped(TOO_MUCH, ScriptSpace) && ProposedValue(Fp, TOO_MUCH) == Normalized(Some(TOO_MUCH + ".00"), false)
    ensures CoerceValue(Fp, TOO_MUCH + ".00") == Ok(Some(TOO_MUCH + ".00"))
  {
    hide NormalizeMoney, StripRight, StripLeft, Normal;
    TooMuchIsDigits();
    DigitsAsAmount(TOO_MUCH);
    NormalIsStable(TOO_MUCH + ".00", false, TOO_MUCH, "00");
  }

  // ----- a resubmission that proposes what is already there -----

  const HELD_AGAIN: seq<Action> := [
    DoSubmit(ASHA, OthersInput(Location, "Goa")), DoDecide(0, Return),
    DoResubmit(ASHA, 0, Answer("Pune", Some("note"), true)), DoDecide(0, Approve)]

  lemma HeldAgainSteps()
    ensures Raisable(Location, "Goa") ==>
              && Run(OneRecord(), HELD_AGAIN[..2]) == SentBackState()
              && Run(OneRecord(), HELD_AGAIN[..3]) == Step(SentBackState(), HELD_AGAIN[2])
              && Run(OneRecord(), HELD_AGAIN) == Step(Step(SentBackState(), HELD_AGAIN[2]), HELD_AGAIN[3])
  {
    hide ProposedValue, Submit, Resubmit;
    assert HELD_AGAIN[..3][..2] == HELD_AGAIN[..2] && HELD_AGAIN[..2][..1] == HELD_AGAIN[..1];
    assert HELD_AGAIN[..1] == [HELD_AGAIN[0]] && HELD_AGAIN[..1][..0] == [];
    if Raisable(Location, "Goa") {
      OthersIsRaised(Location, "Goa");
      assert Run(OneRecord(), HELD_AGAIN[..1]) == RaisedState(Location, "Goa");
      assert HELD_AGAIN[..2][1] == DoDecide(0, Return);
    }
  }

  /** A submission of the location already held is refused; sent back and answered with it, it is accepted and applied. */
  lemma ResubmissionMayChangeNothing()
    ensures Imported(OneRecord()) && ASHA_ROW.Get(Location) == Some("Pune")
    ensures Submit(OneRecord(), ASHA, OthersInput(Location, "Pune")) == Err(Failure.Unchanged)
    ensures var t := Run(OneRecord(), HELD_AGAIN);
            && |t.requests| == |t.records| == 1
            && t.requests[0].status == Approved && t.requests[0].resubmissions == 1
            && Some(t.requests[0].proposed) == t.requests[0].original
            && t.records[0].currentVersion == 2 && t.records[0].values == ASHA_ROW.values
  {
    hide NormalizeText, Run, StripRight, StripLeft;
    Words();
    HeldIsRefused();
    HeldAgainSteps();
    HeldAgainEnds();
  }

  lemma HeldIsRefused()
    ensures Submit(OneRecord(), ASHA, OthersInput(Location, "Pune")) == Err(Failure.Unchanged)
  {
    hide Parse, NormalizeIdentifier, ActorBooks, ResolveRecord, NormalizeText;
    Words();
    OthersParses("2026-08-08", Location, "Pune");
    OneIsAnIdentifier();
    BooksAndRecord();
  }

  /** The request once it was sent back, and once it was answered. */
  function SentBackState(): State
    requires Acceptable(ProposedValue(Location, "Goa"))
  {
    Moved(RaisedState(Location, "Goa"), 0, Returned, ReturnedAction)
  }

  function AnsweredRow(): Request
    requires Acceptable(ProposedValue(Location, "Goa"))
  {
    RaisedRow(Location, "Goa").(status := Pending, proposed := "Pune", resubmissions := 1)
  }

  lemma AnswerIsAccepted()
    ensures Acceptable(ProposedValue(Location, "Goa"))
    ensures Revised(SentBackState().world, RaisedRow(Location, "Goa").(status := Returned), Answer("Pune", Some("note"), true))
            == Ok(AnsweredRow())
    ensures Acceptable(ProposedValue(Location, "Pune")) && ProposedValue(Location, "Pune").value == Some("Pune")
  {
    hide Parse, NormalizeText, StripRight, StripLeft;
    Words();
    OthersParses("2026-08-08", Location, "Pune");
    var existing := RaisedRow(Location, "Goa").(status := Returned);
    assert AnswerAsInput(existing, Answer("Pune", Some("note"), true)) == OthersInput(Location, "Pune");
  }

  lemma AnswerIsFiled()
    ensures Acceptable(ProposedValue(Location, "Goa"))
    ensures Step(SentBackState(), HELD_AGAIN[2]).requests == [AnsweredRow()]
    ensures Step(SentBackState(), HELD_AGAIN[2]).records == OneRecord().records
    ensures Step(SentBackState(), HELD_AGAIN[2]).versions == OneRecord().versions
    ensures Step(SentBackState(), HELD_AGAIN[2]).world == OneRecord().world
  {
    hide Revised, ProposedValue, Parse, ActorBooks;
    AnswerIsAccepted();
    BooksAndRecord();
    assert SentBackState().requests == [RaisedRow(Location, "Goa").(status := Returned)];
  }

  lemma HeldAgainEnds()
    ensures Raisable(Location, "Goa")
    ensures var t := Step(Step(SentBackState(), HELD_AGAIN[2]), HELD_AGAIN[3]);
            && |t.requests| == |t.records| == 1
            && t.requests[0].status == Approved && t.requests[0].resubmissions == 1
            && Some(t.requests[0].proposed) == t.requests[0].original
            && t.records[0].currentVersion == 2 && t.records[0].values == ASHA_ROW.values
  {
    hide NormalizeText, StripRight, StripLeft, Step;
    Words();
    AnswerIsFiled();
    AnswerIsApplied(Step(SentBackState(), HELD_AGAIN[2]));
  }

  lemma AnswerIsApplied(s: State)
    requires Acceptable(ProposedValue(Location, "Goa")) && NormalizeText("Pune") == Some("Pune")
    requires s.requests == [AnsweredRow()] && s.records == [ASHA_ROW] && |s.versions| == 1
    ensures var t := Step(s, DoDecide(0, Approve));
            && |t.requests| == |t.records| == 1
            && t.requests[0].status == Approved && t.requests[0].resubmissions == 1
            && Some(t.requests[0].proposed) == t.requests[0].original
            && t.records[0].currentVersion == 2 && t.records[0].values == ASHA_ROW.values
  {
    hide ProposedValue, Apply, CoerceValue, ColumnOf, Stripped, Step;
    PuneChangesNothing(s.world);
    TheOnlyOneIsApproved(s);
  }

  lemma TheOnlyOneIsApproved(s: State)
    requires |s.requests| == |s.records| == |s.versions| == 1 && s.requests[0].recordId == 0
    requires s.requests[0].status == Pending && ApplyRequest(s, 0).Ok?
    ensures Step(s, DoDecide(0, Approve)) == ApprovedState(s, 0, ApplyRequest(s, 0).value)
  {
    hide ApplyRequest, ApprovedState;
  }

  lemma PuneChangesNothing(w: World)
    requires NormalizeText("Pune") == Some("Pune")
    ensures Apply(w, ASHA_ROW, Others, Known(Location), "Pune", 0).Ok?
    ensures var a := Apply(w, ASHA_ROW, Others, Known(Location), "Pune", 0).value;
            a.record.currentVersion == 2 && a.record.values == ASHA_ROW.values
  {
    hide NormalizeText, Apply;
    PuneApplies(w);
    SameColumns(Apply(w, ASHA_ROW, Others, Known(Location), "Pune", 0).value.record.values, ASHA_ROW.values);
  }

  lemma PuneApplies(w: World)
    requires NormalizeText("Pune") == Some("Pune")
    ensures Apply(w, ASHA_ROW, Others, Known(Location), "Pune", 0).Ok?
    ensures var a := Apply(w, ASHA_ROW, Others, Known(Location), "Pune", 0).value;
            && a.record.currentVersion == 2
            && forall f :: Row(a.record.values, None, 0, false).Get(f) == Row(ASHA_ROW.values, None, 0, false).Get(f)
  {
    hide NormalizeText, MappingWarnings;
  }
}
