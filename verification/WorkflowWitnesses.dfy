/** Concrete runs of the engine: one signer on two rungs, and decisions that commit and are reported as failures. */
module WorkflowWitnesses {
  import opened Wrappers
  import opened Normalize
  import opened TeamScope
  import opened Records
  import opened Corrections
  import opened CorrectionTheorems
  import opened CorrectionWitnesses
  import opened Workflow
  import opened Bulk
  import JsSet
  import opened Text
  import opened Premiums
  import opened Calendar

  // ----- a request on a ladder of two named rungs -----

  const ACCOUNTS := Directory({"u1", "u2"}, map[])
  const U1 := Actor("u1", "approver")
  const U1_VERIFIES := Actor("u1", "verifier")

  function Named(stageKey: string, userId: Option<string>, distinctActor: bool, canReject: bool): Rung {
    Rung(stageKey, "USER", Config(userId, None, Submitter, distinctActor), canReject)
  }

  function Start(): Desk {
    Desk(OneRecord(), [])
  }

  function RaiseOn(chain: seq<Rung>): DeskAction {
    Raise(ASHA, OthersInput(Location, "Goa"), "OTHERS", chain, ACCOUNTS)
  }

  lemma GoaIsRaisable()
    ensures Raisable(Location, "Goa")
  {
    hide NormalizeText;
    Words();
  }

  function RaisedDesk(stages: seq<Stage>, chain: seq<Rung>): Desk
    requires Raisable(Location, "Goa")
  {
    Desk(RaisedState(Location, "Goa"), [Ladder("OTHERS", chain, stages)])
  }

  lemma StartIsReachable()
    ensures DeskReachable(Start(), 0) && Paired(Start())
  {
  }

  lemma RaisedOn(chain: seq<Rung>)
    requires chain != []
    ensures Raisable(Location, "Goa") && Paired(Start())
    ensures DeskStep(Start(), RaiseOn(chain)) == RaisedDesk(FromTheBottom(ACCOUNTS, RaisedRow(Location, "Goa"), chain), chain)
    ensures Paired(DeskStep(Start(), RaiseOn(chain)))
  {
    hide ProposedValue, Submit, Resolve, Raisable, FromTheBottom;
    GoaIsRaisable();
    OthersIsRaised(Location, "Goa");
    var chained := OthersInput(Location, "Goa").(chainOpens := chain != []);
    assert chained == OthersInput(Location, "Goa");
  }

  lemma GoaApplies(s: State)
    requires Raisable(Location, "Goa") && |s.requests| == 1 && s.records == [ASHA_ROW]
    requires s.requests[0].recordId == 0 && s.requests[0].category == Others
    requires s.requests[0].fieldName == Known(Location) && s.requests[0].proposed == "Goa"
    ensures ApplyRequest(s, 0).Ok?
  {
    hide ProposedValue, CoerceValue, ColumnOf, MappingWarnings, RosterName;
    GoaCoerces();
  }

  lemma GoaCoerces()
    ensures CoerceValue(Location, "Goa") == Ok(Some("Goa")) && ColumnOf(Location, Some("Goa")) == Ok(Some("Goa"))
  {
    hide NormalizeText, NormalizeStatus, NormalizeAutopay, NormalizeSmId, NormalizeMoney, NormalizeDate, Kept, Stripped;
    Words();
  }

  lemma ProposedGoa()
    ensures Raisable(Location, "Goa")
    ensures RaisedRow(Location, "Goa").proposed == "Goa" && RaisedRow(Location, "Goa").fieldName == Known(Location)
  {
    hide NormalizeText;
    Words();
  }

  // ----- one signer on both rungs -----

  const V1 := Named("V1", Some("u1"), false, false)
  const V2 := Named("V2", Some("u2"), true, true)

  function FirstOpen(): seq<Stage> {
    [Stage(V1, Active, None, Some("u1"), false), Stage(V2, Waiting, None, None, false)]
  }

  function SecondOpen(): seq<Stage> {
    [Stage(V1, Passed, Some("u1"), Some("u1"), true), Stage(V2, Active, None, Some("u2"), false)]
  }

  /** The second rung after it is handed to the first signer. */
  function HandedOver(): seq<Stage> {
    SecondOpen()[1 := Stage(Named("V2", Some("u1"), false, true), Active, None, Some("u1"), false)]
  }

  lemma FirstOpens()
    ensures Raisable(Location, "Goa")
    ensures FromTheBottom(ACCOUNTS, RaisedRow(Location, "Goa"), [V1, V2]) == FirstOpen()
  {
    hide ProposedValue;
    GoaIsRaisable();
  }

  predicate OnDesk(d: Desk, chain: seq<Rung>, stages: seq<Stage>, status: Status) {
    && Paired(d) && |d.ladders| == 1 && d.ladders[0] == Ladder("OTHERS", chain, stages)
    && d.state.records == [ASHA_ROW] && d.state.requests[0].status == status
    && d.state.requests[0].recordId == 0 && d.state.requests[0].category == Others
    && d.state.requests[0].fieldName == Known(Location) && d.state.requests[0].proposed == "Goa"
  }

  lemma OpenAtFirst(stages: seq<Stage>)
    requires |stages| == 2 && stages[0].status.Active?
    ensures ActiveRung(stages) == 0 && forall status :: Repaired(stages, status) == stages
  {
  }

  lemma OpenAtSecond(stages: seq<Stage>)
    requires |stages| == 2 && !stages[0].status.Active? && stages[1].status.Active?
    ensures ActiveRung(stages) == 1 && forall status :: Repaired(stages, status) == stages
  {
  }

  lemma FirstIsSigned(d: Desk)
    requires OnDesk(d, [V1, V2], FirstOpen(), Pending)
    ensures var r := Judge(d, ACCOUNTS, 0, Verdict(U1, Advance, false));
            r.Ok? && r.value.outcome == Advanced && OnDesk(r.value.desk, [V1, V2], SecondOpen(), Verified)
  {
    hide ActiveRung, Repaired;
    OpenAtFirst(FirstOpen());
    assert Signed(ACCOUNTS, d.state.requests[0], FirstOpen(), 0, Passed, U1)[1] == FirstOpen()[1];
  }

  lemma SecondIsHandedOver(d: Desk)
    requires OnDesk(d, [V1, V2], SecondOpen(), Verified)
    ensures OnDesk(DeskStep(d, Reassign("OTHERS", "V2", "u1")), [V1, V2], HandedOver(), Verified)
  {
    hide ActiveRung, Repaired;
    OpenAtSecond(SecondOpen());
  }

  lemma SecondIsSigned(d: Desk)
    requires OnDesk(d, [V1, V2], HandedOver(), Verified) && Raisable(Location, "Goa")
    ensures var r := Judge(d, ACCOUNTS, 0, Verdict(U1, Advance, false));
            && r.Ok? && r.value.outcome.Applied? && |r.value.desk.ladders| == 1 == |r.value.desk.state.requests|
            && r.value.desk.state.requests[0].status == Approved
            && r.value.desk.ladders[0].raised == [V1, V2]
            && |r.value.desk.ladders[0].stages| == 2
            && r.value.desk.ladders[0].stages[0].decidedBy == r.value.desk.ladders[0].stages[1].decidedBy == Some("u1")
            && r.value.desk.ladders[0].stages[1].routed && !r.value.desk.ladders[0].stages[1].rung.config.distinctActor
  {
    hide ActiveRung, Repaired, Apply, Raisable;
    OpenAtSecond(HandedOver());
    GoaApplies(d.state);
  }

  /** The chain asks V2 for somebody new; V1's signer is given V2 while it is open, and signs it, and the correction applies. */
  lemma OneSignerOnBothRungs() returns (d: Desk)
    ensures DeskReachable(d, 4) && |d.ladders| == 1 == |d.state.requests| && d.state.requests[0].status == Approved
    ensures d.ladders[0].raised == [V1, V2] && |d.ladders[0].stages| == 2
    ensures V2.config.distinctActor && Repeated(d.ladders[0], 1) && Dropped(d.ladders[0], 1) && d.ladders[0].stages[1].routed
  {
    hide ProposedValue, DeskStep, Judge, Raisable, DeskReachable, FromTheBottom;
    RaisedOn([V1, V2]);
    FirstOpens();
    StartIsReachable();
    StepIsReachable(Start(), RaiseOn([V1, V2]), 0);
    var raised := DeskStep(Start(), RaiseOn([V1, V2]));
    RaisedIsOnDesk([V1, V2], FirstOpen());
    FirstIsSigned(raised);
    var verdict := Verdict(U1, Advance, false);
    JudgedIs(raised, ACCOUNTS, 0, verdict);
    StepIsReachable(raised, Judged(0, verdict, ACCOUNTS), 1);
    var verified := DeskStep(raised, Judged(0, verdict, ACCOUNTS));
    SecondIsHandedOver(verified);
    StepIsReachable(verified, Reassign("OTHERS", "V2", "u1"), 2);
    var handed := DeskStep(verified, Reassign("OTHERS", "V2", "u1"));
    SecondIsSigned(handed);
    JudgedIs(handed, ACCOUNTS, 0, verdict);
    StepIsReachable(handed, Judged(0, verdict, ACCOUNTS), 3);
    d := DeskStep(handed, Judged(0, verdict, ACCOUNTS));
  }

  lemma RaisedIsOnDesk(chain: seq<Rung>, stages: seq<Stage>)
    ensures Raisable(Location, "Goa") && OnDesk(RaisedDesk(stages, chain), chain, stages, Pending)
  {
    hide ProposedValue;
    ProposedGoa();
  }

  lemma JudgedIs(d: Desk, dir: Directory, id: nat, v: Verdict)
    requires Paired(d) && Judge(d, dir, id, v).Ok?
    ensures DeskStep(d, Judged(id, v, dir)) == Judge(d, dir, id, v).value.desk
  {
    hide Judge;
  }

  // ----- an administrator on both rungs -----

  const N1 := Named("V1", None, false, false)
  const N2 := Named("V2", None, true, true)
  const ADMIN := Actor("root", "admin")

  function Stranded(first: StageStatus, signer: Option<string>, second: StageStatus): seq<Stage> {
    [Stage(N1, first, signer, None, false), Stage(N2, second, None, None, false)]
  }

  lemma StrandedIsSigned(d: Desk)
    requires OnDesk(d, [N1, N2], Stranded(Active, None, Waiting), Pending)
    ensures var r := Judge(d, ACCOUNTS, 0, Verdict(ADMIN, Advance, false));
            r.Ok? && OnDesk(r.value.desk, [N1, N2], Stranded(Passed, Some("root"), Active), Verified)
  {
    hide ActiveRung, Repaired;
    OpenAtFirst(Stranded(Active, None, Waiting));
    assert Signed(ACCOUNTS, d.state.requests[0], Stranded(Active, None, Waiting), 0, Passed, ADMIN)[1]
           == Stranded(Active, None, Waiting)[1];
  }

  lemma StrandedIsSignedAgain(d: Desk)
    requires OnDesk(d, [N1, N2], Stranded(Passed, Some("root"), Active), Verified) && Raisable(Location, "Goa")
    ensures var r := Judge(d, ACCOUNTS, 0, Verdict(ADMIN, Advance, false));
            && r.Ok? && |r.value.desk.ladders| == 1 == |r.value.desk.state.requests|
            && r.value.desk.state.requests[0].status == Approved
            && r.value.desk.ladders[0].raised == [N1, N2]
            && |r.value.desk.ladders[0].stages| == 2
            && r.value.desk.ladders[0].stages[0].decidedBy == r.value.desk.ladders[0].stages[1].decidedBy == Some("root")
            && !r.value.desk.ladders[0].stages[1].routed && r.value.desk.ladders[0].stages[1].rung.config.distinctActor
  {
    hide ActiveRung, Repaired, Apply, Raisable;
    OpenAtSecond(Stranded(Passed, Some("root"), Active));
    GoaApplies(d.state);
  }

  lemma StrandedOpens()
    ensures Raisable(Location, "Goa")
    ensures FromTheBottom(ACCOUNTS, RaisedRow(Location, "Goa"), [N1, N2]) == Stranded(Active, None, Waiting)
  {
    hide ProposedValue;
    GoaIsRaisable();
  }

  /** Two rungs that resolve to nobody are cleared by one administrator, though the second asks for somebody new. */
  lemma OneAdministratorOnBothRungs() returns (d: Desk)
    ensures DeskReachable(d, 3) && |d.ladders| == 1 == |d.state.requests| && d.state.requests[0].status == Approved
    ensures d.ladders[0].raised == [N1, N2] && |d.ladders[0].stages| == 2
    ensures N2.config.distinctActor && Repeated(d.ladders[0], 1) && !Dropped(d.ladders[0], 1) && !d.ladders[0].stages[1].routed
  {
    hide ProposedValue, DeskStep, Judge, Raisable, DeskReachable, FromTheBottom;
    RaisedOn([N1, N2]);
    StrandedOpens();
    StartIsReachable();
    StepIsReachable(Start(), RaiseOn([N1, N2]), 0);
    var raised := DeskStep(Start(), RaiseOn([N1, N2]));
    RaisedIsOnDesk([N1, N2], Stranded(Active, None, Waiting));
    var verdict := Verdict(ADMIN, Advance, false);
    StrandedIsSigned(raised);
    JudgedIs(raised, ACCOUNTS, 0, verdict);
    StepIsReachable(raised, Judged(0, verdict, ACCOUNTS), 1);
    var verified := DeskStep(raised, Judged(0, verdict, ACCOUNTS));
    StrandedIsSignedAgain(verified);
    JudgedIs(verified, ACCOUNTS, 0, verdict);
    StepIsReachable(verified, Judged(0, verdict, ACCOUNTS), 2);
    d := DeskStep(verified, Judged(0, verdict, ACCOUNTS));
  }

  // ----- committed, and reported as a failure -----

  lemma BulkOfOne(d: Desk, c: Call)
    requires Paired(d) && Judge(d, c.dir, 0, VerdictOf(c)).Ok?
    requires !Expected(c.verb, Judge(d, c.dir, 0, VerdictOf(c)).value.outcome)
    ensures var b := RunBulk(d, [0], c);
            && b.report == Report([], [BulkFailure(0, Committed)], [])
            && b.desk == Judge(d, c.dir, 0, VerdictOf(c)).value.desk
  {
    hide Judge;
    assert [0][..0] == [];
    assert RunBulk(d, [], c) == Batch(d, Report([], [], []));
    assert [] + [BulkFailure(0, Committed)] == [BulkFailure(0, Committed)];
  }

  /** An approver named on the first of two rungs approves in bulk: the batch reports a failure, and the request is VERIFIED. */
  lemma ApprovedBelowTheTop() returns (d: Desk)
    ensures DeskReachable(d, 1) && Paired(d) && |d.state.requests| == 1 && d.state.requests[0].status == Pending
    ensures var b := RunBulk(d, [0], Call(ApproveIt, U1, false, ACCOUNTS));
            && b.report == Report([], [BulkFailure(0, Committed)], [])
            && |b.desk.state.requests| == 1 && b.desk.state.requests[0].status == Verified
  {
    hide ProposedValue, DeskStep, Judge, Raisable, DeskReachable, FromTheBottom, RunBulk;
    RaisedOn([V1, V2]);
    FirstOpens();
    StartIsReachable();
    StepIsReachable(Start(), RaiseOn([V1, V2]), 0);
    d := DeskStep(Start(), RaiseOn([V1, V2]));
    RaisedIsOnDesk([V1, V2], FirstOpen());
    FirstIsSigned(d);
    BulkOfOne(d, Call(ApproveIt, U1, false, ACCOUNTS));
  }

  function OnlyOpen(): seq<Stage> {
    [Stage(V1, Active, None, Some("u1"), false)]
  }

  lemma OnlyOpens()
    ensures Raisable(Location, "Goa")
    ensures FromTheBottom(ACCOUNTS, RaisedRow(Location, "Goa"), [V1]) == OnlyOpen()
  {
    hide ProposedValue;
    GoaIsRaisable();
  }

  lemma OnlyIsSigned(d: Desk)
    requires OnDesk(d, [V1], OnlyOpen(), Pending) && Raisable(Location, "Goa")
    ensures var r := Judge(d, ACCOUNTS, 0, Verdict(U1_VERIFIES, Advance, false));
            && r.Ok? && r.value.outcome.Applied?
            && |r.value.desk.state.requests| == |r.value.desk.state.records| == 1
            && r.value.desk.state.requests[0].status == Approved && r.value.desk.state.records[0].currentVersion == 2
  {
    hide ActiveRung, Repaired, Raisable, CoerceValue, ColumnOf;
    assert ActiveRung(OnlyOpen()) == 0 && Repaired(OnlyOpen(), Pending) == OnlyOpen() by {
      OnlyRung();
    }
    GoaApplies(d.state);
  }

  lemma OnlyRung()
    ensures ActiveRung(OnlyOpen()) == 0 && Repaired(OnlyOpen(), Pending) == OnlyOpen()
  {
  }

  /** A verifier named on the only rung verifies in bulk: the batch reports a failure, and the record has a second version. */
  lemma VerifiedAtTheTop() returns (d: Desk)
    ensures DeskReachable(d, 1) && Paired(d) && |d.state.requests| == 1 && d.state.requests[0].status == Pending
    ensures var b := RunBulk(d, [0], Call(VerifyIt, U1_VERIFIES, false, ACCOUNTS));
            && b.report == Report([], [BulkFailure(0, Committed)], [])
            && |b.desk.state.requests| == |b.desk.state.records| == 1
            && b.desk.state.requests[0].status == Approved && b.desk.state.records[0].currentVersion == 2
  {
    hide ProposedValue, DeskStep, Judge, Raisable, DeskReachable, FromTheBottom, RunBulk;
    RaisedOn([V1]);
    OnlyOpens();
    StartIsReachable();
    StepIsReachable(Start(), RaiseOn([V1]), 0);
    d := DeskStep(Start(), RaiseOn([V1]));
    RaisedIsOnDesk([V1], OnlyOpen());
    OnlyIsSigned(d);
    BulkOfOne(d, Call(VerifyIt, U1_VERIFIES, false, ACCOUNTS));
  }
}
