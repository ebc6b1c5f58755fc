/** One decision over many requests (src/lib/approvals/bulk.ts, and the adapters it is given in src/lib/approvals/apply.ts and src/lib/verification/apply.ts). */
module Bulk {
  import opened Wrappers
  import opened Normalize
  import Premiums
  import opened Records
  import opened Corrections
  import opened CorrectionRuns
  import opened CorrectionTheorems
  import opened Workflow
  import opened JsSet

  // ----- the five verbs -----

  /** What an approver may post, and what a verifier may. */
  datatype Verb = ApproveIt | RejectIt | ReturnIt | VerifyIt | SendItBack

  function DecisionOf(verb: Verb): StageDecision {
    match verb
    case ApproveIt | VerifyIt => Advance
    case RejectIt => Refuse
    case ReturnIt | SendItBack => StageDecision.SendBack
  }

  /** The adapter's own test, after the engine has committed: any other outcome is thrown as an error. */
  predicate Expected(verb: Verb, outcome: StageOutcome) {
    match verb
    case ApproveIt => outcome.Applied?
    case RejectIt | ReturnIt => outcome.TurnedDown? || outcome.GivenBack?
    case VerifyIt => outcome.Advanced?
    case SendItBack => outcome.GivenBack?
  }

  function WarningsOf(outcome: StageOutcome): seq<Warning> {
    if outcome.Applied? then outcome.warnings else []
  }

  /** One posted decision; the accounts and the roster stand still while its batch runs. */
  datatype Call = Call(verb: Verb, actor: Actor, remarks: bool, dir: Directory)

  function VerdictOf(c: Call): Verdict {
    Verdict(c.actor, DecisionOf(c.verb), c.remarks)
  }

  // ----- the batch -----

  /** `Committed`: the engine went through with it, and the adapter reported that as a failure. */
  datatype Reason = Declined(error: EngineError) | Committed

  datatype BulkFailure = BulkFailure(requestId: nat, reason: Reason)

  datatype Report = Report(succeeded: seq<nat>, failed: seq<BulkFailure>, warnings: seq<Warning>)

  datatype Batch = Batch(desk: Desk, report: Report)

  function BulkOne(b: Batch, id: nat, c: Call): Batch
    requires Paired(b.desk)
  {
    match Judge(b.desk, c.dir, id, VerdictOf(c))
    case Ok(ruling) =>
      if Expected(c.verb, ruling.outcome) then
        Batch(ruling.desk, b.report.(succeeded := b.report.succeeded + [id],
                                     warnings := AddAll(b.report.warnings, WarningsOf(ruling.outcome))))
      else Batch(ruling.desk, b.report.(failed := b.report.failed + [BulkFailure(id, Committed)]))
    case Err(error) => b.(report := b.report.(failed := b.report.failed + [BulkFailure(id, Declined(error))]))
  }

  lemma JudgeKeepsPairs(d: Desk, dir: Directory, id: nat, v: Verdict)
    requires Paired(d)
    ensures Judge(d, dir, id, v).Ok? ==>
              var t := Judge(d, dir, id, v).value.desk;
              && Paired(t) && |t.ladders| == |d.ladders| && |t.state.records| == |d.state.records|
              && id < |d.ladders|
              && forall i :: 0 <= i < |d.ladders| ==> t.state.requests[i].recordId == d.state.requests[i].recordId
  {
    hide MayDecide, Signed, OpenRung, Repaired, ActiveRung, ApplyRequest;
  }

  function RunBulk(d: Desk, ids: seq<nat>, c: Call): (b: Batch)
    requires Paired(d)
    ensures Paired(b.desk) && |b.desk.ladders| == |d.ladders| && |b.desk.state.records| == |d.state.records|
  {
    if ids == [] then Batch(d, Report([], [], []))
    else
      var before := RunBulk(d, ids[..|ids| - 1], c);
      JudgeKeepsPairs(before.desk, c.dir, ids[|ids| - 1], VerdictOf(c));
      BulkOne(before, ids[|ids| - 1], c)
  }

  /** Deciding a list of requests one after another, whatever the adapter thinks of the outcomes. */
  function JudgeAll(d: Desk, ids: seq<nat>, c: Call): (t: Desk)
    requires Paired(d)
    ensures Paired(t) && |t.ladders| == |d.ladders| && |t.state.records| == |d.state.records|
  {
    if ids == [] then d
    else
      var before := JudgeAll(d, ids[..|ids| - 1], c);
      JudgeKeepsPairs(before, c.dir, ids[|ids| - 1], VerdictOf(c));
      var r := Judge(before, c.dir, ids[|ids| - 1], VerdictOf(c));
      if r.Ok? then r.value.desk else before
  }

  /** A batch leaves what deciding every one of its ids leaves: a reported failure undoes nothing. */
  lemma {:induction false} BulkIsItsDecisions(d: Desk, ids: seq<nat>, c: Call)
    requires Paired(d)
    ensures RunBulk(d, ids, c).desk == JudgeAll(d, ids, c)
  {
    hide Judge, AddAll;
    if ids != [] {
      BulkIsItsDecisions(d, ids[..|ids| - 1], c);
    }
  }

  // ----- what becomes of one id -----

  /** Why an application of the request fails, when it does. */
  function ErrorOf(r: Request): ApplyError {
    if r.fieldName.Known? && KindOf(r.fieldName.field).Money? then OutOfRange else InvalidValue
  }

  datatype Fate = Succeeds | Fails(reason: Reason)

  /** What becomes of an id, read off its own request and ladder before the batch begins. */
  function FateOf(r: Request, stages: seq<Stage>, c: Call): Fate {
    var k := ActiveRung(stages);
    if k == |stages| then Fails(Declined(NoOpenStep))
    else if !MayDecide(c.dir, r, stages, k, c.actor) then Fails(Declined(NotAuthorized))
    else match c.verb
      case RejectIt =>
        if !c.remarks then Fails(Declined(RemarksRequired))
        else if !stages[k].rung.canReject then Fails(Declined(CannotReject))
        else Succeeds
      case ReturnIt | SendItBack => if !c.remarks then Fails(Declined(RemarksRequired)) else Succeeds
      case ApproveIt =>
        if k < |stages| - 1 then Fails(Committed)
        else if Unwritable(r) then Fails(Declined(CannotApply(ErrorOf(r))))
        else Succeeds
      case VerifyIt =>
        if k < |stages| - 1 then Succeeds
        else if Unwritable(r) then Fails(Declined(CannotApply(ErrorOf(r))))
        else Fails(Committed)
  }

  function FateIn(d: Desk, id: nat, c: Call): Fate
    requires Paired(d)
  {
    if id >= |d.state.requests| then Fails(Declined(NoSuchRequest))
    else FateOf(d.state.requests[id], d.ladders[id].stages, c)
  }

  /** The rung is the last one, and the decision at it applies the correction. */
  predicate Applies(d: Desk, id: nat, c: Call)
    requires Paired(d)
  {
    && id < |d.state.requests| && DecisionOf(c.verb).Advance?
    && FateIn(d, id, c) == (if c.verb.ApproveIt? then Succeeds else Fails(Committed))
  }

  lemma ApplicationExactly(s: State, id: nat)
    requires Inv(s) && id < |s.requests|
    ensures Linked(s)
    ensures ApplyRequest(s, id).Ok? <==> !Unwritable(s.requests[id])
    ensures ApplyRequest(s, id).Err? ==> ApplyRequest(s, id).error == ErrorOf(s.requests[id])
  {
    hide Timed, ChainOf, OneOpen, Undrifted, Canonical, ApplyRequest, Unwritable, ErrorOf;
    assert Sound(s.requests[id]);
    if s.requests[id].category.Mapping? {
      MappingApplies(s, id);
      MappingIsWritten(s.requests[id]);
    } else {
      OrdinaryApplies(s, id);
      if ApplyRequest(s, id).Err? {
        OrdinaryError(s, id);
      }
    }
  }

  lemma OrdinaryError(s: State, id: nat)
    requires Inv(s) && id < |s.requests| && !s.requests[id].category.Mapping?
    ensures Linked(s)
    ensures ApplyRequest(s, id).Err? ==> ApplyRequest(s, id).error == ErrorOf(s.requests[id])
  {
    hide Timed, ChainOf, OneOpen, Undrifted, Destined, CoerceKind, ProposedValue, Premiums.Kept;
    var r := s.requests[id];
    assert Sound(r);
    var raw :| ProposedValue(r.fieldName.field, raw) == Normalized(Some(r.proposed), false);
    SecondPassExactly(r.fieldName.field, raw);
  }

  /** Deciding an id gives what its fate says, in any state of the others. */
  lemma JudgeFollowsFate(d: Desk, id: nat, c: Call)
    requires DeskInv(d)
    ensures match FateIn(d, id, c)
            case Fails(Declined(e)) => Judge(d, c.dir, id, VerdictOf(c)) == Err(e)
            case Fails(Committed) =>
              && Judge(d, c.dir, id, VerdictOf(c)).Ok?
              && !Expected(c.verb, Judge(d, c.dir, id, VerdictOf(c)).value.outcome)
            case Succeeds =>
              && Judge(d, c.dir, id, VerdictOf(c)).Ok?
              && Expected(c.verb, Judge(d, c.dir, id, VerdictOf(c)).value.outcome)
    ensures Applies(d, id, c) <==>
              Judge(d, c.dir, id, VerdictOf(c)).Ok? && Judge(d, c.dir, id, VerdictOf(c)).value.outcome.Applied?
  {
    hide Inv, LadderOk, SameRungs, MayDecide, Signed, OpenRung, Repaired, ApplyRequest, Unwritable, ErrorOf, Moved, ApprovedState;
    if id < |d.state.requests| {
      assert LadderOk(d.ladders[id].stages, d.state.requests[id].status);
      RepairNeverRuns(d.ladders[id].stages, d.state.requests[id].status);
      ApplicationExactly(d.state, id);
    }
  }

  // ----- one id does not disturb another -----

  lemma JudgeTouchesOne(d: Desk, dir: Directory, id: nat, v: Verdict, j: nat)
    requires Paired(d) && j < |d.ladders| && j != id && Judge(d, dir, id, v).Ok?
    ensures var t := Judge(d, dir, id, v).value.desk;
            && |t.ladders| == |d.ladders| == |t.state.requests|
            && t.ladders[j] == d.ladders[j] && t.state.requests[j] == d.state.requests[j]
  {
    hide MayDecide, Signed, OpenRung, Repaired, ActiveRung, ApplyRequest;
  }

  lemma JudgeKeepsInv(d: Desk, dir: Directory, id: nat, v: Verdict)
    requires DeskInv(d) && Judge(d, dir, id, v).Ok?
    ensures DeskInv(Judge(d, dir, id, v).value.desk)
  {
    hide Inv, LadderOk, SameRungs, Judge, Step, AllFollow, AsAction;
    DeskStepRefines(d, Judged(id, v, dir));
  }

  /** The batch keeps the ladders in order and touches no request it was not given. */
  lemma {:induction false} BulkKeepsInv(d: Desk, ids: seq<nat>, c: Call)
    requires DeskInv(d)
    ensures DeskInv(RunBulk(d, ids, c).desk)
    ensures var t := RunBulk(d, ids, c).desk;
            forall j :: 0 <= j < |d.ladders| && j !in ids ==>
              t.ladders[j] == d.ladders[j] && t.state.requests[j] == d.state.requests[j]
  {
    hide Inv, LadderOk, SameRungs, Judge, AddAll;
    if ids != [] {
      var init, id := ids[..|ids| - 1], ids[|ids| - 1];
      var before := RunBulk(d, init, c).desk;
      BulkKeepsInv(d, init, c);
      if Judge(before, c.dir, id, VerdictOf(c)).Ok? {
        JudgeKeepsInv(before, c.dir, id, VerdictOf(c));
        forall j: nat | j < |d.ladders| && j !in ids
          ensures var t := Judge(before, c.dir, id, VerdictOf(c)).value.desk;
                  && |t.ladders| == |d.ladders| == |t.state.requests|
                  && t.ladders[j] == d.ladders[j] && t.state.requests[j] == d.state.requests[j]
        {
          JudgeTouchesOne(before, c.dir, id, VerdictOf(c), j);
        }
      }
    }
  }

  // ----- who succeeds -----

  function Succeeding(d: Desk, ids: seq<nat>, c: Call): seq<nat>
    requires Paired(d)
  {
    if ids == [] then []
    else Succeeding(d, ids[..|ids| - 1], c) + if FateIn(d, ids[|ids| - 1], c).Succeeds? then [ids[|ids| - 1]] else []
  }

  function Failing(d: Desk, ids: seq<nat>, c: Call): seq<BulkFailure>
    requires Paired(d)
  {
    if ids == [] then []
    else
      var id := ids[|ids| - 1];
      Failing(d, ids[..|ids| - 1], c)
      + match FateIn(d, id, c) case Succeeds => [] case Fails(reason) => [BulkFailure(id, reason)]
  }

  /**
   * A batch of distinct ids reports each one, in order, as its own request and ladder said before the batch began:
   * succeeded, declined by the engine with its reason, or committed and reported as a failure.
   */
  lemma {:induction false} BulkSplits(d: Desk, ids: seq<nat>, c: Call)
    requires DeskInv(d) && NoRepeats(ids)
    ensures RunBulk(d, ids, c).report.succeeded == Succeeding(d, ids, c)
    ensures RunBulk(d, ids, c).report.failed == Failing(d, ids, c)
  {
    hide Inv, LadderOk, SameRungs, Judge, AddAll, FateOf;
    if ids != [] {
      var init, id := ids[..|ids| - 1], ids[|ids| - 1];
      var before := RunBulk(d, init, c).desk;
      BulkSplits(d, init, c);
      BulkKeepsInv(d, init, c);
      JudgeFollowsFate(before, id, c);
      assert id !in init;
      assert FateIn(before, id, c) == FateIn(d, id, c);
    }
  }

  lemma InvIsPaired(d: Desk)
    requires DeskInv(d)
    ensures Paired(d)
  {
  }

  /** Every id given is in one of the two lists, and none in both. */
  lemma {:induction false} SplitCovers(d: Desk, ids: seq<nat>, c: Call)
    requires Paired(d)
    ensures |Succeeding(d, ids, c)| + |Failing(d, ids, c)| == |ids|
    ensures forall id :: id in Succeeding(d, ids, c) <==> id in ids && FateIn(d, id, c).Succeeds?
    ensures forall f :: f in Failing(d, ids, c) ==> f.requestId in ids && FateIn(d, f.requestId, c) == Fails(f.reason)
  {
    hide FateIn;
    if ids != [] {
      SplitCovers(d, ids[..|ids| - 1], c);
    }
  }

  /** Places in a list, in order. */
  ghost predicate InOrder(at: seq<nat>, n: nat) {
    (forall k :: 0 <= k < |at| ==> at[k] < n) && forall j, k :: 0 <= j < k < |at| ==> at[j] < at[k]
  }

  /** The successes are the ids at the places whose fate it is, in the order they were given. */
  ghost predicate ListsSuccesses(d: Desk, ids: seq<nat>, c: Call, listed: seq<nat>, at: seq<nat>)
    requires Paired(d)
  {
    && InOrder(at, |ids|) && |listed| == |at|
    && (forall k :: 0 <= k < |at| ==> listed[k] == ids[at[k]])
    && (forall i: nat :: i in at <==> i < |ids| && FateIn(d, ids[i], c) == Succeeds)
  }

  /** The failures are the ids at all the other places, in that order, each with the reason of its fate. */
  ghost predicate ListsFailures(d: Desk, ids: seq<nat>, c: Call, listed: seq<BulkFailure>, at: seq<nat>)
    requires Paired(d)
  {
    && InOrder(at, |ids|) && |listed| == |at|
    && (forall k :: 0 <= k < |at| ==> listed[k].requestId == ids[at[k]] && FateIn(d, ids[at[k]], c) == Fails(listed[k].reason))
    && (forall i: nat :: i in at <==> i < |ids| && FateIn(d, ids[i], c) != Succeeds)
  }

  lemma {:induction false} SplitInOrder(d: Desk, ids: seq<nat>, c: Call) returns (good: seq<nat>, bad: seq<nat>)
    requires Paired(d)
    ensures ListsSuccesses(d, ids, c, Succeeding(d, ids, c), good)
    ensures ListsFailures(d, ids, c, Failing(d, ids, c), bad)
  {
    hide FateIn, ListsSuccesses, ListsFailures;
    if ids == [] {
      good, bad := [], [];
      NothingListed(d, c);
    } else {
      var n := |ids| - 1;
      var init := ids[..n];
      var fate := FateIn(d, ids[n], c);
      good, bad := SplitInOrder(d, init, c);
      OneMoreSuccess(d, ids, c, Succeeding(d, init, c), good);
      OneMoreFailure(d, ids, c, Failing(d, init, c), bad, if fate.Fails? then fate.reason else Committed);
      if fate.Succeeds? {
        good := good + [n];
        assert Failing(d, init, c) + [] == Failing(d, init, c);
      } else {
        bad := bad + [n];
        assert Succeeding(d, init, c) + [] == Succeeding(d, init, c);
      }
    }
  }

  lemma NothingListed(d: Desk, c: Call)
    requires Paired(d)
    ensures ListsSuccesses(d, [], c, [], []) && ListsFailures(d, [], c, [], [])
  {
  }

  lemma OneMoreSuccess(d: Desk, ids: seq<nat>, c: Call, listed: seq<nat>, at: seq<nat>)
    requires Paired(d) && ids != [] && ListsSuccesses(d, ids[..|ids| - 1], c, listed, at)
    ensures var n := |ids| - 1;
            if FateIn(d, ids[n], c) == Succeeds then ListsSuccesses(d, ids, c, listed + [ids[n]], at + [n])
            else ListsSuccesses(d, ids, c, listed, at)
  {
    hide FateIn;
    var n := |ids| - 1;
    var init, more := ids[..n], at + [n];
    assert forall i :: 0 <= i < n ==> init[i] == ids[i];
    assert forall k :: 0 <= k < |at| ==> at[k] in at && at[k] < n;
    assert forall i: nat :: i in more <==> i in at || i == n;
  }

  lemma OneMoreFailure(d: Desk, ids: seq<nat>, c: Call, listed: seq<BulkFailure>, at: seq<nat>, reason: Reason)
    requires Paired(d) && ids != [] && ListsFailures(d, ids[..|ids| - 1], c, listed, at)
    requires FateIn(d, ids[|ids| - 1], c) == Succeeds || FateIn(d, ids[|ids| - 1], c) == Fails(reason)
    ensures var n := |ids| - 1;
            if FateIn(d, ids[n], c) == Succeeds then ListsFailures(d, ids, c, listed, at)
            else ListsFailures(d, ids, c, listed + [BulkFailure(ids[n], reason)], at + [n])
  {
    hide FateIn;
    var n := |ids| - 1;
    var init, more := ids[..n], at + [n];
    assert forall i :: 0 <= i < n ==> init[i] == ids[i];
    assert forall k :: 0 <= k < |at| ==> at[k] in at && at[k] < n;
    assert forall i: nat :: i in more <==> i in at || i == n;
  }

  /** In the report of a batch of distinct ids each list keeps the order the ids were given in, and between them they have every place. */
  lemma BulkReportsInOrder(d: Desk, ids: seq<nat>, c: Call)
    requires DeskInv(d) && NoRepeats(ids)
    ensures exists good, bad :: ListsSuccesses(d, ids, c, RunBulk(d, ids, c).report.succeeded, good)
                             && ListsFailures(d, ids, c, RunBulk(d, ids, c).report.failed, bad)
  {
    hide DeskInv, RunBulk, ListsSuccesses, ListsFailures;
    InvIsPaired(d);
    BulkSplits(d, ids, c);
    var good, bad := SplitInOrder(d, ids, c);
  }

  // ----- the batch and its successes -----

  lemma {:induction false} JudgeAllTouches(d: Desk, ids: seq<nat>, c: Call, j: nat)
    requires Paired(d) && j < |d.ladders| && j !in ids
    ensures JudgeAll(d, ids, c).ladders[j] == d.ladders[j]
  {
    hide Judge;
    if ids != [] {
      var before := JudgeAll(d, ids[..|ids| - 1], c);
      JudgeAllTouches(d, ids[..|ids| - 1], c, j);
      if Judge(before, c.dir, ids[|ids| - 1], VerdictOf(c)).Ok? {
        JudgeTouchesOne(before, c.dir, ids[|ids| - 1], VerdictOf(c), j);
      }
    }
  }

  /** A decision that commits moves the ladder. */
  lemma JudgeMoves(d: Desk, dir: Directory, id: nat, v: Verdict)
    requires DeskInv(d) && Judge(d, dir, id, v).Ok?
    ensures id < |d.ladders| && Judge(d, dir, id, v).value.desk.ladders[id] != d.ladders[id]
  {
    hide Inv, LadderOk, SameRungs, MayDecide, Resolve, ApplyRequest, ApprovedState, Moved, Repaired;
    var stages := d.ladders[id].stages;
    assert LadderOk(stages, d.state.requests[id].status);
    RepairNeverRuns(stages, d.state.requests[id].status);
    var k := ActiveRung(stages);
    assert Judge(d, dir, id, v).value.desk.ladders[id].stages[k].status != stages[k].status;
  }

  /** An id that was committed and reported as a failure is not where it was. */
  lemma {:induction false} CommittedMoves(d: Desk, ids: seq<nat>, c: Call, j: nat)
    requires DeskInv(d) && NoRepeats(ids) && j in ids && FateIn(d, j, c) == Fails(Committed)
    ensures j < |d.ladders| && RunBulk(d, ids, c).desk.ladders[j] != d.ladders[j]
  {
    hide Inv, LadderOk, SameRungs, Judge, AddAll, FateOf;
    var init, id := ids[..|ids| - 1], ids[|ids| - 1];
    var before := RunBulk(d, init, c).desk;
    BulkKeepsInv(d, init, c);
    if id == j {
      assert j !in init;
      assert FateIn(before, j, c) == FateIn(d, j, c);
      JudgeFollowsFate(before, j, c);
      JudgeMoves(before, c.dir, j, VerdictOf(c));
    } else {
      CommittedMoves(d, init, c, j);
      if Judge(before, c.dir, id, VerdictOf(c)).Ok? {
        JudgeTouchesOne(before, c.dir, id, VerdictOf(c), j);
      }
    }
  }

  lemma {:induction false} UncommittedSuffice(d: Desk, ids: seq<nat>, c: Call)
    requires DeskInv(d) && NoRepeats(ids) && forall id :: id in ids ==> FateIn(d, id, c) != Fails(Committed)
    ensures RunBulk(d, ids, c).desk == JudgeAll(d, RunBulk(d, ids, c).report.succeeded, c)
  {
    hide Inv, LadderOk, SameRungs, Judge, AddAll, FateOf;
    if ids != [] {
      var init, id := ids[..|ids| - 1], ids[|ids| - 1];
      var before := RunBulk(d, init, c);
      UncommittedSuffice(d, init, c);
      BulkKeepsInv(d, init, c);
      assert id !in init;
      assert FateIn(before.desk, id, c) == FateIn(d, id, c);
      JudgeFollowsFate(before.desk, id, c);
      if FateIn(d, id, c).Succeeds? {
        var done := before.report.succeeded + [id];
        assert done[..|done| - 1] == before.report.succeeded;
      }
    }
  }

  /**
   * A batch leaves what deciding only its reported successes leaves exactly when none of its ids is committed and
   * reported as a failure: approved below the last rung, or verified at it, by somebody the rung admits.
   */
  lemma BulkIsItsSuccessesExactly(d: Desk, ids: seq<nat>, c: Call)
    requires DeskInv(d) && NoRepeats(ids)
    ensures RunBulk(d, ids, c).desk == JudgeAll(d, RunBulk(d, ids, c).report.succeeded, c)
            <==> forall id :: id in ids ==> FateIn(d, id, c) != Fails(Committed)
  {
    hide DeskInv, FateIn, RunBulk, JudgeAll;
    InvIsPaired(d);
    if j :| j in ids && FateIn(d, j, c) == Fails(Committed) {
      CommittedMoves(d, ids, c, j);
      BulkSplits(d, ids, c);
      SplitCovers(d, ids, c);
      JudgeAllTouches(d, RunBulk(d, ids, c).report.succeeded, c, j);
    } else {
      UncommittedSuffice(d, ids, c);
    }
  }

  /** Which ids those are. */
  lemma CommittedExactly(d: Desk, id: nat, c: Call)
    requires Paired(d)
    ensures FateIn(d, id, c) == Fails(Committed) <==>
              && id < |d.state.requests|
              && var r, stages := d.state.requests[id], d.ladders[id].stages;
                 var k := ActiveRung(stages);
                 && k < |stages| && MayDecide(c.dir, r, stages, k, c.actor)
                 && ((c.verb.ApproveIt? && k < |stages| - 1) || (c.verb.VerifyIt? && k == |stages| - 1 && !Unwritable(r)))
  {
    hide MayDecide, Unwritable;
  }

  lemma {:induction false} BulkIsReachable(d: Desk, steps: nat, ids: seq<nat>, c: Call) returns (after: nat)
    requires DeskReachable(d, steps) && Paired(d)
    ensures DeskReachable(RunBulk(d, ids, c).desk, after)
  {
    hide Judge, AddAll, DeskReachable;
    after := steps;
    if ids != [] {
      var before := RunBulk(d, ids[..|ids| - 1], c).desk;
      after := BulkIsReachable(d, steps, ids[..|ids| - 1], c);
      if Judge(before, c.dir, ids[|ids| - 1], VerdictOf(c)).Ok? {
        StepIsReachable(before, Judged(ids[|ids| - 1], VerdictOf(c), c.dir), after);
        after := after + 1;
      }
    }
  }

  /** After a decision that did not just pass the request on, the same id again is a failure. */
  lemma SecondCopyFails(d: Desk, id: nat, c: Call)
    requires DeskInv(d) && Judge(d, c.dir, id, VerdictOf(c)).Ok?
    requires !Judge(d, c.dir, id, VerdictOf(c)).value.outcome.Advanced?
    ensures var t := Judge(d, c.dir, id, VerdictOf(c)).value.desk;
            Paired(t) && Judge(t, c.dir, id, VerdictOf(c)) == Err(NoOpenStep)
  {
    var t := Judge(d, c.dir, id, VerdictOf(c)).value.desk;
    JudgeKeepsInv(d, c.dir, id, VerdictOf(c));
    JudgeStatus(d, c.dir, id, VerdictOf(c));
    hide Inv, LadderOk, SameRungs, MayDecide, Signed, OpenRung, ApplyRequest, ApprovedState, Moved, Repaired;
    assert LadderOk(t.ladders[id].stages, t.state.requests[id].status);
    RepairNeverRuns(t.ladders[id].stages, t.state.requests[id].status);
    OneRungOpenExactly(t.ladders[id].stages, t.state.requests[id].status);
  }

  lemma JudgeStatus(d: Desk, dir: Directory, id: nat, v: Verdict)
    requires Paired(d) && Judge(d, dir, id, v).Ok?
    ensures var t := Judge(d, dir, id, v).value;
            && id < |t.desk.state.requests|
            && t.desk.state.requests[id].status ==
               match t.outcome
               case Advanced => Verified
               case Applied(_) => Approved
               case GivenBack => Status.Returned
               case TurnedDown => Status.Rejected
  {
    hide MayDecide, Signed, OpenRung, ApplyRequest, Repaired, ActiveRung;
  }

  // ----- versions and warnings -----

  /** How many of the ids are about record `k` and are applied, whatever is reported. */
  function AppliedTo(d: Desk, ids: seq<nat>, c: Call, k: nat): nat
    requires Paired(d)
  {
    if ids == [] then 0
    else
      var id := ids[|ids| - 1];
      AppliedTo(d, ids[..|ids| - 1], c, k) + if Applies(d, id, c) && d.state.requests[id].recordId == k then 1 else 0
  }

  lemma JudgeCounts(d: Desk, dir: Directory, id: nat, v: Verdict, k: nat)
    requires Paired(d) && Judge(d, dir, id, v).Ok? && k < |d.state.records|
    ensures var t := Judge(d, dir, id, v).value;
            && id < |d.state.requests| && |t.desk.state.records| == |d.state.records|
            && t.desk.state.records[k].currentVersion ==
               d.state.records[k].currentVersion + if t.outcome.Applied? && d.state.requests[id].recordId == k then 1 else 0
  {
    hide MayDecide, Signed, OpenRung, Repaired, ActiveRung, CoerceValue, ResolveTargetField, MappingWarnings, RosterName,
         ColumnOf;
  }

  /** Each record's version rises by exactly the number of its requests the batch applied. */
  lemma {:induction false} VersionsCountApplications(d: Desk, ids: seq<nat>, c: Call, k: nat)
    requires DeskInv(d) && NoRepeats(ids) && k < |d.state.records|
    ensures RunBulk(d, ids, c).desk.state.records[k].currentVersion ==
            d.state.records[k].currentVersion + AppliedTo(d, ids, c, k)
  {
    hide Inv, LadderOk, SameRungs, Judge, AddAll, FateOf;
    if ids != [] {
      var init, id := ids[..|ids| - 1], ids[|ids| - 1];
      var before := RunBulk(d, init, c).desk;
      VersionsCountApplications(d, init, c, k);
      BulkKeepsInv(d, init, c);
      assert id !in init;
      JudgeFollowsFate(before, id, c);
      assert Applies(before, id, c) == Applies(d, id, c);
      if Judge(before, c.dir, id, VerdictOf(c)).Ok? {
        JudgeCounts(before, c.dir, id, VerdictOf(c), k);
      }
    }
  }

  /** For a batch of approvals those are reported successes; for any other, none is. */
  lemma AppliedIsReported(d: Desk, id: nat, c: Call)
    requires Paired(d) && Applies(d, id, c)
    ensures FateIn(d, id, c).Succeeds? <==> c.verb.ApproveIt?
    ensures c.verb.ApproveIt? || c.verb.VerifyIt?
  {
    hide FateIn;
  }

  /** Every warning the successes raised, one after another. */
  function Raised(d: Desk, ids: seq<nat>, c: Call): seq<Warning>
    requires Paired(d)
  {
    if ids == [] then []
    else
      var init := ids[..|ids| - 1];
      var r := Judge(RunBulk(d, init, c).desk, c.dir, ids[|ids| - 1], VerdictOf(c));
      Raised(d, init, c) + if r.Ok? && Expected(c.verb, r.value.outcome) then WarningsOf(r.value.outcome) else []
  }

  /** The report holds each of those warnings once, in the order they were first raised. */
  lemma {:induction false} WarningsAreDistinct(d: Desk, ids: seq<nat>, c: Call)
    requires Paired(d)
    ensures RunBulk(d, ids, c).report.warnings == Distinct(Raised(d, ids, c))
  {
    hide Judge;
    if ids != [] {
      var init := ids[..|ids| - 1];
      WarningsAreDistinct(d, init, c);
      var r := Judge(RunBulk(d, init, c).desk, c.dir, ids[|ids| - 1], VerdictOf(c));
      if r.Ok? && Expected(c.verb, r.value.outcome) {
        AddAllIsDistinct(Raised(d, init, c), WarningsOf(r.value.outcome));
      } else {
        assert Raised(d, init, c) + [] == Raised(d, init, c);
      }
    }
  }

  /** Approving the i-th id, when its turn came, applied it and raised this warning. */
  ghost predicate RaisedBy(d: Desk, ids: seq<nat>, c: Call, i: nat, warning: Warning)
    requires Paired(d) && i < |ids|
  {
    var r := Judge(RunBulk(d, ids[..i], c).desk, c.dir, ids[i], VerdictOf(c));
    c.verb == ApproveIt && r.Ok? && r.value.outcome.Applied? && warning in r.value.outcome.warnings
  }

  lemma {:induction false} RaisedExactly(d: Desk, ids: seq<nat>, c: Call, warning: Warning)
    requires Paired(d)
    ensures warning in Raised(d, ids, c) <==> exists i :: 0 <= i < |ids| && RaisedBy(d, ids, c, i, warning)
  {
    hide Judge, AddAll;
    if ids != [] {
      var n := |ids| - 1;
      var init := ids[..n];
      RaisedExactly(d, init, c, warning);
      forall i | 0 <= i < n ensures RaisedBy(d, init, c, i, warning) <==> RaisedBy(d, ids, c, i, warning) {
        assert init[..i] == ids[..i];
      }
      var r := Judge(RunBulk(d, init, c).desk, c.dir, ids[n], VerdictOf(c));
      var last := if r.Ok? && Expected(c.verb, r.value.outcome) then WarningsOf(r.value.outcome) else [];
      assert warning in last <==> RaisedBy(d, ids, c, n, warning);
      assert Raised(d, ids, c) == Raised(d, init, c) + last;
      if warning in Raised(d, init, c) {
        var i :| 0 <= i < n && RaisedBy(d, init, c, i, warning);
        assert RaisedBy(d, ids, c, i, warning);
      }
      if i :| 0 <= i < n && RaisedBy(d, ids, c, i, warning) {
        assert RaisedBy(d, init, c, i, warning);
      }
    }
  }

  /** A warning is in the report exactly when an application the batch reports as a success raised it. */
  lemma WarnedExactly(d: Desk, ids: seq<nat>, c: Call, warning: Warning)
    requires Paired(d)
    ensures warning in RunBulk(d, ids, c).report.warnings <==> exists i :: 0 <= i < |ids| && RaisedBy(d, ids, c, i, warning)
  {
    hide Judge, RunBulk, RaisedBy, Raised;
    WarningsAreDistinct(d, ids, c);
    DistinctKeepsFirsts(Raised(d, ids, c));
    RaisedExactly(d, ids, c, warning);
  }
}
