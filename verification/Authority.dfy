/** Who may decide a rung, who in the end has signed it, and where a reroute hands it (src/lib/workflows/engine.ts, src/lib/workflows/resolvers.ts). */
module Authority {
  import opened Wrappers
  import opened TeamScope
  import opened Records
  import opened Corrections
  import opened CorrectionRuns
  import opened CorrectionTheorems
  import opened Workflow
  import Bulk

  // ----- whom a rung names -----

  /** The rung is for everybody who holds the role. */
  predicate ForRole(rung: Rung, role: string) {
    rung.resolverKey == "ROLE" && rung.config.role == Some(role)
  }

  /** The rung is for this one person: the active account it names, or the manager of the rep on the side it names. */
  predicate ForPerson(dir: Directory, r: Request, rung: Rung, person: string) {
    || (rung.resolverKey == "USER" && rung.config.userId == Some(person) && person != "" && person in dir.active)
    || ((rung.resolverKey == "TL_OF_SM" || rung.resolverKey == "ACM_OF_SM")
        && if rung.config.side == Submitter then Manages(dir, rung.resolverKey, r.smId, person)
           else r.counterparty.Some? && r.counterparty.value != "" && Manages(dir, rung.resolverKey, r.counterparty.value, person))
  }

  predicate Manages(dir: Directory, resolverKey: string, rep: string, person: string) {
    (resolverKey, rep) in dir.managers && dir.managers[(resolverKey, rep)] == person
  }

  ghost predicate ForNobody(dir: Directory, r: Request, rung: Rung) {
    (forall role :: !ForRole(rung, role)) && (forall person :: !ForPerson(dir, r, rung, person))
  }

  /** The actor has passed another rung of the climb. */
  predicate PassedAnother(stages: seq<Stage>, k: nat, actor: string) {
    exists i :: 0 <= i < |stages| && i != k && stages[i].status == Passed && stages[i].decidedBy == Some(actor)
  }

  /**
   * The actor holds the rung's role or is the rung's person, and has passed no other rung if it asks for somebody new; or
   * the rung is for nobody and the actor is an administrator.
   */
  ghost predicate Entitled(dir: Directory, r: Request, stages: seq<Stage>, k: nat, actor: Actor)
    requires k < |stages|
  {
    var rung := stages[k].rung;
    || (&& (ForRole(rung, actor.role) || ForPerson(dir, r, rung, actor.id))
        && (rung.config.distinctActor ==> !PassedAnother(stages, k, actor.id)))
    || (ForNobody(dir, r, rung) && actor.role == "admin")
  }

  lemma ResolvedExactly(dir: Directory, r: Request, rung: Rung)
    ensures forall role :: Resolve(dir, r, rung) == Holders(role) <==> ForRole(rung, role)
    ensures forall person :: Resolve(dir, r, rung) == Person(person) <==> ForPerson(dir, r, rung, person)
    ensures Resolve(dir, r, rung).Unresolved? <==> ForNobody(dir, r, rung)
  {
    var auth := Resolve(dir, r, rung);
    if auth.Person? {
      assert ForPerson(dir, r, rung, auth.userId);
    } else if auth.Holders? {
      assert ForRole(rung, auth.role);
    }
  }

  lemma MayDecideExactly(dir: Directory, r: Request, stages: seq<Stage>, k: nat, actor: Actor)
    requires k < |stages|
    ensures MayDecide(dir, r, stages, k, actor) <==> Entitled(dir, r, stages, k, actor)
  {
    hide Resolve, ForRole, ForPerson, ForNobody;
    ResolvedExactly(dir, r, stages[k].rung);
  }

  // ----- one decision -----

  /** Exactly this rung is in progress. */
  predicate OpenAt(d: Desk, id: nat, k: nat) {
    && id < |d.ladders| == |d.state.requests| && k < |d.ladders[id].stages|
    && d.ladders[id].stages[k].status == Active
  }

  /** The decision is refused for want of authority exactly when the actor is not entitled to the open rung. */
  lemma NotAuthorizedExactly(d: Desk, dir: Directory, id: nat, v: Verdict, k: nat)
    requires DeskInv(d) && OpenAt(d, id, k)
    ensures Judge(d, dir, id, v) == Err(NotAuthorized) <==>
              !Entitled(dir, d.state.requests[id], d.ladders[id].stages, k, v.actor)
  {
    hide Inv, LadderOk, SameRungs, MayDecide, Entitled, Signed, OpenRung, Repaired, ApplyRequest, Moved, ApprovedState;
    var stages, status := d.ladders[id].stages, d.state.requests[id].status;
    assert LadderOk(stages, status);
    RepairNeverRuns(stages, status);
    OneRungOpenExactly(stages, status);
    MayDecideExactly(dir, d.state.requests[id], stages, k, v.actor);
  }

  /** The person an open rung is pinned to, and nobody when it is for a role or for nobody. */
  ghost predicate PinnedTo(dir: Directory, r: Request, rung: Rung, assignee: Option<string>) {
    if assignee.Some? then ForPerson(dir, r, rung, assignee.value) else forall person :: !ForPerson(dir, r, rung, person)
  }

  /**
   * A decision goes through exactly when the actor is entitled to the open rung, gives a reason for anything but
   * advancing, refuses only where that is allowed, and at the last rung proposes what can be written.
   */
  lemma JudgedExactly(d: Desk, dir: Directory, id: nat, v: Verdict, k: nat)
    requires DeskInv(d) && OpenAt(d, id, k)
    ensures var r, stages := d.state.requests[id], d.ladders[id].stages;
            Judge(d, dir, id, v).Ok? <==>
              && Entitled(dir, r, stages, k, v.actor)
              && (v.decision == Advance || v.remarks)
              && (v.decision == Refuse ==> stages[k].rung.canReject)
              && (v.decision == Advance && k == |stages| - 1 ==> !Unwritable(r))
  {
    hide Inv, LadderOk, SameRungs, MayDecide, Entitled, ApplyRequest, Unwritable, Repaired, Signed, OpenRung, Bulk.ErrorOf, Moved,
         ApprovedState;
    var stages, status := d.ladders[id].stages, d.state.requests[id].status;
    assert LadderOk(stages, status);
    RepairNeverRuns(stages, status);
    OneRungOpenExactly(stages, status);
    MayDecideExactly(dir, d.state.requests[id], stages, k, v.actor);
    Bulk.ApplicationExactly(d.state, id);
  }

  function StatusAfter(decision: StageDecision, last: bool): Status {
    match decision
    case SendBack => Status.Returned
    case Refuse => Status.Rejected
    case Advance => if last then Approved else Verified
  }

  /** What the timeline is told: below the last rung a verifier verifies, and anybody else advances. */
  function EventOf(v: Verdict, last: bool): EventAction {
    match v.decision
    case SendBack => ReturnedAction
    case Refuse => RejectedAction
    case Advance => if last then ApprovedAction else if v.actor.role == "verifier" then VerifiedAction else AdvancedAction
  }

  /** It gives the request the status that follows, writes that in the timeline, and touches no record unless it applies the proposal. */
  lemma JudgedMoves(d: Desk, dir: Directory, id: nat, v: Verdict, k: nat)
    requires DeskInv(d) && OpenAt(d, id, k) && Judge(d, dir, id, v).Ok?
    ensures var t, status, last := Judge(d, dir, id, v).value.desk.state, d.state.requests[id].status, k == |d.ladders[id].stages| - 1;
            && |t.requests| == |d.state.requests|
            && t.requests[id].status == StatusAfter(v.decision, last)
            && t.events == d.state.events + [Event(id, EventOf(v, last), Some(status), StatusAfter(v.decision, last))]
            && (v.decision != Advance || !last ==>
                  && t.records == d.state.records && t.versions == d.state.versions
                  && t.requests == d.state.requests[id := d.state.requests[id].(status := StatusAfter(v.decision, last))])
  {
    hide Inv, LadderOk, SameRungs, MayDecide, ApplyRequest, Repaired, Signed, OpenRung;
    assert LadderOk(d.ladders[id].stages, d.state.requests[id].status);
    RepairNeverRuns(d.ladders[id].stages, d.state.requests[id].status);
    OneRungOpenExactly(d.ladders[id].stages, d.state.requests[id].status);
  }

  /** And it signs the rung in the actor's name, and opens the next one up for whom that is for. */
  lemma JudgedSignsOne(d: Desk, dir: Directory, id: nat, v: Verdict, k: nat)
    requires DeskInv(d) && OpenAt(d, id, k) && Judge(d, dir, id, v).Ok?
    ensures OneSigned(d, Judge(d, dir, id, v).value.desk, dir, id, k, v)
  {
    hide Inv, LadderOk, SameRungs, MayDecide, ApplyRequest, Repaired, Resolve, PinnedTo, Moved, ApprovedState;
    var stages, status := d.ladders[id].stages, d.state.requests[id].status;
    assert LadderOk(stages, status);
    RepairNeverRuns(stages, status);
    OneRungOpenExactly(stages, status);
    if k + 1 < |stages| {
      PinExactly(dir, d.state.requests[id], stages[k + 1].rung);
    }
  }

  /** Where no rung is in progress there is nothing to decide. */
  lemma NothingToDecide(d: Desk, dir: Directory, id: nat, v: Verdict)
    requires DeskInv(d) && forall k: nat :: !OpenAt(d, id, k)
    ensures Judge(d, dir, id, v) == Err(if id < |d.state.requests| then NoOpenStep else NoSuchRequest)
    ensures id < |d.state.requests| ==> d.state.requests[id].status != Pending && d.state.requests[id].status != Verified
  {
    hide Inv, LadderOk, SameRungs, MayDecide, Signed, OpenRung, Repaired, ApplyRequest, Moved, ApprovedState;
    if id < |d.state.requests| {
      var stages, status := d.ladders[id].stages, d.state.requests[id].status;
      assert LadderOk(stages, status);
      RepairNeverRuns(stages, status);
      OneRungOpenExactly(stages, status);
      assert ActiveRung(stages) < |stages| ==> OpenAt(d, id, ActiveRung(stages));
    }
  }

  lemma PinExactly(dir: Directory, r: Request, rung: Rung)
    ensures PinnedTo(dir, r, rung, PinOf(Resolve(dir, r, rung)))
  {
    hide Resolve, ForPerson, ForRole;
    ResolvedExactly(dir, r, rung);
  }

  /** Of one ladder, one rung is signed, and the next one is opened when the decision advances; every other ladder stays. */
  ghost predicate OneSigned(d: Desk, t: Desk, dir: Directory, id: nat, k: nat, v: Verdict)
    requires OpenAt(d, id, k)
  {
    && |t.ladders| == |d.ladders|
    && (forall i :: 0 <= i < |d.ladders| && i != id ==> t.ladders[i] == d.ladders[i])
    && t.ladders[id].raised == d.ladders[id].raised
    && var before, after := d.ladders[id].stages, t.ladders[id].stages;
       && |after| == |before|
       && after[k].rung == before[k].rung && after[k].decidedBy == Some(v.actor.id)
       && after[k].status == (if v.decision == SendBack then SentBack else if v.decision == Refuse then Refused else Passed)
       && (forall j :: 0 <= j < |before| && j != k && (j != k + 1 || v.decision != Advance) ==> after[j] == before[j])
       && (v.decision == Advance && k + 1 < |before| ==>
             && after[k + 1].status == Active && after[k + 1].rung == before[k + 1].rung
             && after[k + 1].decidedBy == before[k + 1].decidedBy
             && PinnedTo(dir, d.state.requests[id], before[k + 1].rung, after[k + 1].assignee))
  }

  // ----- a batch -----

  /**
   * What becomes of an id in a batch, from its open rung: it succeeds, or it is committed and reported as a failure,
   * exactly under these conditions, and otherwise it is declined.
   */
  lemma FateExactly(d: Desk, id: nat, c: Bulk.Call, k: nat)
    requires DeskInv(d) && OpenAt(d, id, k)
    ensures var r, stages := d.state.requests[id], d.ladders[id].stages;
            var last := k == |stages| - 1;
            && (Bulk.FateIn(d, id, c) == Bulk.Succeeds <==>
                  && Entitled(c.dir, r, stages, k, c.actor)
                  && match c.verb
                     case ApproveIt => last && !Unwritable(r)
                     case VerifyIt => !last
                     case RejectIt => c.remarks && stages[k].rung.canReject
                     case ReturnIt => c.remarks
                     case SendItBack => c.remarks)
            && (Bulk.FateIn(d, id, c) == Bulk.Fails(Bulk.Committed) <==>
                  && Entitled(c.dir, r, stages, k, c.actor)
                  && ((c.verb == Bulk.ApproveIt && !last) || (c.verb == Bulk.VerifyIt && last && !Unwritable(r))))
  {
    hide Inv, LadderOk, SameRungs, MayDecide, Entitled, Unwritable, Bulk.ErrorOf;
    assert LadderOk(d.ladders[id].stages, d.state.requests[id].status);
    OneRungOpenExactly(d.ladders[id].stages, d.state.requests[id].status);
    MayDecideExactly(c.dir, d.state.requests[id], d.ladders[id].stages, k, c.actor);
  }

  // ----- who signed, over every run -----

  predicate SignedOff(stage: Stage) {
    stage.status == Passed || stage.status == SentBack || stage.status == Refused
  }

  /** The step is this rung's decision, taken by the one who then stands on it, entitled to it at that moment. */
  ghost predicate Signs(d: Desk, a: DeskAction, i: nat, k: nat, stage: Stage) {
    && a.Judged? && a.id == i && OpenAt(d, i, k)
    && d.ladders[i].stages[k].rung == stage.rung
    && stage.decidedBy == Some(a.verdict.actor.id)
    && Entitled(a.dir, d.state.requests[i], d.ladders[i].stages, k, a.verdict.actor)
  }

  /** The two steps that rewrite a rung leave every rung alone that is not in progress. */
  lemma RerouteLeavesSigned(d: Desk, a: DeskAction, i: nat, k: nat)
    requires DeskInv(d) && (a.Retry? || a.Reassign?)
    requires i < |d.ladders| && k < |d.ladders[i].stages| && d.ladders[i].stages[k].status != Active
    ensures var t := DeskStep(d, a);
            |t.ladders| == |d.ladders| && |t.ladders[i].stages| == |d.ladders[i].stages|
            && t.ladders[i].stages[k] == d.ladders[i].stages[k]
  {
    hide Inv, LadderOk, SameRungs, Resolve;
  }

  lemma RerouteSignsNothing(d: Desk, a: DeskAction, i: nat, k: nat)
    requires DeskInv(d) && (a.Retry? || a.Reassign?)
    requires i < |d.ladders| && k < |d.ladders[i].stages|
    ensures var t := DeskStep(d, a);
            |t.ladders| == |d.ladders| && |t.ladders[i].stages| == |d.ladders[i].stages|
            && t.ladders[i].stages[k].status == d.ladders[i].stages[k].status
  {
    hide Inv, LadderOk, SameRungs, Resolve;
  }

  lemma BottomSignsNothing(dir: Directory, r: Request, rungs: seq<Rung>, k: nat)
    requires k < |rungs|
    ensures !SignedOff(FromTheBottom(dir, r, rungs)[k])
  {
    hide Resolve;
  }

  lemma ClosingSignsNothing(stages: seq<Stage>, k: nat)
    requires k < |stages| && SignedOff(CloseActive(stages)[k])
    ensures CloseActive(stages)[k] == stages[k]
  {
  }

  /** A rung that is signed after a step was signed before it just so, or this step is its decision. */
  lemma StepSigns(d: Desk, a: DeskAction, i: nat, k: nat)
    requires DeskInv(d) && |DeskStep(d, a).ladders| > i
    requires k < |DeskStep(d, a).ladders[i].stages| && SignedOff(DeskStep(d, a).ladders[i].stages[k])
    ensures var stage := DeskStep(d, a).ladders[i].stages[k];
            || (i < |d.ladders| && k < |d.ladders[i].stages| && d.ladders[i].stages[k] == stage)
            || Signs(d, a, i, k, stage)
  {
    hide Inv, LadderOk, SameRungs, Submit, Revised, FromTheBottom, CloseActive, Retried, Reassigned, Judge, Entitled, Resubmit,
         Withdraw, SignedOff;
    match a
    case Raise(actor, input, chainKey, chain, dir) =>
      if i >= |d.ladders| {
        BottomSignsNothing(dir, Submit(d.state, actor, input.(chainOpens := chain != [])).value.requests[|d.ladders|], chain, k);
      }
    case Answered(actor, id, answer, dir) =>
      if DeskStep(d, a) != d && id == i {
        BottomSignsNothing(dir, Resubmit(d.state, actor, id, answer).value.requests[id], RungsOf(d.ladders[id].stages), k);
      }
    case TakenBack(actor, id) =>
      if DeskStep(d, a) != d && id == i {
        ClosingSignsNothing(d.ladders[id].stages, k);
      }
    case Judged(id, v, dir) => JudgedSigns(d, id, v, dir, i, k);
    case Retry(id, chain, dir) => RerouteSigns(d, a, i, k);
    case Reassign(chainKey, stageKey, userId) => RerouteSigns(d, a, i, k);
    case WorldMoves(w) =>
  }

  lemma RerouteSigns(d: Desk, a: DeskAction, i: nat, k: nat)
    requires DeskInv(d) && (a.Retry? || a.Reassign?) && |DeskStep(d, a).ladders| > i
    requires k < |DeskStep(d, a).ladders[i].stages| && SignedOff(DeskStep(d, a).ladders[i].stages[k])
    ensures i < |d.ladders| && k < |d.ladders[i].stages| && d.ladders[i].stages[k] == DeskStep(d, a).ladders[i].stages[k]
  {
    hide Inv, LadderOk, SameRungs, Retried, Reassigned;
    assert |DeskStep(d, a).ladders| == |d.ladders|;
    assert |DeskStep(d, a).ladders[i].stages| == |d.ladders[i].stages|;
    RerouteSignsNothing(d, a, i, k);
    RerouteLeavesSigned(d, a, i, k);
  }

  lemma JudgedSigns(d: Desk, id: nat, v: Verdict, dir: Directory, i: nat, k: nat)
    requires DeskInv(d)
    requires var t := DeskStep(d, Judged(id, v, dir)); i < |t.ladders| && k < |t.ladders[i].stages| && SignedOff(t.ladders[i].stages[k])
    ensures var stage := DeskStep(d, Judged(id, v, dir)).ladders[i].stages[k];
            || (i < |d.ladders| && k < |d.ladders[i].stages| && d.ladders[i].stages[k] == stage)
            || Signs(d, Judged(id, v, dir), i, k, stage)
  {
    hide Inv, LadderOk, SameRungs, Entitled, Judge, PinnedTo;
    if Judge(d, dir, id, v).Ok? {
      var j := OpenRungOf(d, dir, id, v);
      JudgedExactly(d, dir, id, v, j);
      JudgedSignsOne(d, dir, id, v, j);
    }
  }

  /** What is decided is a rung in progress. */
  lemma OpenRungOf(d: Desk, dir: Directory, id: nat, v: Verdict) returns (k: nat)
    requires DeskInv(d) && Judge(d, dir, id, v).Ok?
    ensures OpenAt(d, id, k)
  {
    hide Inv, LadderOk, SameRungs, MayDecide, Signed, OpenRung, Repaired, ApplyRequest, Moved, ApprovedState;
    assert LadderOk(d.ladders[id].stages, d.state.requests[id].status);
    RepairNeverRuns(d.ladders[id].stages, d.state.requests[id].status);
    k := ActiveRung(d.ladders[id].stages);
  }

  /** Some earlier state of a run of the engine, and the decision taken in it that put this signature there. */
  ghost predicate SignedInRun(steps: nat, i: nat, k: nat, stage: Stage) {
    exists before, a, n: nat :: n < steps && DeskReachable(before, n) && Signs(before, a, i, k, stage)
  }

  /**
   * Every signature on every rung of every reachable state was put there by a decision somebody took while that rung was
   * in progress, configured as it still stands, and was entitled to take: the holder of its role, its person, or an
   * administrator where it was for nobody.
   */
  lemma {:induction false} SignerWasEntitled(d: Desk, steps: nat, i: nat, k: nat)
    requires DeskReachable(d, steps) && i < |d.ladders| && k < |d.ladders[i].stages| && SignedOff(d.ladders[i].stages[k])
    ensures SignedInRun(steps, i, k, d.ladders[i].stages[k])
    decreases steps
  {
    hide Inv, DeskStep, LadderOk, SameRungs, Signs, SignedOff;
    if steps > 0 {
      var before, a :| DeskReachable(before, steps - 1) && DeskGoes(before, a, d);
      EngineRunsAreRuns(before, steps - 1);
      StepSigns(before, a, i, k);
      if !Signs(before, a, i, k, d.ladders[i].stages[k]) {
        SignerWasEntitled(before, steps - 1, i, k);
      }
    }
  }

  // ----- where a reroute hands a rung -----

  /** The rung a reassignment moves: in progress on a live request of the chain, named so, for a person, and pinned to somebody else. */
  predicate Moves(l: Ladder, status: Status, chainKey: string, stageKey: string, userId: string, k: nat) {
    && l.chainKey == chainKey && (status == Pending || status == Verified)
    && k < |l.stages| && l.stages[k].status == Active && l.stages[k].rung.stageKey == stageKey
    && l.stages[k].rung.resolverKey == "USER" && l.stages[k].assignee.Some? && l.stages[k].assignee != Some(userId)
  }

  /** Exactly those rungs are moved, and afterwards only the new person may decide them, or an administrator if that account is not active. */
  lemma ReassignedExactly(d: Desk, chainKey: string, stageKey: string, userId: string, i: nat, k: nat)
    requires DeskInv(d) && i < |d.ladders| && k < |d.ladders[i].stages|
    ensures var t := DeskStep(d, Reassign(chainKey, stageKey, userId));
            && |t.ladders| == |d.ladders| && |t.ladders[i].stages| == |d.ladders[i].stages| && t.state == d.state
            && var before, after := d.ladders[i].stages[k], t.ladders[i].stages[k];
               && after.status == before.status && after.decidedBy == before.decidedBy
               && (after != before <==> Moves(d.ladders[i], d.state.requests[i].status, chainKey, stageKey, userId, k))
               && (after != before ==>
                     && after.assignee == Some(userId)
                     && forall dir: Directory, actor: Actor ::
                          Entitled(dir, d.state.requests[i], t.ladders[i].stages, k, actor) <==>
                          if userId != "" && userId in dir.active then actor.id == userId else actor.role == "admin")
  {
    hide Inv, SameRungs, Entitled;
    var l, status := d.ladders[i], d.state.requests[i].status;
    assert LadderOk(l.stages, status);
    OneRungOpenExactly(l.stages, status);
    var moved := Reassigned(l, status, chainKey, stageKey, userId);
    assert DeskStep(d, Reassign(chainKey, stageKey, userId)).ladders[i] == moved;
    if Moves(l, status, chainKey, stageKey, userId, k) {
      forall dir: Directory, actor: Actor
        ensures Entitled(dir, d.state.requests[i], moved.stages, k, actor) <==>
                if userId != "" && userId in dir.active then actor.id == userId else actor.role == "admin"
      {
        NamedPerson(dir, d.state.requests[i], moved.stages, k, actor, userId);
      }
    }
  }

  lemma NamedPerson(dir: Directory, r: Request, stages: seq<Stage>, k: nat, actor: Actor, userId: string)
    requires k < |stages| && stages[k].rung.resolverKey == "USER"
    requires stages[k].rung.config.userId == Some(userId) && !stages[k].rung.config.distinctActor
    ensures Entitled(dir, r, stages, k, actor) <==>
              if userId != "" && userId in dir.active then actor.id == userId else actor.role == "admin"
  {
    if userId != "" && userId in dir.active {
      assert ForPerson(dir, r, stages[k].rung, userId);
    }
  }

  /** The rungs of a request that starts its climb: the first in progress and pinned, the others waiting, none signed. */
  ghost predicate Starts(dir: Directory, r: Request, rungs: seq<Rung>, stages: seq<Stage>) {
    && |stages| == |rungs| > 0
    && (forall k :: 0 <= k < |rungs| ==> stages[k].rung == rungs[k] && stages[k].decidedBy == None)
    && stages[0].status == Active && PinnedTo(dir, r, rungs[0], stages[0].assignee)
    && (forall k :: 0 < k < |rungs| ==> stages[k].status == Waiting)
  }

  lemma BottomStarts(dir: Directory, r: Request, rungs: seq<Rung>)
    requires rungs != []
    ensures Starts(dir, r, rungs, FromTheBottom(dir, r, rungs))
  {
    hide Resolve, PinnedTo;
    PinExactly(dir, r, rungs[0]);
  }

  /** A request that is raised starts on its chain, and one that is answered starts again on its own rungs. */
  lemma ClimbsFromTheBottom(d: Desk, a: DeskAction)
    requires DeskInv(d) && (a.Raise? || a.Answered?) && DeskStep(d, a) != d
    ensures var t := DeskStep(d, a);
            && (a.Raise? ==>
                  && t.ladders == d.ladders + [t.ladders[|d.ladders|]] && |t.state.requests| == |t.ladders|
                  && t.ladders[|d.ladders|].raised == a.chain && t.ladders[|d.ladders|].chainKey == a.chainKey
                  && Starts(a.dir, t.state.requests[|d.ladders|], a.chain, t.ladders[|d.ladders|].stages))
            && (a.Answered? ==>
                  && a.id < |d.ladders| == |t.ladders| == |t.state.requests| && t.ladders == d.ladders[a.id := t.ladders[a.id]]
                  && t.ladders[a.id].raised == d.ladders[a.id].raised
                  && Starts(a.dir, t.state.requests[a.id], RungsOf(d.ladders[a.id].stages), t.ladders[a.id].stages))
  {
    hide Inv, LadderOk, SameRungs, NewRequest, Revised, FromTheBottom, Starts, ActorBooks, SlotHeld;
    match a
    case Raise(actor, input, chainKey, chain, dir) =>
      var sent := input.(chainOpens := chain != []);
      BottomStarts(dir, Submit(d.state, actor, sent).value.requests[|d.ladders|], chain);
    case Answered(actor, id, answer, dir) =>
      assert LadderOk(d.ladders[id].stages, d.state.requests[id].status);
      NotBare(d.ladders[id].stages, d.state.requests[id].status);
      BottomStarts(dir, Resubmit(d.state, actor, id, answer).value.requests[id], RungsOf(d.ladders[id].stages));
  }

  /** The first rung of a chain with a key. */
  predicate FirstWithKey(chain: seq<Rung>, stageKey: string, j: nat) {
    j < |chain| && chain[j].stageKey == stageKey && forall m :: 0 <= m < j ==> chain[m].stageKey != stageKey
  }

  lemma {:induction false} FoundExactly(chain: seq<Rung>, stageKey: string)
    ensures var j := FindRung(chain, stageKey);
            && (j < |chain| ==> FirstWithKey(chain, stageKey, j))
            && (j == |chain| ==> forall m :: 0 <= m < |chain| ==> chain[m].stageKey != stageKey)
  {
    if chain != [] && chain[0].stageKey != stageKey {
      FoundExactly(chain[1..], stageKey);
      assert forall m :: 1 <= m < |chain| ==> chain[m] == chain[1..][m - 1];
    }
  }

  /**
   * Routing is retried on a rung in progress that is pinned to nobody and for no role: it takes the resolver and the
   * configuration of the first rung with its key in the chain as it stands, and is pinned anew. Nothing else moves.
   */
  lemma RetriedExactly(d: Desk, id: nat, chain: seq<Rung>, dir: Directory, k: nat)
    requires DeskInv(d) && id < |d.ladders| && k < |d.ladders[id].stages|
    ensures var t, before := DeskStep(d, Retry(id, chain, dir)), d.ladders[id].stages[k];
            && t.state == d.state && |t.ladders| == |d.ladders| && |t.ladders[id].stages| == |d.ladders[id].stages|
            && (forall i :: 0 <= i < |d.ladders| && i != id ==> t.ladders[i] == d.ladders[i])
            && t.ladders[id].raised == d.ladders[id].raised
            && var after, retried := t.ladders[id].stages[k],
                 before.status == Active && before.assignee == None && before.rung.resolverKey != "ROLE";
               && (forall j: nat :: retried && FirstWithKey(chain, before.rung.stageKey, j) ==>
                     && after.rung == before.rung.(resolverKey := chain[j].resolverKey, config := chain[j].config)
                     && after.status == Active && after.decidedBy == before.decidedBy
                     && PinnedTo(dir, d.state.requests[id], after.rung, after.assignee))
               && (!retried || (forall j :: 0 <= j < |chain| ==> chain[j].stageKey != before.rung.stageKey) ==> after == before)
  {
    hide Inv, SameRungs, Resolve, PinnedTo;
    var stages, r := d.ladders[id].stages, d.state.requests[id];
    assert LadderOk(stages, r.status);
    OneRungOpenExactly(stages, r.status);
    var active := ActiveRung(stages);
    if active < |stages| {
      FoundExactly(chain, stages[active].rung.stageKey);
      var i := FindRung(chain, stages[active].rung.stageKey);
      if i < |chain| {
        PinExactly(dir, r, stages[active].rung.(resolverKey := chain[i].resolverKey, config := chain[i].config));
      }
    }
  }
}
