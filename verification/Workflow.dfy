/** The ladder of approval rungs behind every decision, and why the decision steps cover it (src/lib/workflows/engine.ts, src/lib/workflows/resolvers.ts). */
module Workflow {
  import opened Wrappers
  import opened TeamScope
  import opened Records
  import opened Corrections
  import opened CorrectionRuns
  import opened CorrectionTheorems

  // ----- rungs -----

  datatype Side = Submitter | Counterparty

  /** The part of a rung's free-form configuration the engine reads. */
  datatype Config = Config(userId: Option<string>, role: Option<string>, side: Side, distinctActor: bool)

  datatype Rung = Rung(stageKey: string, resolverKey: string, config: Config, canReject: bool)

  datatype StageStatus = Waiting | Active | Passed | SentBack | Refused | Closed

  /** `routed` says whether the rung resolved to somebody when it was decided; the tables do not keep it. */
  datatype Stage = Stage(rung: Rung, status: StageStatus, decidedBy: Option<string>, assignee: Option<string>, routed: bool)

  /** A request's own copy of its chain. `raised` is the chain it was raised on, which the tables do not keep either. */
  datatype Ladder = Ladder(chainKey: string, raised: seq<Rung>, stages: seq<Stage>)

  // ----- who may act -----

  /** The active accounts, and the account each of the two managers of a rep resolves to. */
  datatype Directory = Directory(active: set<string>, managers: map<(string, string), string>)

  datatype Actor = Actor(id: string, role: string)

  datatype Authorization = Holders(role: string) | Person(userId: string) | Unresolved

  function SideOf(r: Request, side: Side): Option<string> {
    if side.Counterparty? then (if Present(r.counterparty) then r.counterparty else None) else Some(r.smId)
  }

  function Resolve(dir: Directory, r: Request, rung: Rung): Authorization {
    if rung.resolverKey == "ROLE" then
      if rung.config.role.Some? then Holders(rung.config.role.value) else Unresolved
    else if rung.resolverKey == "USER" then
      if Present(rung.config.userId) && rung.config.userId.value in dir.active then Person(rung.config.userId.value)
      else Unresolved
    else if rung.resolverKey == "TL_OF_SM" || rung.resolverKey == "ACM_OF_SM" then
      var smId := SideOf(r, rung.config.side);
      if smId.Some? && (rung.resolverKey, smId.value) in dir.managers
      then Person(dir.managers[(rung.resolverKey, smId.value)])
      else Unresolved
    else Unresolved
  }

  function PinOf(auth: Authorization): Option<string> {
    if auth.Person? then Some(auth.userId) else None
  }

  /** A rung that resolved to nobody falls to the administrators. */
  predicate Admitted(auth: Authorization, actor: Actor) {
    match auth
    case Holders(role) => actor.role == role
    case Person(userId) => actor.id == userId
    case Unresolved => actor.role == "admin"
  }

  // ----- ladders -----

  function Fresh(rungs: seq<Rung>): (stages: seq<Stage>)
    ensures |stages| == |rungs|
  {
    seq(|rungs|, i requires 0 <= i < |rungs| => Stage(rungs[i], Waiting, None, None, false))
  }

  function RungsOf(stages: seq<Stage>): (rungs: seq<Rung>)
    ensures |rungs| == |stages|
  {
    seq(|stages|, i requires 0 <= i < |stages| => stages[i].rung)
  }

  /** `openStage`: the rung is resolved anew and pinned to the one account it resolves to. */
  function OpenRung(dir: Directory, r: Request, stages: seq<Stage>, k: nat): (after: seq<Stage>)
    ensures |after| == |stages|
  {
    if k < |stages| then stages[k := stages[k].(status := Active, assignee := PinOf(Resolve(dir, r, stages[k].rung)))]
    else stages
  }

  /** `materializeStages` and, on the request's own rungs, `resetStages`. */
  function FromTheBottom(dir: Directory, r: Request, rungs: seq<Rung>): (stages: seq<Stage>)
    ensures |stages| == |rungs|
  {
    OpenRung(dir, r, Fresh(rungs), 0)
  }

  /** The rung in progress, or the number of rungs. */
  function ActiveRung(stages: seq<Stage>): (k: nat)
    ensures k <= |stages|
    ensures k < |stages| ==> stages[k].status.Active?
    ensures forall i :: 0 <= i < k ==> !stages[i].status.Active?
  {
    if stages == [] || stages[0].status.Active? then 0 else 1 + ActiveRung(stages[1..])
  }

  /** `closeActiveStage`. */
  function CloseActive(stages: seq<Stage>): (closed: seq<Stage>)
    ensures |closed| == |stages|
  {
    var k := ActiveRung(stages);
    if k < |stages| then stages[k := stages[k].(status := Closed)] else stages
  }

  /** The repair of a live request with no rung open: re-open the one its status implies. */
  function Repaired(stages: seq<Stage>, status: Status): (repaired: seq<Stage>)
    ensures |repaired| == |stages|
  {
    if stages == [] || ActiveRung(stages) < |stages| || !(status.Pending? || status.Verified?) then stages
    else
      var target := if status.Verified? then |stages| - 1 else 0;
      var cleared := stages[..target] + Fresh(RungsOf(stages[target..]));
      cleared[target := cleared[target].(status := Active)]
  }

  // ----- deciding -----

  /** Each request and its ladder. */
  datatype Desk = Desk(state: State, ladders: seq<Ladder>)

  predicate Paired(d: Desk) {
    |d.ladders| == |d.state.requests| && |d.state.versions| == |d.state.records|
    && forall i :: 0 <= i < |d.state.requests| ==> d.state.requests[i].recordId < |d.state.records|
  }

  datatype StageDecision = Advance | SendBack | Refuse

  datatype Verdict = Verdict(actor: Actor, decision: StageDecision, remarks: bool)

  datatype EngineError = NoSuchRequest | NoOpenStep | NotAuthorized | RemarksRequired | CannotReject | CannotApply(error: ApplyError)

  datatype StageOutcome = Advanced | Applied(warnings: seq<Warning>) | GivenBack | TurnedDown

  datatype Ruling = Ruling(desk: Desk, outcome: StageOutcome)

  /** Has the actor signed off another rung of this climb? */
  predicate SignedAlready(stages: seq<Stage>, k: nat, actor: string) {
    exists i :: 0 <= i < |stages| && i != k && stages[i].status.Passed? && stages[i].decidedBy == Some(actor)
  }

  /** `assertMayDecide`: an administrator clearing a rung that resolved to nobody is not asked to be somebody new. */
  predicate MayDecide(dir: Directory, r: Request, stages: seq<Stage>, k: nat, actor: Actor)
    requires k < |stages|
  {
    var auth := Resolve(dir, r, stages[k].rung);
    && Admitted(auth, actor)
    && (auth.Unresolved? || !stages[k].rung.config.distinctActor || !SignedAlready(stages, k, actor.id))
  }

  function Signed(dir: Directory, r: Request, stages: seq<Stage>, k: nat, status: StageStatus, actor: Actor): (signed: seq<Stage>)
    requires k < |stages|
    ensures |signed| == |stages|
  {
    stages[k := stages[k].(status := status, decidedBy := Some(actor.id),
                           routed := !Resolve(dir, r, stages[k].rung).Unresolved?)]
  }

  function WithStages(d: Desk, id: nat, stages: seq<Stage>): seq<Ladder>
    requires id < |d.ladders|
  {
    d.ladders[id := d.ladders[id].(stages := stages)]
  }

  /** `decideStageWithin`: it looks at the open rung, not at the request's status. */
  function Judge(d: Desk, dir: Directory, id: nat, v: Verdict): Result<Ruling, EngineError>
    requires Paired(d)
  {
    if id >= |d.state.requests| then Err(NoSuchRequest)
    else
      var r := d.state.requests[id];
      var stages := Repaired(d.ladders[id].stages, r.status);
      var k := ActiveRung(stages);
      if k == |stages| then Err(NoOpenStep)
      else if !MayDecide(dir, r, stages, k, v.actor) then Err(NotAuthorized)
      else if !v.decision.Advance? && !v.remarks then Err(RemarksRequired)
      else if v.decision.Refuse? && !stages[k].rung.canReject then Err(CannotReject)
      else match v.decision
        case SendBack =>
          Ok(Ruling(Desk(Moved(d.state, id, Returned, ReturnedAction),
                         WithStages(d, id, Signed(dir, r, stages, k, StageStatus.SentBack, v.actor))), GivenBack))
        case Refuse =>
          Ok(Ruling(Desk(Moved(d.state, id, Rejected, RejectedAction),
                         WithStages(d, id, Signed(dir, r, stages, k, Refused, v.actor))), TurnedDown))
        case Advance =>
          var passed := Signed(dir, r, stages, k, Passed, v.actor);
          if k < |stages| - 1 then
            Ok(Ruling(Desk(Moved(d.state, id, Verified, if v.actor.role == "verifier" then VerifiedAction else AdvancedAction),
                           WithStages(d, id, OpenRung(dir, r, passed, k + 1))), Advanced))
          else
            var a := ApplyRequest(d.state, id);
            if a.Err? then Err(CannotApply(a.error))
            else Ok(Ruling(Desk(ApprovedState(d.state, id, a.value), WithStages(d, id, passed)), Applied(a.value.warnings)))
  }

  // ----- rerouting an open rung -----

  /** The first rung of a chain with the key, or its length. */
  function FindRung(chain: seq<Rung>, stageKey: string): (i: nat)
    ensures i <= |chain|
    ensures i < |chain| ==> chain[i].stageKey == stageKey
  {
    if chain == [] || chain[0].stageKey == stageKey then 0 else 1 + FindRung(chain[1..], stageKey)
  }

  /** `retryStageRouting`: an open rung that is pinned to nobody takes its routing from the chain as it stands now. */
  function Retried(dir: Directory, r: Request, stages: seq<Stage>, chain: seq<Rung>): (retried: seq<Stage>)
    ensures |retried| == |stages|
  {
    var k := ActiveRung(stages);
    if k == |stages| || stages[k].assignee.Some? || stages[k].rung.resolverKey == "ROLE" then stages
    else
      var i := FindRung(chain, stages[k].rung.stageKey);
      if i == |chain| then stages
      else
        var rung := stages[k].rung.(resolverKey := chain[i].resolverKey, config := chain[i].config);
        stages[k := stages[k].(rung := rung, assignee := PinOf(Resolve(dir, r, rung)))]
  }

  /** `reassignOpenStages` on one request: the configuration is replaced by the new person's id and nothing else. */
  function Reassigned(l: Ladder, status: Status, chainKey: string, stageKey: string, userId: string): (moved: Ladder)
    ensures |moved.stages| == |l.stages|
  {
    var k := ActiveRung(l.stages);
    if l.chainKey == chainKey && (status.Pending? || status.Verified?) && k < |l.stages|
       && l.stages[k].rung.stageKey == stageKey && l.stages[k].rung.resolverKey == "USER"
       && l.stages[k].assignee.Some? && l.stages[k].assignee.value != userId
    then
      var rung := l.stages[k].rung.(config := Config(Some(userId), None, Submitter, false));
      l.(stages := l.stages[k := l.stages[k].(rung := rung, assignee := Some(userId))])
    else l
  }

  // ----- steps -----

  datatype DeskAction =
    | Raise(actor: User, input: Input, chainKey: string, chain: seq<Rung>, dir: Directory)
    | Answered(actor: User, id: nat, answer: Answer, dir: Directory)
    | TakenBack(actor: User, id: nat)
    | Judged(id: nat, verdict: Verdict, dir: Directory)
    | Retry(id: nat, chain: seq<Rung>, dir: Directory)
    | Reassign(chainKey: string, stageKey: string, userId: string)
    | WorldMoves(world: World)

  function DeskStep(d: Desk, a: DeskAction): Desk
    requires Paired(d)
  {
    match a
    case Raise(actor, input, chainKey, chain, dir) =>
      var r := Submit(d.state, actor, input.(chainOpens := chain != []));
      if r.Ok? && |r.value.requests| > |d.ladders|
      then Desk(r.value, d.ladders + [Ladder(chainKey, chain, FromTheBottom(dir, r.value.requests[|d.ladders|], chain))])
      else d
    case Answered(actor, id, answer, dir) =>
      var r := Resubmit(d.state, actor, id, answer);
      if r.Ok? && id < |d.ladders| && |r.value.requests| == |d.ladders|
      then Desk(r.value, WithStages(d, id, FromTheBottom(dir, r.value.requests[id], RungsOf(d.ladders[id].stages))))
      else d
    case TakenBack(actor, id) =>
      var r := Withdraw(d.state, actor, id);
      if r.Ok? && id < |d.ladders| then Desk(r.value, WithStages(d, id, CloseActive(d.ladders[id].stages))) else d
    case Judged(id, v, dir) => var r := Judge(d, dir, id, v); if r.Ok? then r.value.desk else d
    case Retry(id, chain, dir) =>
      if id < |d.ladders| then d.(ladders := WithStages(d, id, Retried(dir, d.state.requests[id], d.ladders[id].stages, chain)))
      else d
    case Reassign(chainKey, stageKey, userId) =>
      d.(ladders := seq(|d.ladders|, i requires 0 <= i < |d.ladders| =>
                          Reassigned(d.ladders[i], d.state.requests[i].status, chainKey, stageKey, userId)))
    case WorldMoves(w) => d.(state := d.state.(world := w))
  }

  // ----- the invariant -----

  /** The number of rungs passed, from the bottom. */
  function Height(stages: seq<Stage>): (k: nat)
    ensures k <= |stages|
    ensures forall i :: 0 <= i < k ==> stages[i].status.Passed?
    ensures k < |stages| ==> !stages[k].status.Passed?
  {
    if stages == [] || !stages[0].status.Passed? then 0 else 1 + Height(stages[1..])
  }

  /**
   * Passed rungs below, waiting rungs above, every passed rung signed, and by somebody new if it asked for that when it
   * was decided and resolved to somebody.
   */
  ghost predicate Climbed(stages: seq<Stage>, k: nat) {
    && k <= |stages|
    && (forall i :: 0 <= i < k ==> stages[i].status.Passed? && stages[i].decidedBy.Some?)
    && (forall i :: k < i < |stages| ==> stages[i].status.Waiting?)
    && (forall i, j :: 0 <= j < i < k && stages[i].rung.config.distinctActor && stages[i].routed ==>
          stages[i].decidedBy != stages[j].decidedBy)
  }

  /** Where the request stands on its ladder. */
  ghost predicate Standing(stages: seq<Stage>, k: nat, status: Status) {
    match status
    case Pending => k == 0 && k < |stages| && stages[k].status.Active?
    case Verified => 0 < k < |stages| && stages[k].status.Active?
    case Returned => k < |stages| && stages[k].status.SentBack?
    case Rejected => k < |stages| && stages[k].status.Refused? && stages[k].rung.canReject
    case Withdrawn => k < |stages| && (stages[k].status.Closed? || stages[k].status.SentBack?)
    case Approved => k == |stages| && stages != []
  }

  ghost predicate LadderOk(stages: seq<Stage>, status: Status) {
    Climbed(stages, Height(stages)) && Standing(stages, Height(stages), status)
  }

  /** The rungs of the chain the request was raised on: none added, removed, reordered or given the power to refuse. */
  ghost predicate SameRungs(raised: seq<Rung>, stages: seq<Stage>) {
    && |raised| == |stages|
    && forall i :: 0 <= i < |stages| ==>
         stages[i].rung.stageKey == raised[i].stageKey && stages[i].rung.canReject == raised[i].canReject
  }

  lemma {:induction false} HeightIs(stages: seq<Stage>, k: nat)
    requires k <= |stages| && (forall i :: 0 <= i < k ==> stages[i].status.Passed?)
    requires k < |stages| ==> !stages[k].status.Passed?
    ensures Height(stages) == k
  {
    if k > 0 {
      HeightIs(stages[1..], k - 1);
    }
  }

  /** One rung is open exactly while a decision is due, and it is the one above those passed. */
  lemma OneRungOpenExactly(stages: seq<Stage>, status: Status)
    requires LadderOk(stages, status)
    ensures forall i :: 0 <= i < |stages| ==>
              (stages[i].status.Active? <==> i == Height(stages) && (status.Pending? || status.Verified?))
    ensures ActiveRung(stages) < |stages| <==> status.Pending? || status.Verified?
    ensures ActiveRung(stages) < |stages| ==> ActiveRung(stages) == Height(stages)
  {
  }

  /** So the repair has nothing to repair. */
  lemma RepairNeverRuns(stages: seq<Stage>, status: Status)
    requires LadderOk(stages, status)
    ensures Repaired(stages, status) == stages
  {
    OneRungOpenExactly(stages, status);
  }

  // ----- each move on a ladder -----

  lemma BottomIsOk(dir: Directory, r: Request, rungs: seq<Rung>)
    requires rungs != []
    ensures LadderOk(FromTheBottom(dir, r, rungs), Pending) && RungsOf(FromTheBottom(dir, r, rungs)) == rungs
  {
    hide Resolve;
    HeightIs(FromTheBottom(dir, r, rungs), 0);
  }

  lemma SignedIsOk(dir: Directory, r: Request, stages: seq<Stage>, status: Status, actor: Actor)
    requires LadderOk(stages, status) && (status.Pending? || status.Verified?)
    ensures var k := Height(stages);
            && k < |stages|
            && LadderOk(Signed(dir, r, stages, k, StageStatus.SentBack, actor), Returned)
            && (stages[k].rung.canReject ==> LadderOk(Signed(dir, r, stages, k, Refused, actor), Rejected))
  {
    hide Resolve, Climbed, Height;
    var k := Height(stages);
    StoppedIsOk(stages, Signed(dir, r, stages, k, StageStatus.SentBack, actor), k);
    StoppedIsOk(stages, Signed(dir, r, stages, k, Refused, actor), k);
  }

  /** Stopping at the open rung climbs no further. */
  lemma StoppedIsOk(stages: seq<Stage>, t: seq<Stage>, k: nat)
    requires Climbed(stages, k) && k < |stages| == |t| && !t[k].status.Passed?
    requires forall i :: 0 <= i < |stages| && i != k ==> t[i] == stages[i]
    ensures Climbed(t, k) && Height(t) == k
  {
    HeightIs(t, k);
  }

  lemma PassedIsOk(dir: Directory, r: Request, stages: seq<Stage>, status: Status, actor: Actor)
    requires LadderOk(stages, status) && (status.Pending? || status.Verified?)
    requires Height(stages) < |stages| && MayDecide(dir, r, stages, Height(stages), actor)
    ensures var k := Height(stages);
            && (k < |stages| - 1 ==> LadderOk(OpenRung(dir, r, Signed(dir, r, stages, k, Passed, actor), k + 1), Verified))
            && (k == |stages| - 1 ==> LadderOk(Signed(dir, r, stages, k, Passed, actor), Approved))
  {
    hide Climbed, Height, SignedAlready, Signed, OpenRung, Resolve;
    var k := Height(stages);
    NewSigner(dir, r, stages, k, actor);
    SignedShape(dir, r, stages, k, actor);
    if k < |stages| - 1 {
      OneMoreClimbed(stages, OpenRung(dir, r, Signed(dir, r, stages, k, Passed, actor), k + 1), k, actor,
                     !Resolve(dir, r, stages[k].rung).Unresolved?);
    } else {
      OneMoreClimbed(stages, Signed(dir, r, stages, k, Passed, actor), k, actor, !Resolve(dir, r, stages[k].rung).Unresolved?);
    }
  }

  lemma SignedShape(dir: Directory, r: Request, stages: seq<Stage>, k: nat, actor: Actor)
    requires k < |stages|
    ensures var t := Signed(dir, r, stages, k, Passed, actor);
            && |t| == |stages|
            && t[k] == stages[k].(status := Passed, decidedBy := Some(actor.id),
                                  routed := !Resolve(dir, r, stages[k].rung).Unresolved?)
            && forall i :: 0 <= i < |stages| && i != k ==> t[i] == stages[i]
    ensures var t := OpenRung(dir, r, Signed(dir, r, stages, k, Passed, actor), k + 1);
            && |t| == |stages|
            && t[k] == stages[k].(status := Passed, decidedBy := Some(actor.id),
                                  routed := !Resolve(dir, r, stages[k].rung).Unresolved?)
            && (forall i :: 0 <= i < |stages| && i != k && i != k + 1 ==> t[i] == stages[i])
            && (k + 1 < |stages| ==> t[k + 1].status.Active?)
  {
    hide Resolve;
  }

  /** A signature at the open rung, by somebody new if the rung asks for it, is one more rung climbed. */
  lemma OneMoreClimbed(stages: seq<Stage>, t: seq<Stage>, k: nat, actor: Actor, routed: bool)
    requires Climbed(stages, k) && k < |stages| == |t|
    requires stages[k].rung.config.distinctActor && routed ==> forall j :: 0 <= j < k ==> stages[j].decidedBy != Some(actor.id)
    requires forall i :: 0 <= i < |stages| && i != k && i != k + 1 ==> t[i] == stages[i]
    requires t[k] == stages[k].(status := Passed, decidedBy := Some(actor.id), routed := routed)
    requires k + 1 < |stages| ==> t[k + 1].status.Active?
    ensures Climbed(t, k + 1) && Height(t) == k + 1
  {
    HeightIs(t, k + 1);
  }

  lemma NewSigner(dir: Directory, r: Request, stages: seq<Stage>, k: nat, actor: Actor)
    requires Climbed(stages, k) && k < |stages| && MayDecide(dir, r, stages, k, actor)
    ensures stages[k].rung.config.distinctActor && !Resolve(dir, r, stages[k].rung).Unresolved? ==>
              forall j :: 0 <= j < k ==> stages[j].decidedBy != Some(actor.id)
  {
    hide Resolve;
    if j :| 0 <= j < k && stages[j].decidedBy == Some(actor.id) {
      assert SignedAlready(stages, k, actor.id);
    }
  }

  lemma ClosedIsOk(stages: seq<Stage>, status: Status)
    requires LadderOk(stages, status) && (status.Pending? || status.Returned?)
    ensures LadderOk(CloseActive(stages), Withdrawn)
  {
    OneRungOpenExactly(stages, status);
    HeightIs(CloseActive(stages), Height(stages));
  }

  /** A new configuration and a new pin on the open rung leave the climb as it was. */
  lemma ReroutedIsOk(stages: seq<Stage>, t: seq<Stage>, status: Status)
    requires LadderOk(stages, status) && |t| == |stages|
    requires forall i :: 0 <= i < |stages| ==>
               && t[i].status == stages[i].status && t[i].decidedBy == stages[i].decidedBy && t[i].routed == stages[i].routed
               && t[i].rung.canReject == stages[i].rung.canReject
               && (t[i] != stages[i] ==> stages[i].status.Active?)
    ensures LadderOk(t, status)
  {
    HeightIs(t, Height(stages));
  }

  lemma RetriedIsOk(dir: Directory, r: Request, stages: seq<Stage>, status: Status, chain: seq<Rung>)
    requires LadderOk(stages, status)
    ensures LadderOk(Retried(dir, r, stages, chain), status)
  {
    hide LadderOk, Resolve;
    ReroutedIsOk(stages, Retried(dir, r, stages, chain), status);
  }

  lemma ReassignedIsOk(l: Ladder, status: Status, chainKey: string, stageKey: string, userId: string)
    requires LadderOk(l.stages, status)
    ensures LadderOk(Reassigned(l, status, chainKey, stageKey, userId).stages, status)
  {
    hide LadderOk;
    ReroutedIsOk(l.stages, Reassigned(l, status, chainKey, stageKey, userId).stages, status);
  }

  // ----- every step of the engine is a step of the portal -----

  ghost predicate DeskInv(d: Desk) {
    && Paired(d)
    && Inv(d.state)
    && forall i :: 0 <= i < |d.ladders| ==>
         LadderOk(d.ladders[i].stages, d.state.requests[i].status) && SameRungs(d.ladders[i].raised, d.ladders[i].stages)
  }

  /** The step of the portal a step of the engine amounts to, when it amounts to one. */
  function AsAction(d: Desk, a: DeskAction): Action {
    match a
    case Raise(actor, input, chainKey, chain, dir) => DoSubmit(actor, input.(chainOpens := chain != []))
    case Answered(actor, id, answer, dir) => DoResubmit(actor, id, answer)
    case TakenBack(actor, id) => DoWithdraw(actor, id)
    case WorldMoves(w) => WorldChanges(w)
    case Judged(id, v, dir) =>
      DoDecide(id, match v.decision
                   case SendBack => Return
                   case Refuse => Reject
                   case Advance =>
                     if id < |d.ladders| && Height(d.ladders[id].stages) == |d.ladders[id].stages| - 1 then Approve
                     else if v.actor.role == "verifier" then Verify else Pass)
    case Retry(id, chain, dir) => WorldChanges(d.state.world)
    case Reassign(chainKey, stageKey, userId) => WorldChanges(d.state.world)
  }

  /** The ladder a step leaves at one place: the same chain and key, in order, and fitting its request. */
  ghost predicate Follows(before: Ladder, after: Ladder, status: Status) {
    && after.raised == before.raised && after.chainKey == before.chainKey
    && LadderOk(after.stages, status) && SameRungs(after.raised, after.stages)
  }

  lemma SignedFollows(l: Ladder, t: seq<Stage>, status: Status)
    requires SameRungs(l.raised, l.stages) && LadderOk(t, status) && |t| == |l.stages|
    requires forall i :: 0 <= i < |t| ==> t[i].rung == l.stages[i].rung
    ensures Follows(l, l.(stages := t), status)
  {
    hide LadderOk;
  }

  lemma JudgeRefines(d: Desk, dir: Directory, id: nat, v: Verdict)
    requires DeskInv(d) && Judge(d, dir, id, v).Ok?
    ensures var t := Judge(d, dir, id, v).value.desk;
            && id < |d.ladders|
            && t.state == Step(d.state, AsAction(d, Judged(id, v, dir)))
            && |t.ladders| == |t.state.requests| == |d.ladders|
            && Follows(d.ladders[id], t.ladders[id], t.state.requests[id].status)
            && forall i :: 0 <= i < |d.ladders| && i != id ==>
                 t.ladders[i] == d.ladders[i] && t.state.requests[i] == d.state.requests[i]
  {
    hide Sound, Undrifted, OneOpen, ChainOf, Timed, LadderOk, ApplyRequest, MayDecide, Signed, OpenRung, Height, ActiveRung,
         Repaired, SameRungs, Follows;
    var r, stages, status := d.state.requests[id], d.ladders[id].stages, d.state.requests[id].status;
    assert LadderOk(stages, status) && SameRungs(d.ladders[id].raised, stages);
    RepairNeverRuns(stages, status);
    OneRungOpenExactly(stages, status);
    SignedIsOk(dir, r, stages, status, v.actor);
    PassedIsOk(dir, r, stages, status, v.actor);
    SigningKeepsRungs(dir, r, stages, Height(stages), v.actor);
    SignedFollows(d.ladders[id], Judge(d, dir, id, v).value.desk.ladders[id].stages,
                  Judge(d, dir, id, v).value.desk.state.requests[id].status);
  }

  lemma SigningKeepsRungs(dir: Directory, r: Request, stages: seq<Stage>, k: nat, actor: Actor)
    requires k < |stages|
    ensures forall status, i :: 0 <= i < |stages| ==> Signed(dir, r, stages, k, status, actor)[i].rung == stages[i].rung
    ensures forall status, i :: 0 <= i < |stages| ==>
              OpenRung(dir, r, Signed(dir, r, stages, k, status, actor), k + 1)[i].rung == stages[i].rung
  {
    hide Resolve;
  }

  ghost predicate AllFollow(d: Desk, t: Desk) {
    && |d.ladders| <= |t.ladders| == |t.state.requests|
    && forall i :: 0 <= i < |d.ladders| ==> Follows(d.ladders[i], t.ladders[i], t.state.requests[i].status)
  }

  /** What was there follows itself. */
  lemma StaysInPlace(l: Ladder, status: Status)
    requires LadderOk(l.stages, status) && SameRungs(l.raised, l.stages)
    ensures Follows(l, l, status)
  {
    hide LadderOk, SameRungs;
  }

  lemma OthersStay(d: Desk, t: Desk, id: nat)
    requires DeskInv(d) && id < |d.ladders| == |t.ladders| == |t.state.requests|
    requires forall i :: 0 <= i < |d.ladders| && i != id ==>
               t.ladders[i] == d.ladders[i] && t.state.requests[i] == d.state.requests[i]
    requires Follows(d.ladders[id], t.ladders[id], t.state.requests[id].status)
    ensures AllFollow(d, t)
  {
    hide Inv, LadderOk, SameRungs, Follows;
    forall i | 0 <= i < |d.ladders| ensures Follows(d.ladders[i], t.ladders[i], t.state.requests[i].status) {
      if i != id {
        StaysInPlace(d.ladders[i], d.state.requests[i].status);
      }
    }
  }

  lemma RaiseFollows(d: Desk, actor: User, input: Input, chainKey: string, chain: seq<Rung>, dir: Directory)
    requires DeskInv(d)
    ensures var a := Raise(actor, input, chainKey, chain, dir);
            var t := DeskStep(d, a);
            && (t == d || t.state == Step(d.state, AsAction(d, a)))
            && AllFollow(d, t)
            && (|t.ladders| > |d.ladders| ==>
                  && |t.ladders| == |d.ladders| + 1
                  && LadderOk(t.ladders[|d.ladders|].stages, t.state.requests[|d.ladders|].status)
                  && SameRungs(t.ladders[|d.ladders|].raised, t.ladders[|d.ladders|].stages))
  {
    hide Sound, Undrifted, OneOpen, ChainOf, Timed, LadderOk, SameRungs, Follows, NewRequest, FromTheBottom;
    forall i | 0 <= i < |d.ladders| ensures Follows(d.ladders[i], d.ladders[i], d.state.requests[i].status) {
      StaysInPlace(d.ladders[i], d.state.requests[i].status);
    }
    var sent := input.(chainOpens := chain != []);
    if Submit(d.state, actor, sent).Ok? {
      var r := NewRequest(d.state, actor, sent).value;
      NewRequestIsSound(d.state, actor, sent);
      BottomIsOk(dir, r, chain);
      BottomHasItsRungs(dir, r, chain);
    }
  }

  lemma BottomHasItsRungs(dir: Directory, r: Request, rungs: seq<Rung>)
    ensures SameRungs(rungs, FromTheBottom(dir, r, rungs))
  {
    hide Resolve;
  }

  lemma AnswerFollows(d: Desk, actor: User, id: nat, answer: Answer, dir: Directory)
    requires DeskInv(d)
    ensures var a := Answered(actor, id, answer, dir);
            var t := DeskStep(d, a);
            (t == d || t.state == Step(d.state, AsAction(d, a))) && AllFollow(d, t) && |t.ladders| == |d.ladders|
  {
    hide Inv, LadderOk, SameRungs, Follows, Revised, FromTheBottom, RungsOf, AllFollow;
    if Resubmit(d.state, actor, id, answer).Ok? {
      var l := d.ladders[id];
      var r := Revised(d.state.world, d.state.requests[id], answer).value;
      NotBare(l.stages, d.state.requests[id].status);
      RevisedIsPending(d.state.world, d.state.requests[id], answer);
      BottomIsOk(dir, r, RungsOf(l.stages));
      ResetFollows(dir, r, l);
      OthersStay(d, DeskStep(d, Answered(actor, id, answer, dir)), id);
    } else {
      NothingMoved(d);
    }
  }

  lemma NothingMoved(d: Desk)
    requires DeskInv(d)
    ensures AllFollow(d, d)
  {
    hide Inv, LadderOk, SameRungs;
  }

  lemma ResetFollows(dir: Directory, r: Request, l: Ladder)
    requires SameRungs(l.raised, l.stages) && LadderOk(FromTheBottom(dir, r, RungsOf(l.stages)), Pending)
    ensures Follows(l, l.(stages := FromTheBottom(dir, r, RungsOf(l.stages))), Pending)
  {
    hide LadderOk, Resolve;
  }

  lemma TakenBackFollows(d: Desk, actor: User, id: nat)
    requires DeskInv(d)
    ensures var a := TakenBack(actor, id);
            var t := DeskStep(d, a);
            (t == d || t.state == Step(d.state, AsAction(d, a))) && AllFollow(d, t) && |t.ladders| == |d.ladders|
  {
    hide Inv, LadderOk, SameRungs, Follows, CloseActive, AllFollow;
    if Withdraw(d.state, actor, id).Ok? {
      var l := d.ladders[id];
      ClosedIsOk(l.stages, d.state.requests[id].status);
      ClosingKeepsRungs(l.stages);
      SignedFollows(l, CloseActive(l.stages), Withdrawn);
      OthersStay(d, DeskStep(d, TakenBack(actor, id)), id);
    } else {
      NothingMoved(d);
    }
  }

  lemma ClosingKeepsRungs(stages: seq<Stage>)
    ensures forall i :: 0 <= i < |stages| ==> CloseActive(stages)[i].rung == stages[i].rung
  {
  }

  /** Rerouting touches no request, and keeps every rung's name and its power to refuse. */
  lemma ReroutingFollows(d: Desk, a: DeskAction)
    requires DeskInv(d) && (a.Retry? || a.Reassign?)
    ensures var t := DeskStep(d, a); t.state == d.state && AllFollow(d, t) && |t.ladders| == |d.ladders|
  {
    hide Inv, LadderOk, SameRungs, Follows, Retried, Reassigned, AllFollow;
    match a
    case Retry(id, chain, dir) =>
      if id < |d.ladders| {
        RetriedIsOk(dir, d.state.requests[id], d.ladders[id].stages, d.state.requests[id].status, chain);
        RetriedFollows(dir, d.state.requests[id], d.ladders[id], d.state.requests[id].status, chain);
        OthersStay(d, DeskStep(d, a), id);
      } else {
        NothingMoved(d);
      }
    case Reassign(chainKey, stageKey, userId) =>
      var t := DeskStep(d, a);
      forall i | 0 <= i < |d.ladders| ensures Follows(d.ladders[i], t.ladders[i], t.state.requests[i].status) {
        ReassignedIsOk(d.ladders[i], d.state.requests[i].status, chainKey, stageKey, userId);
        ReassignedFollows(d.ladders[i], d.state.requests[i].status, chainKey, stageKey, userId);
      }
      TheyAllFollow(d, t);
  }

  lemma TheyAllFollow(d: Desk, t: Desk)
    requires |d.ladders| <= |t.ladders| == |t.state.requests|
    requires forall i :: 0 <= i < |d.ladders| ==> Follows(d.ladders[i], t.ladders[i], t.state.requests[i].status)
    ensures AllFollow(d, t)
  {
  }

  lemma RetriedFollows(dir: Directory, r: Request, l: Ladder, status: Status, chain: seq<Rung>)
    requires SameRungs(l.raised, l.stages) && LadderOk(Retried(dir, r, l.stages, chain), status)
    ensures Follows(l, l.(stages := Retried(dir, r, l.stages, chain)), status)
  {
    hide LadderOk, Resolve;
  }

  lemma ReassignedFollows(l: Ladder, status: Status, chainKey: string, stageKey: string, userId: string)
    requires SameRungs(l.raised, l.stages)
    requires LadderOk(Reassigned(l, status, chainKey, stageKey, userId).stages, status)
    ensures Follows(l, Reassigned(l, status, chainKey, stageKey, userId), status)
  {
    hide LadderOk;
  }

  lemma NotBare(stages: seq<Stage>, status: Status)
    requires LadderOk(stages, status)
    ensures stages != []
  {
  }

  lemma RevisedIsPending(w: World, existing: Request, answer: Answer)
    ensures Revised(w, existing, answer).Ok? ==> Revised(w, existing, answer).value.status.Pending?
  {
    hide Parse, ProposedValue, CheckTransferTarget;
  }

  /**
   * Each step of the engine is a step of the portal, or leaves the portal's tables alone; no rung of a request's own
   * chain is ever added, removed, reordered or given the power to refuse, and the ladders stay in order.
   */
  lemma DeskStepRefines(d: Desk, a: DeskAction)
    requires DeskInv(d)
    ensures var t := DeskStep(d, a);
            && (t.state == d.state || t.state == Step(d.state, AsAction(d, a)))
            && DeskInv(t) && AllFollow(d, t)
  {
    hide Sound, Undrifted, OneOpen, ChainOf, Timed, LadderOk, SameRungs, DeskStep, Step, AsAction;
    match a {
      case Raise(actor, input, chainKey, chain, dir) => RaiseFollows(d, actor, input, chainKey, chain, dir);
      case Answered(actor, id, answer, dir) => AnswerFollows(d, actor, id, answer, dir);
      case TakenBack(actor, id) => TakenBackFollows(d, actor, id);
      case Judged(id, v, dir) => JudgedFollows(d, id, v, dir);
      case Retry(id, chain, dir) => ReroutingFollows(d, a);
      case Reassign(chainKey, stageKey, userId) => ReroutingFollows(d, a);
      case WorldMoves(w) => WorldFollows(d, w);
    }
    var t := DeskStep(d, a);
    if t.state != d.state {
      StepKeepsInv(d.state, AsAction(d, a));
    }
    FollowersAreInv(d, t);
  }

  lemma JudgedFollows(d: Desk, id: nat, v: Verdict, dir: Directory)
    requires DeskInv(d)
    ensures var t := DeskStep(d, Judged(id, v, dir));
            && (t == d || t.state == Step(d.state, AsAction(d, Judged(id, v, dir))))
            && AllFollow(d, t) && |t.ladders| == |d.ladders|
  {
    hide Inv, LadderOk, SameRungs, Follows, Judge, AllFollow, AsAction, Step;
    if Judge(d, dir, id, v).Ok? {
      JudgeRefines(d, dir, id, v);
      OthersStay(d, Judge(d, dir, id, v).value.desk, id);
    } else {
      NothingMoved(d);
    }
  }

  lemma WorldFollows(d: Desk, w: World)
    requires DeskInv(d)
    ensures var t := DeskStep(d, WorldMoves(w));
            t.state == Step(d.state, AsAction(d, WorldMoves(w))) && AllFollow(d, t) && |t.ladders| == |d.ladders|
  {
    hide Inv, LadderOk, SameRungs;
  }

  lemma FollowersAreInv(d: Desk, t: Desk)
    requires AllFollow(d, t) && Inv(t.state)
    requires |t.ladders| <= |d.ladders| + 1
    requires |t.ladders| > |d.ladders| ==>
               && LadderOk(t.ladders[|d.ladders|].stages, t.state.requests[|d.ladders|].status)
               && SameRungs(t.ladders[|d.ladders|].raised, t.ladders[|d.ladders|].stages)
    ensures DeskInv(t)
  {
    hide Sound, Undrifted, OneOpen, ChainOf, Timed, LadderOk, SameRungs;
  }

  // ----- every run of the engine -----

  ghost predicate DeskReachable(d: Desk, steps: nat)
    decreases steps
  {
    if steps == 0 then Imported(d.state) && d.ladders == []
    else exists before, a :: DeskReachable(before, steps - 1) && DeskGoes(before, a, d)
  }

  ghost predicate DeskGoes(before: Desk, a: DeskAction, after: Desk) {
    Paired(before) && after == DeskStep(before, a)
  }

  /** Everything proved of the portal's runs holds of the engine's, and its ladders are always in order. */
  lemma {:induction false} EngineRunsAreRuns(d: Desk, steps: nat)
    requires DeskReachable(d, steps)
    ensures Reachable(d.state) && DeskInv(d)
    decreases steps
  {
    hide Inv, Step, DeskStep, LadderOk, SameRungs, AllFollow, AsAction;
    if steps == 0 {
      ImportedIsInv(d.state);
      InvIsLinked(d.state);
      assert Run(d.state, []) == d.state;
    } else {
      var before, a :| DeskReachable(before, steps - 1) && DeskGoes(before, a, d);
      EngineRunsAreRuns(before, steps - 1);
      DeskStepRefines(before, a);
      if d.state != before.state {
        OneStepFurther(before.state, AsAction(before, a));
      }
    }
  }

  lemma OneStepFurther(s: State, a: Action)
    requires Reachable(s)
    ensures Reachable(Step(s, a))
  {
    hide Imported, Step;
    var start, actions :| Imported(start) && s == Run(start, actions);
    assert (actions + [a])[..|actions|] == actions;
    assert Run(start, actions + [a]) == Step(s, a);
  }

  lemma StepIsReachable(before: Desk, a: DeskAction, steps: nat)
    requires DeskReachable(before, steps) && Paired(before)
    ensures DeskReachable(DeskStep(before, a), steps + 1)
  {
    hide DeskStep;
    assert DeskGoes(before, a, DeskStep(before, a));
  }

  // ----- who signed -----

  /** The chain asked this rung for somebody new, and a reroute took that out of its configuration. */
  predicate Dropped(l: Ladder, k: nat)
    requires k < |l.raised| && k < |l.stages|
  {
    l.raised[k].config.distinctActor && !l.stages[k].rung.config.distinctActor
  }

  /** The rung was signed by somebody who had signed a rung below it. */
  predicate Repeated(l: Ladder, k: nat)
    requires k < |l.stages|
  {
    exists j :: 0 <= j < k && l.stages[j].decidedBy.Some? && l.stages[j].decidedBy == l.stages[k].decidedBy
  }

  /**
   * In every state the engine can reach: a correction that was applied cleared every rung of the chain it was raised
   * on, each signed; where that chain asked for a second pair of eyes the signer had signed no rung below, unless a
   * reroute dropped the question or an administrator cleared a rung that resolved to nobody. A rejected one was
   * rejected at a rung that chain allows to reject, and a rung is open exactly while a decision is due.
   */
  lemma AppliedClearedEveryRung(d: Desk, steps: nat, i: nat)
    requires DeskReachable(d, steps) && i < |d.state.requests|
    ensures |d.ladders| == |d.state.requests| && d.ladders[i].stages != []
    ensures var l, status := d.ladders[i], d.state.requests[i].status;
            && SameRungs(l.raised, l.stages)
            && (status.Approved? ==>
                  && (forall k :: 0 <= k < |l.stages| ==> l.stages[k].status.Passed? && l.stages[k].decidedBy.Some?)
                  && (forall k :: 0 <= k < |l.stages| && l.raised[k].config.distinctActor && Repeated(l, k) ==>
                        Dropped(l, k) || !l.stages[k].routed))
            && (status.Rejected? ==> exists k :: 0 <= k < |l.stages| && l.stages[k].status.Refused? && l.raised[k].canReject)
            && ((exists k :: 0 <= k < |l.stages| && l.stages[k].status.Active?) <==> Undecided(d.state, i))
  {
    EngineRunsAreRuns(d, steps);
    hide Inv, DeskReachable, Reachable;
    assert LadderOk(d.ladders[i].stages, d.state.requests[i].status);
    assert SameRungs(d.ladders[i].raised, d.ladders[i].stages);
    OneRungOpenExactly(d.ladders[i].stages, d.state.requests[i].status);
    var stages := d.ladders[i].stages;
    if Undecided(d.state, i) {
      assert stages[Height(stages)].status.Active?;
    }
  }

  /**
   * At the open rung, somebody who already signed is let through exactly when the rung admits them and either does not,
   * or no longer, asks for somebody new or resolves to nobody.
   */
  lemma SecondSignatureExactly(dir: Directory, r: Request, stages: seq<Stage>, k: nat, actor: Actor)
    requires k < |stages| && SignedAlready(stages, k, actor.id)
    ensures MayDecide(dir, r, stages, k, actor) <==>
              && Admitted(Resolve(dir, r, stages[k].rung), actor)
              && (!stages[k].rung.config.distinctActor || Resolve(dir, r, stages[k].rung).Unresolved?)
  {
    hide Resolve, SignedAlready, Admitted;
  }

  /** Some account, under some state of the accounts and the roster, signed this climb already and is let through. */
  ghost predicate SecondSignaturePossible(r: Request, stages: seq<Stage>, k: nat)
    requires k < |stages|
  {
    exists dir: Directory, actor: Actor :: SignedAlready(stages, k, actor.id) && MayDecide(dir, r, stages, k, actor)
  }

  predicate IsPool(rung: Rung) {
    rung.resolverKey == "ROLE" && rung.config.role.Some?
  }

  lemma PossibleExactly(r: Request, stages: seq<Stage>, k: nat, signer: string)
    requires k < |stages| && SignedAlready(stages, k, signer)
    ensures SecondSignaturePossible(r, stages, k) <==> !stages[k].rung.config.distinctActor || !IsPool(stages[k].rung)
  {
    hide SignedAlready;
    var rung, deserted := stages[k].rung, Directory({}, map[]);
    if !IsPool(rung) {
      assert Resolve(deserted, r, rung).Unresolved?;
      assert MayDecide(deserted, r, stages, k, Actor(signer, "admin"));
    } else if !rung.config.distinctActor {
      assert MayDecide(deserted, r, stages, k, Actor(signer, rung.config.role.value));
    }
  }

  /**
   * In every state the engine can reach, an open rung above the first can come to be signed by somebody who signed below
   * exactly when it does not ask for somebody new or is no pool of a role; if it is a pool and the chain did ask, exactly
   * when a reroute dropped the question.
   */
  lemma SecondSignaturePossibleExactly(d: Desk, steps: nat, i: nat)
    requires DeskReachable(d, steps) && Undecided(d.state, i)
    ensures |d.ladders| == |d.state.requests|
    ensures var l := d.ladders[i];
            var k := ActiveRung(l.stages);
            && k < |l.stages| == |l.raised|
            && (k > 0 ==>
                  (SecondSignaturePossible(d.state.requests[i], l.stages, k) <==>
                   !l.stages[k].rung.config.distinctActor || !IsPool(l.stages[k].rung)))
            && (k > 0 && l.raised[k].config.distinctActor && IsPool(l.stages[k].rung) ==>
                  (SecondSignaturePossible(d.state.requests[i], l.stages, k) <==> Dropped(l, k)))
  {
    EngineRunsAreRuns(d, steps);
    hide Inv, DeskReachable, Reachable, SecondSignaturePossible;
    var l := d.ladders[i];
    assert LadderOk(l.stages, d.state.requests[i].status) && SameRungs(l.raised, l.stages);
    OneRungOpenExactly(l.stages, d.state.requests[i].status);
    var k := ActiveRung(l.stages);
    if k > 0 {
      assert SignedAlready(l.stages, k, l.stages[0].decidedBy.value);
      PossibleExactly(d.state.requests[i], l.stages, k, l.stages[0].decidedBy.value);
    }
  }
}
