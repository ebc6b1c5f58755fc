/** The portal's tables and the service calls that change them in place (src/lib/corrections/service.ts, src/lib/approvals). */
module Portal {
  import opened Wrappers
  import opened Normalize
  import opened TeamScope
  import opened Records
  import opened Corrections
  import opened Workflow
  import Bulk
  import JsSet

  const BULK_MAX := 200

  class Tables {
    var records: seq<Record>
    var versions: seq<seq<Version>>
    var requests: seq<Request>
    var events: seq<Event>
    var ladders: seq<Ladder>
    var world: World

    constructor (imported: seq<Record>, world: World)
      requires forall i :: 0 <= i < |imported| ==> imported[i].currentVersion == 1
      ensures records == imported && this.world == world && Imported(Snapshot()) && ladders == [] && Paired(AsDesk())
    {
      this.world := world;
      records := imported;
      versions := seq(|imported|, i requires 0 <= i < |imported| => [Version(1, imported[i], [], None)]);
      requests := [];
      events := [];
      ladders := [];
    }

    function Snapshot(): State
      reads this
    {
      State(records, versions, requests, events, world)
    }

    function AsDesk(): Desk
      reads this
    {
      Desk(Snapshot(), ladders)
    }

    /** The insert, under the index that allows one open request per record and field. */
    method InsertRequest(row: Request) returns (ok: bool)
      modifies this`requests
      ensures ok <==> !SlotHeld(old(requests), row.recordId, row.fieldName, |old(requests)|)
      ensures requests == if ok then old(requests) + [row] else old(requests)
    {
      ok := !SlotHeld(requests, row.recordId, row.fieldName, |requests|);
      if ok {
        requests := requests + [row];
      }
    }

    /** A refused submission leaves every table as it was, the ones refused after the insert included. */
    method SubmitCorrection(actor: User, input: Input, chainKey: string, chain: seq<Rung>, dir: Directory)
      returns (r: Result<nat, Failure>)
      requires Paired(AsDesk())
      modifies this`requests, this`events, this`ladders
      ensures match Submit(old(Snapshot()), actor, input.(chainOpens := chain != []))
              case Ok(t) =>
                && Snapshot() == t && r == Ok(|old(requests)|)
                && AsDesk() == DeskStep(old(AsDesk()), Raise(actor, input, chainKey, chain, dir))
              case Err(e) => AsDesk() == old(AsDesk()) && r == Err(e)
    {
      hide Parse, ProposedValue, NormalizeIdentifier, ActorBooks, ResolveRecord, CheckOwnership, SlotHeld, SnapshotOriginal,
           PeriodIsClosed, FromTheBottom;
      var scope := ActorBooks(world, actor);
      if scope.None? { return Err(NoBooks); }
      var parsed := Parse(world.latestIssue, input.(chainOpens := chain != []));
      if parsed.None? { return Err(Unparsed); }
      var sub := parsed.value;
      var identifier := OrEmpty(NormalizeIdentifier(sub.appsNo).value);
      if identifier == "" { return Err(NoIdentifier); }

      var found := ResolveRecord(Snapshot(), scope.value, sub.direction, identifier);
      if found.Err? { return Err(found.error); }
      var record := records[found.value];
      var owner := record.values[SmId];
      var refused := CheckOwnership(world, scope.value, sub.direction, sub.proposed, owner);
      if refused.Some? { return Err(refused.value); }

      var proposed := ProposedValue(sub.field, sub.proposed);
      if proposed.value.None? || proposed.error { return Err(BadValue); }
      var original := SnapshotOriginal(record, sub.field);
      if original == proposed.value { return Err(Failure.Unchanged); }
      if PeriodIsClosed(world, record.periodId) { return Err(PeriodClosed); }
      if !input.proofsStored { return Err(ProofsRefused); }

      var bookSmId := if sub.direction == Some(ClaimIn) then sub.proposed else owner;
      var row := Request(found.value, record.values[AppsNo], sub.category, sub.direction, Known(sub.field), original,
                         proposed.value.value, sub.description, actor.id, bookSmId, Pending, record.periodId, 0, None, None);
      if sub.direction == Some(ClaimIn) {
        row := row.(counterparty := Some(owner));
      } else if sub.direction == Some(TransferOut) {
        row := row.(counterparty := proposed.value);
      }

      var before := (requests, events);
      var id := |requests|;
      var ok := InsertRequest(row);
      if !ok { return Err(SlotTaken); }
      events := events + [Event(id, Submitted, None, Pending)];
      if chain == [] {
        requests, events := before.0, before.1;
        return Err(NoChain);
      }
      ladders := ladders + [Ladder(chainKey, chain, FromTheBottom(dir, row, chain))];
      return Ok(id);
    }

    method ResubmitCorrection(actor: User, id: nat, answer: Answer, dir: Directory) returns (r: Result<(), Failure>)
      requires Paired(AsDesk())
      modifies this`requests, this`events, this`ladders
      ensures match Resubmit(old(Snapshot()), actor, id, answer)
              case Ok(t) => Snapshot() == t && r.Ok? && AsDesk() == DeskStep(old(AsDesk()), Answered(actor, id, answer, dir))
              case Err(e) => AsDesk() == old(AsDesk()) && r == Err(e)
    {
      hide Parse, ProposedValue, ActorBooks, SlotHeld, CheckTransferTarget, FromTheBottom, RungsOf;
      if ActorBooks(world, actor).None? { return Err(NoBooks); }
      if id >= |requests| || requests[id].submittedBy != actor.id { return Err(NotYours); }
      var existing := requests[id];
      if !existing.status.Returned? { return Err(WrongStatus); }

      var parsed := Parse(world.latestIssue, AnswerAsInput(existing, answer));
      if parsed.None? { return Err(Unparsed); }
      if existing.fieldName.Unregistered? { return Err(BadValue); }
      var proposed := ProposedValue(existing.fieldName.field, parsed.value.proposed);
      if proposed.value.None? || proposed.error { return Err(BadValue); }
      if existing.direction == Some(ClaimIn) && proposed.value.value != existing.smId { return Err(NotYourRep); }
      if existing.direction == Some(TransferOut) {
        var refused := CheckTransferTarget(world, proposed.value.value, existing.smId);
        if refused.Some? { return Err(refused.value); }
      }
      if !answer.proofsStored { return Err(ProofsRefused); }

      if SlotHeld(requests, existing.recordId, existing.fieldName, id) { return Err(SlotTaken); }
      var row := existing.(status := Pending, proposed := proposed.value.value, description := parsed.value.description,
                           resubmissions := existing.resubmissions + 1);
      requests := requests[id := row];
      events := events + [Event(id, Resubmitted, Some(Status.Returned), Pending)];
      ladders := ladders[id := ladders[id].(stages := FromTheBottom(dir, row, RungsOf(ladders[id].stages)))];
      return Ok(());
    }

    method WithdrawCorrection(actor: User, id: nat) returns (r: Result<(), Failure>)
      requires Paired(AsDesk())
      modifies this`requests, this`events, this`ladders
      ensures match Withdraw(old(Snapshot()), actor, id)
              case Ok(t) => Snapshot() == t && r.Ok? && AsDesk() == DeskStep(old(AsDesk()), TakenBack(actor, id))
              case Err(e) => AsDesk() == old(AsDesk()) && r == Err(e)
    {
      hide CloseActive;
      if id >= |requests| || requests[id].submittedBy != actor.id { return Err(NotYours); }
      var from := requests[id].status;
      if !Withdrawable(from) { return Err(WrongStatus); }
      requests := requests[id := requests[id].(status := Withdrawn)];
      ladders := ladders[id := ladders[id].(stages := CloseActive(ladders[id].stages))];
      events := events + [Event(id, WithdrawnAction, Some(from), Withdrawn)];
      return Ok(());
    }

    /** Writes the record and its next version row, or writes nothing. */
    method ApplyCorrectionToRecord(id: nat) returns (r: Result<Application, ApplyError>)
      requires Paired(AsDesk()) && id < |requests|
      modifies this`records, this`versions
      ensures Paired(AsDesk())
      ensures r == ApplyRequest(old(Snapshot()), id)
      ensures r.Err? ==> records == old(records) && versions == old(versions)
      ensures r.Ok? ==>
                && records == old(records)[requests[id].recordId := r.value.record]
                && versions == old(versions)[requests[id].recordId :=
                     old(versions)[requests[id].recordId] + [r.value.version]]
    {
      hide CoerceValue, ResolveTargetField, RosterName, Present, ColumnOf;
      var request := requests[id];
      var record := records[request.recordId];
      var target := ResolveTargetField(request.category, request.fieldName);
      if target.Err? { return Err(target.error); }
      var coerced := CoerceValue(target.value, request.proposed);
      if coerced.Err? { return Err(coerced.error); }

      var warnings: seq<Warning> := [];
      var changedFields := [target.value];
      var kept := ColumnOf(target.value, coerced.value);
      if kept.Err? { return Err(kept.error); }
      var patch := Put(record.values, target.value, kept.value);
      if request.category.Mapping? {
        var gaining := OrEmpty(coerced.value);
        var resolved := RosterName(world, gaining);
        if !Present(resolved) {
          warnings := warnings + [if gaining in world.roster then NamelessRosterRow(gaining) else NotInRoster(gaining)];
        }
        patch := Put(patch, SmName, resolved);
        changedFields := changedFields + [SmName];
        assert changedFields == [target.value, SmName];
        var losing := record.values[SmId];
        if losing !in world.accounts && losing != gaining {
          warnings := warnings + [NoAccount(losing)];
        }
        if gaining !in world.accounts {
          warnings := warnings + [NoAccount(gaining)];
        }
        assert warnings == MappingWarnings(world, losing, gaining);
      }

      var updated: Record := Row(patch, record.periodId, record.currentVersion + 1, true);
      var version := Version(updated.currentVersion, updated, changedFields, Some(id));
      records := records[request.recordId := updated];
      versions := versions[request.recordId := versions[request.recordId] + [version]];
      return Ok(Application(target.value, record.Get(target.value), coerced.value, updated, version, warnings));
    }

    /** One decision on the open rung, in one transaction: an application that fails takes the rung's signature back. */
    method DecideStage(id: nat, v: Verdict, dir: Directory) returns (r: Result<StageOutcome, EngineError>)
      requires Paired(AsDesk())
      modifies this`records, this`versions, this`requests, this`events, this`ladders
      ensures Paired(AsDesk()) && |ladders| == |old(ladders)|
      ensures match Judge(old(AsDesk()), dir, id, v)
              case Ok(ruling) => AsDesk() == ruling.desk && r == Ok(ruling.outcome)
              case Err(e) => AsDesk() == old(AsDesk()) && r == Err(e)
    {
      hide ActiveRung, Repaired, MayDecide, Signed, OpenRung;
      if id >= |requests| { return Err(NoSuchRequest); }
      var request, before := requests[id], ladders;
      var stages := Repaired(ladders[id].stages, request.status);
      var k := ActiveRung(stages);
      if k == |stages| { return Err(NoOpenStep); }
      if !MayDecide(dir, request, stages, k, v.actor) { return Err(NotAuthorized); }

      if v.decision.Refuse? || v.decision.SendBack? {
        if !v.remarks { return Err(RemarksRequired); }
        if v.decision.Refuse? && !stages[k].rung.canReject { return Err(CannotReject); }
        var ended := if v.decision.Refuse? then Refused else StageStatus.SentBack;
        var status := if v.decision.Refuse? then Status.Rejected else Status.Returned;
        ladders := ladders[id := ladders[id].(stages := Signed(dir, request, stages, k, ended, v.actor))];
        requests := requests[id := request.(status := status)];
        events := events + [Event(id, if v.decision.Refuse? then RejectedAction else ReturnedAction, Some(request.status), status)];
        return Ok(if v.decision.Refuse? then TurnedDown else GivenBack);
      }

      var passed := Signed(dir, request, stages, k, Passed, v.actor);
      ladders := ladders[id := ladders[id].(stages := passed)];
      if k == |stages| - 1 {
        var applied := ApplyCorrectionToRecord(id);
        if applied.Err? {
          ladders := before;
          return Err(CannotApply(applied.error));
        }
        requests := requests[id := request.(status := Approved, appliedVersion := Some(applied.value.version.version))];
        events := events + [Event(id, ApprovedAction, Some(request.status), Approved)];
        return Ok(Applied(applied.value.warnings));
      }
      ladders := ladders[id := ladders[id].(stages := OpenRung(dir, request, passed, k + 1))];
      requests := requests[id := request.(status := Verified)];
      events := events + [Event(id, if v.actor.role == "verifier" then VerifiedAction else AdvancedAction,
                                Some(request.status), Verified)];
      return Ok(Advanced);
    }

    /** An open rung pinned to nobody is routed anew. */
    method RetryStageRouting(id: nat, chain: seq<Rung>, dir: Directory)
      requires Paired(AsDesk())
      modifies this`ladders
      ensures AsDesk() == DeskStep(old(AsDesk()), Retry(id, chain, dir))
    {
      if id >= |ladders| { return; }
      var stages := ladders[id].stages;
      var k := ActiveRung(stages);
      assert stages == ladders[id].stages && ladders[id := ladders[id].(stages := stages)] == ladders;
      if k == |stages| || stages[k].assignee.Some? || stages[k].rung.resolverKey == "ROLE" { return; }
      var i := FindRung(chain, stages[k].rung.stageKey);
      if i == |chain| { return; }
      var rung := stages[k].rung.(resolverKey := chain[i].resolverKey, config := chain[i].config);
      var retried := stages[k].(rung := rung, assignee := PinOf(Resolve(dir, requests[id], rung)));
      ladders := ladders[id := ladders[id].(stages := stages[k := retried])];
    }

    /** Every open rung of the chain and key that somebody else holds is handed over. */
    method ReassignOpenStages(chainKey: string, stageKey: string, userId: string)
      requires Paired(AsDesk())
      modifies this`ladders
      ensures AsDesk() == DeskStep(old(AsDesk()), Reassign(chainKey, stageKey, userId))
    {
      ghost var before, rows := ladders, requests;
      for i := 0 to |ladders|
        invariant |ladders| == |before| == |rows|
        invariant forall j :: 0 <= j < i ==> ladders[j] == Reassigned(before[j], rows[j].status, chainKey, stageKey, userId)
        invariant forall j :: i <= j < |ladders| ==> ladders[j] == before[j]
      {
        ladders := ladders[i := Reassigned(ladders[i], requests[i].status, chainKey, stageKey, userId)];
      }
    }

    /** One transaction per request, in order; an outcome the adapter did not expect is reported after it has committed. */
    method RunBulk(ids: seq<nat>, c: Bulk.Call) returns (report: Bulk.Report)
      requires Paired(AsDesk())
      modifies this`records, this`versions, this`requests, this`events, this`ladders
      ensures Paired(AsDesk())
      ensures Bulk.Batch(AsDesk(), report) == Bulk.RunBulk(old(AsDesk()), ids, c)
    {
      var succeeded: seq<nat>, failed: seq<Bulk.BulkFailure>, warnings: seq<Warning> := [], [], [];
      ghost var before := AsDesk();
      for i := 0 to |ids|
        invariant Paired(AsDesk())
        invariant Bulk.Batch(AsDesk(), Bulk.Report(succeeded, failed, warnings)) == Bulk.RunBulk(before, ids[..i], c)
      {
        hide Judge;
        assert ids[..i + 1][..i] == ids[..i];
        var outcome := DecideStage(ids[i], Bulk.VerdictOf(c), c.dir);
        if outcome.Err? {
          failed := failed + [Bulk.BulkFailure(ids[i], Bulk.Declined(outcome.error))];
        } else if Bulk.Expected(c.verb, outcome.value) {
          succeeded := succeeded + [ids[i]];
          warnings := AddWarnings(warnings, Bulk.WarningsOf(outcome.value));
        } else {
          failed := failed + [Bulk.BulkFailure(ids[i], Bulk.Committed)];
        }
      }
      assert ids[..|ids|] == ids;
      return Bulk.Report(succeeded, failed, warnings);
    }

    /** What the form posts, within its limits: the same id twice is one decision. */
    method DecideMany(posted: seq<nat>, c: Bulk.Call) returns (report: Option<Bulk.Report>)
      requires Paired(AsDesk())
      modifies this`records, this`versions, this`requests, this`events, this`ladders
      ensures Paired(AsDesk())
      ensures report.Some? <==> 1 <= |posted| <= 200
      ensures report.None? ==> AsDesk() == old(AsDesk())
      ensures report.Some? ==> Bulk.Batch(AsDesk(), report.value)
                               == Bulk.RunBulk(old(AsDesk()), JsSet.Distinct(posted), c)
    {
      if posted == [] || |posted| > BULK_MAX { return None; }
      var done := RunBulk(JsSet.Distinct(posted), c);
      return Some(done);
    }
  }

  /** Each of the new warnings that was not there yet, at the end. */
  method AddWarnings(warnings: seq<Warning>, more: seq<Warning>) returns (all: seq<Warning>)
    ensures all == JsSet.AddAll(warnings, more)
  {
    all := warnings;
    for i := 0 to |more|
      invariant all == JsSet.AddAll(warnings, more[..i])
    {
      assert more[..i + 1][..i] == more[..i];
      if more[i] !in all {
        all := all + [more[i]];
      }
    }
    assert more[..|more|] == more;
  }
}
