/** What every run of the correction steps keeps. */
module CorrectionRuns {
  import opened Wrappers
  import opened Normalize
  import opened TeamScope
  import opened Records
  import opened Corrections
  import opened Calendar

  // ----- the timeline -----

  function Resubmissions(events: seq<Event>, id: nat): nat {
    if events == [] then 0
    else
      var last := events[|events| - 1];
      Resubmissions(events[..|events| - 1], id) + if last.requestId == id && last.action.Resubmitted? then 1 else 0
  }

  /** The status a request's last event left it in. */
  function LastStatus(events: seq<Event>, id: nat): Option<Status> {
    if events == [] then None
    else if events[|events| - 1].requestId == id then Some(events[|events| - 1].to)
    else LastStatus(events[..|events| - 1], id)
  }

  /** Every event starts where the one before it on the same request ended. */
  ghost predicate Connected(events: seq<Event>) {
    events == [] ||
    (var last := events[|events| - 1];
     && last.from == LastStatus(events[..|events| - 1], last.requestId)
     && Connected(events[..|events| - 1]))
  }

  lemma OneMoreEvent(events: seq<Event>, e: Event, id: nat)
    ensures Resubmissions(events + [e], id) ==
            Resubmissions(events, id) + if e.requestId == id && e.action.Resubmitted? then 1 else 0
    ensures LastStatus(events + [e], id) == if e.requestId == id then Some(e.to) else LastStatus(events, id)
    ensures Connected(events + [e]) <==> Connected(events) && e.from == LastStatus(events, e.requestId)
  {
    assert (events + [e])[..|events|] == events;
  }

  // ----- the invariant -----

  ghost predicate Linked(s: State) {
    && |s.versions| == |s.records|
    && forall i :: 0 <= i < |s.requests| ==> s.requests[i].recordId < |s.records|
  }

  /** The field follows from the category, and only a mapping has a direction. */
  predicate Shaped(r: Request) {
    && r.fieldName.Known?
    && (PinnedField(r.category).Some? ==> r.fieldName.field == PinnedField(r.category).value)
    && (r.category.Others? ==> !OthersForbidden(r.fieldName.field))
    && (r.direction.Some? <==> r.category.Mapping?)
  }

  /** Where a mapping says the sale goes. */
  predicate Destined(r: Request) {
    && (r.direction == Some(ClaimIn) ==> r.proposed == r.smId)
    && (r.direction == Some(TransferOut) ==> r.proposed != r.smId && !IsPlaceholder(r.proposed))
    && (r.direction == Some(TransferOut) ==> r.original == if r.smId == "" then None else Some(r.smId))
    && (r.category.Mapping? ==> NormalizeSmId(r.proposed) == Some(r.proposed) && r.original != Some(r.proposed))
  }

  /** The proposed value is one the field's normalizer produced. */
  ghost predicate Canonical(r: Request) {
    && r.fieldName.Known?
    && exists raw :: ProposedValue(r.fieldName.field, raw) == Normalized(Some(r.proposed), false)
  }

  /** The text of a day in a year past 9999, which is no date. */
  predicate PastFourDigits(text: string) {
    text != "" && text[0] == '+'
  }

  ghost predicate Sound(r: Request) {
    && Shaped(r) && Destined(r) && Canonical(r)
    && (r.category.AgentIdCategory? ==> !Sentinel(r.proposed))
    && (r.category.IssuanceDate? ==> !PastFourDigits(r.proposed))
  }

  predicate SameSlot(a: Request, b: Request) {
    a.recordId == b.recordId && a.fieldName == b.fieldName
  }

  ghost predicate OneOpen(requests: seq<Request>) {
    forall i, j :: 0 <= i < j < |requests| && Locking(requests[i].status) && Locking(requests[j].status) ==>
      !SameSlot(requests[i], requests[j])
  }

  /** An open request's snapshot is still what its record holds; the rep's name, which a mapping also writes, aside. */
  predicate Undrifted(records: seq<Record>, r: Request) {
    r.recordId < |records| && r.fieldName.Known? && r.fieldName.field != SmName && Locking(r.status) ==>
      r.original == SnapshotOriginal(records[r.recordId], r.fieldName.field)
  }

  ghost predicate ChainOf(record: Record, chain: seq<Version>) {
    && chain != [] && |chain| == record.currentVersion
    && chain[|chain| - 1].data == record
    && Numbered(chain) && HonestDiffs(chain)
  }

  ghost predicate Timed(s: State) {
    && Connected(s.events)
    && (forall i :: 0 <= i < |s.requests| ==>
          LastStatus(s.events, i) == Some(s.requests[i].status)
          && Resubmissions(s.events, i) == s.requests[i].resubmissions)
    && (forall i :: i >= |s.requests| ==> LastStatus(s.events, i) == None && Resubmissions(s.events, i) == 0)
  }

  ghost predicate Inv(s: State) {
    && Linked(s)
    && (forall i :: 0 <= i < |s.requests| ==> Sound(s.requests[i]))
    && (forall i :: 0 <= i < |s.requests| ==> Undrifted(s.records, s.requests[i]))
    && OneOpen(s.requests)
    && (forall i :: 0 <= i < |s.records| ==> ChainOf(s.records[i], s.versions[i]))
    && Timed(s)
  }

  // ----- what is fixed for life -----

  predicate Frozen(a: Request, b: Request) {
    && a.recordId == b.recordId && a.appsNo == b.appsNo && a.category == b.category && a.direction == b.direction
    && a.fieldName == b.fieldName && a.original == b.original && a.submittedBy == b.submittedBy && a.smId == b.smId
    && a.periodId == b.periodId && a.counterparty == b.counterparty
  }

  lemma DecideKeepsRequests(s: State, id: nat, d: Decision, i: nat)
    requires i < |s.requests| && Decide(s, id, d).Ok?
    ensures var t := Decide(s, id, d).value.state;
            && i < |t.requests| && Frozen(s.requests[i], t.requests[i])
            && (!Locking(s.requests[i].status) ==> t.requests[i] == s.requests[i])
  {
    hide ApplyRequest;
  }

  /** A step keeps every request it finds, changes nothing frozen, and leaves a decided one entirely alone. */
  lemma StepKeepsRequests(s: State, a: Action, i: nat)
    requires i < |s.requests|
    ensures var t := Step(s, a);
            && i < |t.requests| && Frozen(s.requests[i], t.requests[i])
            && (!Locking(s.requests[i].status) ==> t.requests[i] == s.requests[i])
  {
    hide NewRequest, Revised, ActorBooks, Decide, SlotHeld;
    if a.DoResubmit? && Owns(s, a.actor, a.id) {
      RevisedIsFrozen(s.world, s.requests[a.id], a.answer);
    } else if a.DoDecide? && Decide(s, a.id, a.decision).Ok? {
      DecideKeepsRequests(s, a.id, a.decision, i);
    }
  }

  lemma RevisedIsFrozen(w: World, existing: Request, answer: Answer)
    ensures Revised(w, existing, answer).Ok? ==> Frozen(existing, Revised(w, existing, answer).value)
  {
    hide Parse, ProposedValue, CheckTransferTarget;
  }

  /** Terminal statuses are never left, and what a request is about never changes, through any run. */
  lemma {:induction false} RunKeepsRequests(s: State, actions: seq<Action>, i: nat)
    requires i < |s.requests|
    ensures var t := Run(s, actions);
            && i < |t.requests| && Frozen(s.requests[i], t.requests[i])
            && (!Locking(s.requests[i].status) ==> t.requests[i] == s.requests[i])
  {
    if actions != [] {
      var n := |actions| - 1;
      RunKeepsRequests(s, actions[..n], i);
      StepKeepsRequests(Run(s, actions[..n]), actions[n], i);
    }
  }

  // ----- the shapes of a step -----

  /** What parsing guarantees about a submission, whatever the form sent. */
  lemma ParsedShape(latestIssue: string, input: Input)
    requires Parse(latestIssue, input).Some?
    ensures var sub := Parse(latestIssue, input).value;
            && Some(sub.category) == input.category
            && (PinnedField(sub.category).Some? ==> sub.field == PinnedField(sub.category).value)
            && (sub.category.Others? ==> Known(sub.field) == input.fieldName && !OthersForbidden(sub.field))
            && sub.direction == (if sub.category.Mapping? then input.direction else None)
            && (sub.direction.Some? <==> sub.category.Mapping?)
            && (sub.category.Mapping? ==> NormalizeSmId(Trim(input.proposedValue)) == Some(sub.proposed))
            && (sub.category.AgentIdCategory? ==>
                  NormalizeIdentifier(Trim(input.proposedValue)).value == Some(sub.proposed))
            && (sub.category.IssuanceDate? ==>
                  NormalizeDate(Trim(input.proposedValue)).value == Some(sub.proposed) && !PastFourDigits(sub.proposed))
  {
    hide ProposedValue, NormalizeSmId, NormalizeIdentifier, NormalizeAutopay, NormalizeDate, Trim;
  }

  /** The second normalization of a destination changes nothing, or refuses it. */
  lemma DestinationIsStable(raw: string, first: string)
    requires NormalizeSmId(raw) == Some(first)
    requires Acceptable(ProposedValue(SmId, first))
    ensures ProposedValue(SmId, first).value == Some(first) == NormalizeSmId(first)
  {
    hide NormalizeSmId;
    SmIdTwiceIsStable(raw);
    SmIdSecondPass(raw);
  }

  /** An agent code is normalized twice too, so it is never a sentinel by the time it is stored. */
  lemma AgentCodeIsStable(raw: string, first: string)
    requires NormalizeIdentifier(raw).value == Some(first)
    requires Acceptable(ProposedValue(AgentId, first))
    ensures ProposedValue(AgentId, first).value == Some(first) && !Sentinel(first)
  {
    hide NormalizeIdentifier;
    IdentifierSecondPass(raw);
  }

  /** An issuance date passed the window as text, so it starts with a digit and a second pass leaves it alone. */
  lemma IssueDateIsStable(raw: string, first: string)
    requires NormalizeDate(raw).value == Some(first) && !PastFourDigits(first)
    ensures ProposedValue(IssuedDate, first) == Normalized(Some(first), false)
  {
    hide NormalizeDate;
    DateSecondPass(raw);
  }

  /** A request that was accepted for insertion is sound and carries the live value. */
  lemma NewRequestIsSound(s: State, actor: User, input: Input)
    requires NewRequest(s, actor, input).Ok?
    ensures var r := NewRequest(s, actor, input).value;
            && Sound(r) && r.status == Pending && r.resubmissions == 0
            && r.recordId < |s.records| && Undrifted(s.records, r)
  {
    hide ActorBooks, ResolveRecord, Parse, ProposedValue, NormalizeSmId, NormalizeIdentifier, NormalizeDate, IsPlaceholder, Trim,
         Sentinel;
    ParsedShape(s.world.latestIssue, input);
    var sub := Parse(s.world.latestIssue, input).value;
    var r := NewRequest(s, actor, input).value;
    assert ProposedValue(r.fieldName.field, sub.proposed) == Normalized(Some(r.proposed), false);
    if sub.category.Mapping? {
      DestinationIsStable(Trim(input.proposedValue), sub.proposed);
    } else if sub.category.AgentIdCategory? {
      AgentCodeIsStable(Trim(input.proposedValue), sub.proposed);
    } else if sub.category.IssuanceDate? {
      IssueDateIsStable(Trim(input.proposedValue), sub.proposed);
    }
  }

  lemma RevisedIsSound(w: World, existing: Request, answer: Answer)
    requires Sound(existing) && Revised(w, existing, answer).Ok?
    ensures var r := Revised(w, existing, answer).value;
            && Sound(r) && Frozen(existing, r) && r.status == Pending
            && r.resubmissions == existing.resubmissions + 1
  {
    hide Parse, ProposedValue, NormalizeSmId, NormalizeIdentifier, NormalizeDate, IsPlaceholder, Trim, Sentinel;
    var input := AnswerAsInput(existing, answer);
    ParsedShape(w.latestIssue, input);
    var sub := Parse(w.latestIssue, input).value;
    var r := Revised(w, existing, answer).value;
    assert ProposedValue(r.fieldName.field, sub.proposed) == Normalized(Some(r.proposed), false);
    if r.category.Mapping? {
      DestinationIsStable(Trim(input.proposedValue), sub.proposed);
      match r.direction.value
      case ClaimIn => assert r.proposed == existing.proposed;
      case TransferOut =>
    } else if r.category.AgentIdCategory? {
      AgentCodeIsStable(Trim(input.proposedValue), sub.proposed);
    } else if sub.category.IssuanceDate? {
      IssueDateIsStable(Trim(input.proposedValue), sub.proposed);
    }
  }

  /** One more event keeps the timeline in step with a request's new status and count. */
  lemma AppendKeepsTime(s: State, t: State, e: Event)
    requires Timed(s) && t.events == s.events + [e]
    requires e.requestId < |t.requests| && |s.requests| <= |t.requests| <= |s.requests| + 1
    requires |t.requests| > |s.requests| ==> e.requestId == |s.requests|
    requires forall i :: 0 <= i < |s.requests| && i != e.requestId ==> t.requests[i] == s.requests[i]
    requires e.from == LastStatus(s.events, e.requestId) && e.to == t.requests[e.requestId].status
    requires t.requests[e.requestId].resubmissions ==
             Resubmissions(s.events, e.requestId) + if e.action.Resubmitted? then 1 else 0
    ensures Timed(t)
  {
    hide Resubmissions, LastStatus, Connected;
    OneMoreEvent(s.events, e, e.requestId);
    forall i | 0 <= i < |t.requests|
      ensures LastStatus(t.events, i) == Some(t.requests[i].status) && Resubmissions(t.events, i) == t.requests[i].resubmissions
    {
      OneMoreEvent(s.events, e, i);
    }
    forall i | i >= |t.requests| ensures LastStatus(t.events, i) == None && Resubmissions(t.events, i) == 0 {
      OneMoreEvent(s.events, e, i);
    }
  }

  lemma InsertKeepsInv(s: State, r: Request)
    requires Inv(s) && Sound(r) && r.status == Pending && r.resubmissions == 0
    requires r.recordId < |s.records| && Undrifted(s.records, r)
    requires !SlotHeld(s.requests, r.recordId, r.fieldName, |s.requests|)
    ensures Inv(s.(requests := s.requests + [r],
                        events := s.events + [Event(|s.requests|, Submitted, None, Pending)]))
  {
    hide Sound, Undrifted, ChainOf, Timed, Resubmissions, LastStatus;
    var e := Event(|s.requests|, Submitted, None, Pending);
    var t := s.(requests := s.requests + [r], events := s.events + [e]);
    assert LastStatus(s.events, |s.requests|) == None && Resubmissions(s.events, |s.requests|) == 0 by {
      NothingYet(s);
    }
    AppendKeepsTime(s, t, e);
  }

  lemma NothingYet(s: State)
    requires Timed(s)
    ensures LastStatus(s.events, |s.requests|) == None && Resubmissions(s.events, |s.requests|) == 0
  {
  }

  lemma UpdateKeepsInv(s: State, id: nat, r: Request, action: EventAction)
    requires Inv(s) && id < |s.requests| && Frozen(s.requests[id], r) && Sound(r)
    requires Locking(s.requests[id].status)
    requires r.resubmissions == s.requests[id].resubmissions + if action.Resubmitted? then 1 else 0
    ensures Inv(SetRequest(s, id, r).(events := s.events + [Event(id, action, Some(s.requests[id].status), r.status)]))
  {
    hide Sound, ChainOf, Resubmissions, LastStatus, Connected;
    var e := Event(id, action, Some(s.requests[id].status), r.status);
    var t := SetRequest(s, id, r).(events := s.events + [e]);
    AppendKeepsTime(s, t, e);
    assert Undrifted(s.records, s.requests[id]);
    assert OneOpen(t.requests);
  }

  // ----- applying -----

  /** An approval writes the request's own field, and the rep's name when it is a mapping. */
  lemma ApplyTouches(s: State, id: nat)
    requires id < |s.requests| && s.requests[id].recordId < |s.records| && Shaped(s.requests[id])
    requires ApplyRequest(s, id).Ok?
    ensures var r, a := s.requests[id], ApplyRequest(s, id).value;
            var before := s.records[r.recordId];
            && a.field == r.fieldName.field
            && (forall g :: g != a.field && (g.SmName? ==> !r.category.Mapping?) ==> a.record.Get(g) == before.Get(g))
            && Ok(a.record.Get(a.field)) == ColumnOf(a.field, a.newValue)
            && (r.category.Mapping? ==> a.record.Get(SmName) == RosterName(s.world, a.record.values[SmId]))
  {
    var r := s.requests[id];
    hide CoerceValue, RosterName, MappingWarnings, ColumnOf;
    ApplyFrame(s.world, s.records[r.recordId], r.category, r.fieldName, r.proposed, id);
  }

  lemma ApplyExtendsChain(s: State, id: nat)
    requires id < |s.requests| && s.requests[id].recordId < |s.records| == |s.versions|
    requires ApplyRequest(s, id).Ok?
    requires ChainOf(s.records[s.requests[id].recordId], s.versions[s.requests[id].recordId])
    ensures var a := ApplyRequest(s, id).value;
            ChainOf(a.record, s.versions[s.requests[id].recordId] + [a.version])
  {
    var r := s.requests[id];
    var before := s.records[r.recordId];
    var chain := s.versions[r.recordId];
    var a := ApplyRequest(s, id).value;
    ApplyFrame(s.world, before, r.category, r.fieldName, r.proposed, id);
    hide Apply, ApplyRequest;
    assert chain[|chain| - 1].data == before;
  }

  /** No open request drifts: the one that held the field is applied, and every other open one is on another field. */
  lemma ApplyKeepsUndrifted(s: State, id: nat, i: nat)
    requires Inv(s) && id < |s.requests| && i < |s.requests| && Locking(s.requests[id].status)
    requires ApplyRequest(s, id).Ok?
    ensures var t := ApprovedState(s, id, ApplyRequest(s, id).value);
            Undrifted(t.records, t.requests[i])
  {
    hide Timed, ChainOf, Destined, Canonical, ApplyRequest;
    assert Sound(s.requests[id]) && Sound(s.requests[i]);
    ApplyTouches(s, id);
    assert Undrifted(s.records, s.requests[i]);
    if i != id && Locking(s.requests[i].status) {
      assert !SameSlot(s.requests[i], s.requests[id]);
    }
  }

  lemma ApproveKeepsTime(s: State, id: nat, a: Application)
    requires Timed(s) && Linked(s) && id < |s.requests|
    ensures Timed(ApprovedState(s, id, a))
  {
    hide Resubmissions, LastStatus, Connected;
    AppendKeepsTime(s, ApprovedState(s, id, a), Event(id, ApprovedAction, Some(s.requests[id].status), Approved));
  }

  lemma ApproveKeepsInv(s: State, id: nat)
    requires Inv(s) && id < |s.requests| && Locking(s.requests[id].status)
    requires ApplyRequest(s, id).Ok?
    ensures Inv(ApprovedState(s, id, ApplyRequest(s, id).value))
  {
    hide Timed, ChainOf, ApplyRequest, Undrifted, Destined, Canonical, Shaped;
    var t := ApprovedState(s, id, ApplyRequest(s, id).value);
    forall i | 0 <= i < |t.requests| ensures Undrifted(t.records, t.requests[i]) {
      ApplyKeepsUndrifted(s, id, i);
    }
    ApplyExtendsChain(s, id);
    ApproveKeepsTime(s, id, ApplyRequest(s, id).value);
    assert Sound(s.requests[id]);
    assert Sound(t.requests[id]) by {
      SoundWhateverStatus(s.requests[id], t.requests[id]);
    }
  }

  /** Soundness is about what a request asks for, not how far it has come. */
  lemma SoundWhateverStatus(a: Request, b: Request)
    requires Sound(a) && Frozen(a, b) && a.proposed == b.proposed
    ensures Sound(b)
  {
  }

  // ----- every run -----

  lemma StepKeepsInv(s: State, a: Action)
    requires Inv(s)
    ensures Inv(Step(s, a))
  {
    hide Timed, ChainOf, Undrifted, OneOpen, Destined, Canonical, NewRequest, Revised, ActorBooks, Apply;
    match a
    case DoSubmit(actor, input) =>
      if Submit(s, actor, input).Ok? {
        NewRequestIsSound(s, actor, input);
        InsertKeepsInv(s, NewRequest(s, actor, input).value);
      }
    case DoResubmit(actor, id, answer) =>
      if Resubmit(s, actor, id, answer).Ok? {
        RevisedIsSound(s.world, s.requests[id], answer);
        UpdateKeepsInv(s, id, Revised(s.world, s.requests[id], answer).value, Resubmitted);
      }
    case DoWithdraw(actor, id) =>
      if Withdraw(s, actor, id).Ok? {
        MoveKeepsInv(s, id, Withdrawn, WithdrawnAction);
      }
    case DoDecide(id, d) =>
      if Decide(s, id, d).Ok? {
        match d
        case Verify => MoveKeepsInv(s, id, Verified, VerifiedAction);
        case Pass => MoveKeepsInv(s, id, Verified, AdvancedAction);
        case Return => MoveKeepsInv(s, id, Returned, ReturnedAction);
        case Reject => MoveKeepsInv(s, id, Rejected, RejectedAction);
        case Approve => ApproveKeepsInv(s, id);
      }
    case WorldChanges(w) => WorldKeepsInv(s, w);
  }

  /** The invariant does not depend on the roster, the pins, the months or the accounts. */
  lemma WorldKeepsInv(s: State, w: World)
    requires Inv(s)
    ensures Inv(s.(world := w))
  {
  }

  lemma MoveKeepsInv(s: State, id: nat, to: Status, action: EventAction)
    requires Inv(s) && id < |s.requests| && Locking(s.requests[id].status) && !action.Resubmitted?
    ensures Inv(Moved(s, id, to, action))
  {
    hide Timed, ChainOf, Undrifted;
    assert Sound(s.requests[id]);
    UpdateKeepsInv(s, id, s.requests[id].(status := to), action);
  }

  lemma ImportedIsInv(s: State)
    requires Imported(s)
    ensures Inv(s)
  {
  }

  /** Everything the invariant says holds after any run that starts from an import. */
  lemma {:induction false} RunKeepsInv(s: State, actions: seq<Action>)
    requires Inv(s)
    ensures Inv(Run(s, actions))
  {
    if actions != [] {
      RunKeepsInv(s, actions[..|actions| - 1]);
      StepKeepsInv(Run(s, actions[..|actions| - 1]), actions[|actions| - 1]);
    }
  }
}
