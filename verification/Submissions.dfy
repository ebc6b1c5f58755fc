/** Which submissions are accepted, on which record they are filed, and what every later step leaves behind (src/lib/corrections/service.ts). */
module Submissions {
  import opened Wrappers
  import opened Normalize
  import opened TeamScope
  import opened Records
  import opened Calendar
  import opened Corrections
  import opened CorrectionRuns
  import Text

  // ----- the record that was named -----

  /** The number that was typed, as the portal writes numbers. */
  function Typed(input: Input): Option<string> {
    NormalizeIdentifier(Trim(input.appsNo)).value
  }

  /** The submission moves a sale out of the submitter's books. */
  predicate MovesOut(input: Input) {
    input.category == Some(Mapping) && input.direction == Some(TransferOut)
  }

  predicate MovesIn(input: Input) {
    input.category == Some(Mapping) && input.direction == Some(ClaimIn)
  }

  predicate Has(s: State, k: nat, f: Field, text: string) {
    k < |s.records| && s.records[k].Get(f) == Some(text)
  }

  predicate HasInBooks(s: State, smIds: set<string>, k: nat, f: Field, text: string) {
    Has(s, k, f, text) && s.records[k].values[SmId] in smIds
  }

  /**
   * The record of that application number; for a transfer out the one in the books, or else the only one in the books
   * with that policy number.
   */
  ghost predicate NamesRecord(s: State, smIds: set<string>, out: bool, text: string, k: nat) {
    if !out then Has(s, k, AppsNo, text) && forall j :: 0 <= j < k ==> !Has(s, j, AppsNo, text)
    else if exists j :: HasInBooks(s, smIds, j, AppsNo, text) then
      HasInBooks(s, smIds, k, AppsNo, text) && forall j :: 0 <= j < k ==> !HasInBooks(s, smIds, j, AppsNo, text)
    else HasInBooks(s, smIds, k, PolicyNo, text) && forall j :: HasInBooks(s, smIds, j, PolicyNo, text) ==> j == k
  }

  lemma ResolvedExactly(s: State, books: Books, direction: Option<Direction>, text: string)
    ensures var r, out := ResolveRecord(s, books, direction, text), direction == Some(TransferOut);
            && (forall k: nat :: r == Ok(k) <==> NamesRecord(s, books.smIds, out, text, k))
            && (r == Err(NotFound) <==>
                if !out then forall j: nat :: !Has(s, j, AppsNo, text)
                else forall j: nat :: !HasInBooks(s, books.smIds, j, AppsNo, text) && !HasInBooks(s, books.smIds, j, PolicyNo, text))
            && (r == Err(Ambiguous) <==>
                && out && (forall j: nat :: !HasInBooks(s, books.smIds, j, AppsNo, text))
                && exists i, j :: i < j && HasInBooks(s, books.smIds, i, PolicyNo, text) && HasInBooks(s, books.smIds, j, PolicyNo, text))
            && (r.Err? ==> r.error == NotFound || r.error == Ambiguous)
  {
    var r, records := ResolveRecord(s, books, direction, text), s.records;
    if direction == Some(TransferOut) {
      ResolvesExactly(records, books.smIds, text);
      var within := Some(books.smIds);
      forall j: nat, f | j < |records| ensures Matches(records[j], f, text, within) <==> HasInBooks(s, books.smIds, j, f, text) {
      }
    } else {
      forall j: nat | j < |records| ensures Matches(records[j], AppsNo, text, None) <==> Has(s, j, AppsNo, text) {
      }
    }
  }

  // ----- what the form accepts -----

  predicate Pool(code: string) {
    code != "" && (Text.Upper(Trim(code)) == "111222-UN" || Text.Upper(Trim(code)) == "DIY")
  }

  /** What the form reads the value as, category by category; nothing when it does not take it. */
  function ReadValue(latestIssue: string, input: Input): Option<string>
    requires input.category.Some?
  {
    var raw := Trim(input.proposedValue);
    match input.category.value
    case Mapping => if input.direction.Some? then NormalizeSmId(raw) else None
    case AutopayCategory =>
      if NormalizeAutopay(raw) == Some("Yes") || NormalizeAutopay(raw) == Some("No") then NormalizeAutopay(raw) else None
    case IssuanceDate =>
      var day := NormalizeDate(raw).value;
      if day.Some? && Text.AtMost("1990-01-01", day.value) && Text.AtMost(day.value, latestIssue) then day else None
    case AgentIdCategory => if |raw| <= 64 then NormalizeIdentifier(raw).value else None
    case BauToBfl => None
    case Others =>
      if input.fieldName.Known? && input.fieldName.field != AppsNo && input.fieldName.field != SmId
         && input.description.Some? && Trim(input.description.value) != ""
         && Acceptable(ProposedValue(input.fieldName.field, raw))
      then Some(raw) else None
  }

  /** The field each category is about. */
  function FieldOf(input: Input): Option<Field>
    requires input.category.Some?
  {
    match input.category.value
    case Mapping => Some(SmId)
    case AutopayCategory => Some(Autopay)
    case IssuanceDate => Some(IssuedDate)
    case AgentIdCategory => Some(AgentId)
    case BauToBfl => Some(SourceChannel)
    case Others => if input.fieldName.Known? then Some(input.fieldName.field) else None
  }

  lemma ParsedExactly(latestIssue: string, input: Input)
    ensures Parse(latestIssue, input).Some? <==>
              && input.category.Some? && 1 <= |Trim(input.appsNo)| <= 64
              && (input.description.Some? ==> |Trim(input.description.value)| <= 2000)
              && ReadValue(latestIssue, input).Some? && ReadValue(latestIssue, input) != Some("")
    ensures Parse(latestIssue, input).Some? ==>
              var sub := Parse(latestIssue, input).value;
              && input.category == Some(sub.category) && FieldOf(input) == Some(sub.field)
              && ReadValue(latestIssue, input) == Some(sub.proposed) && sub.appsNo == Trim(input.appsNo)
              && sub.direction == (if MovesOut(input) then Some(TransferOut) else if MovesIn(input) then Some(ClaimIn) else None)
              && sub.description == (if input.description.Some? && Trim(input.description.value) != ""
                                     then Some(Trim(input.description.value)) else None)
  {
    hide Trim, NormalizeSmId, NormalizeAutopay, NormalizeDate, NormalizeIdentifier, Text.AtMost, ProposedValue;
    if input.direction.Some? {
      assert input.direction == Some(ClaimIn) || input.direction == Some(TransferOut) by {
        match input.direction.value {
          case ClaimIn =>
          case TransferOut =>
        }
      }
    }
  }

  // ----- what is accepted -----

  /** An open request, one that is PENDING, VERIFIED or RETURNED, is on the record's field. */
  predicate Taken(s: State, k: nat, f: Field) {
    exists i :: 0 <= i < |s.requests| && s.requests[i].recordId == k && s.requests[i].fieldName == Known(f)
             && (s.requests[i].status == Pending || s.requests[i].status == Verified || s.requests[i].status == Returned)
  }

  /** The rule each kind of submission follows about whose record it is. */
  predicate InPlace(s: State, smIds: set<string>, input: Input, owner: string, value: string) {
    if MovesIn(input) then value in smIds && owner != value
    else if MovesOut(input) then value != owner && !Pool(value) && value in s.world.roster
    else owner in smIds
  }

  predicate MonthIsOpen(w: World, periodId: Option<string>) {
    periodId == None || periodId == Some("") || periodId.value !in w.closedPeriods
  }

  /** What the record's field holds, an empty text counting as nothing. */
  function Held(r: Record, f: Field): Option<string> {
    if f in r.values && r.values[f] != "" then Some(r.values[f]) else None
  }

  /** Everything a submission on record `k` has to meet. */
  ghost predicate Meets(s: State, actor: User, input: Input, k: nat) {
    && ActorBooks(s.world, actor).Some?
    && Parse(s.world.latestIssue, input).Some? && input.category.Some? && FieldOf(input).Some?
    && ReadValue(s.world.latestIssue, input).Some?
    && Typed(input).Some? && Typed(input) != Some("")
    && var smIds, f := ActorBooks(s.world, actor).value.smIds, FieldOf(input).value;
       var read := ReadValue(s.world.latestIssue, input).value;
       var v := ProposedValue(f, read);
       && NamesRecord(s, smIds, MovesOut(input), Typed(input).value, k) && k < |s.records|
       && InPlace(s, smIds, input, s.records[k].values[SmId], read)
       && v.value.Some? && !v.error && v.value != Held(s.records[k], f)
       && MonthIsOpen(s.world, s.records[k].periodId)
       && input.proofsStored && input.chainOpens && !Taken(s, k, f)
  }

  /** The row that is filed: the record's own number and month, the submitter, and whose books it is in. */
  ghost predicate FiledOn(s: State, actor: User, input: Input, k: nat, r: Request)
    requires Meets(s, actor, input, k)
  {
    var owner, f := s.records[k].values[SmId], FieldOf(input).value;
    var read := ReadValue(s.world.latestIssue, input).value;
    && r.recordId == k && r.appsNo == s.records[k].values[AppsNo] && r.periodId == s.records[k].periodId
    && r.submittedBy == actor.id && r.status == Pending && r.resubmissions == 0 && r.appliedVersion == None
    && Some(r.category) == input.category && r.fieldName == Known(f)
    && r.direction == (if MovesOut(input) then Some(TransferOut) else if MovesIn(input) then Some(ClaimIn) else None)
    && r.original == Held(s.records[k], f) && Some(r.proposed) == ProposedValue(f, read).value
    && r.smId == (if MovesIn(input) then read else owner)
    && r.counterparty == (if MovesIn(input) then Some(owner) else if MovesOut(input) then Some(r.proposed) else None)
  }

  lemma HeldIsSnapshot(r: Record, f: Field)
    ensures Held(r, f) == SnapshotOriginal(r, f)
  {
  }

  lemma SlotHeldExactly(s: State, k: nat, f: Field)
    ensures SlotHeld(s.requests, k, Known(f), |s.requests|) <==> Taken(s, k, f)
  {
  }

  lemma OwnershipExactly(s: State, books: Books, input: Input, direction: Option<Direction>, value: string, owner: string)
    requires direction == if MovesOut(input) then Some(TransferOut) else if MovesIn(input) then Some(ClaimIn) else None
    ensures CheckOwnership(s.world, books, direction, value, owner).None? <==> InPlace(s, books.smIds, input, owner, value)
  {
    hide Trim;
  }

  /** A submission is accepted exactly when it meets all of that on some record, and is filed on that one. */
  lemma AcceptedExactly(s: State, actor: User, input: Input)
    ensures Submit(s, actor, input).Ok? <==> exists k: nat :: Meets(s, actor, input, k)
    ensures forall k: nat :: Meets(s, actor, input, k) ==>
              && Submit(s, actor, input).Ok?
              && var t := Submit(s, actor, input).value;
                 && |t.requests| == |s.requests| + 1 && t.requests[..|s.requests|] == s.requests
                 && FiledOn(s, actor, input, k, t.requests[|s.requests|])
                 && t.events == s.events + [Event(|s.requests|, Submitted, None, Pending)]
                 && t.records == s.records && t.versions == s.versions && t.world == s.world
  {
    hide ActorBooks, Parse, ReadValue, FieldOf, ResolveRecord, NamesRecord, CheckOwnership, InPlace, ProposedValue, SlotHeld,
         Taken, Trim, NormalizeIdentifier, Text.AtMost;
    ParsedExactly(s.world.latestIssue, input);
    if Parse(s.world.latestIssue, input).Some? && ActorBooks(s.world, actor).Some? && Typed(input).Some? {
      var sub, books := Parse(s.world.latestIssue, input).value, ActorBooks(s.world, actor).value;
      ResolvedExactly(s, books, sub.direction, Typed(input).value);
      var found := ResolveRecord(s, books, sub.direction, Typed(input).value);
      if found.Ok? {
        OwnershipExactly(s, books, input, sub.direction, sub.proposed, s.records[found.value].values[SmId]);
        SlotHeldExactly(s, found.value, sub.field);
        HeldIsSnapshot(s.records[found.value], sub.field);
        if Submit(s, actor, input).Ok? {
          assert Meets(s, actor, input, found.value);
        }
      }
    }
  }

  /** `NotFound` is the answer exactly when the number is no record's, or for a transfer out no record's in the books. */
  lemma NotFoundExactly(s: State, actor: User, input: Input)
    ensures Submit(s, actor, input) == Err(NotFound) <==>
              && ActorBooks(s.world, actor).Some? && Parse(s.world.latestIssue, input).Some?
              && Typed(input).Some? && Typed(input) != Some("")
              && var smIds, number := ActorBooks(s.world, actor).value.smIds, Typed(input).value;
                 forall j :: 0 <= j < |s.records| ==>
                   if MovesOut(input) then
                     s.records[j].values[SmId] in smIds ==>
                       s.records[j].Get(AppsNo) != Some(number) && s.records[j].Get(PolicyNo) != Some(number)
                   else s.records[j].Get(AppsNo) != Some(number)
  {
    hide ActorBooks, Parse, ResolveRecord, CheckOwnership, ProposedValue, SlotHeld, Trim, NormalizeIdentifier;
    ParsedExactly(s.world.latestIssue, input);
    if Parse(s.world.latestIssue, input).Some? && ActorBooks(s.world, actor).Some? && Typed(input).Some? {
      var sub, books := Parse(s.world.latestIssue, input).value, ActorBooks(s.world, actor).value;
      ResolvedExactly(s, books, sub.direction, Typed(input).value);
      forall j: nat | j < |s.records|
        ensures Has(s, j, AppsNo, Typed(input).value) <==> s.records[j].Get(AppsNo) == Some(Typed(input).value)
        ensures HasInBooks(s, books.smIds, j, PolicyNo, Typed(input).value) <==>
                s.records[j].values[SmId] in books.smIds && s.records[j].Get(PolicyNo) == Some(Typed(input).value)
      {
      }
      OwnershipIsNotMissing(s, books, sub.direction, sub.proposed);
    }
  }

  lemma OwnershipIsNotMissing(s: State, books: Books, direction: Option<Direction>, value: string)
    ensures forall owner :: CheckOwnership(s.world, books, direction, value, owner) != Some(NotFound)
  {
    hide IsPlaceholder;
  }

  /** The record a submission is filed on has the number that was typed; a transfer out may name it by its policy number instead. */
  lemma FiledOnTypedNumber(s: State, actor: User, input: Input)
    ensures Submit(s, actor, input).Ok? ==>
              && |Submit(s, actor, input).value.requests| == |s.requests| + 1
              && var r, typed := Submit(s, actor, input).value.requests[|s.requests|], Typed(input);
                 && typed.Some? && r.recordId < |s.records| && r.appsNo == s.records[r.recordId].values[AppsNo]
                 && (!MovesOut(input) ==> r.appsNo == typed.value)
                 && (MovesOut(input) ==>
                       && ActorBooks(s.world, actor).Some? && s.records[r.recordId].values[SmId] in ActorBooks(s.world, actor).value.smIds
                       && (|| r.appsNo == typed.value
                           || (&& s.records[r.recordId].Get(PolicyNo) == typed
                               && forall j :: 0 <= j < |s.records| && j != r.recordId ==>
                                    s.records[j].values[SmId] in ActorBooks(s.world, actor).value.smIds ==>
                                      s.records[j].Get(AppsNo) != typed && s.records[j].Get(PolicyNo) != typed)))
  {
    hide ActorBooks, Parse, ReadValue, FieldOf, InPlace, ProposedValue, Taken, Typed;
    AcceptedExactly(s, actor, input);
    if k: nat :| Meets(s, actor, input, k) {
      var smIds, number := ActorBooks(s.world, actor).value.smIds, Typed(input).value;
      assert FiledOn(s, actor, input, k, Submit(s, actor, input).value.requests[|s.requests|]);
      if MovesOut(input) && s.records[k].Get(AppsNo) != Some(number) {
        forall j: nat | j < |s.records| && j != k && s.records[j].values[SmId] in smIds
          ensures s.records[j].Get(AppsNo) != Some(number) && s.records[j].Get(PolicyNo) != Some(number)
        {
          assert !HasInBooks(s, smIds, j, AppsNo, number);
          assert !HasInBooks(s, smIds, j, PolicyNo, number);
        }
      }
    }
  }

  // ----- what the later steps leave -----

  /** Another open request is on the record's field. */
  predicate TakenByAnother(s: State, id: nat)
    requires id < |s.requests|
  {
    exists i :: 0 <= i < |s.requests| && i != id
             && s.requests[i].recordId == s.requests[id].recordId && s.requests[i].fieldName == s.requests[id].fieldName
             && (s.requests[i].status == Pending || s.requests[i].status == Verified || s.requests[i].status == Returned)
  }

  /** What an answer to a returned request has to meet. */
  predicate Answers(s: State, actor: User, id: nat, answer: Answer) {
    && ActorBooks(s.world, actor).Some?
    && id < |s.requests| && s.requests[id].submittedBy == actor.id && s.requests[id].status == Returned
    && Parse(s.world.latestIssue, AnswerAsInput(s.requests[id], answer)).Some?
    && s.requests[id].fieldName.Known?
    && var r, sub := s.requests[id], Parse(s.world.latestIssue, AnswerAsInput(s.requests[id], answer)).value;
       var v := ProposedValue(r.fieldName.field, sub.proposed);
       && v.value.Some? && !v.error
       && (r.direction == Some(ClaimIn) ==> v.value.value == r.smId)
       && (r.direction == Some(TransferOut) ==>
             v.value.value != r.smId && !Pool(v.value.value) && v.value.value in s.world.roster)
       && answer.proofsStored && !TakenByAnother(s, id)
  }

  /** An answer is accepted exactly when it meets that; the request is PENDING again with the new value and note, and nothing else moves. */
  lemma AnsweredExactly(s: State, actor: User, id: nat, answer: Answer)
    ensures Resubmit(s, actor, id, answer).Ok? <==> Answers(s, actor, id, answer)
    ensures Answers(s, actor, id, answer) ==>
              var r, sub := s.requests[id], Parse(s.world.latestIssue, AnswerAsInput(s.requests[id], answer)).value;
              Resubmit(s, actor, id, answer) ==
              Ok(s.(requests := s.requests[id := r.(status := Pending, resubmissions := r.resubmissions + 1,
                                                    proposed := ProposedValue(r.fieldName.field, sub.proposed).value.value,
                                                    description := sub.description)],
                    events := s.events + [Event(id, Resubmitted, Some(Returned), Pending)]))
  {
    hide Parse, ProposedValue, ActorBooks, Trim;
    if Owns(s, actor, id) {
      var r := s.requests[id];
      assert SlotHeld(s.requests, r.recordId, r.fieldName, id) <==> TakenByAnother(s, id);
    }
  }

  /** A submitter takes back their own request while it is PENDING or RETURNED; it is WITHDRAWN, and nothing else moves. */
  lemma WithdrawnExactly(s: State, actor: User, id: nat)
    ensures Withdraw(s, actor, id).Ok? <==>
              && id < |s.requests| && s.requests[id].submittedBy == actor.id
              && (s.requests[id].status == Pending || s.requests[id].status == Returned)
    ensures Withdraw(s, actor, id).Ok? ==>
              Withdraw(s, actor, id).value ==
              s.(requests := s.requests[id := s.requests[id].(status := Withdrawn)],
                 events := s.events + [Event(id, WithdrawnAction, Some(s.requests[id].status), Withdrawn)])
  {
  }

  /** What each decision makes of a request that is due one, and what it writes in its timeline. */
  lemma DecidedExactly(s: State, id: nat, d: Decision)
    ensures id < |s.requests| && (s.requests[id].status == Pending || s.requests[id].status == Verified) && !d.Approve? ==>
              Decide(s, id, d) ==
              var to := if d == Return then Status.Returned else if d == Reject then Status.Rejected else Status.Verified;
              var action := if d == Return then ReturnedAction else if d == Reject then RejectedAction
                            else if d == Verify then VerifiedAction else AdvancedAction;
              Ok(Outcome(s.(requests := s.requests[id := s.requests[id].(status := to)],
                            events := s.events + [Event(id, action, Some(s.requests[id].status), to)]), []))
    ensures Decide(s, id, d).Ok? ==>
              id < |s.requests| && (s.requests[id].status == Pending || s.requests[id].status == Verified)
    ensures Decide(s, id, d).Ok? && d.Approve? ==>
              var k, t := s.requests[id].recordId, Decide(s, id, d).value.state;
              && k < |s.records| == |t.records| == |s.versions| == |t.versions|
              && t.records == s.records[k := t.records[k]] && t.records[k].currentVersion == s.records[k].currentVersion + 1
              && |t.versions[k]| == |s.versions[k]| + 1
              && t.versions == s.versions[k := s.versions[k] + [t.versions[k][|s.versions[k]|]]]
              && t.versions[k][|s.versions[k]|].data == t.records[k] && t.versions[k][|s.versions[k]|].requestId == Some(id)
              && t.requests == s.requests[id := s.requests[id].(status := Approved, appliedVersion := Some(s.records[k].currentVersion + 1))]
              && t.events == s.events + [Event(id, ApprovedAction, Some(s.requests[id].status), Approved)] && t.world == s.world
  {
    hide CoerceValue, ResolveTargetField, ColumnOf, MappingWarnings, RosterName;
    if Decide(s, id, d).Ok? && d.Approve? {
      var a := ApplyRequest(s, id).value;
      assert a.version == Version(s.records[s.requests[id].recordId].currentVersion + 1, a.record, a.version.changedFields, Some(id));
    }
  }
}
