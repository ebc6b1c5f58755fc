/**
 * Raising, resubmitting, withdrawing and deciding corrections, as steps on one shared state
 * (src/lib/corrections/service.ts, src/lib/corrections/schemas.ts).
 */
module Corrections {
  import opened Wrappers
  import opened Normalize
  import opened TeamScope
  import opened Records
  import opened Premiums
  import opened Calendar
  import Text

  // ----- requests and their timeline -----

  datatype Direction = ClaimIn | TransferOut

  datatype Status = Pending | Verified | Returned | Approved | Rejected | Withdrawn

  /** The statuses that hold a field locked. */
  predicate Locking(s: Status) {
    s.Pending? || s.Verified? || s.Returned?
  }

  /** The narrower set a submitter may still withdraw from. */
  predicate Withdrawable(s: Status) {
    s.Pending? || s.Returned?
  }

  datatype Request = Request(
    recordId: nat, appsNo: string, category: Category, direction: Option<Direction>, fieldName: FieldName,
    original: Option<string>, proposed: string, description: Option<string>, submittedBy: string, smId: string,
    status: Status, periodId: Option<string>, resubmissions: nat, appliedVersion: Option<nat>,
    counterparty: Option<string>)

  datatype EventAction = Submitted | Resubmitted | VerifiedAction | AdvancedAction | ReturnedAction | RejectedAction | ApprovedAction | WithdrawnAction

  datatype Event = Event(requestId: nat, action: EventAction, from: Option<Status>, to: Status)

  /** Every table the steps touch. Row numbers are the keys of records and requests. */
  datatype State = State(
    records: seq<Record>, versions: seq<seq<Version>>, requests: seq<Request>, events: seq<Event>, world: World)

  datatype Failure =
    | NoBooks | Unparsed | NoIdentifier | NotFound | Ambiguous | OutsideBooks | NotYourRep | AlreadyThere
    | SameOwner | PlaceholderTarget | UnrosteredTarget | BadValue | Unchanged | PeriodClosed | ProofsRefused
    | SlotTaken | NoChain | NotYours | WrongStatus | RecordMissing | NotAppliable(error: ApplyError)

  // ----- parsing a submission -----

  /** `category` is absent when the form sent something that is none; `proofsStored` and `chainOpens` are the outside world. */
  datatype Input = Input(
    category: Option<Category>, direction: Option<Direction>, appsNo: string, proposedValue: string,
    description: Option<string>, fieldName: FieldName, proofsStored: bool, chainOpens: bool)

  datatype Submission = Submission(
    category: Category, direction: Option<Direction>, appsNo: string, proposed: string, description: Option<string>,
    field: Field)

  const DESCRIPTION_MAX := 2000
  const ISSUED_DATE_MIN := "1990-01-01"
  const APPS_NO_MAX := 64

  predicate OthersForbidden(f: Field) {
    f.AppsNo? || f.SmId?
  }

  /** `normalizeProposedValue`. */
  function ProposedValue(f: Field, raw: string): Normalized {
    if f.SmId? then Normalized(NormalizeSmId(raw), false)
    else match KindOf(f)
      case Identifier => NormalizeIdentifier(raw)
      case Date => NormalizeDate(raw)
      case Money => NormalizeMoney(raw)
      case AutopayKind => Normalized(NormalizeAutopay(raw), false)
      case StatusKind => Normalized(NormalizeStatus(raw), false)
      case PlainText => Normalized(NormalizeText(raw), false)
  }

  /** Which fields are codes, identifiers, dates, amounts, statuses, autopay or text, when proposed and again when applied. */
  lemma FieldsExactly(f: Field, raw: string)
    ensures f.SmId? ==> ProposedValue(f, raw) == CoerceKind(f, raw) == Normalized(NormalizeSmId(raw), false)
    ensures f.LoginDate? || f.IssuedDate? ==> ProposedValue(f, raw) == CoerceKind(f, raw) == NormalizeDate(raw)
    ensures f.Fp? || f.Anp? ==> ProposedValue(f, raw) == CoerceKind(f, raw) == NormalizeMoney(raw)
    ensures f.StatusText? || f.Status2? ==>
              ProposedValue(f, raw) == CoerceKind(f, raw) == Normalized(NormalizeStatus(raw), false)
    ensures f.Autopay? ==> ProposedValue(f, raw) == CoerceKind(f, raw) == Normalized(NormalizeAutopay(raw), false)
    ensures f.AppsNo? || f.PolicyNo? || f.AgentId? ==>
              ProposedValue(f, raw) == NormalizeIdentifier(raw) && CoerceKind(f, raw) == Normalized(NormalizeText(raw), false)
    ensures f.ClientName? || f.LeadId? || f.SmName? || f.TlId? || f.TlName? || f.CcmId? || f.CcmName? || f.Location?
            || f.ProductName? || f.ProductType? || f.ProductVariant? || f.BookingFrequency? || f.PayMode? || f.SourceChannel? ==>
              ProposedValue(f, raw) == CoerceKind(f, raw) == Normalized(NormalizeText(raw), false)
    ensures CoerceValue(f, raw).Err? <==>
              CoerceKind(f, raw).error || (CoerceKind(f, raw).value.None? && (f.AppsNo? || f.SmId?))
  {
    hide NormalizeSmId, NormalizeIdentifier, NormalizeDate, NormalizeMoney, NormalizeStatus, NormalizeAutopay, NormalizeText;
  }

  function OrEmpty(v: Option<string>): string {
    if v.Some? then v.value else ""
  }

  predicate Acceptable(n: Normalized) {
    n.value.Some? && !n.error
  }

  /** What each branch of the form stores as its proposed value; empty when the branch refuses it. `latestIssue` is a day past today. */
  function BranchValue(latestIssue: string, c: Category, raw: string): string {
    match c
    case AutopayCategory =>
      var v := OrEmpty(NormalizeAutopay(Trim(raw)));
      if v == "Yes" || v == "No" then v else ""
    case Mapping => OrEmpty(NormalizeSmId(Trim(raw)))
    case IssuanceDate =>
      var v := OrEmpty(NormalizeDate(Trim(raw)).value);
      if v != "" && Text.AtMost(ISSUED_DATE_MIN, v) && Text.AtMost(v, latestIssue) then v else ""
    case AgentIdCategory =>
      if |Trim(raw)| <= APPS_NO_MAX then OrEmpty(NormalizeIdentifier(Trim(raw)).value) else ""
    case Others => Trim(raw)
    case BauToBfl => ""
  }

  function Parse(latestIssue: string, input: Input): Option<Submission> {
    var appsNo := Trim(input.appsNo);
    var description := if input.description.Some? then Trim(input.description.value) else "";
    if input.category.None? || !(1 <= |appsNo| <= APPS_NO_MAX) || |description| > DESCRIPTION_MAX then None
    else
      var c := input.category.value;
      var proposed := BranchValue(latestIssue, c, input.proposedValue);
      var note := if description == "" then None else Some(description);
      if proposed == "" then None
      else if c.Others? then
        if input.fieldName.Unregistered? || OthersForbidden(input.fieldName.field) || note.None?
           || !Acceptable(ProposedValue(input.fieldName.field, proposed))
        then None
        else Some(Submission(c, None, appsNo, proposed, note, input.fieldName.field))
      else if c.Mapping? && input.direction.None? then None
      else Some(Submission(c, if c.Mapping? then input.direction else None, appsNo, proposed, note, PinnedField(c).value))
  }

  // ----- finding the record -----

  predicate Matches(r: Record, f: Field, text: string, within: Option<set<string>>) {
    r.Get(f) == Some(text) && (within.Some? ==> r.values[SmId] in within.value)
  }

  /** The first record that matches, or the number of records. */
  function FindRecord(records: seq<Record>, f: Field, text: string, within: Option<set<string>>): (i: nat)
    ensures i <= |records|
    ensures forall j :: 0 <= j < i ==> !Matches(records[j], f, text, within)
    ensures i < |records| ==> Matches(records[i], f, text, within)
  {
    if records == [] || Matches(records[0], f, text, within) then 0
    else 1 + FindRecord(records[1..], f, text, within)
  }

  /** Application number first; a policy number only when it names exactly one record in the books. */
  function ResolveOwnRecord(records: seq<Record>, smIds: set<string>, identifier: string): (r: Result<nat, Failure>)
    ensures r.Ok? ==> r.value < |records| && records[r.value].values[SmId] in smIds
  {
    var byAppsNo := FindRecord(records, AppsNo, identifier, Some(smIds));
    if byAppsNo < |records| then Ok(byAppsNo)
    else
      var first := FindRecord(records, PolicyNo, identifier, Some(smIds));
      if first == |records| then Err(NotFound)
      else if FindRecord(records[first + 1..], PolicyNo, identifier, Some(smIds)) < |records| - first - 1
      then Err(Ambiguous)
      else Ok(first)
  }

  /** An identifier finds the record whose application number it is, or the only one whose policy number it is. */
  lemma ResolvesExactly(records: seq<Record>, smIds: set<string>, identifier: string)
    ensures var r := ResolveOwnRecord(records, smIds, identifier);
            var within := Some(smIds);
            && (r.Ok? ==>
                  || Matches(records[r.value], AppsNo, identifier, within)
                  || (Matches(records[r.value], PolicyNo, identifier, within)
                      && forall j :: 0 <= j < |records| && j != r.value ==> !Matches(records[j], PolicyNo, identifier, within)))
            && (r.Err? ==> forall j :: 0 <= j < |records| ==> !Matches(records[j], AppsNo, identifier, within))
            && (r == Err(NotFound) ==> forall j :: 0 <= j < |records| ==> !Matches(records[j], PolicyNo, identifier, within))
            && (r.Err? && r.error != NotFound ==>
                  exists i, j :: 0 <= i < j < |records| && Matches(records[i], PolicyNo, identifier, within)
                              && Matches(records[j], PolicyNo, identifier, within))
  {
    hide Matches;
    var first := FindRecord(records, PolicyNo, identifier, Some(smIds));
    if first < |records| {
      var rest := records[first + 1..];
      var second := FindRecord(rest, PolicyNo, identifier, Some(smIds));
      forall j | first < j < |records| ensures records[j] == rest[j - first - 1] {
      }
    }
  }

  function ResolveRecord(s: State, books: Books, direction: Option<Direction>, identifier: string): (r: Result<nat, Failure>)
    ensures r.Ok? ==> r.value < |s.records|
    ensures r.Ok? && direction == Some(TransferOut) ==> s.records[r.value].values[SmId] in books.smIds
  {
    if direction == Some(TransferOut) then ResolveOwnRecord(s.records, books.smIds, identifier)
    else
      var i := FindRecord(s.records, AppsNo, identifier, None);
      if i == |s.records| then Err(NotFound) else Ok(i)
  }

  predicate IsPlaceholder(code: string) {
    code != "" && Text.Upper(Trim(code)) in PLACEHOLDERS
  }

  /** Why a transfer to `target` is refused, if it is. */
  function CheckTransferTarget(w: World, target: string, current: string): Option<Failure> {
    if target == current then Some(SameOwner)
    else if IsPlaceholder(target) then Some(PlaceholderTarget)
    else if target !in w.roster then Some(UnrosteredTarget)
    else None
  }

  // ----- the one-open-per-field index -----

  /** Another open request already holds the field of this record. */
  predicate SlotHeld(requests: seq<Request>, recordId: nat, name: FieldName, except: nat) {
    exists i :: 0 <= i < |requests| && i != except && Locking(requests[i].status)
             && requests[i].recordId == recordId && requests[i].fieldName == name
  }

  predicate PeriodIsClosed(w: World, periodId: Option<string>) {
    Present(periodId) && periodId.value in w.closedPeriods
  }

  // ----- submit -----

  /** The ownership rule of each kind of request. */
  function CheckOwnership(w: World, books: Books, direction: Option<Direction>, proposed: string, owner: string): Option<Failure> {
    match direction
    case Some(ClaimIn) =>
      if proposed !in books.smIds then Some(NotYourRep)
      else if owner == proposed then Some(AlreadyThere)
      else None
    case Some(TransferOut) => CheckTransferTarget(w, proposed, owner)
    case None => if owner !in books.smIds then Some(OutsideBooks) else None
  }

  /** The row a submission inserts, or the reason it inserts none. */
  function NewRequest(s: State, actor: User, input: Input): Result<Request, Failure> {
    var scope := ActorBooks(s.world, actor);
    if scope.None? then Err(NoBooks) else
    var parsed := Parse(s.world.latestIssue, input);
    if parsed.None? then Err(Unparsed) else
    var sub := parsed.value;
    var identifier := OrEmpty(NormalizeIdentifier(sub.appsNo).value);
    if identifier == "" then Err(NoIdentifier) else
    var found := ResolveRecord(s, scope.value, sub.direction, identifier);
    if found.Err? then Err(found.error) else
    var record := s.records[found.value];
    var owner := record.values[SmId];
    var refused := CheckOwnership(s.world, scope.value, sub.direction, sub.proposed, owner);
    if refused.Some? then Err(refused.value) else
    var proposed := ProposedValue(sub.field, sub.proposed);
    if !Acceptable(proposed) then Err(BadValue) else
    var original := SnapshotOriginal(record, sub.field);
    if original == proposed.value then Err(Unchanged)
    else if PeriodIsClosed(s.world, record.periodId) then Err(PeriodClosed)
    else if !input.proofsStored then Err(ProofsRefused)
    else Ok(Request(
      found.value, record.values[AppsNo], sub.category, sub.direction, Known(sub.field), original,
      proposed.value.value, sub.description, actor.id,
      if sub.direction == Some(ClaimIn) then sub.proposed else owner,
      Pending, record.periodId, 0, None,
      match sub.direction
      case None => None
      case Some(ClaimIn) => Some(owner)
      case Some(TransferOut) => proposed.value))
  }

  function Submit(s: State, actor: User, input: Input): Result<State, Failure> {
    var row := NewRequest(s, actor, input);
    if row.Err? then Err(row.error)
    else if SlotHeld(s.requests, row.value.recordId, row.value.fieldName, |s.requests|) then Err(SlotTaken)
    else if !input.chainOpens then Err(NoChain)
    else Ok(s.(requests := s.requests + [row.value],
               events := s.events + [Event(|s.requests|, Submitted, None, Pending)]))
  }

  // ----- resubmit -----

  datatype Answer = Answer(proposedValue: string, description: Option<string>, proofsStored: bool)

  predicate Owns(s: State, actor: User, id: nat) {
    id < |s.requests| && s.requests[id].submittedBy == actor.id
  }

  function SetRequest(s: State, id: nat, r: Request): State
    requires id < |s.requests|
  {
    s.(requests := s.requests[id := r])
  }

  /** The stored category, direction, application number and field, with the answer's value and description. */
  function AnswerAsInput(existing: Request, answer: Answer): Input {
    Input(Some(existing.category), existing.direction, existing.appsNo, answer.proposedValue, answer.description,
          existing.fieldName, answer.proofsStored, true)
  }

  /** The proposed value and description an answer puts on its request. */
  function Revised(w: World, existing: Request, answer: Answer): Result<Request, Failure> {
    var parsed := Parse(w.latestIssue, AnswerAsInput(existing, answer));
    if parsed.None? then Err(Unparsed)
    else
      var proposed := if existing.fieldName.Known? then ProposedValue(existing.fieldName.field, parsed.value.proposed)
                      else Normalized(None, true);
      if !Acceptable(proposed) then Err(BadValue)
      else
        var v := proposed.value.value;
        if existing.direction == Some(ClaimIn) && v != existing.smId then Err(NotYourRep)
        else if existing.direction == Some(TransferOut) && CheckTransferTarget(w, v, existing.smId).Some? then
          Err(CheckTransferTarget(w, v, existing.smId).value)
        else if !answer.proofsStored then Err(ProofsRefused)
        else Ok(existing.(status := Pending, proposed := v, description := parsed.value.description,
                          resubmissions := existing.resubmissions + 1))
  }

  function Resubmit(s: State, actor: User, id: nat, answer: Answer): Result<State, Failure> {
    if ActorBooks(s.world, actor).None? then Err(NoBooks)
    else if !Owns(s, actor, id) then Err(NotYours)
    else if !s.requests[id].status.Returned? then Err(WrongStatus)
    else
      var row := Revised(s.world, s.requests[id], answer);
      if row.Err? then Err(row.error)
      else if SlotHeld(s.requests, row.value.recordId, row.value.fieldName, id) then Err(SlotTaken)
      else Ok(SetRequest(s, id, row.value).(events := s.events + [Event(id, Resubmitted, Some(Returned), Pending)]))
  }

  // ----- withdraw -----

  function Withdraw(s: State, actor: User, id: nat): Result<State, Failure> {
    if !Owns(s, actor, id) then Err(NotYours)
    else if !Withdrawable(s.requests[id].status) then Err(WrongStatus)
    else
      var from := s.requests[id].status;
      Ok(SetRequest(s, id, s.requests[id].(status := Withdrawn))
           .(events := s.events + [Event(id, WithdrawnAction, Some(from), Withdrawn)]))
  }

  // ----- decide -----

  /** What a decision does to a request: pass it on, as a verifier or as somebody else, send it back, refuse it, or apply it. */
  datatype Decision = Verify | Pass | Return | Reject | Approve

  datatype Outcome = Outcome(state: State, warnings: seq<Warning>)

  /** A decision that leaves the record alone. */
  function Moved(s: State, id: nat, to: Status, action: EventAction): State
    requires id < |s.requests|
  {
    SetRequest(s, id, s.requests[id].(status := to))
      .(events := s.events + [Event(id, action, Some(s.requests[id].status), to)])
  }

  /** An approval: the record, its version row, the request and the event, in one transaction. */
  function ApprovedState(s: State, id: nat, a: Application): State
    requires id < |s.requests| && s.requests[id].recordId < |s.records| == |s.versions|
  {
    var r := s.requests[id];
    State(
      s.records[r.recordId := a.record],
      s.versions[r.recordId := s.versions[r.recordId] + [a.version]],
      s.requests[id := r.(status := Approved, appliedVersion := Some(a.version.version))],
      s.events + [Event(id, ApprovedAction, Some(r.status), Approved)],
      s.world)
  }

  function ApplyRequest(s: State, id: nat): Result<Application, ApplyError>
    requires id < |s.requests| && s.requests[id].recordId < |s.records|
  {
    var r := s.requests[id];
    Apply(s.world, s.records[r.recordId], r.category, r.fieldName, r.proposed, id)
  }

  function Decide(s: State, id: nat, d: Decision): Result<Outcome, Failure> {
    if id >= |s.requests| then Err(NotFound)
    else if !s.requests[id].status.Pending? && !s.requests[id].status.Verified? then Err(WrongStatus)
    else match d
      case Verify => Ok(Outcome(Moved(s, id, Verified, VerifiedAction), []))
      case Pass => Ok(Outcome(Moved(s, id, Verified, AdvancedAction), []))
      case Return => Ok(Outcome(Moved(s, id, Returned, ReturnedAction), []))
      case Reject => Ok(Outcome(Moved(s, id, Rejected, RejectedAction), []))
      case Approve =>
        if s.requests[id].recordId >= |s.records| || |s.records| != |s.versions| then Err(RecordMissing)
        else
          var a := ApplyRequest(s, id);
          if a.Err? then Err(NotAppliable(a.error)) else Ok(Outcome(ApprovedState(s, id, a.value), a.value.warnings))
  }

  // ----- runs -----

  datatype Action =
    | DoSubmit(actor: User, input: Input)
    | DoResubmit(actor: User, id: nat, answer: Answer)
    | DoWithdraw(actor: User, id: nat)
    | DoDecide(id: nat, decision: Decision)
    | WorldChanges(world: World)

  /** A refused action changes nothing; the roster, the pins, the months and the accounts may change at any time. */
  function Step(s: State, a: Action): State {
    match a
    case DoSubmit(actor, input) => var r := Submit(s, actor, input); if r.Ok? then r.value else s
    case DoResubmit(actor, id, answer) => var r := Resubmit(s, actor, id, answer); if r.Ok? then r.value else s
    case DoWithdraw(actor, id) => var r := Withdraw(s, actor, id); if r.Ok? then r.value else s
    case DoDecide(id, d) => var r := Decide(s, id, d); if r.Ok? then r.value.state else s
    case WorldChanges(w) => s.(world := w)
  }

  function Run(s: State, actions: seq<Action>): State {
    if actions == [] then s else Step(Run(s, actions[..|actions| - 1]), actions[|actions| - 1])
  }

  /** Records as an import leaves them: version 1 is the row itself, and nothing has been raised yet. */
  ghost predicate Imported(s: State) {
    && s.requests == [] && s.events == []
    && |s.versions| == |s.records|
    && forall i :: 0 <= i < |s.records| ==>
         && s.records[i].currentVersion == 1
         && |s.versions[i]| == 1
         && s.versions[i][0].version == 1
         && s.versions[i][0].data == s.records[i]
  }
}
