/** What a reader of the portal may rely on in every state a run from an import can reach. */
module CorrectionTheorems {
  import opened Wrappers
  import opened Normalize
  import opened TeamScope
  import opened Records
  import opened Corrections
  import opened CorrectionRuns
  import opened Text
  import opened Premiums
  import opened Calendar
  import Amounts = Money

  /** Some run of submissions, resubmissions, withdrawals and decisions leads from an import to `s`. */
  ghost predicate Reachable(s: State) {
    exists start, actions :: Imported(start) && s == Run(start, actions)
  }

  lemma ReachableInv(s: State)
    requires Reachable(s)
    ensures Inv(s)
  {
    hide Inv, Run;
    var start, actions :| Imported(start) && s == Run(start, actions);
    ImportedIsInv(start);
    RunKeepsInv(start, actions);
  }

  /** The record a request is about. */
  function Subject(s: State, id: nat): Record
    requires id < |s.requests| && s.requests[id].recordId < |s.records|
  {
    s.records[s.requests[id].recordId]
  }

  predicate Open(s: State, id: nat) {
    id < |s.requests| && Locking(s.requests[id].status)
  }

  /** A decision is still due on it. */
  predicate Undecided(s: State, id: nat) {
    id < |s.requests| && (s.requests[id].status.Pending? || s.requests[id].status.Verified?)
  }

  /** The step approves request `id`, and the approval goes through. */
  predicate Approves(s: State, a: Action, id: nat) {
    a == DoDecide(id, Approve) && Decide(s, id, Approve).Ok?
  }

  lemma ApprovalShape(s: State, id: nat)
    requires Inv(s) && Decide(s, id, Approve).Ok?
    ensures Undecided(s, id) && Linked(s) && s.requests[id].recordId < |s.records| && Sound(s.requests[id])
    ensures ApplyRequest(s, id).Ok?
    ensures Decide(s, id, Approve).value.state == ApprovedState(s, id, ApplyRequest(s, id).value)
  {
    hide Sound, Timed, ChainOf, Undrifted, OneOpen, Apply;
  }

  /** A step that approves nothing leaves every record and every version alone. */
  lemma OnlyApprovalsWrite(s: State, a: Action)
    requires forall id: nat :: !Approves(s, a, id)
    ensures Step(s, a).records == s.records && Step(s, a).versions == s.versions
  {
    hide NewRequest, Revised, ActorBooks, ApplyRequest, SlotHeld;
    if a.DoDecide? {
      assert !Approves(s, a, a.id);
    }
  }

  // ----- drift -----

  /** While a request is open, the snapshot it was raised on is still what its record holds. */
  lemma NoDriftWhileOpen(s: State, id: nat)
    requires Reachable(s) && Open(s, id) && s.requests[id].fieldName != Known(SmName)
    ensures Linked(s) && s.requests[id].fieldName.Known?
    ensures s.requests[id].original == SnapshotOriginal(Subject(s, id), s.requests[id].fieldName.field)
  {
    hide Reachable, Timed, ChainOf, OneOpen;
    ReachableInv(s);
    assert Sound(s.requests[id]) && Undrifted(s.records, s.requests[id]);
  }

  /**
   * The live value under an open request changes in a step exactly when the request is on the rep's name and the
   * step approves a mapping of the same record to a code with a different name.
   */
  lemma DriftExactly(s: State, a: Action, id: nat)
    requires Inv(s) && Open(s, id) && Open(Step(s, a), id)
    ensures Linked(s) && s.requests[id].fieldName.Known?
    ensures var t := Step(s, a);
            && |t.records| == |s.records| && t.requests[id].recordId == s.requests[id].recordId
            && (Subject(t, id).Get(s.requests[id].fieldName.field) != Subject(s, id).Get(s.requests[id].fieldName.field)
                <==>
                && s.requests[id].fieldName.field == SmName
                && (exists j: nat ::
                      && Approves(s, a, j) && s.requests[j].category.Mapping?
                      && s.requests[j].recordId == s.requests[id].recordId
                      && RosterName(s.world, s.requests[j].proposed) != Subject(s, id).Get(SmName)))
  {
    hide Timed, ChainOf, Destined, Canonical, Step, Approves;
    var t, r := Step(s, a), s.requests[id];
    assert Sound(r);
    StepKeepsRequests(s, a, id);
    if j: nat :| Approves(s, a, j) {
      ApprovalIs(s, a, j);
      OnlyOneApproved(s, a, j);
      ApplyTouches(s, j);
      if s.requests[j].category.Mapping? {
        MappingApplies(s, j);
      }
      assert j != id;
      assert Sound(s.requests[j]);
      assert r.recordId == s.requests[j].recordId ==> r.fieldName != s.requests[j].fieldName;
    } else {
      OnlyApprovalsWrite(s, a);
    }
  }

  lemma ApprovalIs(s: State, a: Action, j: nat)
    requires Inv(s) && Approves(s, a, j)
    ensures Undecided(s, j) && s.requests[j].recordId < |s.records| && Sound(s.requests[j])
    ensures ApplyRequest(s, j).Ok? && Linked(s)
    ensures Step(s, a) == ApprovedState(s, j, ApplyRequest(s, j).value)
  {
    hide Inv, Sound, Apply, ApplyRequest;
    ApprovalShape(s, j);
  }

  lemma OnlyOneApproved(s: State, a: Action, j: nat)
    requires Approves(s, a, j)
    ensures forall k: nat :: Approves(s, a, k) ==> k == j
  {
  }

  // ----- attribution -----

  /** A mapping's destination is its own normal form, so applying it writes exactly that. */
  lemma MappingApplies(s: State, id: nat)
    requires Inv(s) && id < |s.requests| && s.requests[id].category.Mapping?
    ensures Linked(s) && ApplyRequest(s, id).Ok?
    ensures var a := ApplyRequest(s, id).value;
            && a.field == SmId && a.record.values[SmId] == s.requests[id].proposed
            && a.record.Get(SmName) == RosterName(s.world, s.requests[id].proposed)
  {
    hide Timed, ChainOf, OneOpen, Undrifted, Canonical, NormalizeSmId, MappingWarnings, RosterName, IsPlaceholder;
    assert Sound(s.requests[id]);
  }

  /** Approving a mapping never fails, always changes the owner, and always to the code it named. */
  lemma MappingAlwaysMoves(s: State, id: nat)
    requires Reachable(s) && Undecided(s, id) && s.requests[id].category.Mapping?
    ensures Linked(s) && Decide(s, id, Approve).Ok?
    ensures var t, r := Decide(s, id, Approve).value.state, s.requests[id];
            && Linked(t)
            && Subject(t, id).values[SmId] == r.proposed != Subject(s, id).values[SmId]
            && Subject(t, id).Get(SmName) == RosterName(s.world, r.proposed)
            && (r.direction == Some(ClaimIn) ==> Subject(t, id).values[SmId] == r.smId)
            && (r.direction == Some(TransferOut) ==>
                  r.smId == Subject(s, id).values[SmId] && !IsPlaceholder(Subject(t, id).values[SmId]))
  {
    hide Reachable, Timed, ChainOf, OneOpen, Canonical, Apply, IsPlaceholder;
    ReachableInv(s);
    assert Sound(s.requests[id]) && Undrifted(s.records, s.requests[id]);
    MappingApplies(s, id);
    ProposedIsNotEmpty(s.requests[id]);
  }

  lemma ProposedIsNotEmpty(r: Request)
    requires r.category.Mapping? && Destined(r)
    ensures r.proposed != ""
  {
    assert Lower("") == "";
    if r.proposed == "" {
      assert Sentinel(r.proposed);
    }
  }

  /**
   * A step changes who owns a record exactly when it approves a mapping of that record; the name then follows the
   * roster, and the application number never changes.
   */
  lemma OwnerChangesExactly(s: State, a: Action, i: nat)
    requires Reachable(s) && i < |s.records|
    ensures Linked(s)
    ensures var t := Step(s, a);
            && |t.records| == |s.records|
            && t.records[i].values[AppsNo] == s.records[i].values[AppsNo]
            && t.records[i].periodId == s.records[i].periodId
            && (t.records[i].values[SmId] != s.records[i].values[SmId]
                <==> (exists j: nat ::
                        Approves(s, a, j) && s.requests[j].category.Mapping? && s.requests[j].recordId == i))
            && (t.records[i].values[SmId] != s.records[i].values[SmId] ==>
                  t.records[i].Get(SmName) == RosterName(s.world, t.records[i].values[SmId]))
  {
    hide Reachable, Inv, Sound, Step, Approves, ApplyRequest;
    ReachableInv(s);
    InvIsLinked(s);
    if j: nat :| Approves(s, a, j) {
      ApprovalIs(s, a, j);
      OnlyOneApproved(s, a, j);
      ApplyKeepsIdentity(s, j);
      if s.requests[j].category.Mapping? {
        ApprovedMappingMoves(s, a, j);
      }
    } else {
      OnlyApprovalsWrite(s, a);
    }
  }

  /** No application writes the application number or the month, and only a mapping writes the owner. */
  lemma ApplyKeepsIdentity(s: State, j: nat)
    requires Inv(s) && j < |s.requests| && ApplyRequest(s, j).Ok?
    ensures Linked(s)
    ensures var a := ApplyRequest(s, j).value;
            && a.record.values[AppsNo] == Subject(s, j).values[AppsNo] && a.record.periodId == Subject(s, j).periodId
            && (!s.requests[j].category.Mapping? ==> a.record.values[SmId] == Subject(s, j).values[SmId])
  {
    hide Timed, ChainOf, Destined, Canonical, Undrifted, OneOpen, ApplyRequest, ColumnOf, RosterName;
    assert Sound(s.requests[j]);
    ApplyTouches(s, j);
    SamePeriod(s, j);
    var a := ApplyRequest(s, j).value;
    assert a.record.Get(AppsNo) == Subject(s, j).Get(AppsNo);
    if !s.requests[j].category.Mapping? {
      assert a.record.Get(SmId) == Subject(s, j).Get(SmId);
    }
  }

  lemma SamePeriod(s: State, j: nat)
    requires j < |s.requests| && s.requests[j].recordId < |s.records| && ApplyRequest(s, j).Ok?
    ensures ApplyRequest(s, j).value.record.periodId == Subject(s, j).periodId
  {
  }

  lemma ApprovedMappingMoves(s: State, a: Action, j: nat)
    requires Reachable(s) && Approves(s, a, j) && Undecided(s, j) && s.requests[j].category.Mapping?
    ensures Linked(s)
    ensures var t := Step(s, a);
            && |t.records| == |s.records|
            && t.records[s.requests[j].recordId].values[SmId] != Subject(s, j).values[SmId]
            && t.records[s.requests[j].recordId].Get(SmName)
               == RosterName(s.world, t.records[s.requests[j].recordId].values[SmId])
  {
    hide Reachable, Inv, ApplyRequest;
    ReachableInv(s);
    ApprovalShape(s, j);
    MappingAlwaysMoves(s, j);
  }

  lemma PrefixIsReachable(start: State, actions: seq<Action>)
    requires Imported(start)
    ensures Reachable(Run(start, actions))
  {
  }

  /** An applied mapping of record `i` to `owner` is on file. */
  ghost predicate MappedTo(s: State, i: nat, owner: string) {
    exists j :: 0 <= j < |s.requests| && s.requests[j].status.Approved? && s.requests[j].category.Mapping?
             && s.requests[j].recordId == i && s.requests[j].proposed == owner
  }

  /**
   * After any run a record has the application number it was imported with, and the owner it was imported with or one
   * that an applied mapping of it named.
   */
  lemma {:induction false} OwnerIsTraced(start: State, actions: seq<Action>, i: nat)
    requires Imported(start) && i < |start.records|
    ensures var s := Run(start, actions);
            && |s.records| == |start.records|
            && s.records[i].values[AppsNo] == start.records[i].values[AppsNo]
            && (s.records[i].values[SmId] == start.records[i].values[SmId] || MappedTo(s, i, s.records[i].values[SmId]))
  {
    hide Step, Imported, MappedTo, Reachable, Approves;
    if actions != [] {
      var n := |actions| - 1;
      var before := Run(start, actions[..n]);
      OwnerIsTraced(start, actions[..n], i);
      PrefixIsReachable(start, actions[..n]);
      OwnerChangesExactly(before, actions[n], i);
      TraceGoesOn(before, actions[n], i);
    }
  }

  lemma TraceGoesOn(s: State, a: Action, i: nat)
    requires Reachable(s) && i < |s.records|
    ensures Linked(s)
    ensures var t := Step(s, a);
            && |t.records| == |s.records|
            && (t.records[i].values[SmId] != s.records[i].values[SmId] ==> MappedTo(t, i, t.records[i].values[SmId]))
            && forall owner :: MappedTo(s, i, owner) ==> MappedTo(t, i, owner)
  {
    hide Step, Reachable, Inv, ApplyRequest;
    ReachableInv(s);
    OwnerChangesExactly(s, a, i);
    var t := Step(s, a);
    if j: nat :| Approves(s, a, j) && s.requests[j].category.Mapping? && s.requests[j].recordId == i {
      ApprovalIs(s, a, j);
      MappingApplies(s, j);
      assert t.requests[j].status.Approved?;
    }
    forall owner | MappedTo(s, i, owner) ensures MappedTo(t, i, owner) {
      var k: nat :| k < |s.requests| && s.requests[k].status.Approved? && s.requests[k].category.Mapping?
                    && s.requests[k].recordId == i && s.requests[k].proposed == owner;
      StepKeepsRequests(s, a, k);
      assert t.requests[k].status.Approved?;
    }
  }

  // ----- the version chain -----

  /** The first version of every record is what was imported, through any run. */
  lemma {:induction false} FirstVersionStays(start: State, actions: seq<Action>, i: nat)
    requires Inv(start) && i < |start.records|
    ensures var s := Run(start, actions);
            && |s.versions| == |s.records| == |start.records|
            && start.versions[i] <= s.versions[i]
  {
    hide Inv, Step;
    if actions != [] {
      var n := |actions| - 1;
      var before := Run(start, actions[..n]);
      FirstVersionStays(start, actions[..n], i);
      RunKeepsInv(start, actions[..n]);
      ChainsGrow(before, actions[n], i);
    }
    InvIsLinked(start);
  }

  lemma InvIsLinked(s: State)
    requires Inv(s)
    ensures Linked(s)
  {
  }

  lemma ChainsGrow(s: State, a: Action, i: nat)
    requires Inv(s) && i < |s.records|
    ensures Linked(s)
    ensures var t := Step(s, a);
            |t.records| == |t.versions| == |s.records| && s.versions[i] <= t.versions[i]
  {
    hide Timed, ChainOf, Sound, Step, Approves, Undrifted, OneOpen;
    if j: nat :| Approves(s, a, j) {
      ApprovalIs(s, a, j);
    } else {
      OnlyApprovalsWrite(s, a);
    }
  }

  /**
   * After any run a record has exactly the versions 1 to its current one, the last is the live row, the first is the
   * imported one, and copying each version's changed fields forward from the first rebuilds the live values.
   */
  lemma VersionChain(start: State, actions: seq<Action>, i: nat)
    requires Imported(start) && i < |start.records|
    ensures var s := Run(start, actions);
            && |s.records| == |s.versions| == |start.records|
            && var record, chain := s.records[i], s.versions[i];
            && chain != [] && |chain| == record.currentVersion && Numbered(chain)
            && chain[0].data == start.records[i] && chain[|chain| - 1].data == record
            && Replay(chain) == record.values && record.periodId == start.records[i].periodId
  {
    hide Timed, Sound, Run, Undrifted, OneOpen, Replay;
    var s := Run(start, actions);
    ImportedIsInv(start);
    FirstVersionStays(start, actions, i);
    RunKeepsInv(start, actions);
    assert ChainOf(s.records[i], s.versions[i]);
    assert start.versions[i][0].data == start.records[i];
    ReplayRebuilds(s.versions[i]);
  }

  // ----- the slot and the timeline -----

  lemma OneOpenPerField(s: State, i: nat, j: nat)
    requires Reachable(s) && Open(s, i) && Open(s, j) && i != j
    ensures !SameSlot(s.requests[i], s.requests[j])
  {
    hide Reachable, Timed, ChainOf, Sound;
    ReachableInv(s);
    if j < i {
      assert !SameSlot(s.requests[j], s.requests[i]);
    }
  }

  /** A returned request kept its slot, so sending it back in can never find the slot taken. */
  lemma ResubmitNeverConflicts(s: State, actor: User, id: nat, answer: Answer)
    requires Reachable(s)
    ensures Resubmit(s, actor, id, answer) != Err(SlotTaken)
  {
    hide Reachable, ActorBooks, Revised;
    if Owns(s, actor, id) && s.requests[id].status.Returned? {
      RevisedIsFrozen(s.world, s.requests[id], answer);
      RevisedIsNotTaken(s.world, s.requests[id], answer);
      forall i: nat | i < |s.requests| && i != id && Locking(s.requests[i].status)
        ensures !SameSlot(s.requests[i], s.requests[id])
      {
        OneOpenPerField(s, i, id);
      }
    }
  }

  lemma RevisedIsNotTaken(w: World, existing: Request, answer: Answer)
    ensures Revised(w, existing, answer) != Err(SlotTaken)
  {
    hide Parse, ProposedValue, IsPlaceholder;
  }

  /** An accepted submission is open, and no request open before it is on its record and field. */
  lemma SubmitHoldsTheSlot(s: State, actor: User, input: Input)
    ensures Submit(s, actor, input).Ok? ==>
            var t := Submit(s, actor, input).value;
            && |t.requests| == |s.requests| + 1 && Open(t, |s.requests|)
            && forall i: nat :: Open(s, i) ==> !SameSlot(s.requests[i], t.requests[|s.requests|])
  {
    hide ActorBooks, NewRequest;
    if Submit(s, actor, input).Ok? {
      NewRequestIsSound(s, actor, input);
    }
  }

  /** The timeline of a request is connected, ends in its status, and holds one RESUBMITTED per resubmission. */
  lemma Timeline(s: State, id: nat)
    requires Reachable(s) && id < |s.requests|
    ensures Connected(s.events)
    ensures LastStatus(s.events, id) == Some(s.requests[id].status)
    ensures Resubmissions(s.events, id) == s.requests[id].resubmissions
  {
    hide Reachable, ChainOf, Sound, OneOpen, Undrifted;
    ReachableInv(s);
  }

  // ----- what an approval writes -----

  /** An identifier is re-read as plain text when it is applied, which drops it if it is a sentinel. */
  predicate LostOnApproval(r: Request) {
    r.fieldName.Known? && KindOf(r.fieldName.field).Identifier? && Sentinel(r.proposed)
  }

  /** A date in a year past 9999 is stored as a text that is no date; an amount may be too large for its column. */
  predicate Unwritable(r: Request) {
    && r.fieldName.Known?
    && ((KindOf(r.fieldName.field).Date? && PastFourDigits(r.proposed))
        || (KindOf(r.fieldName.field).Money? && Kept(r.proposed).None?))
  }

  /** An amount with a leading zero or a minus sign is kept, and printed without it. */
  predicate Reprinted(r: Request) {
    r.fieldName.Known? && KindOf(r.fieldName.field).Money? && Unprinted(r.proposed)
  }

  /** What the column holds once the request is applied. */
  function Written(r: Request): Option<string>
    requires r.fieldName.Known?
  {
    if LostOnApproval(r) then None
    else if KindOf(r.fieldName.field).Money? then Kept(r.proposed)
    else Some(r.proposed)
  }

  lemma CanonicalIdentifier(f: Field, raw: string)
    requires KindOf(f).Identifier? && Acceptable(ProposedValue(f, raw))
    ensures var v := ProposedValue(f, raw).value.value;
            v != "" && NormalizeText(v) == if Sentinel(v) then None else Some(v)
  {
    hide Sentinel, NormalizeText, Scientific, Trim;
    IdentifierHasNoSpace(raw);
    NoSpaceText(ProposedValue(f, raw).value.value);
  }

  lemma TextIsNotEmpty(raw: string)
    ensures NormalizeText(raw) != Some("") && NormalizeStatus(raw) != Some("") && NormalizeAutopay(raw) != Some("")
  {
    assert Lower("") == "";
    assert Trim(raw) == "" ==> Sentinel(raw);
  }

  /**
   * What a field's normalizer produced comes back unchanged when it is applied, but for an identifier that reads as a
   * sentinel, which is dropped, and a day in a year past 9999, which is refused.
   */
  lemma SecondPassExactly(f: Field, raw: string)
    requires Acceptable(ProposedValue(f, raw)) && !f.SmId?
    ensures var v := ProposedValue(f, raw).value.value;
            && v != ""
            && CoerceKind(f, v) ==
               if KindOf(f).Identifier? && Sentinel(v) then Normalized(None, false)
               else if KindOf(f).Date? && PastFourDigits(v) then Normalized(None, true)
               else Normalized(Some(v), false)
  {
    hide Sentinel, NormalizeText, NormalizeStatus, NormalizeAutopay, NormalizeIdentifier, NormalizeMoney, NormalizeDate;
    TextIsNotEmpty(raw);
    match KindOf(f)
    case Identifier => CanonicalIdentifier(f, raw);
    case PlainText => TextIsStable(raw);
    case StatusKind => StatusIsStable(raw);
    case AutopayKind => AutopayIsStable(raw);
    case Money => MoneyIsStable(raw);
    case Date => DateSecondPass(raw);
  }

  /** A proposed amount is printed by its column as it was proposed exactly when it has no leading zero and no minus sign. */
  lemma AmountPrints(raw: string)
    requires NormalizeMoney(raw).value.Some? && Kept(NormalizeMoney(raw).value.value).Some?
    ensures var v := NormalizeMoney(raw).value.value; Kept(v) == Some(v) <==> !Unprinted(v)
  {
    hide NormalizeMoney, Normal, Amounts.ToPaise, Amounts.FromPaise, Unprinted;
    var negative, whole, fraction := NormalizedIsNormal(raw);
    PrintedExactly(NormalizeMoney(raw).value.value, negative, whole, fraction);
  }

  lemma WrittenIsProposedExactly(r: Request)
    requires Sound(r) && !Unwritable(r) && !r.category.Mapping?
    ensures Written(r) == Some(r.proposed) <==> !LostOnApproval(r) && !Reprinted(r)
    ensures Reprinted(r) ==> Written(r).Some? && Amounts.ToPaise(Written(r).value) == Amounts.ToPaise(r.proposed)
  {
    hide NormalizeMoney, Unprinted, Amounts.ToPaise, Amounts.FromPaise, Destined, Sentinel;
    if KindOf(r.fieldName.field).Money? {
      var raw :| ProposedValue(r.fieldName.field, raw) == Normalized(Some(r.proposed), false);
      AmountPrints(raw);
      Amounts.ReadPrinted(Amounts.ToPaise(r.proposed));
    }
  }

  /** A sound request that is no mapping applies exactly when it can be written, and this is what the column then holds. */
  lemma OrdinaryApplies(s: State, id: nat)
    requires Inv(s) && id < |s.requests| && !s.requests[id].category.Mapping?
    ensures Linked(s) && s.requests[id].fieldName.Known? && s.requests[id].proposed != ""
    ensures ApplyRequest(s, id).Ok? <==> !Unwritable(s.requests[id])
    ensures ApplyRequest(s, id).Ok? ==>
              && ApplyRequest(s, id).value.field == s.requests[id].fieldName.field
              && ColumnOf(s.requests[id].fieldName.field, ApplyRequest(s, id).value.newValue) == Ok(Written(s.requests[id]))
  {
    hide Timed, ChainOf, OneOpen, Undrifted, Destined, Sentinel, CoerceKind, ProposedValue, Kept;
    var r := s.requests[id];
    assert Sound(r);
    var raw :| ProposedValue(r.fieldName.field, raw) == Normalized(Some(r.proposed), false);
    SecondPassExactly(r.fieldName.field, raw);
  }

  /** Only a correction whose submitter names the field can be lost, reprinted or refused when it is applied. */
  lemma OnlyOthers(r: Request)
    requires Sound(r) && (LostOnApproval(r) || Reprinted(r) || Unwritable(r))
    ensures r.category.Others?
  {
    hide Destined, Canonical, Sentinel, Kept, Unprinted;
  }

  /** Whether an approval of an undecided request goes through, and what its field holds afterwards. */
  lemma ApprovalWrites(s: State, id: nat)
    requires Inv(s) && Undecided(s, id)
    ensures Linked(s) && s.requests[id].fieldName.Known? && s.requests[id].proposed != ""
    ensures Decide(s, id, Approve).Ok? <==> !Unwritable(s.requests[id])
    ensures Decide(s, id, Approve).Ok? ==>
              var t, r := Decide(s, id, Approve).value.state, s.requests[id];
              && Linked(t) && t.requests[id].recordId == r.recordId
              && Subject(t, id).Get(r.fieldName.field) == Written(r)
  {
    hide Timed, ChainOf, OneOpen, Undrifted, Canonical, Sentinel, NormalizeSmId, IsPlaceholder, ApplyRequest, Kept,
         PastFourDigits;
    var r := s.requests[id];
    assert Sound(r);
    if r.category.Mapping? {
      MappingApplies(s, id);
      ProposedIsNotEmpty(r);
    } else {
      OrdinaryApplies(s, id);
    }
    if ApplyRequest(s, id).Ok? {
      ApplyTouches(s, id);
    }
  }

  /**
   * An approval goes through exactly when the proposal can be written, and then writes exactly what was proposed unless
   * it is an identifier that reads as a sentinel, which becomes NULL, or an amount the column prints differently, which
   * stays the same amount. None of these happens to a category that pins its field.
   */
  lemma AppliedIsProposedExactly(s: State, id: nat)
    requires Reachable(s) && Undecided(s, id)
    ensures Linked(s) && s.requests[id].fieldName.Known?
    ensures var r, d := s.requests[id], Decide(s, id, Approve);
            && (d.Ok? <==> !Unwritable(r))
            && (d.Ok? ==>
                  && Linked(d.value.state)
                  && (Subject(d.value.state, id).Get(r.fieldName.field) == Some(r.proposed)
                      <==> !LostOnApproval(r) && !Reprinted(r))
                  && (LostOnApproval(r) ==> Subject(d.value.state, id).Get(r.fieldName.field) == None)
                  && (Reprinted(r) ==>
                        var kept := Subject(d.value.state, id).Get(r.fieldName.field);
                        kept.Some? && Amounts.ToPaise(kept.value) == Amounts.ToPaise(r.proposed)))
            && (LostOnApproval(r) || Reprinted(r) || Unwritable(r) ==> r.category.Others?)
  {
    hide Reachable, Timed, ChainOf, OneOpen, Undrifted, Decide, LostOnApproval, Reprinted, Unwritable, Written, Sound;
    ReachableInv(s);
    ApprovalWrites(s, id);
    var r := s.requests[id];
    assert Sound(r);
    if r.category.Mapping? {
      MappingIsWritten(r);
    } else if !Unwritable(r) {
      WrittenIsProposedExactly(r);
      if LostOnApproval(r) {
        LostIsNothing(r);
      }
    }
    if LostOnApproval(r) || Reprinted(r) || Unwritable(r) {
      OnlyOthers(r);
    }
  }

  lemma LostIsNothing(r: Request)
    requires r.fieldName.Known? && LostOnApproval(r)
    ensures Written(r) == None
  {
  }

  lemma MappingIsWritten(r: Request)
    requires Sound(r) && r.category.Mapping?
    ensures Written(r) == Some(r.proposed) && !LostOnApproval(r) && !Reprinted(r) && !Unwritable(r)
  {
    hide Destined, Canonical, Sentinel, Kept, Unprinted, PastFourDigits;
    assert KindOf(r.fieldName.field).PlainText?;
  }

  /**
   * Whether an approval that goes through changes anything can be read off the request alone: it does exactly when
   * what it will write is not the snapshot the request was raised on.
   */
  lemma ApprovalChangesExactly(s: State, id: nat)
    requires Reachable(s) && Undecided(s, id) && s.requests[id].fieldName != Known(SmName)
    ensures Linked(s) && s.requests[id].fieldName.Known?
    ensures Decide(s, id, Approve).Ok? ==>
              var t, r := Decide(s, id, Approve).value.state, s.requests[id];
              && Linked(t)
              && (SnapshotOriginal(Subject(t, id), r.fieldName.field) != SnapshotOriginal(Subject(s, id), r.fieldName.field)
                  <==> r.original != Written(r))
  {
    hide Reachable, Inv, Decide, LostOnApproval, Kept;
    ReachableInv(s);
    ApprovalWrites(s, id);
    OpenWhileUndecided(s, id);
    NoDriftWhileOpen(s, id);
    if Decide(s, id, Approve).Ok? {
      WrittenIsNotEmpty(s.requests[id]);
    }
  }

  lemma OpenWhileUndecided(s: State, id: nat)
    requires Undecided(s, id)
    ensures Open(s, id)
  {
  }

  lemma WrittenIsNotEmpty(r: Request)
    requires r.fieldName.Known? && r.proposed != ""
    ensures Written(r) != Some("")
  {
    hide Sentinel, Amounts.ToPaise;
    if KindOf(r.fieldName.field).Money? {
      PaiseIsPrinted(Amounts.ToPaise(r.proposed));
    }
  }

  lemma PaiseIsPrinted(n: int)
    ensures Amounts.FromPaise(n) != ""
  {
  }

  predicate Fresh(r: Request) {
    r.resubmissions == 0 ==> r.original != Some(r.proposed)
  }

  ghost predicate AllFresh(s: State) {
    forall i :: 0 <= i < |s.requests| ==> Fresh(s.requests[i])
  }

  lemma StepKeepsFresh(s: State, a: Action)
    requires AllFresh(s)
    ensures AllFresh(Step(s, a))
  {
    hide NewRequest, Revised, ActorBooks, ApplyRequest, SlotHeld;
    if a.DoSubmit? && Submit(s, a.actor, a.input).Ok? {
      NewRequestIsFresh(s, a.actor, a.input);
    } else if a.DoResubmit? && Owns(s, a.actor, a.id) {
      RevisedCounts(s.world, s.requests[a.id], a.answer);
    }
  }

  lemma NewRequestIsFresh(s: State, actor: User, input: Input)
    ensures NewRequest(s, actor, input).Ok? ==> Fresh(NewRequest(s, actor, input).value)
  {
    hide Parse, ProposedValue, ResolveRecord, ActorBooks, CheckOwnership, NormalizeIdentifier;
  }

  lemma RevisedCounts(w: World, existing: Request, answer: Answer)
    ensures Revised(w, existing, answer).Ok? ==> Revised(w, existing, answer).value.resubmissions > 0
  {
    hide Parse, ProposedValue, CheckTransferTarget;
  }

  /** A request that was never sent back always proposes a change. */
  lemma {:induction false} FreshRequestsChange(start: State, actions: seq<Action>)
    requires Imported(start)
    ensures AllFresh(Run(start, actions))
  {
    hide Step;
    if actions != [] {
      FreshRequestsChange(start, actions[..|actions| - 1]);
      StepKeepsFresh(Run(start, actions[..|actions| - 1]), actions[|actions| - 1]);
    }
  }

  // ----- the rep's name -----

  predicate NamedByRoster(w: World, record: Record) {
    record.Get(SmName) == RosterName(w, record.values[SmId])
  }

  /**
   * After an approval the record's name is the roster's exactly when the approval was a mapping, or wrote the
   * roster's name, or did not touch the name and the two agreed before.
   */
  lemma NameAgreesExactly(s: State, id: nat)
    requires Reachable(s) && Undecided(s, id)
    ensures Linked(s) && s.requests[id].fieldName.Known?
    ensures Decide(s, id, Approve).Ok? ==>
              var t, r := Decide(s, id, Approve).value.state, s.requests[id];
              && Linked(t)
              && (NamedByRoster(s.world, Subject(t, id)) <==>
                  || r.category.Mapping?
                  || (if r.fieldName.field.SmName? then Some(r.proposed) == RosterName(s.world, Subject(s, id).values[SmId])
                      else NamedByRoster(s.world, Subject(s, id))))
  {
    hide Reachable, Timed, ChainOf, OneOpen, Undrifted, Canonical, Destined, ApplyRequest, RosterName, Sentinel, ColumnOf, Kept;
    ReachableInv(s);
    var r := s.requests[id];
    assert Sound(r);
    ApprovalWrites(s, id);
    if Decide(s, id, Approve).Ok? {
      ApplyTouches(s, id);
      var a := ApplyRequest(s, id).value;
      assert !r.category.Mapping? ==> a.record.Get(SmId) == Subject(s, id).Get(SmId);
    }
  }

  // ----- scope -----

  /**
   * A submission that is accepted is about a record its submitter reads, unless it claims one in; then it moves the
   * record to a code its submitter reads. It carries that code, the submitter and the record's own month.
   */
  lemma AcceptedWithinScope(s: State, actor: User, input: Input)
    ensures Submit(s, actor, input).Ok? ==>
            var r := NewRequest(s, actor, input).value;
            && r.recordId < |s.records|
            && var owner, scope := s.records[r.recordId].values[SmId], ScopedRecords(s.world, actor);
            && (r.direction != Some(ClaimIn) ==> scope.Admits(owner) && r.smId == owner)
            && (r.direction == Some(ClaimIn) ==> scope.Admits(r.smId) && r.smId != owner && r.counterparty == Some(owner))
            && (r.direction == Some(TransferOut) ==> r.proposed in s.world.roster && r.counterparty == Some(r.proposed))
            && scope.Only? && r.submittedBy == actor.id && input.proofsStored && input.chainOpens
            && r.appsNo == s.records[r.recordId].values[AppsNo] && r.periodId == s.records[r.recordId].periodId
            && (r.periodId == None || r.periodId == Some("") || r.periodId.value !in s.world.closedPeriods)
  {
    hide Parse, ProposedValue, NormalizeIdentifier, ActorBooks, ScopedRecords, IsPlaceholder, NormalizeSmId;
    BooksWithinScope(s.world, actor);
    if Submit(s, actor, input).Ok? {
      ParsedShape(s.world.latestIssue, input);
      var sub := Parse(s.world.latestIssue, input).value;
      if sub.category.Mapping? {
        DestinationIsStable(Trim(input.proposedValue), sub.proposed);
      }
    }
  }
}
