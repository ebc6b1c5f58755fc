/** Whose records a user reads, and whose they may raise corrections for (src/lib/auth/rbac.ts, src/lib/corrections/service.ts). */
module TeamScope {
  import opened Wrappers

  datatype Rep = Rep(smName: Option<string>, tlId: Option<string>, ccmId: Option<string>)

  /** An administrator's pin; a missing rung defers to the sheet. */
  datatype Pin = Pin(tlId: Option<string>, ccmId: Option<string>)

  /** The roster sheet, the pins on top of it, the closed months, the codes with an active login and the clock. */
  datatype World = World(
    roster: map<string, Rep>, pins: map<string, Pin>, closedPeriods: set<string>, accounts: set<string>,
    latestIssue: string)

  datatype Role = Admin | Approver | Verifier | Sales | Tl | Acm

  datatype User = User(id: string, role: Role, smId: Option<string>, tlCode: Option<string>, acmCode: Option<string>)

  /** The sheet's own buckets, which are no people (src/lib/roster/placeholders.ts). */
  const PLACEHOLDERS: set<string> := {"111222-UN", "DIY"}

  /** JavaScript truthiness of an optional code. */
  predicate Present(code: Option<string>) {
    code.Some? && code.value != ""
  }

  // ----- the effective hierarchy -----

  function EffectiveTl(w: World, sm: string): Option<string>
    requires sm in w.roster
  {
    if sm in w.pins && w.pins[sm].tlId.Some? then w.pins[sm].tlId else w.roster[sm].tlId
  }

  function EffectiveAcm(w: World, sm: string): Option<string>
    requires sm in w.roster
  {
    if sm in w.pins && w.pins[sm].ccmId.Some? then w.pins[sm].ccmId else w.roster[sm].ccmId
  }

  function TlTeam(w: World, code: string): set<string> {
    (set sm | sm in w.roster && EffectiveTl(w, sm) == Some(code)) + {code}
  }

  function DirectAcm(w: World, code: string): set<string> {
    set sm | sm in w.roster && EffectiveAcm(w, sm) == Some(code)
  }

  /** The reps named directly, the manager's own code, and the reps under the manager's own team leaders. */
  function AcmTeam(w: World, code: string): set<string> {
    DirectAcm(w, code) + {code}
    + (set sm | sm in w.roster && EffectiveTl(w, sm).Some? && EffectiveTl(w, sm).value in DirectAcm(w, code))
  }

  /** A leader whose own roster row sits under a manager has their whole team inside that manager's. */
  lemma TeamsNest(w: World, tl: string, acm: string)
    requires tl in w.roster && EffectiveAcm(w, tl) == Some(acm)
    ensures TlTeam(w, tl) <= AcmTeam(w, acm)
  {
  }

  /** Without that row it can fail: a leader placed only by other reps' lines is outside the manager's scope. */
  lemma UnplacedLeaderIsOutside(w: World, tl: string, acm: string)
    requires tl !in w.roster && tl != acm
    ensures tl in TlTeam(w, tl) && tl !in AcmTeam(w, acm)
  {
  }

  /** The rep's team leader is this code: by the pin, or by the sheet where no pin names a leader. */
  predicate TlIs(w: World, sm: string, code: string) {
    || (sm in w.pins && w.pins[sm].tlId == Some(code))
    || ((sm in w.pins ==> w.pins[sm].tlId == None) && sm in w.roster && w.roster[sm].tlId == Some(code))
  }

  /** The rep's area manager is this code, likewise. */
  predicate AcmIs(w: World, sm: string, code: string) {
    || (sm in w.pins && w.pins[sm].ccmId == Some(code))
    || ((sm in w.pins ==> w.pins[sm].ccmId == None) && sm in w.roster && w.roster[sm].ccmId == Some(code))
  }

  /** A leader's team is the leader and the rostered reps whose leader that is. */
  lemma TlTeamExactly(w: World, code: string, sm: string)
    ensures sm in TlTeam(w, code) <==> sm == code || (sm in w.roster && TlIs(w, sm, code))
  {
  }

  /**
   * A manager's team is the manager, the rostered reps whose manager that is, and the rostered reps of rostered leaders
   * whose manager that is, and nobody else.
   */
  lemma AcmTeamExactly(w: World, code: string, sm: string)
    ensures sm in AcmTeam(w, code) <==>
              || sm == code
              || (sm in w.roster && (AcmIs(w, sm, code) || exists tl :: tl in w.roster && TlIs(w, sm, tl) && AcmIs(w, tl, code)))
  {
    if sm in w.roster && EffectiveTl(w, sm).Some? {
      assert TlIs(w, sm, EffectiveTl(w, sm).value);
    }
  }

  // ----- reading -----

  datatype ReadScope = Everything | Only(smIds: set<string>) | Forbidden {
    predicate Admits(smId: string) {
      Everything? || (Only? && smId in smIds)
    }
  }

  function ScopedRecords(w: World, user: User): ReadScope {
    match user.role
    case Admin | Approver | Verifier => Everything
    case Tl => if Present(user.tlCode) then Only(TlTeam(w, user.tlCode.value)) else Forbidden
    case Acm => if Present(user.acmCode) then Only(AcmTeam(w, user.acmCode.value)) else Forbidden
    case Sales => if Present(user.smId) then Only({user.smId.value}) else Forbidden
  }

  // ----- raising -----

  /** `own` is the rep's own code, and absent for a manager. */
  datatype Books = Books(smIds: set<string>, own: Option<string>)

  /** A manager's books are the roster rows inside their team. */
  function ActorBooks(w: World, actor: User): Option<Books> {
    match actor.role
    case Sales => if Present(actor.smId) then Some(Books({actor.smId.value}, actor.smId)) else None
    case Tl => if Present(actor.tlCode) then RosterBooks(w, TlTeam(w, actor.tlCode.value)) else None
    case Acm => if Present(actor.acmCode) then RosterBooks(w, AcmTeam(w, actor.acmCode.value)) else None
    case _ => None
  }

  function RosterBooks(w: World, team: set<string>): Option<Books> {
    var rows := set sm | sm in w.roster && sm in team;
    if rows == {} then None else Some(Books(rows, None))
  }

  /** Whose records each role reads, from the sheet, the pins and the account alone. */
  lemma ScopeExactly(w: World, user: User, sm: string)
    ensures ScopedRecords(w, user).Admits(sm) <==>
              match user.role
              case Admin | Approver | Verifier => true
              case Sales => user.smId == Some(sm) && sm != ""
              case Tl => user.tlCode.Some? && user.tlCode.value != ""
                         && (sm == user.tlCode.value || (sm in w.roster && TlIs(w, sm, user.tlCode.value)))
              case Acm => user.acmCode.Some? && user.acmCode.value != ""
                          && (|| sm == user.acmCode.value
                              || (&& sm in w.roster
                                  && (|| AcmIs(w, sm, user.acmCode.value)
                                      || exists tl :: tl in w.roster && TlIs(w, sm, tl) && AcmIs(w, tl, user.acmCode.value))))
  {
    hide TlTeam, AcmTeam, TlIs, AcmIs;
    if user.tlCode.Some? {
      TlTeamExactly(w, user.tlCode.value, sm);
    }
    if user.acmCode.Some? {
      AcmTeamExactly(w, user.acmCode.value, sm);
    }
  }

  /** A rep raises for their own code, a manager for the rostered codes they read, and nobody else for any. */
  lemma BooksExactly(w: World, actor: User, sm: string)
    ensures (ActorBooks(w, actor).Some? && sm in ActorBooks(w, actor).value.smIds) <==>
              && (actor.role.Sales? || actor.role.Tl? || actor.role.Acm?)
              && ScopedRecords(w, actor).Admits(sm)
              && (actor.role.Sales? || sm in w.roster)
    ensures ActorBooks(w, actor).Some? <==>
              && (actor.role.Sales? || actor.role.Tl? || actor.role.Acm?)
              && exists code :: ScopedRecords(w, actor).Admits(code) && (actor.role.Sales? || code in w.roster)
    ensures ActorBooks(w, actor).Some? ==> ActorBooks(w, actor).value.own == if actor.role.Sales? then actor.smId else None
  {
    hide TlTeam, AcmTeam;
    var scope := ScopedRecords(w, actor);
    if actor.role.Sales? {
      if Present(actor.smId) {
        assert scope.Admits(actor.smId.value);
      }
    } else if scope.Only? && (actor.role.Tl? || actor.role.Acm?) {
      var rows := set code | code in w.roster && code in scope.smIds;
      assert ActorBooks(w, actor) == if rows == {} then None else Some(Books(rows, None));
      if rows != {} {
        var code :| code in rows;
        assert scope.Admits(code);
      } else {
        assert forall code :: scope.Admits(code) && code in w.roster ==> code in rows;
      }
    }
  }

  /** Nobody can raise for a book they cannot read. */
  lemma BooksWithinScope(w: World, actor: User)
    ensures var books, scope := ActorBooks(w, actor), ScopedRecords(w, actor);
            books.Some? ==> scope.Only? && books.value.smIds <= scope.smIds
  {
  }

  /** A manager's books are their whole read scope exactly when their own code has a roster row. */
  lemma BooksAreScopeExactly(w: World, actor: User)
    requires actor.role.Tl? || actor.role.Acm?
    requires ActorBooks(w, actor).Some?
    ensures var code := if actor.role.Tl? then actor.tlCode.value else actor.acmCode.value;
            ActorBooks(w, actor).value.smIds == ScopedRecords(w, actor).smIds <==> code in w.roster
  {
    var books, scope := ActorBooks(w, actor).value.smIds, ScopedRecords(w, actor).smIds;
    var code := if actor.role.Tl? then actor.tlCode.value else actor.acmCode.value;
    assert code in scope;
    if code in w.roster {
      forall sm | sm in scope ensures sm in books {
        assert sm == code || sm in w.roster;
      }
    }
  }
}
