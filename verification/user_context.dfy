/** What the signed-in user is shown (src/composables/useUserContext.ts):
    the operators whose data is displayed and whether a shift request is
    visible. The auth store's state is passed in as a value. */
module UserContext {
  import opened Text
  import opened Models
  import opened ShiftLogic
  import opened Scenarios

  /** The parts of the auth store the composable reads. */
  datatype AuthState = AuthState(
    currentUser: Option<User>,
    currentOperator: Option<Operator>,
    selectedOperatorIds: seq<string>)

  /** `isAdmin`: the user's role is admin; nobody signed in is a plain user. */
  predicate IsAdmin(auth: AuthState) {
    auth.currentUser.Some? && auth.currentUser.value.role == AdminRole
  }

  /** `isVerified`: the user's flag, false when nobody is signed in. */
  predicate IsVerified(auth: AuthState) {
    auth.currentUser.Some? && auth.currentUser.value.isVerified
  }

  /** `activeOperators`: the current operator alone, whatever the role and
      the admin's selection; nothing without a current operator. */
  function ActiveOperators(auth: AuthState): (r: seq<Operator>)
    ensures |r| <= 1
    ensures r == [] <==> auth.currentOperator.None?
    ensures forall op :: op in r <==> auth.currentOperator == Some(op)
  {
    if auth.currentOperator.None? then []
    else if IsAdmin(auth) && |auth.selectedOperatorIds| > 0 then [auth.currentOperator.value]
    else [auth.currentOperator.value]
  }

  /** The admin's selection never changes the displayed operators. */
  lemma ActiveOperatorsIgnoreSelection(auth: AuthState, ids: seq<string>)
    ensures ActiveOperators(auth.(selectedOperatorIds := ids)) == ActiveOperators(auth)
  {
  }

  /** `primaryOperator`: the first active operator, or null. */
  function PrimaryOperator(auth: AuthState): (r: Option<Operator>)
    ensures r.Some? <==> |ActiveOperators(auth)| > 0
    ensures r.Some? ==> r.value == ActiveOperators(auth)[0]
  {
    var ops := ActiveOperators(auth);
    if |ops| > 0 then Some(ops[0]) else None
  }

  /** The two views agree: the primary operator is the current operator. */
  lemma PrimaryIsCurrent(auth: AuthState)
    ensures PrimaryOperator(auth) == auth.currentOperator
  {
  }

  /** The calendar successor handed to the engine; it is never consulted,
      since no date or schedule is passed (see `NoLookaheadIgnoresCalendar`). */
  function Unused(d: string): string { d }

  /** `canViewRequest`: admins see everything; otherwise the user must be
      verified, linked to an operator with a non-empty shift on the
      request's date, and the engine, called without date or schedule, must
      offer at least one scenario for the requested shift. */
  function CanViewRequest(auth: AuthState, req: ShiftRequest): (r: bool)
    ensures IsAdmin(auth) ==> r
    ensures !IsAdmin(auth) && (!IsVerified(auth) || auth.currentOperator.None?) ==> !r
    ensures !IsAdmin(auth) && auth.currentOperator.Some?
      && (req.date !in auth.currentOperator.value.schedule || auth.currentOperator.value.schedule[req.date] == "")
      ==> !r
  {
    if IsAdmin(auth) then true
    else if !IsVerified(auth) || auth.currentOperator.None? then false
    else
      var schedule := auth.currentOperator.value.schedule;
      if req.date !in schedule || schedule[req.date] == "" then false
      else
        var userShift := schedule[req.date];
        |CompatibleScenarios(DefaultScenarios, req.originalShift, userShift, NoLookahead, Unused)| > 0
  }

  /** A role that grants visibility: a same-day role without a required
      next shift whose own transition starts from `shift` and is compliant. */
  ghost predicate PlainOffer(target: ShiftCode, shift: ShiftCode) {
    PlainOfferIn(DefaultScenarios, target, shift)
  }

  ghost predicate PlainOfferIn(table: seq<ReplacementScenario>, target: ShiftCode, shift: ShiftCode) {
    exists i, j :: 0 <= i < |table| && 0 <= j < |table[i].roles|
      && table[i].targetShift == target
      && !IsNextDay(table[i].roles[j])
      && !HasRequiredNext(table[i].roles[j])
      && table[i].roles[j].originalShift == shift
      && CheckCompliance(shift, table[i].roles[j].newShift).allowed
  }

  /** Visibility for a verified, linked, non-admin user is exactly the
      existence of a plain role: look-ahead roles never grant it. */
  lemma CanViewRequestIff(auth: AuthState, req: ShiftRequest)
    requires !IsAdmin(auth) && IsVerified(auth) && auth.currentOperator.Some?
    requires req.date in auth.currentOperator.value.schedule
    requires auth.currentOperator.value.schedule[req.date] != ""
    ensures CanViewRequest(auth, req)
        <==> PlainOffer(req.originalShift, auth.currentOperator.value.schedule[req.date])
  {
    var shift := auth.currentOperator.value.schedule[req.date];
    assert CanViewRequest(auth, req)
      <==> |CompatibleScenarios(DefaultScenarios, req.originalShift, shift, NoLookahead, Unused)| > 0;
    OffersIffPlain(DefaultScenarios, req.originalShift, shift);
  }

  /** Without look-ahead data, a table offers something exactly when it
      holds a plain role for the shift. */
  lemma OffersIffPlain(table: seq<ReplacementScenario>, target: ShiftCode, shift: ShiftCode)
    ensures |CompatibleScenarios(table, target, shift, NoLookahead, Unused)| > 0
        <==> PlainOfferIn(table, target, shift)
  {
    var out := CompatibleScenarios(table, target, shift, NoLookahead, Unused);
    if |out| > 0 {
      CompatibleScenariosSound(table, target, shift, NoLookahead, Unused);
      assert out[0] in out;
      var i, j :| 0 <= i < |table| && 0 <= j < |table[i].roles|
        && table[i].targetShift == target
        && out[0] == RecordOf(table[i], j)
        && RoleEmits(table[i].roles[j], shift, NoLookahead, Unused);
      NoLookaheadOnlyPlainRoles(table[i].roles[j], shift, NoLookahead, Unused);
    }
    if PlainOfferIn(table, target, shift) {
      var i, j :| 0 <= i < |table| && 0 <= j < |table[i].roles|
        && table[i].targetShift == target
        && !IsNextDay(table[i].roles[j])
        && !HasRequiredNext(table[i].roles[j])
        && table[i].roles[j].originalShift == shift
        && CheckCompliance(shift, table[i].roles[j].newShift).allowed;
      NoLookaheadOnlyPlainRoles(table[i].roles[j], shift, NoLookahead, Unused);
      CompatibleScenariosComplete(table, target, shift, NoLookahead, Unused, i, j);
    }
  }

  /** Reference table of visibility on the default rules: which current
      shifts can see a shortage of each shift. */
  function VisibleFrom(target: ShiftCode): set<ShiftCode> {
    if target == Morning then {Rest, Afternoon, Night, Morning}
    else if target == Afternoon then {Rest, Night, Morning}
    else if target == Night then {Rest}
    else {}
  }

  /** Every plain compliant role of the default table starts from a shift
      listed for its target, and every listed shift has such a role. */
  lemma PlainRoleListed(i: nat, j: nat)
    requires i < |DefaultScenarios| && j < |DefaultScenarios[i].roles|
    requires !IsNextDay(DefaultScenarios[i].roles[j]) && !HasRequiredNext(DefaultScenarios[i].roles[j])
    requires CheckCompliance(DefaultScenarios[i].roles[j].originalShift, DefaultScenarios[i].roles[j].newShift).allowed
    ensures DefaultScenarios[i].roles[j].originalShift in VisibleFrom(DefaultScenarios[i].targetShift)
  {
    OnlyM3SecondRoleIsNonCompliant(i, j);
  }

  /** A plain compliant role of the default table witnesses a plain offer. */
  lemma PlainOfferAt(i: nat, j: nat)
    requires i < |DefaultScenarios| && j < |DefaultScenarios[i].roles|
    requires !IsNextDay(DefaultScenarios[i].roles[j]) && !HasRequiredNext(DefaultScenarios[i].roles[j])
    requires CheckCompliance(DefaultScenarios[i].roles[j].originalShift, DefaultScenarios[i].roles[j].newShift).allowed
    ensures PlainOffer(DefaultScenarios[i].targetShift, DefaultScenarios[i].roles[j].originalShift)
  {
  }

  /** `VisibleFrom` lists exactly the shifts that have a plain offer. */
  lemma PlainOfferIffListed(target: ShiftCode, shift: ShiftCode)
    ensures PlainOffer(target, shift) <==> shift in VisibleFrom(target)
  {
    if PlainOffer(target, shift) {
      PlainOfferListed(target, shift);
    }
    if shift in VisibleFrom(target) {
      ListedPlainOffer(target, shift);
    }
  }

  lemma PlainOfferListed(target: ShiftCode, shift: ShiftCode)
    requires PlainOffer(target, shift)
    ensures shift in VisibleFrom(target)
  {
    var i, j :| 0 <= i < |DefaultScenarios| && 0 <= j < |DefaultScenarios[i].roles|
      && DefaultScenarios[i].targetShift == target
      && !IsNextDay(DefaultScenarios[i].roles[j])
      && !HasRequiredNext(DefaultScenarios[i].roles[j])
      && DefaultScenarios[i].roles[j].originalShift == shift
      && CheckCompliance(shift, DefaultScenarios[i].roles[j].newShift).allowed;
    PlainRoleListed(i, j);
  }

  lemma ListedPlainOffer(target: ShiftCode, shift: ShiftCode)
    requires shift in VisibleFrom(target)
    ensures PlainOffer(target, shift)
  {
    if target == Morning {
      if shift == Rest { PlainOfferAt(0, 0); }
      else if shift == Afternoon { PlainOfferAt(1, 0); }
      else if shift == Night { PlainOfferAt(1, 1); }
      else { PlainOfferAt(2, 0); }
    } else if target == Afternoon {
      if shift == Rest { PlainOfferAt(4, 0); }
      else if shift == Night { PlainOfferAt(4, 1); }
      else { PlainOfferAt(5, 0); }
    } else {
      PlainOfferAt(8, 0);
    }
  }

  /** On the default rules, a verified, linked, non-admin user sees a
      request exactly when their shift that day is listed for the
      requested shift. */
  lemma DefaultVisibility(auth: AuthState, req: ShiftRequest)
    requires !IsAdmin(auth) && IsVerified(auth) && auth.currentOperator.Some?
    requires req.date in auth.currentOperator.value.schedule
    requires auth.currentOperator.value.schedule[req.date] != ""
    ensures CanViewRequest(auth, req)
        <==> auth.currentOperator.value.schedule[req.date] in VisibleFrom(req.originalShift)
  {
    CanViewRequestIff(auth, req);
    PlainOfferIffListed(req.originalShift, auth.currentOperator.value.schedule[req.date]);
  }

  /** An operator coming off a night ('S') never sees a night shortage:
      N1 needs the next day's schedule, which is not passed. An absent
      operator ('A') sees no request at all. */
  lemma OffNightAndAbsentSeeNoShortage(auth: AuthState, req: ShiftRequest)
    requires !IsAdmin(auth) && auth.currentOperator.Some?
    requires req.date in auth.currentOperator.value.schedule
    ensures auth.currentOperator.value.schedule[req.date] == OffNight && req.originalShift == Night
      ==> !CanViewRequest(auth, req)
    ensures auth.currentOperator.value.schedule[req.date] == Absent ==> !CanViewRequest(auth, req)
  {
    if IsVerified(auth) && auth.currentOperator.value.schedule[req.date] != "" {
      DefaultVisibility(auth, req);
    }
  }
}
