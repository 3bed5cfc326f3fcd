/** The shift compliance check and the scenario-matching engine
    (src/composables/useShiftLogic.ts). The rule table and the calendar
    successor on ISO dates are parameters: the engine is a pure function
    of them, the shortage, the operator's shift and the optional
    look-ahead context. */
module ShiftLogic {
  import opened Text
  import opened Models

  const AlreadyOnShiftPrefix: string := "Già in turno "
  const PostNightReason: string := "Smonto Notte non può fare Mattina"
  const AbsentReason: string := "Operatore Assente"

  /** Whether a single transition `current -> next` is permitted. Three
      rules are tried in order and the first that fires gives the only
      reason: already on that (working) shift, morning right after a
      night, operator absent. */
  function CheckCompliance(current: ShiftCode, next: ShiftCode): (r: ComplianceResult)
    ensures r.warning == None
    ensures r.allowed <==> r.reason == None
    ensures current == next && current != Rest ==> r.reason == Some(AlreadyOnShiftPrefix + current)
    ensures current == Night && next == Morning ==> r.reason == Some(PostNightReason)
    ensures current == Absent && next != Absent ==> r.reason == Some(AbsentReason)
    ensures r.allowed <==> current != Absent && !(current == Night && next == Morning) && (current == next ==> current == Rest)
  {
    if current == next && current != Rest then
      ComplianceResult(false, Some(AlreadyOnShiftPrefix + current), None)
    else if current == Night && next == Morning then
      ComplianceResult(false, Some(PostNightReason), None)
    else if current == Absent then
      ComplianceResult(false, Some(AbsentReason), None)
    else
      ComplianceResult(true, None, None)
  }

  /** An absent operator is rejected for every new shift, and the reason
      names the same-shift rule when the new shift is 'A' as well. */
  lemma AbsentAlwaysRejected(next: ShiftCode)
    ensures !CheckCompliance(Absent, next).allowed
    ensures CheckCompliance(Absent, next).reason
         == Some(if next == Absent then AlreadyOnShiftPrefix + Absent else AbsentReason)
  {
  }

  /** Transitions no rule forbids are allowed, with no reason. */
  lemma ComplianceExamples()
    ensures CheckCompliance(Rest, Rest) == ComplianceResult(true, None, None)
    ensures CheckCompliance(Rest, Morning) == ComplianceResult(true, None, None)
    ensures CheckCompliance(Afternoon, Morning) == ComplianceResult(true, None, None)
    ensures CheckCompliance(OffNight, Night) == ComplianceResult(true, None, None)
    ensures CheckCompliance(Night, Night).reason == Some("Già in turno N")
  {
    assert AlreadyOnShiftPrefix + Night == "Già in turno N";
  }

  /** The optional `reqDate` and `operatorSchedule` arguments. */
  datatype Lookahead = Lookahead(reqDate: Option<string>, schedule: Option<Schedule>)

  const NoLookahead: Lookahead := Lookahead(None, None)

  /** Look-ahead data is usable only when both are supplied and the date
      is non-empty (the source tests `reqDate && operatorSchedule`). */
  predicate HasLookahead(ctx: Lookahead) {
    ctx.reqDate.Some? && ctx.reqDate.value != "" && ctx.schedule.Some?
  }

  /** The operator's shift on the day after the request date, where
      `nextDay` is the calendar successor on ISO dates. A missing or empty
      entry, or missing look-ahead data, reads as rest. */
  function NextShift(ctx: Lookahead, nextDay: string -> string): (r: ShiftCode)
    ensures r != ""
    ensures !HasLookahead(ctx) ==> r == Rest
    ensures HasLookahead(ctx) && nextDay(ctx.reqDate.value) !in ctx.schedule.value ==> r == Rest
    ensures HasLookahead(ctx) && nextDay(ctx.reqDate.value) in ctx.schedule.value ==>
      var entry := ctx.schedule.value[nextDay(ctx.reqDate.value)];
      r == if entry != "" then entry else Rest
  {
    if HasLookahead(ctx) then
      var d := nextDay(ctx.reqDate.value);
      var sched := ctx.schedule.value;
      if d in sched && sched[d] != "" then sched[d] else Rest
    else
      Rest
  }

  /** An absent `isNextDay` behaves as false. */
  predicate IsNextDay(role: ReplacementRole) {
    role.isNextDay == Some(true)
  }

  /** An absent or empty `requiredNextShift` imposes nothing. */
  predicate HasRequiredNext(role: ReplacementRole) {
    role.requiredNextShift.Some? && role.requiredNextShift.value != ""
  }

  /** The shift a role is compared and compliance-checked against. */
  function ShiftToCheck(role: ReplacementRole, operatorShift: ShiftCode, next: ShiftCode): ShiftCode {
    if IsNextDay(role) then next else operatorShift
  }

  /** The role's precondition holds: the compared shift is the role's
      `originalShift` (a next-day role needs look-ahead data), and a
      required next shift, if any, is met by look-ahead data. */
  predicate RoleMatches(role: ReplacementRole, operatorShift: ShiftCode, ctx: Lookahead, nextDay: string -> string) {
    var next := NextShift(ctx, nextDay);
    && (if IsNextDay(role) then HasLookahead(ctx) && next == role.originalShift
        else operatorShift == role.originalShift)
    && (HasRequiredNext(role) ==> HasLookahead(ctx) && next == role.requiredNextShift.value)
  }

  /** The role produces a record: it matches and its transition is compliant. */
  predicate RoleEmits(role: ReplacementRole, operatorShift: ShiftCode, ctx: Lookahead, nextDay: string -> string) {
    && RoleMatches(role, operatorShift, ctx, nextDay)
    && CheckCompliance(ShiftToCheck(role, operatorShift, NextShift(ctx, nextDay)), role.newShift).allowed
  }

  /** The record emitted for role `j` of scenario `s`. */
  function RecordOf(s: ReplacementScenario, j: nat): (r: CompatibleScenario)
    requires j < |s.roles|
  {
    CompatibleScenario(s.id, s.scenarioLabel, j, s.roles[j].roleLabel, s.roles[j].newShift, s.roles[j].incentive)
  }

  /** The records produced by roles `0 .. j-1` of one scenario, in role order. */
  function RoleRecords(s: ReplacementScenario, j: nat, operatorShift: ShiftCode, ctx: Lookahead, nextDay: string -> string)
    : seq<CompatibleScenario>
    requires j <= |s.roles|
    decreases j
  {
    if j == 0 then []
    else
      RoleRecords(s, j - 1, operatorShift, ctx, nextDay)
      + (if RoleEmits(s.roles[j - 1], operatorShift, ctx, nextDay) then [RecordOf(s, j - 1)] else [])
  }

  /** Each record of a scenario is the record of one of its emitting roles,
      and records appear in strictly increasing role order. */
  lemma {:induction false} RoleRecordsSound(
    s: ReplacementScenario, j: nat, operatorShift: ShiftCode, ctx: Lookahead, nextDay: string -> string)
    requires j <= |s.roles|
    ensures forall rec :: rec in RoleRecords(s, j, operatorShift, ctx, nextDay) ==>
      && rec.roleIndex < j
      && rec == RecordOf(s, rec.roleIndex)
      && RoleEmits(s.roles[rec.roleIndex], operatorShift, ctx, nextDay)
    ensures forall k1, k2 :: 0 <= k1 < k2 < |RoleRecords(s, j, operatorShift, ctx, nextDay)| ==>
      RoleRecords(s, j, operatorShift, ctx, nextDay)[k1].roleIndex
        < RoleRecords(s, j, operatorShift, ctx, nextDay)[k2].roleIndex
    decreases j
  {
    if j > 0 {
      RoleRecordsSound(s, j - 1, operatorShift, ctx, nextDay);
      var prev := RoleRecords(s, j - 1, operatorShift, ctx, nextDay);
      var last := if RoleEmits(s.roles[j - 1], operatorShift, ctx, nextDay) then [RecordOf(s, j - 1)] else [];
      var all := prev + last;
      assert RoleRecords(s, j, operatorShift, ctx, nextDay) == all;
      forall rec | rec in all
        ensures rec.roleIndex < j && rec == RecordOf(s, rec.roleIndex)
        ensures RoleEmits(s.roles[rec.roleIndex], operatorShift, ctx, nextDay)
      {
        if rec !in prev {
          assert rec in last;
        }
      }
      forall k1, k2 | 0 <= k1 < k2 < |all| ensures all[k1].roleIndex < all[k2].roleIndex {
        assert all[k1] == prev[k1];
        if k2 >= |prev| {
          assert prev[k1] in prev;
          assert all[k2] == RecordOf(s, j - 1);
        } else {
          assert all[k2] == prev[k2];
        }
      }
    }
  }

  /** Every emitting role among the first `j` has its record in the output. */
  lemma {:induction false} RoleRecordsComplete(
    s: ReplacementScenario, j: nat, operatorShift: ShiftCode, ctx: Lookahead, nextDay: string -> string, i: nat)
    requires i < j <= |s.roles|
    requires RoleEmits(s.roles[i], operatorShift, ctx, nextDay)
    ensures RecordOf(s, i) in RoleRecords(s, j, operatorShift, ctx, nextDay)
    decreases j
  {
    if i < j - 1 {
      RoleRecordsComplete(s, j - 1, operatorShift, ctx, nextDay, i);
    }
  }

  /** How many of the first `j` roles of a scenario emit. */
  function EmittingRoles(s: ReplacementScenario, j: nat, operatorShift: ShiftCode, ctx: Lookahead, nextDay: string -> string): nat
    requires j <= |s.roles|
  {
    if j == 0 then 0
    else
      var here := if RoleEmits(s.roles[j - 1], operatorShift, ctx, nextDay) then 1 else 0;
      EmittingRoles(s, j - 1, operatorShift, ctx, nextDay) + here
  }

  /** No deduplication inside a scenario: one record per emitting role. */
  lemma {:induction false} RoleRecordsCount(
    s: ReplacementScenario, j: nat, operatorShift: ShiftCode, ctx: Lookahead, nextDay: string -> string)
    requires j <= |s.roles|
    ensures |RoleRecords(s, j, operatorShift, ctx, nextDay)| == EmittingRoles(s, j, operatorShift, ctx, nextDay)
  {
    if j > 0 {
      RoleRecordsCount(s, j - 1, operatorShift, ctx, nextDay);
    }
  }

  lemma {:induction false} EmittingRolesOnly(
    s: ReplacementScenario, j: nat, operatorShift: ShiftCode, ctx: Lookahead, nextDay: string -> string, only: Option<nat>)
    requires j <= |s.roles|
    requires forall i :: 0 <= i < |s.roles| ==>
      (RoleEmits(s.roles[i], operatorShift, ctx, nextDay) <==> only == Some(i))
    ensures EmittingRoles(s, j, operatorShift, ctx, nextDay) == if only.Some? && only.value < j then 1 else 0
  {
    if j > 0 {
      EmittingRolesOnly(s, j - 1, operatorShift, ctx, nextDay, only);
    }
  }

  /** When exactly one role of a scenario emits, the scenario contributes
      exactly that role's record; when none does, it contributes nothing. */
  lemma RoleRecordsAtMostOne(
    s: ReplacementScenario, operatorShift: ShiftCode, ctx: Lookahead, nextDay: string -> string, only: Option<nat>)
    requires only.Some? ==> only.value < |s.roles|
    requires forall i :: 0 <= i < |s.roles| ==>
      (RoleEmits(s.roles[i], operatorShift, ctx, nextDay) <==> only == Some(i))
    ensures RoleRecords(s, |s.roles|, operatorShift, ctx, nextDay)
         == if only.Some? then [RecordOf(s, only.value)] else []
  {
    var r := RoleRecords(s, |s.roles|, operatorShift, ctx, nextDay);
    RoleRecordsCount(s, |s.roles|, operatorShift, ctx, nextDay);
    EmittingRolesOnly(s, |s.roles|, operatorShift, ctx, nextDay, only);
    if only.Some? {
      RoleRecordsSound(s, |s.roles|, operatorShift, ctx, nextDay);
      assert r[0] in r;
    }
  }

  /** `rec` is the record of some role of some scenario of `table` that
      solves `target` and emits for this operator. */
  ghost predicate Produced(
    table: seq<ReplacementScenario>, target: ShiftCode, operatorShift: ShiftCode,
    ctx: Lookahead, nextDay: string -> string, rec: CompatibleScenario)
  {
    exists i, j :: 0 <= i < |table| && 0 <= j < |table[i].roles|
      && table[i].targetShift == target
      && rec == RecordOf(table[i], j)
      && RoleEmits(table[i].roles[j], operatorShift, ctx, nextDay)
  }

  /** `getCompatibleScenarios`: the records of every (scenario, role)
      pair the operator qualifies for, in table order then role order,
      without deduplication. */
  function CompatibleScenarios(
    table: seq<ReplacementScenario>, target: ShiftCode, operatorShift: ShiftCode,
    ctx: Lookahead, nextDay: string -> string)
    : seq<CompatibleScenario>
    decreases |table|
  {
    if |table| == 0 then []
    else
      CompatibleScenarios(table[..|table| - 1], target, operatorShift, ctx, nextDay)
      + ScenarioRecords(table[|table| - 1], target, operatorShift, ctx, nextDay)
  }

  /** The records one scenario contributes: none unless it solves `target`. */
  function ScenarioRecords(
    s: ReplacementScenario, target: ShiftCode, operatorShift: ShiftCode,
    ctx: Lookahead, nextDay: string -> string)
    : seq<CompatibleScenario>
  {
    if s.targetShift == target then RoleRecords(s, |s.roles|, operatorShift, ctx, nextDay) else []
  }

  /** Appending one scenario to the table appends its records. */
  lemma CompatibleScenariosSnoc(
    table: seq<ReplacementScenario>, s: ReplacementScenario, target: ShiftCode, operatorShift: ShiftCode,
    ctx: Lookahead, nextDay: string -> string)
    ensures CompatibleScenarios(table + [s], target, operatorShift, ctx, nextDay)
         == CompatibleScenarios(table, target, operatorShift, ctx, nextDay)
          + ScenarioRecords(s, target, operatorShift, ctx, nextDay)
  {
    assert (table + [s])[..|table|] == table;
  }

  /** Scenarios for other shortages contribute nothing. */
  lemma {:induction false} OtherTargetsContributeNothing(
    table: seq<ReplacementScenario>, target: ShiftCode, operatorShift: ShiftCode,
    ctx: Lookahead, nextDay: string -> string)
    requires forall i :: 0 <= i < |table| ==> table[i].targetShift != target
    ensures CompatibleScenarios(table, target, operatorShift, ctx, nextDay) == []
    decreases |table|
  {
    if |table| > 0 {
      OtherTargetsContributeNothing(table[..|table| - 1], target, operatorShift, ctx, nextDay);
    }
  }

  /** Every emitted record is the record of an emitting role of a scenario
      whose target is the requested shift: its `roleIndex` is the role's
      position, and the role matched and passed the compliance check. */
  lemma {:induction false} CompatibleScenariosSound(
    table: seq<ReplacementScenario>, target: ShiftCode, operatorShift: ShiftCode,
    ctx: Lookahead, nextDay: string -> string)
    ensures forall rec :: (rec in CompatibleScenarios(table, target, operatorShift, ctx, nextDay)
      ==> Produced(table, target, operatorShift, ctx, nextDay, rec))
    decreases |table|
  {
    if |table| > 0 {
      var n := |table| - 1;
      var init := table[..n];
      var s := table[n];
      CompatibleScenariosSound(init, target, operatorShift, ctx, nextDay);
      RoleRecordsSound(s, |s.roles|, operatorShift, ctx, nextDay);
      var prev := CompatibleScenarios(init, target, operatorShift, ctx, nextDay);
      var here := ScenarioRecords(s, target, operatorShift, ctx, nextDay);
      assert CompatibleScenarios(table, target, operatorShift, ctx, nextDay) == prev + here;
      forall rec | rec in prev + here
        ensures Produced(table, target, operatorShift, ctx, nextDay, rec)
      {
        if rec in prev {
          assert Produced(init, target, operatorShift, ctx, nextDay, rec);
          var i, j :| 0 <= i < |init| && 0 <= j < |init[i].roles|
            && init[i].targetShift == target
            && rec == RecordOf(init[i], j)
            && RoleEmits(init[i].roles[j], operatorShift, ctx, nextDay);
          assert init[i] == table[i];
        } else {
          assert s.targetShift == target;
          var j := rec.roleIndex;
          assert table[n] == s;
          assert rec == RecordOf(table[n], j);
        }
      }
    }
  }

  /** Every emitting role of a scenario solving the target has its record
      in the output. */
  lemma {:induction false} CompatibleScenariosComplete(
    table: seq<ReplacementScenario>, target: ShiftCode, operatorShift: ShiftCode,
    ctx: Lookahead, nextDay: string -> string, i: nat, j: nat)
    requires i < |table| && j < |table[i].roles|
    requires table[i].targetShift == target
    requires RoleEmits(table[i].roles[j], operatorShift, ctx, nextDay)
    ensures RecordOf(table[i], j) in CompatibleScenarios(table, target, operatorShift, ctx, nextDay)
    decreases |table|
  {
    var n := |table| - 1;
    var front := table[..n];
    var out := CompatibleScenarios(table, target, operatorShift, ctx, nextDay);
    assert out == CompatibleScenarios(front, target, operatorShift, ctx, nextDay)
                + ScenarioRecords(table[n], target, operatorShift, ctx, nextDay);
    if i < n {
      assert front[i] == table[i];
      CompatibleScenariosComplete(front, target, operatorShift, ctx, nextDay, i, j);
    } else {
      RoleRecordsComplete(table[n], |table[n].roles|, operatorShift, ctx, nextDay, j);
    }
  }

  /** Scenario order is preserved: the records for a table split in two
      are the records of the first part followed by those of the second. */
  lemma {:induction false} CompatibleScenariosAppend(
    t1: seq<ReplacementScenario>, t2: seq<ReplacementScenario>, target: ShiftCode,
    operatorShift: ShiftCode, ctx: Lookahead, nextDay: string -> string)
    ensures CompatibleScenarios(t1 + t2, target, operatorShift, ctx, nextDay)
         == CompatibleScenarios(t1, target, operatorShift, ctx, nextDay)
          + CompatibleScenarios(t2, target, operatorShift, ctx, nextDay)
    decreases |t2|
  {
    if |t2| == 0 {
      assert t1 + t2 == t1;
    } else {
      var n := |t2| - 1;
      var front, last := t2[..n], t2[n];
      assert t2 == front + [last];
      assert t1 + t2 == (t1 + front) + [last];
      calc {
        CompatibleScenarios(t1 + t2, target, operatorShift, ctx, nextDay);
        { CompatibleScenariosSnoc(t1 + front, last, target, operatorShift, ctx, nextDay); }
        CompatibleScenarios(t1 + front, target, operatorShift, ctx, nextDay)
          + ScenarioRecords(last, target, operatorShift, ctx, nextDay);
        { CompatibleScenariosAppend(t1, front, target, operatorShift, ctx, nextDay); }
        CompatibleScenarios(t1, target, operatorShift, ctx, nextDay)
          + (CompatibleScenarios(front, target, operatorShift, ctx, nextDay)
          + ScenarioRecords(last, target, operatorShift, ctx, nextDay));
        { CompatibleScenariosSnoc(front, last, target, operatorShift, ctx, nextDay); }
        CompatibleScenarios(t1, target, operatorShift, ctx, nextDay)
          + CompatibleScenarios(t2, target, operatorShift, ctx, nextDay);
      }
    }
  }

  /** Without look-ahead data, only same-day roles without a required next
      shift can produce a record, and they compare `operatorShift`. */
  lemma NoLookaheadOnlyPlainRoles(role: ReplacementRole, operatorShift: ShiftCode, ctx: Lookahead, nextDay: string -> string)
    requires !HasLookahead(ctx)
    ensures RoleEmits(role, operatorShift, ctx, nextDay) <==>
      && !IsNextDay(role) && !HasRequiredNext(role)
      && operatorShift == role.originalShift
      && CheckCompliance(operatorShift, role.newShift).allowed
  {
  }

  /** With look-ahead data, a next-day role is compared and checked against
      the schedule entry for the following date ('R' if missing), whatever
      the operator's current shift. */
  lemma NextDayRoleUsesSchedule(role: ReplacementRole, operatorShift: ShiftCode, ctx: Lookahead, nextDay: string -> string)
    requires HasLookahead(ctx) && IsNextDay(role) && !HasRequiredNext(role)
    ensures RoleEmits(role, operatorShift, ctx, nextDay) <==>
      var d := nextDay(ctx.reqDate.value);
      var next := if d in ctx.schedule.value && ctx.schedule.value[d] != "" then ctx.schedule.value[d] else Rest;
      next == role.originalShift && CheckCompliance(next, role.newShift).allowed
  {
  }

  /** Without look-ahead data the calendar successor plays no part. */
  lemma {:induction false} NoLookaheadIgnoresCalendar(
    table: seq<ReplacementScenario>, target: ShiftCode, operatorShift: ShiftCode,
    ctx: Lookahead, f: string -> string, g: string -> string)
    requires !HasLookahead(ctx)
    ensures CompatibleScenarios(table, target, operatorShift, ctx, f)
         == CompatibleScenarios(table, target, operatorShift, ctx, g)
    decreases |table|
  {
    if |table| > 0 {
      var n := |table| - 1;
      NoLookaheadIgnoresCalendar(table[..n], target, operatorShift, ctx, f, g);
      RoleRecordsIgnoreCalendar(table[n], |table[n].roles|, operatorShift, ctx, f, g);
    }
  }

  lemma {:induction false} RoleRecordsIgnoreCalendar(
    s: ReplacementScenario, j: nat, operatorShift: ShiftCode,
    ctx: Lookahead, f: string -> string, g: string -> string)
    requires !HasLookahead(ctx) && j <= |s.roles|
    ensures RoleRecords(s, j, operatorShift, ctx, f) == RoleRecords(s, j, operatorShift, ctx, g)
    decreases j
  {
    if j > 0 {
      RoleRecordsIgnoreCalendar(s, j - 1, operatorShift, ctx, f, g);
    }
  }

  /** The engine written as the source writes it: the next-day shift is
      computed once, then scenarios solving the target and their roles are
      visited in order, each role's match, look-ahead requirement and
      compliance checked in turn. It computes exactly `CompatibleScenarios`. */
  method GetCompatibleScenarios(
    table: seq<ReplacementScenario>, target: ShiftCode, operatorShift: ShiftCode,
    ctx: Lookahead, nextDay: string -> string)
    returns (valid: seq<CompatibleScenario>)
    ensures valid == CompatibleScenarios(table, target, operatorShift, ctx, nextDay)
  {
    valid := [];
    var haveData := ctx.reqDate.Some? && ctx.reqDate.value != "" && ctx.schedule.Some?;
    var nextShift: ShiftCode := Rest;
    if haveData {
      var d := nextDay(ctx.reqDate.value);
      var sched := ctx.schedule.value;
      nextShift := if d in sched && sched[d] != "" then sched[d] else Rest;
    }
    var i := 0;
    while i < |table|
      invariant 0 <= i <= |table|
      invariant valid == CompatibleScenarios(table[..i], target, operatorShift, ctx, nextDay)
    {
      var scenario := table[i];
      if scenario.targetShift == target {
        valid := PushRoleRecords(valid, scenario, operatorShift, haveData, nextShift, ctx, nextDay);
      }
      CompatibleScenariosSnoc(table[..i], table[i], target, operatorShift, ctx, nextDay);
      assert table[..i + 1] == table[..i] + [table[i]];
      i := i + 1;
    }
    assert table[..|table|] == table;
  }

  /** The inner loop over one scenario's roles: the record of each
      emitting role is pushed onto `valid`, in role order. */
  method PushRoleRecords(
    valid: seq<CompatibleScenario>, scenario: ReplacementScenario, operatorShift: ShiftCode,
    haveData: bool, nextShift: ShiftCode, ctx: Lookahead, nextDay: string -> string)
    returns (r: seq<CompatibleScenario>)
    requires haveData == HasLookahead(ctx) && nextShift == NextShift(ctx, nextDay)
    ensures r == valid + RoleRecords(scenario, |scenario.roles|, operatorShift, ctx, nextDay)
  {
    r := valid;
    var index := 0;
    while index < |scenario.roles|
      invariant 0 <= index <= |scenario.roles|
      invariant r == valid + RoleRecords(scenario, index, operatorShift, ctx, nextDay)
    {
      var role := scenario.roles[index];
      var emit := RoleCheck(role, operatorShift, haveData, nextShift, ctx, nextDay);
      if emit {
        r := r + [CompatibleScenario(scenario.id, scenario.scenarioLabel, index, role.roleLabel, role.newShift, role.incentive)];
      }
      index := index + 1;
    }
  }

  /** The body of the inner loop for one role: the match on the compared
      shift, the look-ahead requirement, then the compliance check. With
      `haveData` and `nextShift` computed as the engine computes them, it
      decides exactly `RoleEmits`. */
  method RoleCheck(
    role: ReplacementRole, operatorShift: ShiftCode, haveData: bool, nextShift: ShiftCode,
    ctx: Lookahead, nextDay: string -> string)
    returns (emit: bool)
    requires haveData == HasLookahead(ctx) && nextShift == NextShift(ctx, nextDay)
    ensures emit <==> RoleEmits(role, operatorShift, ctx, nextDay)
  {
    var isMatch := false;
    if role.isNextDay == Some(true) {
      if haveData {
        isMatch := nextShift == role.originalShift;
      }
    } else {
      isMatch := operatorShift == role.originalShift;
    }
    if isMatch && role.requiredNextShift.Some? && role.requiredNextShift.value != "" {
      if !haveData || nextShift != role.requiredNextShift.value {
        isMatch := false;
      }
    }
    emit := false;
    if isMatch {
      var shiftToCheck := if role.isNextDay == Some(true) then nextShift else operatorShift;
      var compliance := CheckCompliance(shiftToCheck, role.newShift);
      emit := compliance.allowed;
    }
  }
}
