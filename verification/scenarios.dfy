/** The default rule table `REPLACEMENT_SCENARIOS` (src/config/sheets.ts)
    and what follows from its contents when it is handed to the engine. */
module Scenarios {
  import opened Text
  import opened Models
  import opened ShiftLogic

  function Plain(roleLabel: string, from: ShiftCode, to: ShiftCode, incentive: string): ReplacementRole {
    ReplacementRole(roleLabel, from, to, incentive, None, None)
  }

  // Morning shortage
  const M1: ReplacementScenario := ReplacementScenario("M1", Morning, "1-Copertura Singola (R ➔ M)", [
    Plain("Personale a riposo (R) che copre la mattina", Rest, Morning, "Straordinario incentivato M (07:00-14:00)")])

  const M2: ReplacementScenario := ReplacementScenario("M2", Morning, "2-Copertura Combinata 2 Operatori (MP + N12)", [
    Plain("Personale di pomeriggio (P) che anticipa (MP)", Afternoon, DoubleShift, "Straordinario incentivato M (07:00-14:00)"),
    Plain("Personale di notte (N) che prolunga (N12)", Night, LongNight, "Straordinario incentivato 19:00-21:00")])

  const M3: ReplacementScenario := ReplacementScenario("M3", Morning, "3-Copertura Combinata 3 Operatori (MP + P➔M + N12)", [
    Plain("Personale di mattina (M) che prolunga (MP)", Morning, DoubleShift, "Straordinario incentivato P (14:00-19:00)"),
    Plain("Personale di pomeriggio (P) che anticipa (M)", Morning, Morning, "Copertura Turno Mattina"),
    Plain("Personale di notte (N) che prolunga (N12)", Night, LongNight, "Straordinario incentivato 19:00-21:00")])

  const M4: ReplacementScenario := ReplacementScenario("M4", Morning, "4-Copertura Combinata 3 Operatori (P➔M + N➔P + S➔N)", [
    Plain("Personale di pomeriggio (P) che anticipa (M)", Afternoon, Morning, "Copertura Turno Mattina"),
    Plain("Personale di notte (N) che anticipa (P)", Night, Afternoon, "Copertura Turno Pomeriggio"),
    ReplacementRole("Personale di smonto (S) che copre la notte (N)", OffNight, Night,
      "Straordinario incentivato N (21:00-07:00)", None, Some(Rest))])

  // Afternoon shortage
  const P1: ReplacementScenario := ReplacementScenario("P1", Afternoon, "1-Copertura Combinata 2 Operatori (R ➔ P+N11)", [
    Plain("Personale a riposo (R) che copre il pomeriggio", Rest, Afternoon, "Straordinario incentivato P (19:00-20:00)"),
    Plain("Personale in turno notte (N) che anticipa (N11)", Night, EarlyNight, "Straordinario incentivato 20:00-21:00")])

  const P2: ReplacementScenario := ReplacementScenario("P2", Afternoon, "2-Copertura Combinata 2 Operatori (MP+N12)", [
    Plain("Personale di mattina (M) che prolunga (MP)", Morning, DoubleShift, "Straordinario incentivato P (19:00-20:00)"),
    Plain("Personale di notte (N) che prolunga (N12)", Night, LongNight, "Straordinario incentivato 19:00-21:00")])

  const P3: ReplacementScenario := ReplacementScenario("P3", Afternoon, "3-Copertura Combinata 2 Operatori (N ➔ P + S ➔ N)", [
    Plain("Personale di notte (N) che anticipa il pomeriggio", Night, Afternoon, "Copertura Turno Pomeriggio"),
    ReplacementRole("Personale di smonto (S) che copre la notte (N)", OffNight, Night,
      "Straordinario incentivato N (21:00-07:00)", None, Some(Rest))])

  // Night shortage
  const N1: ReplacementScenario := ReplacementScenario("N1", Night, "Sostituzione da Turno S (S ➔ N)", [
    ReplacementRole("Personale di smonto che può fare la notte", OffNight, Night,
      "Straordinario incentivato N (21:00-07:00)", None, Some(Rest))])

  const N2: ReplacementScenario := ReplacementScenario("N2", Night, "Sostituzione Combinata R + R+1", [
    Plain("Personale a riposo (R) che copre la notte", Rest, Night, "Copertura Turno Notte"),
    ReplacementRole("Personale a riposo domani che anticipa la mattina", Rest, Morning,
      "Straordinario incentivato M (07:00-14:00)", Some(true), None)])

  /** `REPLACEMENT_SCENARIOS`, in table order. */
  const DefaultScenarios: seq<ReplacementScenario> := [M1, M2, M3, M4, P1, P2, P3, N1, N2]

  /** Every scenario has at least one role, and the nine ids are distinct. */
  lemma DefaultWellFormed()
    ensures |DefaultScenarios| == 9
    ensures forall i :: 0 <= i < |DefaultScenarios| ==> |DefaultScenarios[i].roles| > 0
    ensures forall i, j :: 0 <= i < j < |DefaultScenarios| ==> DefaultScenarios[i].id != DefaultScenarios[j].id
  {
  }

  /** Scenarios are grouped by target: four morning, three afternoon, two night. */
  lemma DefaultTargetsGrouped()
    ensures forall i :: 0 <= i < 4 ==> DefaultScenarios[i].targetShift == Morning
    ensures forall i :: 4 <= i < 7 ==> DefaultScenarios[i].targetShift == Afternoon
    ensures forall i :: 7 <= i < 9 ==> DefaultScenarios[i].targetShift == Night
  {
  }

  /** The only next-day role is N2's second role, R -> M. */
  lemma OnlyN2HasNextDayRole(i: nat, j: nat)
    requires i < |DefaultScenarios| && j < |DefaultScenarios[i].roles|
    ensures IsNextDay(DefaultScenarios[i].roles[j]) <==> i == 8 && j == 1
    ensures i == 8 && j == 1 ==>
      DefaultScenarios[i].roles[j].originalShift == Rest && DefaultScenarios[i].roles[j].newShift == Morning
  {
  }

  /** `requiredNextShift` is set only to 'R', only on S -> N roles:
      M4's third, P3's second and N1's only role. */
  lemma RequiredNextOnlyOnOffNightRoles(i: nat, j: nat)
    requires i < |DefaultScenarios| && j < |DefaultScenarios[i].roles|
    ensures HasRequiredNext(DefaultScenarios[i].roles[j]) <==> (i, j) in {(3, 2), (6, 1), (7, 0)}
    ensures DefaultScenarios[i].roles[j].requiredNextShift.Some? ==>
      && DefaultScenarios[i].roles[j].requiredNextShift.value == Rest
      && DefaultScenarios[i].roles[j].originalShift == OffNight
      && DefaultScenarios[i].roles[j].newShift == Night
  {
  }

  /** The compliance rules about post-night mornings and absence never
      apply to a role of the table; the only transition compliance rejects
      is M3's second role, M -> M. */
  lemma OnlyM3SecondRoleIsNonCompliant(i: nat, j: nat)
    requires i < |DefaultScenarios| && j < |DefaultScenarios[i].roles|
    ensures DefaultScenarios[i].roles[j].originalShift != Absent
    ensures !(DefaultScenarios[i].roles[j].originalShift == Night && DefaultScenarios[i].roles[j].newShift == Morning)
    ensures !CheckCompliance(DefaultScenarios[i].roles[j].originalShift, DefaultScenarios[i].roles[j].newShift).allowed
        <==> i == 2 && j == 1
  {
  }

  /** On this table a role emits exactly when it matches, except M3's
      second role, which never emits: a match has compared shift equal to
      `originalShift`, so its compliance check is on the role's own
      transition. */
  lemma DefaultEmitsIffMatches(i: nat, j: nat, operatorShift: ShiftCode, ctx: Lookahead, nextDay: string -> string)
    requires i < |DefaultScenarios| && j < |DefaultScenarios[i].roles|
    ensures RoleEmits(DefaultScenarios[i].roles[j], operatorShift, ctx, nextDay)
        <==> RoleMatches(DefaultScenarios[i].roles[j], operatorShift, ctx, nextDay) && !(i == 2 && j == 1)
  {
    var role := DefaultScenarios[i].roles[j];
    if RoleMatches(role, operatorShift, ctx, nextDay) {
      assert ShiftToCheck(role, operatorShift, NextShift(ctx, nextDay)) == role.originalShift;
      OnlyM3SecondRoleIsNonCompliant(i, j);
    }
  }

  /** M3's second role (originalShift = newShift = 'M') is never produced,
      whatever the shortage, the operator's shift and the look-ahead data. */
  lemma M3SecondRoleNeverEmitted(target: ShiftCode, operatorShift: ShiftCode, ctx: Lookahead, nextDay: string -> string)
    ensures forall rec :: (rec in CompatibleScenarios(DefaultScenarios, target, operatorShift, ctx, nextDay)
      ==> !(rec.scenarioId == "M3" && rec.roleIndex == 1))
  {
    CompatibleScenariosSound(DefaultScenarios, target, operatorShift, ctx, nextDay);
    forall rec | rec in CompatibleScenarios(DefaultScenarios, target, operatorShift, ctx, nextDay)
      ensures !(rec.scenarioId == "M3" && rec.roleIndex == 1)
    {
      var i, j :| 0 <= i < |DefaultScenarios| && 0 <= j < |DefaultScenarios[i].roles|
        && DefaultScenarios[i].targetShift == target
        && rec == RecordOf(DefaultScenarios[i], j)
        && RoleEmits(DefaultScenarios[i].roles[j], operatorShift, ctx, nextDay);
      DefaultEmitsIffMatches(i, j, operatorShift, ctx, nextDay);
      OnlyM3IsM3(i);
    }
  }

  lemma OnlyM3IsM3(i: nat)
    requires i < |DefaultScenarios|
    ensures DefaultScenarios[i].id == "M3" <==> i == 2
  {
  }

  /** A two-scenario table's output, scenario by scenario. */
  lemma TwoRecords(
    s0: ReplacementScenario, s1: ReplacementScenario,
    target: ShiftCode, operatorShift: ShiftCode, ctx: Lookahead, nextDay: string -> string)
    ensures CompatibleScenarios([s0, s1], target, operatorShift, ctx, nextDay)
         == ScenarioRecords(s0, target, operatorShift, ctx, nextDay)
          + ScenarioRecords(s1, target, operatorShift, ctx, nextDay)
  {
    assert [s0] == [] + [s0];
    CompatibleScenariosSnoc([], s0, target, operatorShift, ctx, nextDay);
    assert [s0, s1] == [s0] + [s1];
    CompatibleScenariosSnoc([s0], s1, target, operatorShift, ctx, nextDay);
  }

  /** A four-scenario table's output, scenario by scenario. */
  lemma FourRecords(
    s0: ReplacementScenario, s1: ReplacementScenario, s2: ReplacementScenario, s3: ReplacementScenario,
    target: ShiftCode, operatorShift: ShiftCode, ctx: Lookahead, nextDay: string -> string)
    ensures CompatibleScenarios([s0, s1, s2, s3], target, operatorShift, ctx, nextDay)
         == ScenarioRecords(s0, target, operatorShift, ctx, nextDay)
          + ScenarioRecords(s1, target, operatorShift, ctx, nextDay)
          + ScenarioRecords(s2, target, operatorShift, ctx, nextDay)
          + ScenarioRecords(s3, target, operatorShift, ctx, nextDay)
  {
    assert [s0, s1, s2, s3] == [s0, s1] + [s2, s3];
    CompatibleScenariosAppend([s0, s1], [s2, s3], target, operatorShift, ctx, nextDay);
    TwoRecords(s0, s1, target, operatorShift, ctx, nextDay);
    TwoRecords(s2, s3, target, operatorShift, ctx, nextDay);
  }

  /** The table by shortage: morning, afternoon and night scenarios. */
  const MorningTable: seq<ReplacementScenario> := [M1, M2, M3, M4]
  const AfternoonTable: seq<ReplacementScenario> := [P1, P2, P3]
  const NightTable: seq<ReplacementScenario> := [N1, N2]

  lemma DefaultSplit()
    ensures DefaultScenarios == MorningTable + (AfternoonTable + NightTable)
    ensures DefaultScenarios == (MorningTable + AfternoonTable) + NightTable
  {
  }

  /** Scenarios for another shortage after the relevant ones add nothing. */
  lemma OnlyPrefixContributes(
    t1: seq<ReplacementScenario>, t2: seq<ReplacementScenario>,
    target: ShiftCode, operatorShift: ShiftCode, ctx: Lookahead, nextDay: string -> string)
    requires forall i :: 0 <= i < |t2| ==> t2[i].targetShift != target
    ensures CompatibleScenarios(t1 + t2, target, operatorShift, ctx, nextDay)
         == CompatibleScenarios(t1, target, operatorShift, ctx, nextDay)
  {
    CompatibleScenariosAppend(t1, t2, target, operatorShift, ctx, nextDay);
    OtherTargetsContributeNothing(t2, target, operatorShift, ctx, nextDay);
    assert CompatibleScenarios(t1, target, operatorShift, ctx, nextDay) + [] == CompatibleScenarios(t1, target, operatorShift, ctx, nextDay);
  }

  /** Scenarios for another shortage before the relevant ones add nothing. */
  lemma OnlySuffixContributes(
    t1: seq<ReplacementScenario>, t2: seq<ReplacementScenario>,
    target: ShiftCode, operatorShift: ShiftCode, ctx: Lookahead, nextDay: string -> string)
    requires forall i :: 0 <= i < |t1| ==> t1[i].targetShift != target
    ensures CompatibleScenarios(t1 + t2, target, operatorShift, ctx, nextDay)
         == CompatibleScenarios(t2, target, operatorShift, ctx, nextDay)
  {
    CompatibleScenariosAppend(t1, t2, target, operatorShift, ctx, nextDay);
    OtherTargetsContributeNothing(t1, target, operatorShift, ctx, nextDay);
    assert [] + CompatibleScenarios(t2, target, operatorShift, ctx, nextDay) == CompatibleScenarios(t2, target, operatorShift, ctx, nextDay);
  }

  /** For a morning shortage only the four morning scenarios contribute. */
  lemma MorningRecords(operatorShift: ShiftCode, ctx: Lookahead, nextDay: string -> string)
    ensures CompatibleScenarios(DefaultScenarios, Morning, operatorShift, ctx, nextDay)
         == RoleRecords(M1, |M1.roles|, operatorShift, ctx, nextDay)
          + RoleRecords(M2, |M2.roles|, operatorShift, ctx, nextDay)
          + RoleRecords(M3, |M3.roles|, operatorShift, ctx, nextDay)
          + RoleRecords(M4, |M4.roles|, operatorShift, ctx, nextDay)
  {
    DefaultSplit();
    var rest := AfternoonTable + NightTable;
    assert forall i :: 0 <= i < |rest| ==> rest[i].targetShift != Morning;
    OnlyPrefixContributes(MorningTable, rest, Morning, operatorShift, ctx, nextDay);
    FourRecords(M1, M2, M3, M4, Morning, operatorShift, ctx, nextDay);
  }

  /** For a night shortage only N1 and N2 contribute. */
  lemma NightRecords(operatorShift: ShiftCode, ctx: Lookahead, nextDay: string -> string)
    ensures CompatibleScenarios(DefaultScenarios, Night, operatorShift, ctx, nextDay)
         == RoleRecords(N1, |N1.roles|, operatorShift, ctx, nextDay)
          + RoleRecords(N2, |N2.roles|, operatorShift, ctx, nextDay)
  {
    DefaultSplit();
    var before := MorningTable + AfternoonTable;
    assert forall i :: 0 <= i < |before| ==> before[i].targetShift != Night;
    OnlySuffixContributes(before, NightTable, Night, operatorShift, ctx, nextDay);
    TwoRecords(N1, N2, Night, operatorShift, ctx, nextDay);
  }

  /** Morning shortage, operator at rest: only M1 applies. */
  lemma RestOperatorCoversMorningViaM1(nextDay: string -> string)
    ensures CompatibleScenarios(DefaultScenarios, Morning, Rest, NoLookahead, nextDay)
         == [RecordOf(M1, 0)]
  {
    MorningRecords(Rest, NoLookahead, nextDay);
    M1ForRest(nextDay);
    M2ForRest(nextDay);
    M3ForRest(nextDay);
    M4ForRest(nextDay);
  }

  lemma M1ForRest(nextDay: string -> string)
    ensures RoleRecords(M1, |M1.roles|, Rest, NoLookahead, nextDay) == [RecordOf(M1, 0)]
  {
    RoleRecordsAtMostOne(M1, Rest, NoLookahead, nextDay, Some(0));
  }

  lemma M2ForRest(nextDay: string -> string)
    ensures RoleRecords(M2, |M2.roles|, Rest, NoLookahead, nextDay) == []
  {
    RoleRecordsAtMostOne(M2, Rest, NoLookahead, nextDay, None);
  }

  lemma M3ForRest(nextDay: string -> string)
    ensures RoleRecords(M3, |M3.roles|, Rest, NoLookahead, nextDay) == []
  {
    RoleRecordsAtMostOne(M3, Rest, NoLookahead, nextDay, None);
  }

  lemma M4ForRest(nextDay: string -> string)
    ensures RoleRecords(M4, |M4.roles|, Rest, NoLookahead, nextDay) == []
  {
    RoleRecordsAtMostOne(M4, Rest, NoLookahead, nextDay, None);
  }

  /** Morning shortage, operator on nights: three independent offers
      (M2, M3 and M4 each have an N role); nothing is deduplicated. */
  lemma NightOperatorGetsThreeMorningOffers(nextDay: string -> string)
    ensures CompatibleScenarios(DefaultScenarios, Morning, Night, NoLookahead, nextDay)
         == [RecordOf(M2, 1), RecordOf(M3, 2), RecordOf(M4, 1)]
  {
    MorningRecords(Night, NoLookahead, nextDay);
    M1ForNight(nextDay);
    M2ForNight(nextDay);
    M3ForNight(nextDay);
    M4ForNight(nextDay);
  }

  lemma M1ForNight(nextDay: string -> string)
    ensures RoleRecords(M1, |M1.roles|, Night, NoLookahead, nextDay) == []
  {
    RoleRecordsAtMostOne(M1, Night, NoLookahead, nextDay, None);
  }

  lemma M2ForNight(nextDay: string -> string)
    ensures RoleRecords(M2, |M2.roles|, Night, NoLookahead, nextDay) == [RecordOf(M2, 1)]
  {
    RoleRecordsAtMostOne(M2, Night, NoLookahead, nextDay, Some(1));
  }

  lemma M3ForNight(nextDay: string -> string)
    ensures RoleRecords(M3, |M3.roles|, Night, NoLookahead, nextDay) == [RecordOf(M3, 2)]
  {
    RoleRecordsAtMostOne(M3, Night, NoLookahead, nextDay, Some(2));
  }

  lemma M4ForNight(nextDay: string -> string)
    ensures RoleRecords(M4, |M4.roles|, Night, NoLookahead, nextDay) == [RecordOf(M4, 1)]
  {
    RoleRecordsAtMostOne(M4, Night, NoLookahead, nextDay, Some(1));
  }

  /** Night shortage, operator coming off a night: without look-ahead data
      nothing is offered, since both N1 and N2 need the next day. */
  lemma OffNightOperatorWithoutLookahead(nextDay: string -> string)
    ensures CompatibleScenarios(DefaultScenarios, Night, OffNight, NoLookahead, nextDay) == []
  {
    NightRecords(OffNight, NoLookahead, nextDay);
    RoleRecordsAtMostOne(N1, OffNight, NoLookahead, nextDay, None);
    RoleRecordsAtMostOne(N2, OffNight, NoLookahead, nextDay, None);
  }

  /** Night shortage, operator coming off a night, next day without an entry
      (read as rest): N1 is offered for today, and N2's next-day role is
      offered too, because it compares only tomorrow's shift. */
  lemma OffNightOperatorWithLookahead(date: string, nextDay: string -> string)
    requires date != ""
    ensures CompatibleScenarios(DefaultScenarios, Night, OffNight, Lookahead(Some(date), Some(map[])), nextDay)
         == [RecordOf(N1, 0), RecordOf(N2, 1)]
  {
    var ctx := Lookahead(Some(date), Some(map[]));
    NightRecords(OffNight, ctx, nextDay);
    NightScenariosWithLookahead(date, nextDay);
  }

  lemma NightScenariosWithLookahead(date: string, nextDay: string -> string)
    requires date != ""
    ensures RoleRecords(N1, |N1.roles|, OffNight, Lookahead(Some(date), Some(map[])), nextDay) == [RecordOf(N1, 0)]
    ensures RoleRecords(N2, |N2.roles|, OffNight, Lookahead(Some(date), Some(map[])), nextDay) == [RecordOf(N2, 1)]
  {
    var ctx := Lookahead(Some(date), Some(map[]));
    assert NextShift(ctx, nextDay) == Rest;
    RoleRecordsAtMostOne(N1, OffNight, ctx, nextDay, Some(0));
    RoleRecordsAtMostOne(N2, OffNight, ctx, nextDay, Some(1));
  }
}
