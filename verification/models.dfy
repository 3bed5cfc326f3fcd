/** The entities of the scheduling app that the engine and its callers
    exchange (src/types/models.ts). Optional TypeScript fields become
    `Option`; timestamps are plain integers supplied by the caller. */
module Models {
  import opened Text

  /** A shift code: nine named codes plus arbitrary site-specific strings,
      so it is an open string compared only by equality. */
  type ShiftCode = string

  const Morning: ShiftCode := "M"
  const Afternoon: ShiftCode := "P"
  const Night: ShiftCode := "N"
  const Rest: ShiftCode := "R"
  const Absent: ShiftCode := "A"
  const OffNight: ShiftCode := "S"
  const DoubleShift: ShiftCode := "MP"
  const EarlyNight: ShiftCode := "N11"
  const LongNight: ShiftCode := "N12"

  /** An operator's roster: ISO date (YYYY-MM-DD) to shift code. */
  type Schedule = map<string, ShiftCode>

  datatype Operator = Operator(
    id: string,
    name: string,
    email: Option<string>,
    dateOfBirth: Option<string>,
    phone: Option<string>,
    schedule: Schedule)

  /** A coverage request: the shortage of `originalShift` on `date`. */
  datatype ShiftRequest = ShiftRequest(id: string, date: string, originalShift: ShiftCode)

  /** System access level of a user account. */
  datatype AccessRole = AdminRole | UserRole

  datatype User = User(
    uid: string,
    email: string,
    role: AccessRole,
    profession: Option<string>,
    operatorId: Option<string>,
    configId: Option<string>,
    isVerified: bool,
    pendingApproval: bool,
    firstName: string,
    lastName: string,
    dateOfBirth: string,
    createdAt: int,
    updatedAt: int)

  /** One transition an operator can make to help cover a shortage.
      `isNextDay` and `requiredNextShift` are optional in the source. */
  datatype ReplacementRole = ReplacementRole(
    roleLabel: string,
    originalShift: ShiftCode,
    newShift: ShiftCode,
    incentive: string,
    isNextDay: Option<bool>,
    requiredNextShift: Option<ShiftCode>)

  datatype ReplacementScenario = ReplacementScenario(
    id: string,
    targetShift: ShiftCode,
    scenarioLabel: string,
    roles: seq<ReplacementRole>)

  /** Verdict on one transition; `warning` is declared but never set. */
  datatype ComplianceResult = ComplianceResult(
    allowed: bool,
    reason: Option<string>,
    warning: Option<string>)

  /** One (scenario, role) pair an operator qualifies for. The engine also
      emits `roleLabel`, which the declared interface omits. */
  datatype CompatibleScenario = CompatibleScenario(
    scenarioId: string,
    scenarioLabel: string,
    roleIndex: nat,
    roleLabel: string,
    newShift: ShiftCode,
    incentive: string)

  datatype Suggestion = Suggestion(
    operatorId: string,
    name: string,
    phone: Option<string>,
    currentShift: ShiftCode,
    proposal: string,
    priority: Option<int>)

  datatype ScenarioPosition = ScenarioPosition(
    roleLabel: string,
    originalShift: ShiftCode,
    newShift: ShiftCode,
    candidates: seq<Suggestion>)

  datatype ScenarioGroup = ScenarioGroup(id: string, groupLabel: string, positions: seq<ScenarioPosition>)
}
