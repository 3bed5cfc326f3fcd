# nurseHub shift-replacement core, modelled in Dafny

nurseHub coordinates replacement shifts on a nursing ward. Operators keep a
daily roster, and each day holds a shift code: `M` morning, `P` afternoon,
`N` night, `R` rest, `A` absent, `S` coming off a night, `MP` double shift,
`N11`/`N12` early or long night, or any site-specific code. When a shift is
short-staffed, a fixed rule book of replacement scenarios says who can help.
Each scenario has one or more roles, such as "an operator on nights extends
to N12". A matching engine decides which roles one operator qualifies for.

This project models that core as pure functions over immutable data:

- **Compliance check and matching engine** (`ShiftLogic`, from
  `src/composables/useShiftLogic.ts`). The rule table and the calendar
  successor on ISO dates are parameters. `GetCompatibleScenarios` follows
  the source's loops and is proved equal to the reference definition
  `CompatibleScenarios`. That reference is proved sound and complete
  against the role predicate `RoleEmits`.
- **The default rule table** `REPLACEMENT_SCENARIOS` (`Scenarios`, from
  `src/config/sheets.ts`). It is a constant, and lemmas state what follows
  from its contents.
- **Request visibility** (`UserContext`, from
  `src/composables/useUserContext.ts`). Visibility on the default table is
  characterised by a reference table, `VisibleFrom`.
- **PII redaction in the logger** (`SecureLogger`, from
  `src/utils/secureLogger.ts`). Redaction is characterised as the unique
  clean value that agrees with its input outside PII keys.
- **The admin store's suggestion and selection maps** (`AdminStore`, from
  `src/stores/adminStore.ts`).
- **Roster import from a published spreadsheet** (`GoogleSheets`, from
  `src/services/GoogleSheetsService.ts`). This covers the URL, unwrapping
  the response, DD/MM/YYYY dates, column-to-date mapping, contacts, and
  rows-to-operators.
- **Account registration and self-service operator linking**
  (`UserService`, from `src/services/UserService.ts`).
- **The two navigation guards** (`RouteGuards`, from
  `src/router/guards/authGuard.ts` and `roleGuard.ts`).
- The datatypes of `src/types/models.ts` are in `Models`, and
  string/sequence helpers are in `Text`.

Behaviour worth knowing:

- **Reasons are Italian.** `CheckCompliance` returns the source's Italian
  reason strings ("Già in turno X", "Smonto Notte non può fare Mattina",
  "Operatore Assente").
- **Falsy values count as missing, as in JavaScript.**
  - An empty request date counts as no date.
  - An empty schedule entry for the next day reads as `R`.
  - An empty `requiredNextShift` imposes nothing.
  - Only `isNextDay == true` marks a next-day role.
- **The record carries `roleLabel`.** Match records include it, because
  the engine emits it even though the declared record type omits it.
- **M3's second role is never offered.** The source table gives it
  `originalShift` `M` (its label speaks of afternoon staff). The compliance
  check therefore rejects it every time (`Scenarios.M3SecondRoleNeverEmitted`).
- **Some listed PII keys are never redacted.** The logger lower-cases each
  key before looking it up, and seven of the thirteen listed names contain
  capitals. So `dateOfBirth` and `phoneNumber` keys are never redacted
  (`SecureLogger.EffectivePiiKeys`).
- **Blank names match every operator.** A user whose first and last names
  are blank name-matches every operator, since the empty string is a
  substring of every name (`UserService.BlankNamesMatchEveryone`).

## Model

| member | source | states |
|---|---|---|
| ShiftLogic.CheckCompliance | src/composables/useShiftLogic.ts:9-26 | A transition is allowed exactly when the operator is not absent, it is not night-to-morning, and it does not repeat a working shift. A rejection always carries a reason and an allowance never does. The reason comes from the first rule that fires: repeated shift, then post-night morning, then absence. |
| ShiftLogic.AbsentAlwaysRejected | src/composables/useShiftLogic.ts:11-23 | An absent operator is rejected for every new shift. The reason is "Operatore Assente", except for `A -> A`, where the same-shift rule fires first. |
| ShiftLogic.ComplianceExamples | src/composables/useShiftLogic.ts:11-25 | R->R, R->M, P->M and S->N are allowed with no reason. N->N is refused with "Già in turno N". |
| ShiftLogic.NextShift | src/composables/useShiftLogic.ts:43-50 | The look-ahead shift is never empty. It is `R` without date and schedule, and `R` when the following date has no entry or an empty one. A non-empty entry for the following date is returned as it is. |
| ShiftLogic.RoleMatches | src/composables/useShiftLogic.ts:55-73 | Whether a role fits the operator before compliance: a next-day role compares its `originalShift` with the look-ahead shift, any other role with today's shift, and a `requiredNextShift` must equal the look-ahead shift. `RoleCheck` is proved to decide the same thing as the source's flags. |
| ShiftLogic.RoleEmits | src/composables/useShiftLogic.ts:55-90 | A role is emitted when it fits and the compliance check allows the move from the shift it compares to the role's new shift. `RoleCheck` is proved equal to it. |
| ShiftLogic.CompatibleScenarios | src/composables/useShiftLogic.ts:32-95 | The reference output: scenario by scenario for the requested shortage, the records of the emitting roles in role order. `CompatibleScenariosSound` and `CompatibleScenariosComplete` tie it to `RoleEmits`, and `GetCompatibleScenarios` is proved to compute it. |
| ShiftLogic.RoleRecordsSound | src/composables/useShiftLogic.ts:54-91 | Every record a scenario contributes is the record of one of its roles that matches and passes compliance. The record's `roleIndex` is that role's position, and records appear in strictly increasing role order. |
| ShiftLogic.RoleRecordsComplete | src/composables/useShiftLogic.ts:54-91 | Every role that matches and passes compliance has its record in the scenario's output. |
| ShiftLogic.RoleRecordsCount | src/composables/useShiftLogic.ts:54-91 | There is no deduplication inside a scenario: it contributes one record per emitting role. |
| ShiftLogic.EmittingRolesOnly | src/composables/useShiftLogic.ts:54-91 | When at most one role of a scenario emits, the count of emitting roles is 1 or 0 accordingly. |
| ShiftLogic.RoleRecordsAtMostOne | src/composables/useShiftLogic.ts:54-91 | A scenario with exactly one emitting role contributes exactly that role's record. One with none contributes nothing. |
| ShiftLogic.CompatibleScenariosSnoc | src/composables/useShiftLogic.ts:52-94 | Adding one scenario at the end of the table appends that scenario's records and nothing else. |
| ShiftLogic.OtherTargetsContributeNothing | src/composables/useShiftLogic.ts:41 | Scenarios that solve a different shortage never contribute a record. |
| ShiftLogic.CompatibleScenariosSound | src/composables/useShiftLogic.ts:41-94 | Every output record comes from a scenario whose target is the requested shortage. It is the record of a role at the given `roleIndex`, and that role matched and passed compliance. |
| ShiftLogic.CompatibleScenariosComplete | src/composables/useShiftLogic.ts:41-94 | Every emitting role of every scenario for the requested shortage appears in the output. |
| ShiftLogic.CompatibleScenariosAppend | src/composables/useShiftLogic.ts:52-94 | Output order is table order: the records for a table split in two are the first part's records followed by the second part's. |
| ShiftLogic.NoLookaheadOnlyPlainRoles | src/composables/useShiftLogic.ts:55-73 | Without date and schedule, a role emits exactly when it is same-day, has no required next shift, starts from the operator's shift, and that transition is compliant. No next-day or look-ahead role can emit. |
| ShiftLogic.NextDayRoleUsesSchedule | src/composables/useShiftLogic.ts:43-78 | With look-ahead data, a next-day role compares and compliance-checks the next day's scheduled shift (`R` if missing), whatever the operator's current shift. |
| ShiftLogic.NoLookaheadIgnoresCalendar | src/composables/useShiftLogic.ts:43-50 | Without look-ahead data the output does not depend on the calendar successor. |
| ShiftLogic.RoleRecordsIgnoreCalendar | src/composables/useShiftLogic.ts:43-73 | The same as `NoLookaheadIgnoresCalendar`, for one scenario's roles. |
| ShiftLogic.GetCompatibleScenarios | src/composables/useShiftLogic.ts:32-95 | The loop as written computes exactly the reference output `CompatibleScenarios`. It computes the next shift once, then visits scenarios and roles in order. |
| ShiftLogic.PushRoleRecords | src/composables/useShiftLogic.ts:54-91 | The inner `forEach` appends to the accumulator exactly the scenario's records, in role order. |
| ShiftLogic.RoleCheck | src/composables/useShiftLogic.ts:55-90 | The source's `isMatch` flag, then the `requiredNextShift` voiding, then the compliance test, decide exactly `RoleEmits`. |
| Scenarios.DefaultWellFormed | src/config/sheets.ts:30-211 | The default table has nine scenarios. Each has at least one role, and their ids are pairwise distinct. |
| Scenarios.DefaultTargetsGrouped | src/config/sheets.ts:30-211 | The table is grouped by target: four morning scenarios, then three afternoon, then two night. |
| Scenarios.OnlyN2HasNextDayRole | src/config/sheets.ts:191-210 | The only next-day role is N2's second role, and it is R -> M. |
| Scenarios.RequiredNextOnlyOnOffNightRoles | src/config/sheets.ts:89-190 | A required next shift appears exactly on M4's third role, P3's second role and N1's only role. It is always `R`, on an S -> N role. |
| Scenarios.OnlyM3SecondRoleIsNonCompliant | src/config/sheets.ts:30-211 | No role starts from `A` or is N -> M. M3's second role (M -> M) is the only role whose own transition compliance rejects. |
| Scenarios.DefaultEmitsIffMatches | src/config/sheets.ts:30-211 | On the default table a role emits exactly when it matches, with M3's second role as the only exception. |
| Scenarios.M3SecondRoleNeverEmitted | src/config/sheets.ts:64-88 | No record for M3's second role is ever produced, for any shortage, operator shift or look-ahead data. |
| Scenarios.OnlyPrefixContributes | src/composables/useShiftLogic.ts:41 | Scenarios for other shortages placed after the relevant ones leave the output unchanged. |
| Scenarios.OnlySuffixContributes | src/composables/useShiftLogic.ts:41 | Scenarios for other shortages placed before the relevant ones leave the output unchanged. |
| Scenarios.MorningRecords | src/config/sheets.ts:31-114 | For a morning shortage the output is M1's, M2's, M3's and M4's records, in that order. |
| Scenarios.NightRecords | src/config/sheets.ts:176-210 | For a night shortage the output is N1's records followed by N2's. |
| Scenarios.RestOperatorCoversMorningViaM1 | src/config/sheets.ts:32-114 | An operator at rest gets exactly one offer for a morning shortage: M1's single role, whatever the calendar. |
| Scenarios.NightOperatorGetsThreeMorningOffers | src/config/sheets.ts:45-114 | An operator on nights gets three independent offers for a morning shortage, through M2, M3 and M4. Nothing is deduplicated, and the calendar plays no part. |
| Scenarios.OffNightOperatorWithoutLookahead | src/config/sheets.ts:176-210 | Without look-ahead data, an operator coming off a night gets nothing for a night shortage. |
| Scenarios.OffNightOperatorWithLookahead | src/config/sheets.ts:176-210 | With a date and an empty schedule, the same operator gets N1's role and N2's next-day role. |
| UserContext.ActiveOperators | src/composables/useUserContext.ts:24-37 | The displayed operators are empty without a current operator and otherwise exactly the current operator. |
| UserContext.ActiveOperatorsIgnoreSelection | src/composables/useUserContext.ts:29-36 | An admin's selection never changes the displayed operators. |
| UserContext.PrimaryOperator | src/composables/useUserContext.ts:42-44 | The primary operator is the first displayed operator, or none when none is displayed. |
| UserContext.PrimaryIsCurrent | src/composables/useUserContext.ts:24-44 | The primary operator is the current operator. |
| UserContext.CanViewRequest | src/composables/useUserContext.ts:51-72 | Admins see every request. An unverified or unlinked non-admin sees none, and so does a non-admin with no shift, or an empty one, on the request date. |
| UserContext.CanViewRequestIff | src/composables/useUserContext.ts:62-71 | Otherwise the request is visible exactly when some same-day role without a required next shift starts from the user's shift and is compliant. Look-ahead roles never grant visibility. |
| UserContext.OffersIffPlain | src/composables/useUserContext.ts:69-71 | For any table, the engine called without date or schedule offers something exactly when the table holds such a plain role. |
| UserContext.PlainOfferIffListed | src/composables/useUserContext.ts:69-71 | On the default table a plain role exists for a shortage exactly when the user's shift is in the reference table `VisibleFrom`. |
| UserContext.DefaultVisibility | src/composables/useUserContext.ts:51-72 | A verified, linked non-admin sees a request exactly when their shift that day is in `VisibleFrom` for the requested shift. Morning shortages are seen from R, P, N and M; afternoon from R, N and M; night only from R. |
| UserContext.OffNightAndAbsentSeeNoShortage | src/composables/useUserContext.ts:69 | A non-admin coming off a night never sees a night shortage. An absent non-admin sees no request. |
| SecureLogger.RedactEntry | src/utils/secureLogger.ts:85-95 | Keys are kept. A PII key's value becomes the marker even when it is an object. A non-PII primitive is copied. |
| SecureLogger.Redact | src/utils/secureLogger.ts:69-98 | null, undefined and primitives come back unchanged. Arrays keep their length. Objects keep exactly their keys, in order. |
| SecureLogger.RedactIsClean | src/utils/secureLogger.ts:78-96 | After redaction, every PII key at every depth holds the marker. |
| SecureLogger.RedactAgrees | src/utils/secureLogger.ts:69-98 | Redaction changes nothing outside PII keys: shape, keys and non-PII values are those of the input. |
| SecureLogger.RedactUnique | src/utils/secureLogger.ts:69-98 | Redaction is the only clean value that agrees with the input outside PII keys. |
| SecureLogger.RedactIdempotent | src/utils/secureLogger.ts:69-98 | Redacting twice gives the same result as redacting once. |
| SecureLogger.CleanUnchanged | src/utils/secureLogger.ts:69-98 | A value with nothing left to mask is copied unchanged. |
| SecureLogger.EffectivePiiKeys | src/utils/secureLogger.ts:33-47 | A key is redacted exactly when its lower-cased form is one of email, phone, dob, password, uid or ssn. |
| SecureLogger.KeyCaseExamples | src/utils/secureLogger.ts:33-47 | `dateOfBirth` and `phoneNumber` keys are not redacted, while `EMAIL` and `Uid` are. |
| SecureLogger.FormatLog | src/utils/secureLogger.ts:108-117 | A `data` field is present exactly when data is not undefined. It then holds a clean value that agrees with the data outside PII keys. |
| AdminStore.SetSuggestions | src/stores/adminStore.ts:14-16 | The request's suggestions become the given results. Every other entry and the other two maps are unchanged. |
| AdminStore.ToggleOne | src/stores/adminStore.ts:29-39 | Forcing on adds the id only if absent, and forcing off removes it only if present. A plain toggle flips its presence, as a multiset. Adding appends at the end. Removing takes out the first occurrence and keeps the rest in order. Otherwise the list is unchanged. Other ids keep their membership and a duplicate-free list stays duplicate-free. |
| AdminStore.ApplyToggles | src/stores/adminStore.ts:29-39 | Toggling ids in order leaves every id that was not given as selected or unselected as it was, with or without duplicates. |
| AdminStore.ApplyTogglesNoDup | src/stores/adminStore.ts:29-39 | Toggling any ids in order keeps a duplicate-free selection duplicate-free. |
| AdminStore.SelectAllMembership | src/stores/adminStore.ts:31-32 | After forced selection, an id is selected exactly when it was selected before or was given. |
| AdminStore.DeselectAllMembership | src/stores/adminStore.ts:31-33 | After forced deselection of a duplicate-free selection, an id is selected exactly when it was selected before and was not given. |
| AdminStore.ToggleOneFlips | src/stores/adminStore.ts:35-37 | A plain toggle of a duplicate-free selection flips exactly the given id's membership. |
| AdminStore.ToggleParity | src/stores/adminStore.ts:29-39 | After plain toggling, an id is selected exactly when it started selected and was given an even number of times, or started unselected and was given an odd number of times. |
| AdminStore.ToggleTwiceRestores | src/stores/adminStore.ts:29-39 | Plain-toggling the same ids twice restores the selection's membership. |
| AdminStore.DuplicateIdCancels | src/stores/adminStore.ts:29-39 | A duplicated unselected id in one call cancels out and gives the list back exactly. |
| AdminStore.ToggleSelection | src/stores/adminStore.ts:19-40 | The request always ends with a list. A first forced selection lists exactly the given ids. Other requests and the other two maps are unchanged. |
| AdminStore.ToggleSelectionNoDup | src/stores/adminStore.ts:19-40 | If every selection list is duplicate-free before a toggle, every list is duplicate-free after it. |
| AdminStore.ClearSuggestions | src/stores/adminStore.ts:42-46 | Suggestions and selection are deleted for the request. Its calculating flag is deleted only when true, so a false flag stays. Every other request is untouched. |
| AdminStore.ClearUndoesSetAndToggle | src/stores/adminStore.ts:14-46 | For a request with no entries, clearing undoes setting suggestions and toggling, giving back the original state. |
| RouteGuards.AuthGuard | src/router/guards/authGuard.ts:10-37 | The guard proceeds exactly when the route is open, or the user is signed in and verified where required. Only protected routes redirect. The unauthenticated go to `/login` with the intended path as `redirect`, and the unverified go to `/pending-verification`. |
| RouteGuards.VerifiedFlagNeedsAuthFlag | src/router/guards/authGuard.ts:18-34 | Without `requiresAuth`, the `requiresVerified` flag is never consulted. |
| RouteGuards.VerifiedUserAlwaysAdmitted | src/router/guards/authGuard.ts:18-36 | A signed-in, verified user passes every authentication check. |
| RouteGuards.RoleGuard | src/router/guards/roleGuard.ts:10-27 | The guard proceeds exactly on routes without `requiresAdmin` or for an admin. Otherwise it redirects to `/`. |
| GoogleSheets.GvizUrl | src/services/GoogleSheetsService.ts:41-55 | The URL is empty exactly when the configured URL is blank. Otherwise it extends the query URL for the sheet id, or the URL itself when no id is found. |
| GoogleSheets.GvizPayload | src/services/GoogleSheetsService.ts:60-66 | There is no payload for an empty text or a text missing either brace. |
| GoogleSheets.ParseGvizResponse | src/services/GoogleSheetsService.ts:60-71 | An empty response, or one without a `{` or without a `}`, parses to nothing. `ParseGvizResponseUnwraps` states what a wrapped response parses to. |
| GoogleSheets.ParseGvizResponseUnwraps | src/services/GoogleSheetsService.ts:60-71 | A braced JSON body inside a JSONP wrapper whose head has no `{` and whose tail has no `}` parses exactly as that body. |
| GoogleSheets.GvizPayloadUnwraps | src/services/GoogleSheetsService.ts:60-66 | A braced body wrapped in a head without `{` and a tail without `}` is recovered exactly. |
| GoogleSheets.GvizPayloadBounds | src/services/GoogleSheetsService.ts:63-66 | When the first `{` precedes the last `}`, the payload is exactly the text from that `{` to that `}`, both included. |
| GoogleSheets.DmyToIsoShape | src/services/GoogleSheetsService.ts:94-98 | Every converted D/M/YYYY text has the shape YYYY-MM-DD, all digits. |
| GoogleSheets.DmyRoundTrip | src/services/GoogleSheetsService.ts:94-98 | Writing a day, a month and a year with slashes and converting gives the year, the zero-padded month and the zero-padded day. |
| GoogleSheets.ParseAnyDate | src/services/GoogleSheetsService.ts:73-106 | A missing cell, or one whose `v` is undefined or null, gives no date. Any date not produced by the `Date` branches has ISO shape and is the conversion of a formatted text that trims to D/M/YYYY; so when those branches do not fire, a formatted text that is missing or does not trim to D/M/YYYY gives no date. |
| GoogleSheets.ParseAnyDateDmy | src/services/GoogleSheetsService.ts:93-98 | A formatted D/M/YYYY text, with any blanks before and after it, becomes YYYY-MM-DD when the `Date` branches do not apply. |
| GoogleSheets.ParseAnyDateFormatted | src/services/GoogleSheetsService.ts:93-98 | When the `Date` branches do not apply, a formatted text that trims to D/M/YYYY gives the conversion of the trimmed text. |
| GoogleSheets.ColumnDates | src/services/GoogleSheetsService.ts:152-160 | The column-to-date map over the header cells, visited in order. `ColumnDatesSpec` states which columns it maps and to which date. |
| GoogleSheets.DateMap | src/services/GoogleSheetsService.ts:152-160 | The column-to-date map of the first header row, empty when the header response has no first row or that row has no cells. Every mapped column lies below the bound it returns. |
| GoogleSheets.ColumnDatesSpec | src/services/GoogleSheetsService.ts:152-160 | A header column is mapped exactly when it is at or after the first data column and its cell parses to a date. It maps to that date. |
| GoogleSheets.ShiftText | src/services/GoogleSheetsService.ts:189-191 | The schedule text of a cell: its formatted text if non-empty, else its value if truthy, else the empty string, upper-cased and trimmed. `ShiftTextClean` states its shape. |
| GoogleSheets.ShiftTextClean | src/services/GoogleSheetsService.ts:189-191 | A schedule text has no lower-case letter and no blank at either end. |
| GoogleSheets.RowSchedule | src/services/GoogleSheetsService.ts:185-193 | One operator's schedule: mapped columns in order, a later column with the same date overwriting. `RowScheduleHasDate` and `RowScheduleWriter` characterise it from both sides. |
| GoogleSheets.RowScheduleHasDate | src/services/GoogleSheetsService.ts:185-193 | Each mapped column whose cell has content, counting null as content, puts its date in the schedule. |
| GoogleSheets.RowScheduleWriter | src/services/GoogleSheetsService.ts:185-193 | Every schedule date was written by a mapped column with content. It holds the shift text of the last such column. |
| GoogleSheets.RowScheduleClean | src/services/GoogleSheetsService.ts:185-193 | Schedule values are upper-case and trimmed. |
| GoogleSheets.ContactWrite | src/services/GoogleSheetsService.ts:165-173 | What one contacts row registers: nothing before the first contacts row or for a blank name, else its e-mail and phone under the upper-cased name. |
| GoogleSheets.Contacts | src/services/GoogleSheetsService.ts:163-174 | The contacts map: the rows' registrations in order, a later row with the same name overwriting. `ContactsHasName` and `ContactsWriter` characterise it from both sides. |
| GoogleSheets.ContactsHasName | src/services/GoogleSheetsService.ts:164-170 | Every row from the first contacts row on with a non-blank name registers that upper-cased name. |
| GoogleSheets.ContactsWriter | src/services/GoogleSheetsService.ts:164-173 | Every registered name comes from a row from the first contacts row on, with that upper-cased name. It holds that row's trimmed e-mail and phone cells, and no later contacts row has the same name, so the last row wins. |
| GoogleSheets.ContactsKeys | src/services/GoogleSheetsService.ts:163-174 | Contact names are non-empty and contain no lower-case letter. |
| GoogleSheets.OperatorOfRow | src/services/GoogleSheetsService.ts:178-201 | A row yields an operator exactly when it is at or after the first data row and its trimmed name has more than one character. The operator's id is "op-" and the row index. E-mail and phone come from the contact under the upper-cased name, or are '' when it is absent. |
| GoogleSheets.RowName | src/services/GoogleSheetsService.ts:181-184 | Row names have no blank at either end. |
| GoogleSheets.RowYields | src/services/GoogleSheetsService.ts:178-204 | There is one yield per row, and each operator carries its own row's id. |
| GoogleSheets.Operators | src/services/GoogleSheetsService.ts:177-206 | The operators of the main table, one per yielding row, in row order. `OperatorsSpec`, `OperatorsSound` and `OperatorsComplete` relate it to `OperatorOfRow`. |
| GoogleSheets.OperatorsSpec | src/services/GoogleSheetsService.ts:177-206 | An operator is in the result exactly when some row yields it. |
| GoogleSheets.OperatorsSound | src/services/GoogleSheetsService.ts:177-206 | Each operator in the result is the one some row yields. |
| GoogleSheets.OperatorsComplete | src/services/GoogleSheetsService.ts:177-206 | Each operator some row yields is in the result. |
| GoogleSheets.OperatorIdsDistinct | src/services/GoogleSheetsService.ts:196 | Operator ids in the result are pairwise distinct. |
| GoogleSheets.IdsDiffer | src/services/GoogleSheetsService.ts:196 | Different rows get different ids. |
| GoogleSheets.FetchOperators | src/services/GoogleSheetsService.ts:118-211 | A missing spreadsheet URL fails with the configuration error. Otherwise the fetch fails, with the invalid-table error, exactly when the main response has no table rows, and succeeds when it has them. No other error arises. |
| GoogleSheets.TableRows | src/services/GoogleSheetsService.ts:149 | The rows of a parsed response, present only when the response, its `table` and its `rows` all are. `FetchOperators` fails exactly when they are missing from the main response. |
| GoogleSheets.FetchOperatorsContents | src/services/GoogleSheetsService.ts:145-206 | When the main response has table rows, the fetch succeeds and returns exactly the operators those rows yield, with schedules from the header dates and details from the contacts body. |
| GoogleSheets.FetchFailsWithoutTable | src/services/GoogleSheetsService.ts:145-149 | A main response without `{` fails with the invalid-table error. |
| GoogleSheets.BlankContactsUrlGivesEmptyContacts | src/services/GoogleSheetsService.ts:129-200 | With a blank contacts URL, every operator gets empty e-mail and phone, whatever contacts text is supplied. |
| GoogleSheets.NoContactsNoDetails | src/services/GoogleSheetsService.ts:199-200 | Without contacts, every operator has empty e-mail and phone. |
| UserService.EmailMatches | src/services/UserService.ts:118-148 | The e-mail test: the user's e-mail, lower-cased and trimmed, is non-empty and equals the operator's. `EmptyEmailNeverMatches` and `EmailMatchWithoutDobAccepted` state its consequences. |
| UserService.NamesMatch | src/services/UserService.ts:119-151 | The name test: the user's trimmed, upper-cased first and last names both occur in the upper-cased operator name. `BlankNamesMatchEveryone` shows its blank-name case. |
| UserService.DobConflict | src/services/UserService.ts:121-164 | Both dates of birth are present and differ. `ConflictingDobNeverAccepted` shows that such a candidate is skipped. |
| UserService.Accepts | src/services/UserService.ts:141-170 | A candidate is linked when the e-mail or the name matches and the dates of birth do not conflict. `FindMatch` and `SyncUserToOperator` are stated in terms of it. |
| UserService.FindMatch | src/services/UserService.ts:127-198 | The search returns the first accepted operator in configuration order, then operator order. It returns none exactly when no operator is accepted. |
| UserService.Profession | src/services/UserService.ts:131 | The profession is never empty. It is the configuration's profession when set, else its role when set, else "Infermiere". |
| UserService.FirstAcceptedUnique | src/services/UserService.ts:127-196 | The winning operator is determined: two first accepted positions coincide. |
| UserService.ConfigName | src/services/UserService.ts:130 | The configuration name shown to the user, `Senza Nome` when the stored name is empty. |
| UserService.LinkedMessage | src/services/UserService.ts:194 | The success message names the operator and the configuration in the source's Italian wording. `SyncUserToOperator` returns it on a match. |
| UserService.SyncUserToOperator | src/services/UserService.ts:92-210 | A missing user document fails with null ids. A failure with no match means no operator is accepted, and nothing is written. Success happens exactly on a match, which is the first accepted operator. On success the user is linked, verified and no longer pending, and the operator gets the user's id. |
| UserService.ConflictingDobNeverAccepted | src/services/UserService.ts:156-164 | A candidate with both dates of birth present and different is never accepted, whatever else matches. |
| UserService.EmailMatchWithoutDobAccepted | src/services/UserService.ts:148-156 | A matching e-mail is accepted when either side lacks a date of birth. |
| UserService.EmptyEmailNeverMatches | src/services/UserService.ts:118-148 | A blank user e-mail never matches by e-mail, even an operator without e-mail. |
| UserService.BlankNamesMatchEveryone | src/services/UserService.ts:119-151 | Blank first and last names name-match every operator. |
| UserService.CreateUserDocument | src/services/UserService.ts:38-75 | Registration stores the given identity as a plain user with no operator, configuration or profession, unverified and pending approval. It always answers with no operator and approval needed. |
| UserService.NewUserSeesNoRequest | src/services/UserService.ts:49-63 | A freshly registered, non-admin, unverified user can view no shift request. |
| UserService.RegistrationThenSync | src/services/UserService.ts:49-182 | Registration stores an unverified document, so a route that needs verification sends the user to `/pending-verification`. The sync that follows leaves a verified document exactly when some configuration accepts the user. On the document as it then stands, the route opens when it is verified and still redirects otherwise. |

## Left out

- Network and parsing are parameters, not models. `fetch`, `Promise.all`, `JSON.parse` (the `parse` parameter) and the regex extraction of the sheet id and `gid` (the `sheetId`/`gid` parameters) are not modelled. `Date.now()` is the `now` parameter.
- The next-day date arithmetic (`new Date`, `setDate`, `toISOString`) is the `nextDay` parameter of the engine. It depends on the time zone, and an invalid date string makes the source throw, which the model does not reproduce.
- The `Date(y,m,d)` and Excel-serial branches of `parseAnyDate`, and `formatDate`, are the `jsDate` parameter. They use JavaScript `Date`, floating-point day arithmetic and the local time zone.
- Numbers in cells and logged values are integers. Floating-point values and their `String()` rendering are not modelled.
- `toUpperCase`, `toLowerCase` and `trim` are modelled on ASCII letters and ASCII blanks only.
- GoogleSheets.OperatorOfRow: strings are sequences of characters, while JavaScript's `length` counts UTF-16 code units. The `name.length > 1` test (`GoogleSheetsService.ts` line 184) therefore accepts a one-character name outside the Basic Multilingual Plane, such as a single emoji, and the source yields an operator for it. The model compares the character count and yields none.
- Firestore reads and writes in `UserService` become sequences in query order and returned documents. The `catch` path of `syncUserToOperator` is not modelled. Its `try` (lines 99-210) covers the reads and both `updateDoc` writes. So if the operator write at line 185 fails after the user write at line 175 succeeded, the stored user is already linked and verified while the call answers `success: false` with the technical-error message. The model has no failing writes, so it never produces this state. Neither are the administrative methods after line 229 (`linkUserToOperator`, `approveUser`, `getAllUsers` and the rest), nor `getUserDocument`.
- `fetchSelectedOperators` in `useUserContext.ts` is not modelled: it only fetches data.
- `calculateSuggestions` and `publishToCandidates` in `adminStore.ts` are not modelled: they are a timer stub and console output.
- `updateShiftOnSheets`, `loadConfig` and `updateSpreadsheetUrl` in `GoogleSheetsService.ts` are not modelled: they are persistence and POST requests.
- The logger's console output, timestamps, development styling and `log()` method are left out. `FormatLog` omits the timestamp.
- How the guards are registered with the router is left out. The auth store's `isAuthenticated`, `isVerified` and `isAdmin` flags are inputs to the guards.
- UserService.SyncUserToOperator: absent fields of an operator document are the empty string. For matching this agrees with the source, which reads `operatorData.name || ''` and `operatorData.email || ''` and tests the date of birth for truthiness (`UserService.ts` lines 141-159). The success message, however, interpolates `operatorData.name` as it is (line 194): for an operator without a name the source says `Operatore "undefined" trovato…`, while `LinkedMessage` gives `Operatore "" trovato…`. Non-string field values are not modelled either.
- A failed download in `fetchOperators` is not modelled: the three response bodies are inputs.
