/** Registration and self-service linking of accounts to roster operators
    (src/services/UserService.ts). The Firestore collections are passed in
    as sequences in query order, the clock as `now`; the documents written
    are returned. */
module UserService {
  import opened Text
  import opened Models
  import UserContext
  import RouteGuards

  /** An operator document of a configuration. Absent or empty fields are
      ''; the source only tests them for truthiness. */
  datatype OperatorDoc = OperatorDoc(id: string, name: string, email: string, dateOfBirth: string)

  /** A system configuration with its operators sub-collection. */
  datatype ConfigDoc = ConfigDoc(
    id: string, name: string, profession: string, role: string, operators: seq<OperatorDoc>)

  // ------------------------------------------------------------ matching

  /** Same e-mail: the user's, lower-cased and trimmed, is non-empty and
      equals the operator's, lower-cased and trimmed. */
  predicate EmailMatches(user: User, op: OperatorDoc) {
    var userEmail := Trim(ToLower(user.email));
    userEmail != "" && Trim(ToLower(op.email)) == userEmail
  }

  /** Same name: the trimmed, upper-cased first and last names both occur in
      the upper-cased operator name. */
  predicate NamesMatch(user: User, op: OperatorDoc) {
    var opName := ToUpper(op.name);
    Contains(opName, Trim(ToUpper(user.firstName))) && Contains(opName, Trim(ToUpper(user.lastName)))
  }

  /** Both dates of birth are known and differ. */
  predicate DobConflict(user: User, op: OperatorDoc) {
    op.dateOfBirth != "" && user.dateOfBirth != "" && op.dateOfBirth != user.dateOfBirth
  }

  /** An operator is accepted when e-mail or name matches and the dates of
      birth do not conflict. */
  predicate Accepts(user: User, op: OperatorDoc) {
    (EmailMatches(user, op) || NamesMatch(user, op)) && !DobConflict(user, op)
  }

  /** The position of an operator: configuration, then operator within it. */
  datatype Match = Match(config: nat, op: nat)

  /** The nested search of `syncUserToOperator`: configurations in order,
      operators in order within each; the first operator `accepts` admits
      wins. */
  method FindMatch(configs: seq<ConfigDoc>, accepts: OperatorDoc -> bool) returns (r: Option<Match>)
    ensures r.Some? ==> r.value.config < |configs| && r.value.op < |configs[r.value.config].operators|
    ensures r.Some? ==> accepts(configs[r.value.config].operators[r.value.op])
    ensures r.Some? ==> forall c, o :: 0 <= c < r.value.config && 0 <= o < |configs[c].operators| ==>
      !accepts(configs[c].operators[o])
    ensures r.Some? ==> forall o :: 0 <= o < r.value.op ==> !accepts(configs[r.value.config].operators[o])
    ensures r.None? <==> forall c, o :: 0 <= c < |configs| && 0 <= o < |configs[c].operators| ==>
      !accepts(configs[c].operators[o])
  {
    var c := 0;
    while c < |configs|
      invariant 0 <= c <= |configs|
      invariant forall c', o :: 0 <= c' < c && 0 <= o < |configs[c'].operators| ==> !accepts(configs[c'].operators[o])
    {
      var ops := configs[c].operators;
      var o := 0;
      while o < |ops|
        invariant 0 <= o <= |ops|
        invariant forall k :: 0 <= k < o ==> !accepts(ops[k])
      {
        if accepts(ops[o]) {
          return Some(Match(c, o));
        }
        o := o + 1;
      }
      c := c + 1;
    }
    return None;
  }

  const DefaultProfession: string := "Infermiere"

  /** `profession || role || 'Infermiere'`: the first non-empty of the three. */
  function Profession(config: ConfigDoc): (r: string)
    ensures r != ""
    ensures r in [config.profession, config.role, DefaultProfession]
    ensures config.profession != "" ==> r == config.profession
    ensures config.profession == "" && config.role != "" ==> r == config.role
  {
    if config.profession != "" then config.profession
    else if config.role != "" then config.role
    else DefaultProfession
  }

  // ---------------------------------------------------------------- sync

  /** What `syncUserToOperator` resolves to. */
  datatype SyncResult = SyncResult(
    success: bool,
    operatorId: Option<string>,
    configId: Option<string>,
    profession: Option<string>,
    message: string)

  const UserNotFoundMessage: string := "Utente non trovato nel database"
  const NoMatchMessage: string :=
    "Nessun operatore corrispondente trovato nel sistema. Verifica che i dati (Email, Nome, Data di Nascita) siano "
    + "identici a quelli nel foglio turni. In alternativa, attendi l'approvazione dell'amministratore."

  /** `configData.name || 'Senza Nome'`. */
  function ConfigName(config: ConfigDoc): string {
    if config.name != "" then config.name else "Senza Nome"
  }

  function LinkedMessage(op: OperatorDoc, config: ConfigDoc): string {
    "Operatore \"" + op.name + "\" trovato in \"" + ConfigName(config) + "\" e associato con successo!"
  }

  /** `m` is a position in `configs`. */
  predicate ValidMatch(configs: seq<ConfigDoc>, m: Match) {
    m.config < |configs| && m.op < |configs[m.config].operators|
  }

  /** `m` is the first accepted operator in configuration order, then
      operator order. */
  predicate FirstAccepted(user: User, configs: seq<ConfigDoc>, m: Match) {
    && ValidMatch(configs, m)
    && Accepts(user, configs[m.config].operators[m.op])
    && (forall c, o :: 0 <= c < m.config && 0 <= o < |configs[c].operators| ==> !Accepts(user, configs[c].operators[o]))
    && (forall o :: 0 <= o < m.op ==> !Accepts(user, configs[m.config].operators[o]))
  }

  /** No operator of any configuration is accepted. */
  predicate NoneAccepted(user: User, configs: seq<ConfigDoc>) {
    forall c, o :: 0 <= c < |configs| && 0 <= o < |configs[c].operators| ==> !Accepts(user, configs[c].operators[o])
  }

  /** The winner is determined: two first accepted positions coincide. */
  lemma FirstAcceptedUnique(user: User, configs: seq<ConfigDoc>, m1: Match, m2: Match)
    ensures FirstAccepted(user, configs, m1) && FirstAccepted(user, configs, m2) ==> m1 == m2
  {
    if FirstAccepted(user, configs, m1) && FirstAccepted(user, configs, m2) {
      var a1 := Accepts(user, configs[m1.config].operators[m1.op]);
      var a2 := Accepts(user, configs[m2.config].operators[m2.op]);
      assert a1 && a2;
      if m1.config != m2.config {
        assert false;
      }
      assert m1.op == m2.op;
    }
  }

  /** `syncUserToOperator` for the stored user document `userDoc`. On a
      match at position `found` the user document is linked and verified,
      and the operator document gets the user's uid (`linkedOperator`, as
      configuration id and operator id). Otherwise nothing is written and
      the ids are null. */
  method SyncUserToOperator(userDoc: Option<User>, configs: seq<ConfigDoc>, now: int)
    returns (result: SyncResult, written: Option<User>, linkedOperator: Option<(string, string)>, found: Option<Match>)
    ensures userDoc.None? ==> result == SyncResult(false, None, None, None, UserNotFoundMessage) && found.None?
    ensures userDoc.Some? && found.None? ==> NoneAccepted(userDoc.value, configs)
    ensures userDoc.Some? && found.None? ==> result == SyncResult(false, None, None, None, NoMatchMessage)
    ensures result.success <==> found.Some?
    ensures !result.success ==> written.None? && linkedOperator.None?
    ensures found.Some? ==> userDoc.Some? && FirstAccepted(userDoc.value, configs, found.value)
    ensures found.Some? ==>
      var config := configs[found.value.config];
      var op := config.operators[found.value.op];
      && result == SyncResult(true, Some(op.id), Some(config.id), Some(Profession(config)), LinkedMessage(op, config))
      && linkedOperator == Some((config.id, op.id))
      && written == Some(userDoc.value.(
        operatorId := Some(op.id), configId := Some(config.id), profession := Some(Profession(config)),
        isVerified := true, pendingApproval := false, updatedAt := now))
  {
    if userDoc.None? {
      return SyncResult(false, None, None, None, UserNotFoundMessage), None, None, None;
    }
    var user := userDoc.value;
    found := FindMatch(configs, op => Accepts(user, op));
    if found.None? {
      return SyncResult(false, None, None, None, NoMatchMessage), None, None, None;
    }
    var config := configs[found.value.config];
    var op := config.operators[found.value.op];
    var profession := Profession(config);
    result := SyncResult(true, Some(op.id), Some(config.id), Some(profession), LinkedMessage(op, config));
    written := Some(user.(
      operatorId := Some(op.id), configId := Some(config.id), profession := Some(profession),
      isVerified := true, pendingApproval := false, updatedAt := now));
    linkedOperator := Some((config.id, op.id));
  }

  /** A candidate whose date of birth conflicts is skipped, whatever else
      matches. */
  lemma ConflictingDobNeverAccepted(user: User, op: OperatorDoc)
    requires DobConflict(user, op)
    ensures !Accepts(user, op)
  {
  }

  /** A matching e-mail links when either side lacks a date of birth. */
  lemma EmailMatchWithoutDobAccepted(user: User, op: OperatorDoc)
    requires op.dateOfBirth == "" || user.dateOfBirth == ""
    ensures EmailMatches(user, op) ==> Accepts(user, op)
  {
  }

  /** An empty user e-mail never matches by e-mail, even against an
      operator without e-mail. */
  lemma EmptyEmailNeverMatches(user: User, op: OperatorDoc)
    requires forall k :: 0 <= k < |user.email| ==> IsSpace(user.email[k])
    ensures !EmailMatches(user, op)
  {
    var lower := ToLower(user.email);
    forall k | 0 <= k < |lower| ensures IsSpace(lower[k]) {
      assert !IsUpperAscii(user.email[k]);
      assert lower[k] == LowerChar(user.email[k]) == user.email[k];
    }
    assert Trim(lower) == [];
  }

  /** The empty string occurs in every string. */
  lemma EmptyContained(s: string)
    ensures Contains(s, "")
  {
    assert StartsWith(s[0..], "");
  }

  /** Blank first and last names occur in every operator name: such a user
      is a name match for every operator. */
  lemma BlankNamesMatchEveryone(user: User, op: OperatorDoc)
    requires Trim(ToUpper(user.firstName)) == "" && Trim(ToUpper(user.lastName)) == ""
    ensures NamesMatch(user, op)
  {
    EmptyContained(ToUpper(op.name));
  }

  // ---------------------------------------------------------- registration

  /** What `createUserDocument` resolves to. */
  datatype Registration = Registration(operatorId: Option<string>, needsApproval: bool)

  /** `createUserDocument`: the stored document, a plain user with no
      operator, configuration or profession, unverified and awaiting
      approval, and the fixed answer `{operatorId: null, needsApproval: true}`. */
  function CreateUserDocument(
    uid: string, email: string, firstName: string, lastName: string, dateOfBirth: string, now: int)
    : (r: (User, Registration))
    ensures r.1.operatorId.None? && r.1.needsApproval
    ensures r.0.uid == uid && r.0.email == email && r.0.dateOfBirth == dateOfBirth
    ensures r.0.firstName == firstName && r.0.lastName == lastName
    ensures r.0.role == UserRole && r.0.profession.None?
    ensures r.0.operatorId.None? && r.0.configId.None?
    ensures !r.0.isVerified && r.0.pendingApproval
    ensures r.0.createdAt == now && r.0.updatedAt == now
  {
    (User(uid, email, UserRole, None, None, None, false, true, firstName, lastName, dateOfBirth, now, now),
     Registration(None, true))
  }

  /** A freshly registered user can view no shift request, whatever
      operator is loaded for them. */
  lemma NewUserSeesNoRequest(
    uid: string, email: string, firstName: string, lastName: string, dateOfBirth: string, now: int,
    op: Option<Operator>, selected: seq<string>, req: ShiftRequest)
    ensures !UserContext.CanViewRequest(
      UserContext.AuthState(Some(CreateUserDocument(uid, email, firstName, lastName, dateOfBirth, now).0), op, selected), req)
  {
  }

  /** Registration followed by a sync, seen from a route that needs
      verification. The freshly stored document holds the user at the
      waiting page; the sync then links them exactly when some
      configuration accepts them, and the route opens on the document as
      it stands afterwards (the one the sync wrote, or the unchanged one). */
  method RegistrationThenSync(
    uid: string, email: string, firstName: string, lastName: string, dateOfBirth: string, now: int,
    later: int, configs: seq<ConfigDoc>, to: RouteGuards.Route)
    returns (before: RouteGuards.Navigation, after: RouteGuards.Navigation, stored: User)
    requires to.meta.requiresAuth && to.meta.requiresVerified
    ensures before == RouteGuards.Redirect(RouteGuards.PendingVerificationPath, None)
    ensures stored.isVerified <==> !NoneAccepted(CreateUserDocument(uid, email, firstName, lastName, dateOfBirth, now).0, configs)
    ensures after == if stored.isVerified then RouteGuards.Proceed
                     else RouteGuards.Redirect(RouteGuards.PendingVerificationPath, None)
  {
    var user := CreateUserDocument(uid, email, firstName, lastName, dateOfBirth, now).0;
    before := RouteGuards.AuthGuard(to, true, user.isVerified);
    var result, written, linked, found := SyncUserToOperator(Some(user), configs, later);
    stored := if written.Some? then written.value else user;
    if found.Some? {
      var m := found.value;
      assert Accepts(user, configs[m.config].operators[m.op]);
    }
    after := RouteGuards.AuthGuard(to, true, stored.isVerified);
  }
}
