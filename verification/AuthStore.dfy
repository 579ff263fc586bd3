/**
  The server-side authentication store of crates/auth/src/repository.rs on values.

  Each SQL transaction is one atomic step on three tables. Times are whole microseconds, the resolution
  of the database. Random identifiers, tokens and nonces are arguments of the step that draws them.
*/
module AuthStore {
  import opened Prelude
  import opened Crypto

  type Time = int
  type Id = string

  datatype PlatformRole = Teacher | Student | PlatformAdmin

  function RoleName(role: PlatformRole): string {
    match role
    case Teacher => "teacher"
    case Student => "student"
    case PlatformAdmin => "platform_admin"
  }

  function ParseRole(name: string): Option<PlatformRole> {
    if name == "teacher" then Some(Teacher)
    else if name == "student" then Some(Student)
    else if name == "platform_admin" then Some(PlatformAdmin)
    else None
  }

  function RoleNames(roles: seq<PlatformRole>): (names: seq<string>)
    ensures |names| == |roles|
  {
    if roles == [] then [] else [RoleName(roles[0])] + RoleNames(roles[1..])
  }

  function ParseRoles(names: seq<string>): Option<seq<PlatformRole>> {
    if names == [] then Some([])
    else
      match (ParseRole(names[0]), ParseRoles(names[1..]))
      case (Some(role), Some(rest)) => Some([role] + rest)
      case _ => None
  }

  lemma {:induction false} ParseRolesInvertsRoleNames(roles: seq<PlatformRole>)
    ensures ParseRoles(RoleNames(roles)) == Some(roles)
  {
    if roles != [] {
      ParseRolesInvertsRoleNames(roles[1..]);
      assert RoleNames(roles)[1..] == RoleNames(roles[1..]);
      assert [roles[0]] + roles[1..] == roles;
    }
  }

  // ---- Rows -------------------------------------------------------------------------------------

  datatype SessionRow = SessionRow(
    actorId: Id,
    roles: seq<string>,
    sidHash: Option<string>,
    revision: int,
    issuedAt: Time,
    expiresAt: Time,
    idleExpiresAt: Time,
    csrf: EncryptedValue,
    logoutHint: EncryptedValue,
    revokedAt: Option<Time>,
    diagnostic: Option<string>)

  datatype OidcRow = OidcRow(
    transactionId: Id,
    payload: EncryptedValue,
    expiresAt: Time,
    consumedAt: Option<Time>)

  datatype LogoutKey = LogoutKey(issuer: string, jtiHash: string)

  datatype LogoutRow = LogoutRow(receivedAt: Time, expiresAt: Time)

  /** `oidc` is keyed by the unique column `state_sha256`. */
  datatype Store = Store(
    sessions: map<Id, SessionRow>,
    oidc: map<string, OidcRow>,
    logouts: map<LogoutKey, LogoutRow>)

  const EMPTY := Store(map[], map[], map[])

  const SESSION_REVOKED := "LW_AUTH_SESSION_REVOKED"

  // ---- Values crossing the interface ------------------------------------------------------------

  datatype CreateInput = CreateInput(
    actorId: Id,
    roles: seq<PlatformRole>,
    revision: int,
    expiresAt: Time,
    idleTtl: int,
    oidcSid: Option<string>,
    logoutHint: string)

  datatype BffSession = BffSession(
    sessionId: Id,
    actorId: Id,
    roles: seq<PlatformRole>,
    revision: int,
    expiresAt: Time,
    idleExpiresAt: Time,
    csrfToken: string)

  datatype CleanupReport = CleanupReport(
    sessionsRevoked: nat,
    sessionsDeleted: nat,
    transactionsDeleted: nat,
    logoutEventsDeleted: nat)

  datatype RepositoryError =
    | StateRejected
    | StateMismatch
    | Serialization
    | Cipher(cause: CryptoError)
    | CsrfGeneration
    | LogoutReplay
    | SessionInvalid
    | SessionRejected
    | UniqueViolation
    | CheckViolation

  datatype Operation =
    | Create(ring: KeyRing, id: Id, input: CreateInput, csrf: Option<string>, csrfNonce: Nonce, hintNonce: Nonce, now: Time)
    | Load(ring: KeyRing, id: Id, idleTtl: int, now: Time)
    | Revoke(id: Id, diagnostic: string, now: Time)
    | RevokeBySid(sid: string, now: Time)
    | Logout(issuer: string, jti: string, sid: string, expiresAt: Time, now: Time)
    | Login(ring: KeyRing, transactionId: Id, transaction: OidcTransaction, nonce: Nonce, ttl: int, now: Time)
    | ConsumeOidc(ring: KeyRing, state: string, now: Time)
    | Cleanup(retention: int, now: Time)

  datatype Answer =
    | Session(session: BffSession)
    | Transaction(transaction: OidcTransaction)
    | Done
    | Revoked(count: nat)
    | Cleaned(report: CleanupReport)
    | Refused(error: RepositoryError)

  // ---- Steps ------------------------------------------------------------------------------------

  predicate Live(row: SessionRow, now: Time) {
    row.revokedAt.None? && row.expiresAt > now && row.idleExpiresAt > now
  }

  /** The conditions under which `create_bff_session` reaches its INSERT. */
  predicate Creatable(input: CreateInput, now: Time) {
    && input.expiresAt > now
    && Min(now + input.idleTtl, input.expiresAt) > now
    && input.revision > 0
    && input.roles != []
  }

  function NewSessionRow(lib: Library, input: CreateInput, csrf: EncryptedValue, hint: EncryptedValue, now: Time): SessionRow {
    SessionRow(
      input.actorId, RoleNames(input.roles),
      if input.oidcSid.Some? then Some(lib.sha256(input.oidcSid.value)) else None,
      input.revision, now, input.expiresAt, Min(now + input.idleTtl, input.expiresAt),
      csrf, hint, None, None)
  }

  function CreateStep(lib: Library, s: Store, ring: KeyRing, id: Id, input: CreateInput, csrf: Option<string>,
                      csrfNonce: Nonce, hintNonce: Nonce, now: Time): (Store, Result<BffSession, RepositoryError>)
  {
    if csrf.None? then (s, Err(CsrfGeneration))
    else
      match (Encrypt(lib, ring, csrfNonce, csrf.value, id), Encrypt(lib, ring, hintNonce, input.logoutHint, id))
      case (Err(e), _) => (s, Err(Cipher(e)))
      case (_, Err(e)) => (s, Err(Cipher(e)))
      case (Ok(sealedCsrf), Ok(sealedHint)) =>
        if !Creatable(input, now) then (s, Err(SessionInvalid))
        else if id in s.sessions then (s, Err(UniqueViolation))
        else
          var row := NewSessionRow(lib, input, sealedCsrf, sealedHint, now);
          (s.(sessions := s.sessions[id := row]),
           Ok(BffSession(id, input.actorId, input.roles, input.revision, input.expiresAt, row.idleExpiresAt, csrf.value)))
  }

  /** The idle deadline is written before the roles are parsed but after the token is decrypted. */
  function LoadStep(lib: Library, s: Store, ring: KeyRing, id: Id, idleTtl: int, now: Time)
    : (Store, Result<BffSession, RepositoryError>)
  {
    if id !in s.sessions || !Live(s.sessions[id], now) then (s, Err(SessionRejected))
    else
      var row := s.sessions[id];
      match Decrypt(lib, ring, row.csrf, id)
      case Err(e) => (s, Err(Cipher(e)))
      case Ok(csrf) =>
        if !lib.isUtf8(csrf) then (s, Err(SessionRejected))
        else
          var idle := Min(now + idleTtl, row.expiresAt);
          var s' := s.(sessions := s.sessions[id := row.(idleExpiresAt := idle)]);
          match ParseRoles(row.roles)
          case None => (s', Err(SessionRejected))
          case Some(roles) =>
            (s', Ok(BffSession(id, row.actorId, roles, row.revision, row.expiresAt, idle, csrf)))
  }

  function Coalesce<T>(first: Option<T>, second: T): Option<T> {
    if first.Some? then first else Some(second)
  }

  function RevokeStep(s: Store, id: Id, diagnostic: string, now: Time): Store {
    if id !in s.sessions then s
    else
      var row := s.sessions[id];
      s.(sessions := s.sessions[id := row.(revokedAt := Coalesce(row.revokedAt, now),
                                           diagnostic := Coalesce(row.diagnostic, diagnostic))])
  }

  /** The rows an UPDATE keyed by provider session touches: unrevoked and carrying that sid. */
  function CarryingSid(sessions: map<Id, SessionRow>, sidHash: string): set<Id> {
    set id | id in sessions && sessions[id].sidHash == Some(sidHash) && sessions[id].revokedAt.None?
  }

  function RevokeRows(sessions: map<Id, SessionRow>, ids: set<Id>, now: Time): map<Id, SessionRow> {
    map id | id in sessions ::
      if id in ids then sessions[id].(revokedAt := Some(now), diagnostic := Some(SESSION_REVOKED)) else sessions[id]
  }

  function RevokeBySidStep(lib: Library, s: Store, sid: string, now: Time): (Store, nat) {
    var ids := CarryingSid(s.sessions, lib.sha256(sid));
    (s.(sessions := RevokeRows(s.sessions, ids, now)), |ids|)
  }

  predicate LogoutAdmissible(issuer: string, jti: string, sid: string, expiresAt: Time, now: Time) {
    issuer != "" && jti != "" && sid != "" && expiresAt > now
  }

  /** The column check on the issuer. */
  predicate SecureIssuer(issuer: string) {
    |issuer| >= 8 && issuer[..8] == "https://"
  }

  function LogoutStep(lib: Library, s: Store, issuer: string, jti: string, sid: string, expiresAt: Time, now: Time)
    : (Store, Result<nat, RepositoryError>)
  {
    var key := LogoutKey(issuer, lib.sha256(jti));
    if !LogoutAdmissible(issuer, jti, sid, expiresAt, now) then (s, Err(LogoutReplay))
    else if !SecureIssuer(issuer) then (s, Err(CheckViolation))
    else if key in s.logouts then (s, Err(LogoutReplay))
    else
      var (s', count) := RevokeBySidStep(lib, s, sid, now);
      (s'.(logouts := s.logouts[key := LogoutRow(now, expiresAt)]), Ok(count))
  }

  predicate Holds(oidc: map<string, OidcRow>, transactionId: Id) {
    exists h :: h in oidc && oidc[h].transactionId == transactionId
  }

  /** The INSERT behind the login redirect; both unique columns and the expiry check can refuse it. */
  function LoginStep(lib: Library, s: Store, ring: KeyRing, transactionId: Id, transaction: OidcTransaction,
                     nonce: Nonce, ttl: int, now: Time): (Store, Result<(), RepositoryError>)
  {
    var hash := lib.sha256(transaction.state);
    match Encrypt(lib, ring, nonce, lib.toJson(transaction), transactionId)
    case Err(e) => (s, Err(Cipher(e)))
    case Ok(sealed) =>
      if ttl <= 0 then (s, Err(CheckViolation))
      else if hash in s.oidc || Holds(s.oidc, transactionId) then (s, Err(UniqueViolation))
      else (s.(oidc := s.oidc[hash := OidcRow(transactionId, sealed, now + ttl, None)]), Ok(()))
  }

  function ConsumeOidcStep(lib: Library, s: Store, ring: KeyRing, state: string, now: Time)
    : (Store, Result<OidcTransaction, RepositoryError>)
  {
    var hash := lib.sha256(state);
    if hash !in s.oidc || s.oidc[hash].consumedAt.Some? || s.oidc[hash].expiresAt <= now then (s, Err(StateRejected))
    else
      var row := s.oidc[hash];
      match Decrypt(lib, ring, row.payload, row.transactionId)
      case Err(e) => (s, Err(Cipher(e)))
      case Ok(text) =>
        match lib.fromJson(text)
        case None => (s, Err(Serialization))
        case Some(transaction) =>
          if transaction.state != state then (s, Err(StateMismatch))
          else (s.(oidc := s.oidc[hash := row.(consumedAt := Some(now))]), Ok(transaction))
  }

  /** What one cleanup makes of a session row: kept, stamped as revoked, or deleted. */
  function SweptRow(row: SessionRow, retention: int, now: Time): Option<SessionRow> {
    match row.revokedAt
    case Some(at) => if at < now - retention then None else Some(row)
    case None =>
      if row.expiresAt <= now || row.idleExpiresAt <= now
      then Some(row.(revokedAt := Some(now), diagnostic := Some(SESSION_REVOKED)))
      else Some(row)
  }

  function SweptSessions(sessions: map<Id, SessionRow>, retention: int, now: Time): map<Id, SessionRow> {
    map id | id in sessions && SweptRow(sessions[id], retention, now).Some? :: SweptRow(sessions[id], retention, now).value
  }

  function SweptLogins(oidc: map<string, OidcRow>, now: Time): map<string, OidcRow> {
    map h | h in oidc && oidc[h].expiresAt > now :: oidc[h]
  }

  function SweptEvents(logouts: map<LogoutKey, LogoutRow>, now: Time): map<LogoutKey, LogoutRow> {
    map k | k in logouts && logouts[k].expiresAt > now :: logouts[k]
  }

  function CleanupStep(s: Store, retention: int, now: Time): (Store, Result<CleanupReport, RepositoryError>) {
    if retention <= 0 then (s, Err(SessionInvalid))
    else
      var s' := Store(
        SweptSessions(s.sessions, retention, now),
        SweptLogins(s.oidc, now),
        SweptEvents(s.logouts, now));
      (s', Ok(CleanupReport(
        |set id | id in s.sessions && s.sessions[id].revokedAt.None? && !Live(s.sessions[id], now)|,
        |s.sessions.Keys - s'.sessions.Keys|,
        |s.oidc.Keys - s'.oidc.Keys|,
        |s.logouts.Keys - s'.logouts.Keys|)))
  }

  function SessionAnswer(r: Result<BffSession, RepositoryError>): Answer {
    if r.Ok? then Session(r.value) else Refused(r.error)
  }

  /** One atomic transaction: the next store and the caller's answer. */
  function Step(lib: Library, s: Store, op: Operation): (Store, Answer) {
    match op
    case Create(ring, id, input, csrf, csrfNonce, hintNonce, now) =>
      var (s', r) := CreateStep(lib, s, ring, id, input, csrf, csrfNonce, hintNonce, now);
      (s', SessionAnswer(r))
    case Load(ring, id, idleTtl, now) =>
      var (s', r) := LoadStep(lib, s, ring, id, idleTtl, now);
      (s', SessionAnswer(r))
    case Revoke(id, diagnostic, now) => (RevokeStep(s, id, diagnostic, now), Done)
    case RevokeBySid(sid, now) =>
      var (s', count) := RevokeBySidStep(lib, s, sid, now);
      (s', Revoked(count))
    case Logout(issuer, jti, sid, expiresAt, now) =>
      var (s', r) := LogoutStep(lib, s, issuer, jti, sid, expiresAt, now);
      (s', if r.Ok? then Revoked(r.value) else Refused(r.error))
    case Login(ring, transactionId, transaction, nonce, ttl, now) =>
      var (s', r) := LoginStep(lib, s, ring, transactionId, transaction, nonce, ttl, now);
      (s', if r.Ok? then Done else Refused(r.error))
    case ConsumeOidc(ring, state, now) =>
      var (s', r) := ConsumeOidcStep(lib, s, ring, state, now);
      (s', if r.Ok? then Transaction(r.value) else Refused(r.error))
    case Cleanup(retention, now) =>
      var (s', r) := CleanupStep(s, retention, now);
      (s', if r.Ok? then Cleaned(r.value) else Refused(r.error))
  }

  // ---- Runs -------------------------------------------------------------------------------------

  function After(lib: Library, s: Store, ops: seq<Operation>): Store
    decreases |ops|
  {
    if ops == [] then s else After(lib, Step(lib, s, ops[0]).0, ops[1..])
  }

  function Answers(lib: Library, s: Store, ops: seq<Operation>): (answers: seq<Answer>)
    ensures |answers| == |ops|
    decreases |ops|
  {
    if ops == [] then [] else [Step(lib, s, ops[0]).1] + Answers(lib, Step(lib, s, ops[0]).0, ops[1..])
  }

  /** The service clock never goes back, and starts no earlier than `t`. */
  predicate Ticking(t: Time, ops: seq<Operation>)
    decreases |ops|
  {
    ops == [] || (t <= ops[0].now && Ticking(ops[0].now, ops[1..]))
  }
}
