/**
  crates/auth/src/repository.rs in its own imperative form: one object holding the three tables,
  one method for each transaction, statement by statement. Every method is proved to take exactly
  the step that AuthStore specifies, rollback included.
*/
module AuthRepository {
  import opened Prelude
  import opened Crypto
  import opened AuthStore

  class Repository {
    const lib: Library
    var sessions: map<Id, SessionRow>
    var oidc: map<string, OidcRow>
    var logouts: map<LogoutKey, LogoutRow>

    constructor (lib: Library)
      ensures this.lib == lib && Contents() == EMPTY
    {
      this.lib := lib;
      sessions, oidc, logouts := map[], map[], map[];
    }

    function Contents(): Store
      reads this
    {
      Store(sessions, oidc, logouts)
    }

    method CreateBffSession(ring: KeyRing, id: Id, input: CreateInput, csrf: Option<string>,
                            csrfNonce: Nonce, hintNonce: Nonce, now: Time)
      returns (r: Result<BffSession, RepositoryError>)
      modifies this`sessions
      ensures (Contents(), r) == CreateStep(lib, old(Contents()), ring, id, input, csrf, csrfNonce, hintNonce, now)
    {
      if csrf.None? {
        return Err(CsrfGeneration);
      }
      var sealedCsrf := Encrypt(lib, ring, csrfNonce, csrf.value, id);
      if sealedCsrf.Err? {
        return Err(Cipher(sealedCsrf.error));
      }
      var sealedHint := Encrypt(lib, ring, hintNonce, input.logoutHint, id); // the same active key: cannot fail either
      var idle := Min(now + input.idleTtl, input.expiresAt);
      if input.expiresAt <= now || idle <= now || input.revision <= 0 || input.roles == [] {
        return Err(SessionInvalid);
      }
      var sidHash := None;
      if input.oidcSid.Some? {
        sidHash := Some(lib.sha256(input.oidcSid.value));
      }
      if id in sessions {
        return Err(UniqueViolation);
      }
      var names := [];
      for i := 0 to |input.roles|
        invariant names + RoleNames(input.roles[i..]) == RoleNames(input.roles)
      {
        assert input.roles[i..][1..] == input.roles[i + 1..];
        names := names + [RoleName(input.roles[i])];
      }
      assert input.roles[|input.roles|..] == [] && names == RoleNames(input.roles);
      sessions := sessions[id := SessionRow(
        input.actorId, names, sidHash, input.revision, now, input.expiresAt, idle,
        sealedCsrf.value, sealedHint.value, None, None)];
      return Ok(BffSession(id, input.actorId, input.roles, input.revision, input.expiresAt, idle, csrf.value));
    }

    method LoadBffSession(ring: KeyRing, id: Id, idleTtl: int, now: Time) returns (r: Result<BffSession, RepositoryError>)
      modifies this`sessions
      ensures (Contents(), r) == LoadStep(lib, old(Contents()), ring, id, idleTtl, now)
    {
      if !(id in sessions && sessions[id].revokedAt.None? && sessions[id].expiresAt > now && sessions[id].idleExpiresAt > now) {
        return Err(SessionRejected);
      }
      var before := sessions;
      var row := sessions[id];
      var idle := Min(now + idleTtl, row.expiresAt);
      sessions := sessions[id := row.(idleExpiresAt := idle)];
      var csrf := Decrypt(lib, ring, row.csrf, id);
      if csrf.Err? {
        sessions := before; // the open transaction is dropped without a commit
        return Err(Cipher(csrf.error));
      }
      if !lib.isUtf8(csrf.value) {
        sessions := before;
        return Err(SessionRejected);
      }
      var roles := ParseRoles(row.roles);
      if roles.None? {
        return Err(SessionRejected);
      }
      return Ok(BffSession(id, row.actorId, roles.value, row.revision, row.expiresAt, idle, csrf.value));
    }

    method RevokeBffSession(id: Id, diagnostic: string, now: Time)
      modifies this`sessions
      ensures Contents() == RevokeStep(old(Contents()), id, diagnostic, now)
    {
      if id in sessions {
        var row := sessions[id];
        var revokedAt := if row.revokedAt.None? then Some(now) else row.revokedAt;
        var reason := if row.diagnostic.None? then Some(diagnostic) else row.diagnostic;
        sessions := sessions[id := row.(revokedAt := revokedAt, diagnostic := reason)];
      }
    }

    method RevokeBffSessionsBySid(sid: string, now: Time) returns (count: nat)
      modifies this`sessions
      ensures (Contents(), count) == RevokeBySidStep(lib, old(Contents()), sid, now)
    {
      var sidHash := lib.sha256(sid);
      var ids := set id | id in sessions && sessions[id].sidHash == Some(sidHash) && sessions[id].revokedAt.None?;
      count := |ids|;
      sessions := sessions + map id | id in ids :: sessions[id].(revokedAt := Some(now), diagnostic := Some(SESSION_REVOKED));
      assert ids == CarryingSid(old(sessions), sidHash);
      StampsAreRevocations(old(sessions), ids, now);
    }

    method ConsumeBackchannelLogout(issuer: string, jti: string, sid: string, expiresAt: Time, now: Time)
      returns (r: Result<nat, RepositoryError>)
      modifies this`sessions, this`logouts
      ensures (Contents(), r) == LogoutStep(lib, old(Contents()), issuer, jti, sid, expiresAt, now)
    {
      if issuer == "" || jti == "" || sid == "" || expiresAt <= now {
        return Err(LogoutReplay);
      }
      if !SecureIssuer(issuer) {
        return Err(CheckViolation);
      }
      var key := LogoutKey(issuer, lib.sha256(jti));
      if key in logouts { // ON CONFLICT DO NOTHING affects no row
        return Err(LogoutReplay);
      }
      logouts := logouts[key := LogoutRow(now, expiresAt)];
      var count := RevokeBffSessionsBySid(sid, now);
      return Ok(count);
    }

    method BeginLogin(ring: KeyRing, transactionId: Id, transaction: OidcTransaction, nonce: Nonce, ttl: int, now: Time)
      returns (r: Result<(), RepositoryError>)
      modifies this`oidc
      ensures (Contents(), r) == LoginStep(lib, old(Contents()), ring, transactionId, transaction, nonce, ttl, now)
    {
      var sealed := Encrypt(lib, ring, nonce, lib.toJson(transaction), transactionId);
      if sealed.Err? {
        return Err(Cipher(sealed.error));
      }
      var hash := lib.sha256(transaction.state);
      var expiresAt := now + ttl;
      if expiresAt <= now {
        return Err(CheckViolation);
      }
      if hash in oidc || exists h :: h in oidc && oidc[h].transactionId == transactionId {
        return Err(UniqueViolation);
      }
      oidc := oidc[hash := OidcRow(transactionId, sealed.value, expiresAt, None)];
      return Ok(());
    }

    method ConsumeOidcTransaction(ring: KeyRing, state: string, now: Time) returns (r: Result<OidcTransaction, RepositoryError>)
      modifies this`oidc
      ensures (Contents(), r) == ConsumeOidcStep(lib, old(Contents()), ring, state, now)
    {
      var hash := lib.sha256(state);
      if !(hash in oidc && oidc[hash].consumedAt.None? && oidc[hash].expiresAt > now) {
        return Err(StateRejected);
      }
      var row := oidc[hash];
      var text := Decrypt(lib, ring, row.payload, row.transactionId);
      if text.Err? {
        return Err(Cipher(text.error));
      }
      var transaction := lib.fromJson(text.value);
      if transaction.None? {
        return Err(Serialization);
      }
      if transaction.value.state != state {
        return Err(StateMismatch);
      }
      oidc := oidc[hash := row.(consumedAt := Some(now))];
      return Ok(transaction.value);
    }

    /** Four statements in one transaction: expire, purge sessions, purge logins, purge reservations. */
    method CleanupExpiredAuthState(now: Time, retention: int) returns (r: Result<CleanupReport, RepositoryError>)
      modifies this
      ensures (Contents(), r) == CleanupStep(old(Contents()), retention, now)
    {
      if retention <= 0 {
        return Err(SessionInvalid);
      }
      var retentionBefore := now - retention;
      var expired := set id | id in sessions && sessions[id].revokedAt.None?
                              && (sessions[id].expiresAt <= now || sessions[id].idleExpiresAt <= now);
      sessions := sessions + map id | id in expired :: sessions[id].(revokedAt := Some(now), diagnostic := Some(SESSION_REVOKED));
      StampsAreRevocations(old(sessions), expired, now);
      var purged := set id | id in sessions && sessions[id].revokedAt.Some? && sessions[id].revokedAt.value < retentionBefore;
      sessions := sessions - purged;
      var staleLogins := set h | h in oidc && oidc[h].expiresAt <= now;
      oidc := oidc - staleLogins;
      var staleEvents := set k | k in logouts && logouts[k].expiresAt <= now;
      logouts := logouts - staleEvents;
      SweepMatches(old(Contents()), retention, now, expired, purged, staleLogins, staleEvents);
      return Ok(CleanupReport(|expired|, |purged|, |staleLogins|, |staleEvents|));
    }
  }

  /** An UPDATE of some rows is the row-wise revocation. */
  lemma StampsAreRevocations(sessions: map<Id, SessionRow>, ids: set<Id>, now: Time)
    requires ids <= sessions.Keys
    ensures sessions + (map id | id in ids :: sessions[id].(revokedAt := Some(now), diagnostic := Some(SESSION_REVOKED))) == RevokeRows(sessions, ids, now)
  {
  }

  /** Stamping the expired rows and then deleting the old ones is the row-by-row sweep. */
  lemma SweepSessions(sessions: map<Id, SessionRow>, retention: int, now: Time, expired: set<Id>, purged: set<Id>)
    requires retention > 0
    requires expired == set id | id in sessions && sessions[id].revokedAt.None?
                                 && (sessions[id].expiresAt <= now || sessions[id].idleExpiresAt <= now)
    requires var stamped := RevokeRows(sessions, expired, now);
             purged == set id | id in stamped && stamped[id].revokedAt.Some? && stamped[id].revokedAt.value < now - retention
    ensures RevokeRows(sessions, expired, now) - purged == SweptSessions(sessions, retention, now)
    ensures sessions.Keys - SweptSessions(sessions, retention, now).Keys == purged
    ensures expired == set id | id in sessions && sessions[id].revokedAt.None? && !Live(sessions[id], now)
  {
    var stamped, swept := RevokeRows(sessions, expired, now), SweptSessions(sessions, retention, now);
    forall id | id in sessions
      ensures id in purged <==> id !in swept
      ensures id in swept ==> stamped[id] == swept[id]
    {
      assert stamped[id].revokedAt == (if id in expired then Some(now) else sessions[id].revokedAt);
    }
  }

  /** Table by table, the four statements reach the specified store and counts. */
  lemma SweepMatches(s: Store, retention: int, now: Time, expired: set<Id>, purged: set<Id>, staleLogins: set<string>, staleEvents: set<LogoutKey>)
    requires retention > 0
    requires expired == set id | id in s.sessions && s.sessions[id].revokedAt.None?
                                 && (s.sessions[id].expiresAt <= now || s.sessions[id].idleExpiresAt <= now)
    requires var stamped := RevokeRows(s.sessions, expired, now);
             purged == set id | id in stamped && stamped[id].revokedAt.Some? && stamped[id].revokedAt.value < now - retention
    requires staleLogins == set h | h in s.oidc && s.oidc[h].expiresAt <= now
    requires staleEvents == set k | k in s.logouts && s.logouts[k].expiresAt <= now
    ensures CleanupStep(s, retention, now) ==
            (Store(RevokeRows(s.sessions, expired, now) - purged, s.oidc - staleLogins, s.logouts - staleEvents),
             Ok(CleanupReport(|expired|, |purged|, |staleLogins|, |staleEvents|)))
  {
    SweepSessions(s.sessions, retention, now, expired, purged);
    SweepLogins(s.oidc, now, staleLogins);
    SweepEvents(s.logouts, now, staleEvents);
  }

  lemma SweepLogins(oidc: map<string, OidcRow>, now: Time, stale: set<string>)
    requires stale == set h | h in oidc && oidc[h].expiresAt <= now
    ensures SweptLogins(oidc, now) == oidc - stale && oidc.Keys - SweptLogins(oidc, now).Keys == stale
  {
    assert forall h :: h in oidc ==> (h in stale <==> h !in SweptLogins(oidc, now));
  }

  lemma SweepEvents(logouts: map<LogoutKey, LogoutRow>, now: Time, stale: set<LogoutKey>)
    requires stale == set k | k in logouts && logouts[k].expiresAt <= now
    ensures SweptEvents(logouts, now) == logouts - stale && logouts.Keys - SweptEvents(logouts, now).Keys == stale
  {
    assert forall k :: k in logouts ==> (k in stale <==> k !in SweptEvents(logouts, now));
  }
}
