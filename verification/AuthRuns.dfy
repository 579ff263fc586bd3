/**
  Safety of the authentication store over whole runs: permanent rejection, stable audit evidence,
  one-time logout tokens and logins, and sessions that come back as they were created.
*/
module AuthRuns {
  import opened Prelude
  import opened Crypto
  import opened AuthStore

  predicate NeverCreates(ops: seq<Operation>, id: Id) {
    forall i :: 0 <= i < |ops| ==> !(ops[i].Create? && ops[i].id == id)
  }

  // ---- Splitting a run --------------------------------------------------------------------------

  lemma {:induction false} AnswerAt(lib: Library, s: Store, ops: seq<Operation>, i: nat)
    requires i < |ops|
    ensures Answers(lib, s, ops)[i] == Step(lib, After(lib, s, ops[..i]), ops[i]).1
    decreases i
  {
    if i == 0 {
      assert ops[..0] == [];
    } else {
      AnswerAt(lib, Step(lib, s, ops[0]).0, ops[1..], i - 1);
      assert ops[1..][..i - 1] == ops[..i][1..];
    }
  }

  lemma {:induction false} AfterAppend(lib: Library, s: Store, ops: seq<Operation>, op: Operation)
    ensures After(lib, s, ops + [op]) == Step(lib, After(lib, s, ops), op).0
    decreases |ops|
  {
    if ops == [] {
      assert ops + [op] == [op] && [op][1..] == [];
    } else {
      assert (ops + [op])[1..] == ops[1..] + [op];
      AfterAppend(lib, Step(lib, s, ops[0]).0, ops[1..], op);
    }
  }

  lemma {:induction false} TickingSuffix(t: Time, ops: seq<Operation>, i: nat)
    requires Ticking(t, ops) && i < |ops|
    ensures t <= ops[i].now && Ticking(ops[i].now, ops[i + 1..])
    decreases i
  {
    if i > 0 {
      TickingSuffix(ops[0].now, ops[1..], i - 1);
      assert ops[1..][i..] == ops[i + 1..];
    }
  }

  // ---- Permanent rejection ----------------------------------------------------------------------

  /** Revoked, expired, idle-expired or deleted. */
  predicate Gone(s: Store, id: Id, t: Time) {
    id in s.sessions ==> !Live(s.sessions[id], t)
  }

  lemma StepKeepsGone(lib: Library, s: Store, op: Operation, id: Id)
    requires Gone(s, id, op.now) && !(op.Create? && op.id == id)
    ensures Gone(Step(lib, s, op).0, id, op.now)
    ensures op.Load? && op.id == id ==> Step(lib, s, op).1 == Refused(SessionRejected)
  {
    if op.Cleanup? {
      CleanupOfRow(lib, s, op, id);
    }
  }

  /** Once rejected, always rejected: no step brings a session back. */
  lemma {:induction false} RejectionIsPermanent(lib: Library, s: Store, t: Time, ops: seq<Operation>, id: Id, i: nat)
    requires Ticking(t, ops) && Gone(s, id, t) && NeverCreates(ops, id)
    requires i < |ops| && ops[i].Load? && ops[i].id == id
    ensures Answers(lib, s, ops)[i] == Refused(SessionRejected)
    decreases i
  {
    StepKeepsGone(lib, s, ops[0], id);
    if i > 0 {
      RejectionIsPermanent(lib, Step(lib, s, ops[0]).0, ops[0].now, ops[1..], id, i - 1);
    }
  }

  // ---- What every reachable store satisfies -----------------------------------------------------

  ghost predicate ReadableRoles(names: seq<string>) {
    names != [] && ParseRoles(names).Some?
  }

  ghost predicate SoundRow(row: SessionRow, t: Time) {
    && row.idleExpiresAt <= row.expiresAt
    && row.issuedAt < row.expiresAt
    && row.revision > 0
    && ReadableRoles(row.roles)
    && (row.revokedAt.Some? <==> row.diagnostic.Some?)
    && (row.revokedAt.Some? ==> row.revokedAt.value <= t)
  }

  ghost predicate Sound(s: Store, t: Time) {
    forall id :: id in s.sessions ==> SoundRow(s.sessions[id], t)
  }

  lemma RowStaysSound(lib: Library, s: Store, t: Time, op: Operation, id: Id)
    requires id in s.sessions ==> SoundRow(s.sessions[id], t)
    requires t <= op.now && id in Step(lib, s, op).0.sessions
    ensures SoundRow(Step(lib, s, op).0.sessions[id], op.now)
  {
    match op
    case Create(_, _, _, _, _, _, _) => CreatedRowIsSound(lib, s, t, op, id);
    case Cleanup(_, _) => CleanupOfRow(lib, s, op, id);
    case Login(_, _, _, _, _, _) => assert Step(lib, s, op).0.sessions == s.sessions;
    case ConsumeOidc(_, _, _) => assert Step(lib, s, op).0.sessions == s.sessions;
    case _ => TouchedRowIsSound(lib, s, t, op, id);
  }

  lemma TouchedRowIsSound(lib: Library, s: Store, t: Time, op: Operation, id: Id)
    requires id in s.sessions ==> SoundRow(s.sessions[id], t)
    requires t <= op.now && id in Step(lib, s, op).0.sessions
    requires op.Load? || op.Revoke? || op.RevokeBySid? || op.Logout?
    ensures SoundRow(Step(lib, s, op).0.sessions[id], op.now)
  {
    assert Step(lib, s, op).0.sessions[id].roles == s.sessions[id].roles;
  }

  lemma CreatedRowIsSound(lib: Library, s: Store, t: Time, op: Operation, id: Id)
    requires id in s.sessions ==> SoundRow(s.sessions[id], t)
    requires op.Create? && t <= op.now && id in Step(lib, s, op).0.sessions
    ensures SoundRow(Step(lib, s, op).0.sessions[id], op.now)
  {
    ParseRolesInvertsRoleNames(op.input.roles);
  }

  lemma CleanupOfRow(lib: Library, s: Store, op: Operation, id: Id)
    requires op.Cleanup?
    ensures var s' := Step(lib, s, op).0;
            && (id in s'.sessions ==> id in s.sessions)
            && (id in s.sessions && op.retention <= 0 ==> id in s'.sessions && s'.sessions[id] == s.sessions[id])
            && (id in s.sessions && op.retention > 0 ==>
                  var swept := SweptRow(s.sessions[id], op.retention, op.now);
                  (id in s'.sessions <==> swept.Some?) && (swept.Some? ==> s'.sessions[id] == swept.value))
  {
  }

  lemma StepKeepsSound(lib: Library, s: Store, t: Time, op: Operation)
    requires Sound(s, t) && t <= op.now
    ensures Sound(Step(lib, s, op).0, op.now)
  {
    forall id | id in Step(lib, s, op).0.sessions ensures SoundRow(Step(lib, s, op).0.sessions[id], op.now) {
      RowStaysSound(lib, s, t, op, id);
    }
  }

  lemma {:induction false} RunKeepsSound(lib: Library, s: Store, t: Time, ops: seq<Operation>)
    requires Sound(s, t) && Ticking(t, ops)
    ensures Sound(After(lib, s, ops), if ops == [] then t else ops[|ops| - 1].now)
    decreases |ops|
  {
    if ops != [] {
      StepKeepsSound(lib, s, t, ops[0]);
      RunKeepsSound(lib, Step(lib, s, ops[0]).0, ops[0].now, ops[1..]);
    }
  }

  /** In every store any run can reach: bounded idle deadlines, readable roles, complete revocations. */
  lemma ReachableStoresAreSound(lib: Library, t: Time, ops: seq<Operation>)
    requires Ticking(t, ops)
    ensures Sound(After(lib, EMPTY, ops), if ops == [] then t else ops[|ops| - 1].now)
  {
    RunKeepsSound(lib, EMPTY, t, ops);
  }

  /** The role parse that follows the commit never fails in a reachable store: a refusal writes nothing. */
  lemma RefusalChangesNothing(lib: Library, s: Store, t: Time, op: Operation)
    requires Sound(s, t) && Step(lib, s, op).1.Refused?
    ensures Step(lib, s, op).0 == s
  {
  }

  // ---- Revocation evidence ----------------------------------------------------------------------

  /** The steps that revoke an unrevoked row. */
  predicate Revokes(lib: Library, s: Store, op: Operation, id: Id, row: SessionRow) {
    match op
    case Revoke(target, _, _) => target == id
    case RevokeBySid(sid, _) => row.sidHash == Some(lib.sha256(sid))
    case Logout(_, _, sid, _, _) => row.sidHash == Some(lib.sha256(sid)) && Step(lib, s, op).1.Revoked?
    case Cleanup(retention, now) => retention > 0 && !Live(row, now)
    case _ => false
  }

  /** Exactly these four revoke a row, and each stamps the time and diagnostic of that step. */
  lemma RevocationCause(lib: Library, s: Store, op: Operation, id: Id)
    requires id in s.sessions && s.sessions[id].revokedAt.None? && s.sessions[id].diagnostic.None?
    ensures id in Step(lib, s, op).0.sessions
    ensures Step(lib, s, op).0.sessions[id].revokedAt == (if Revokes(lib, s, op, id, s.sessions[id]) then Some(op.now) else None)
    ensures Step(lib, s, op).0.sessions[id].diagnostic ==
            (if Revokes(lib, s, op, id, s.sessions[id]) then Some(if op.Revoke? then op.diagnostic else SESSION_REVOKED) else None)
  {
    if op.Cleanup? {
      CleanupOfRow(lib, s, op, id);
    }
  }

  /** A revoked row is frozen until a cleanup strictly more than its retention period later deletes it. */
  lemma RevokedRowIsFrozen(lib: Library, s: Store, op: Operation, id: Id)
    requires id in s.sessions && s.sessions[id].revokedAt.Some? && s.sessions[id].diagnostic.Some?
    ensures var s' := Step(lib, s, op).0;
            if op.Cleanup? && op.retention > 0 && s.sessions[id].revokedAt.value < op.now - op.retention
            then id !in s'.sessions
            else id in s'.sessions && s'.sessions[id] == s.sessions[id]
  {
    if op.Cleanup? {
      CleanupOfRow(lib, s, op, id);
    }
  }

  predicate Purges(op: Operation, revokedAt: Time) {
    op.Cleanup? && op.retention > 0 && revokedAt < op.now - op.retention
  }

  /** Over a whole run: the first revocation time and diagnostic never change while the row exists. */
  lemma {:induction false} EvidenceIsStable(lib: Library, s: Store, ops: seq<Operation>, id: Id)
    requires id in s.sessions && s.sessions[id].revokedAt.Some? && s.sessions[id].diagnostic.Some?
    requires NeverCreates(ops, id)
    ensures var s' := After(lib, s, ops);
            if exists i :: 0 <= i < |ops| && Purges(ops[i], s.sessions[id].revokedAt.value)
            then id !in s'.sessions
            else id in s'.sessions && s'.sessions[id] == s.sessions[id]
    decreases |ops|
  {
    if ops != [] {
      var s1, rest, at := Step(lib, s, ops[0]).0, ops[1..], s.sessions[id].revokedAt.value;
      RevokedRowIsFrozen(lib, s, ops[0], id);
      assert forall i :: 0 <= i < |rest| ==> rest[i] == ops[i + 1];
      if Purges(ops[0], at) {
        StaysDeleted(lib, s1, rest, id);
      } else {
        EvidenceIsStable(lib, s1, rest, id);
        assert (exists i :: 0 <= i < |ops| && Purges(ops[i], at)) <==> (exists i :: 0 <= i < |rest| && Purges(rest[i], at)) by {
          if i :| 0 <= i < |ops| && Purges(ops[i], at) {
            assert Purges(rest[i - 1], at);
          }
          if i :| 0 <= i < |rest| && Purges(rest[i], at) {
            assert Purges(ops[i + 1], at);
          }
        }
      }
    }
  }

  lemma StepKeepsDeleted(lib: Library, s: Store, op: Operation, id: Id)
    requires id !in s.sessions && !(op.Create? && op.id == id)
    ensures id !in Step(lib, s, op).0.sessions
  {
    if op.Cleanup? {
      CleanupOfRow(lib, s, op, id);
    }
  }

  lemma {:induction false} StaysDeleted(lib: Library, s: Store, ops: seq<Operation>, id: Id)
    requires id !in s.sessions && NeverCreates(ops, id)
    ensures id !in After(lib, s, ops).sessions
    decreases |ops|
  {
    if ops != [] {
      StepKeepsDeleted(lib, s, ops[0], id);
      StaysDeleted(lib, Step(lib, s, ops[0]).0, ops[1..], id);
    }
  }

  // ---- Back-channel logout ----------------------------------------------------------------------

  /** The token is spent: its reservation is held, or its expiry has passed. */
  predicate Spent(s: Store, key: LogoutKey, expiresAt: Time, t: Time) {
    t >= expiresAt || (key in s.logouts && s.logouts[key].expiresAt == expiresAt)
  }

  lemma StepKeepsSpent(lib: Library, s: Store, op: Operation, key: LogoutKey, expiresAt: Time)
    requires Spent(s, key, expiresAt, op.now) && SecureIssuer(key.issuer)
    ensures Spent(Step(lib, s, op).0, key, expiresAt, op.now)
    ensures op.Logout? && LogoutKey(op.issuer, lib.sha256(op.jti)) == key && op.expiresAt == expiresAt ==>
              Step(lib, s, op) == (s, Refused(LogoutReplay))
  {
  }

  lemma TickOrder(t: Time, ops: seq<Operation>, i: nat)
    requires Ticking(t, ops) && i + 1 < |ops|
    ensures ops[i].now <= ops[i + 1].now
  {
    TickingSuffix(t, ops, i);
    assert ops[i + 1..][0] == ops[i + 1];
  }

  lemma AfterNext(lib: Library, s: Store, ops: seq<Operation>, i: nat)
    requires i < |ops|
    ensures After(lib, s, ops[..i + 1]) == Step(lib, After(lib, s, ops[..i]), ops[i]).0
  {
    assert ops[..i + 1] == ops[..i] + [ops[i]];
    AfterAppend(lib, s, ops[..i], ops[i]);
  }

  lemma {:induction false} SpentStays(lib: Library, s: Store, t: Time, ops: seq<Operation>, key: LogoutKey, expiresAt: Time, i: nat, j: nat)
    requires Ticking(t, ops) && i <= j < |ops| && SecureIssuer(key.issuer)
    requires Spent(After(lib, s, ops[..i + 1]), key, expiresAt, ops[i].now)
    ensures Spent(After(lib, s, ops[..j + 1]), key, expiresAt, ops[j].now)
    decreases j
  {
    if i < j {
      SpentStays(lib, s, t, ops, key, expiresAt, i, j - 1);
      TickOrder(t, ops, j - 1);
      StepKeepsSpent(lib, After(lib, s, ops[..j]), ops[j], key, expiresAt);
      AfterNext(lib, s, ops, j);
    }
  }

  /**
    A logout token takes effect at most once, however many cleanups run in between, and every
    replay leaves the whole store as it was. No assumption on other tokens is needed.
  */
  lemma LogoutTakesEffectOnce(lib: Library, s: Store, t: Time, ops: seq<Operation>, i: nat, j: nat)
    requires Ticking(t, ops) && i < j < |ops| && ops[i].Logout? && ops[j].Logout?
    requires (ops[i].issuer, ops[i].jti, ops[i].expiresAt) == (ops[j].issuer, ops[j].jti, ops[j].expiresAt)
    requires Answers(lib, s, ops)[i].Revoked?
    ensures Answers(lib, s, ops)[j] == Refused(LogoutReplay)
    ensures After(lib, s, ops[..j + 1]) == After(lib, s, ops[..j])
  {
    var key := LogoutKey(ops[i].issuer, lib.sha256(ops[i].jti));
    AcceptedAt(lib, s, ops, i);
    SpentStays(lib, s, t, ops, key, ops[i].expiresAt, i, j - 1);
    TickOrder(t, ops, j - 1);
    StepKeepsSpent(lib, After(lib, s, ops[..j]), ops[j], key, ops[i].expiresAt);
    AnswerAt(lib, s, ops, j);
    AfterNext(lib, s, ops, j);
  }

  lemma AcceptedAt(lib: Library, s: Store, ops: seq<Operation>, i: nat)
    requires i < |ops| && ops[i].Logout? && Answers(lib, s, ops)[i].Revoked?
    ensures SecureIssuer(ops[i].issuer)
    ensures Spent(After(lib, s, ops[..i + 1]), LogoutKey(ops[i].issuer, lib.sha256(ops[i].jti)), ops[i].expiresAt, ops[i].now)
  {
    AnswerAt(lib, s, ops, i);
    AfterNext(lib, s, ops, i);
  }

  // ---- A session comes back as it was created ---------------------------------------------------

  /** Everything in a row except the idle deadline and the revocation columns. */
  function Identity(row: SessionRow): SessionRow {
    row.(idleExpiresAt := 0, revokedAt := None, diagnostic := None)
  }

  lemma StepKeepsIdentity(lib: Library, s: Store, op: Operation, id: Id)
    requires id in s.sessions && id in Step(lib, s, op).0.sessions
    ensures Identity(Step(lib, s, op).0.sessions[id]) == Identity(s.sessions[id])
  {
    if op.Cleanup? {
      CleanupOfRow(lib, s, op, id);
    }
  }

  lemma {:induction false} RunKeepsIdentity(lib: Library, s: Store, ops: seq<Operation>, id: Id)
    requires id in s.sessions && NeverCreates(ops, id) && id in After(lib, s, ops).sessions
    ensures Identity(After(lib, s, ops).sessions[id]) == Identity(s.sessions[id])
    decreases |ops|
  {
    if ops != [] {
      var s1 := Step(lib, s, ops[0]).0;
      if id !in s1.sessions {
        StaysDeleted(lib, s1, ops[1..], id);
      }
      StepKeepsIdentity(lib, s, ops[0], id);
      RunKeepsIdentity(lib, s1, ops[1..], id);
    }
  }

  /**
    Whatever happens between, loading a created session succeeds exactly while its row is live, and
    returns the actor, roles, revision, absolute expiry and CSRF token of the creation, with an idle
    deadline renewed from the time of the load.
  */
  lemma LoadReturnsCreated(lib: Library, s: Store, create: Operation, ops: seq<Operation>, load: Operation)
    requires Lawful(lib) && create.Create? && load.Load? && load.id == create.id && NeverCreates(ops, create.id)
    requires Keeps(load.ring, create.ring)
    requires Step(lib, s, create).1.Session? && lib.isUtf8(create.csrf.value)
    ensures var created := Step(lib, s, create).1.session;
            var s' := After(lib, Step(lib, s, create).0, ops);
            Step(lib, s', load).1 ==
            if load.id in s'.sessions && Live(s'.sessions[load.id], load.now)
            then Session(created.(idleExpiresAt := Min(load.now + load.idleTtl, created.expiresAt)))
            else Refused(SessionRejected)
  {
    var s1 := Step(lib, s, create).0;
    var s' := After(lib, s1, ops);
    if load.id in s'.sessions {
      RunKeepsIdentity(lib, s1, ops, create.id);
      DecryptInvertsEncrypt(lib, create.ring, load.ring, create.csrfNonce, create.csrf.value, create.id);
      ParseRolesInvertsRoleNames(create.input.roles);
    }
  }

  /** After an accepted logout, no session created with that provider session ever loads again. */
  lemma LogoutEndsSessions(lib: Library, s: Store, create: Operation, before: seq<Operation>, logout: Operation, t: Time, ops: seq<Operation>, i: nat)
    requires create.Create? && Step(lib, s, create).1.Session? && NeverCreates(before, create.id) && NeverCreates(ops, create.id)
    requires logout.Logout? && create.input.oidcSid == Some(logout.sid)
    requires var s' := After(lib, Step(lib, s, create).0, before); Step(lib, s', logout).1.Revoked?
    requires Ticking(t, ops) && logout.now <= t
    requires i < |ops| && ops[i].Load? && ops[i].id == create.id
    ensures var s' := After(lib, Step(lib, s, create).0, before);
            Answers(lib, Step(lib, s', logout).0, ops)[i] == Refused(SessionRejected)
  {
    var s1 := Step(lib, s, create).0;
    var s2 := After(lib, s1, before);
    if create.id in s2.sessions {
      RunKeepsIdentity(lib, s1, before, create.id);
    }
    RejectionIsPermanent(lib, Step(lib, s2, logout).0, t, ops, create.id, i);
  }

  // ---- Idle renewal -----------------------------------------------------------------------------

  predicate FixedIdle(op: Operation, ttl: int) {
    (op.Create? ==> op.input.idleTtl == ttl) && (op.Load? ==> op.idleTtl == ttl)
  }

  ghost predicate IdleBounded(s: Store, t: Time, ttl: int) {
    forall id :: id in s.sessions ==> s.sessions[id].idleExpiresAt <= Min(t + ttl, s.sessions[id].expiresAt)
  }

  lemma RenewalOfRow(lib: Library, s: Store, t: Time, op: Operation, ttl: int, id: Id)
    requires id in s.sessions ==> s.sessions[id].idleExpiresAt <= Min(t + ttl, s.sessions[id].expiresAt)
    requires t <= op.now && FixedIdle(op, ttl) && id in Step(lib, s, op).0.sessions
    ensures var row' := Step(lib, s, op).0.sessions[id];
            && row'.idleExpiresAt <= Min(op.now + ttl, row'.expiresAt)
            && (id in s.sessions ==> s.sessions[id].idleExpiresAt <= row'.idleExpiresAt)
  {
    if op.Cleanup? {
      CleanupOfRow(lib, s, op, id);
    }
  }

  /** With one configured idle lifetime no step shortens an idle deadline, and none exceeds the bound. */
  lemma RenewalNeverShortens(lib: Library, s: Store, t: Time, op: Operation, ttl: int)
    requires IdleBounded(s, t, ttl) && t <= op.now && FixedIdle(op, ttl)
    ensures var s' := Step(lib, s, op).0;
            && IdleBounded(s', op.now, ttl)
            && (forall id :: id in s.sessions && id in s'.sessions ==> s.sessions[id].idleExpiresAt <= s'.sessions[id].idleExpiresAt)
  {
    forall id | id in Step(lib, s, op).0.sessions
      ensures var row' := Step(lib, s, op).0.sessions[id];
              && row'.idleExpiresAt <= Min(op.now + ttl, row'.expiresAt)
              && (id in s.sessions ==> s.sessions[id].idleExpiresAt <= row'.idleExpiresAt)
    {
      RenewalOfRow(lib, s, t, op, ttl, id);
    }
  }

  /** Over every run: the idle deadline of a session only ever moves later. */
  lemma {:induction false} IdleDeadlinesOnlyGrow(lib: Library, s: Store, t: Time, ops: seq<Operation>, ttl: int, id: Id)
    requires IdleBounded(s, t, ttl) && Ticking(t, ops) && forall i :: 0 <= i < |ops| ==> FixedIdle(ops[i], ttl)
    requires id in s.sessions && NeverCreates(ops, id)
    ensures var s' := After(lib, s, ops);
            id in s'.sessions ==> s.sessions[id].idleExpiresAt <= s'.sessions[id].idleExpiresAt <= s'.sessions[id].expiresAt
    decreases |ops|
  {
    if ops != [] {
      var s1 := Step(lib, s, ops[0]).0;
      RenewalNeverShortens(lib, s, t, ops[0], ttl);
      if id in s1.sessions {
        IdleDeadlinesOnlyGrow(lib, s1, ops[0].now, ops[1..], ttl, id);
      } else {
        StaysDeleted(lib, s1, ops[1..], id);
      }
    }
  }

  /** With one idle lifetime, every store any run can reach keeps its idle deadlines within it. */
  lemma ReachableStoresAreIdleBounded(lib: Library, t: Time, ops: seq<Operation>, ttl: int)
    requires Ticking(t, ops) && forall i :: 0 <= i < |ops| ==> FixedIdle(ops[i], ttl)
    ensures IdleBounded(After(lib, EMPTY, ops), if ops == [] then t else ops[|ops| - 1].now, ttl)
  {
    RunKeepsIdleBounded(lib, EMPTY, t, ops, ttl);
  }

  lemma {:induction false} RunKeepsIdleBounded(lib: Library, s: Store, t: Time, ops: seq<Operation>, ttl: int)
    requires IdleBounded(s, t, ttl) && Ticking(t, ops) && forall i :: 0 <= i < |ops| ==> FixedIdle(ops[i], ttl)
    ensures IdleBounded(After(lib, s, ops), if ops == [] then t else ops[|ops| - 1].now, ttl)
    decreases |ops|
  {
    if ops != [] {
      RenewalNeverShortens(lib, s, t, ops[0], ttl);
      RunKeepsIdleBounded(lib, Step(lib, s, ops[0]).0, ops[0].now, ops[1..], ttl);
    }
  }

  // ---- Liveness over a run ----------------------------------------------------------------------

  /** Some step of the run revokes the session. */
  predicate RevokedDuring(lib: Library, s: Store, ops: seq<Operation>, id: Id)
    decreases |ops|
  {
    ops != [] && (|| (id in s.sessions && Revokes(lib, s, ops[0], id, s.sessions[id]))
                  || RevokedDuring(lib, Step(lib, s, ops[0]).0, ops[1..], id))
  }

  lemma StepKeepsRevoked(lib: Library, s: Store, op: Operation, id: Id)
    requires (id in s.sessions ==> s.sessions[id].revokedAt.Some?) && !(op.Create? && op.id == id)
    ensures id in Step(lib, s, op).0.sessions ==> Step(lib, s, op).0.sessions[id].revokedAt.Some?
  {
    if op.Cleanup? {
      CleanupOfRow(lib, s, op, id);
    }
  }

  lemma {:induction false} StaysRevoked(lib: Library, s: Store, ops: seq<Operation>, id: Id)
    requires (id in s.sessions ==> s.sessions[id].revokedAt.Some?) && NeverCreates(ops, id)
    ensures id in After(lib, s, ops).sessions ==> After(lib, s, ops).sessions[id].revokedAt.Some?
    decreases |ops|
  {
    if ops != [] {
      StepKeepsRevoked(lib, s, ops[0], id);
      StaysRevoked(lib, Step(lib, s, ops[0]).0, ops[1..], id);
    }
  }

  /**
    A session that will not expire before `later` is live then, whatever the run does to it, if and
    only if no step of the run revokes it.
  */
  lemma {:induction false} LiveUnlessRevoked(lib: Library, s: Store, t: Time, ops: seq<Operation>, ttl: int, id: Id, later: Time)
    requires IdleBounded(s, t, ttl) && Ticking(t, ops) && NeverCreates(ops, id)
    requires forall i :: 0 <= i < |ops| ==> FixedIdle(ops[i], ttl)
    requires id in s.sessions && Live(s.sessions[id], later) && s.sessions[id].diagnostic.None?
    ensures var s' := After(lib, s, ops);
            id in s'.sessions && Live(s'.sessions[id], later) <==> !RevokedDuring(lib, s, ops, id)
    decreases |ops|
  {
    if ops != [] {
      var s1 := Step(lib, s, ops[0]).0;
      RevocationCause(lib, s, ops[0], id);
      if Revokes(lib, s, ops[0], id, s.sessions[id]) {
        StaysRevoked(lib, s1, ops[1..], id);
      } else {
        RenewalNeverShortens(lib, s, t, ops[0], ttl);
        StepKeepsIdentity(lib, s, ops[0], id);
        assert s1.sessions[id].expiresAt == Identity(s.sessions[id]).expiresAt;
        LiveUnlessRevoked(lib, s1, ops[0].now, ops[1..], ttl, id, later);
      }
    }
  }

  // ---- One-time logins --------------------------------------------------------------------------

  predicate Open(s: Store, hash: string) {
    hash in s.oidc && s.oidc[hash].consumedAt.None?
  }

  /** Accepted logins under one state hash in a run. */
  function Logins(lib: Library, s: Store, ops: seq<Operation>, hash: string): nat
    decreases |ops|
  {
    if ops == [] then 0
    else
      var (s', answer) := Step(lib, s, ops[0]);
      (if ops[0].Login? && lib.sha256(ops[0].transaction.state) == hash && answer == Done then 1 else 0) + Logins(lib, s', ops[1..], hash)
  }

  /** Accepted callbacks under one state hash in a run. */
  function Consumptions(lib: Library, s: Store, ops: seq<Operation>, hash: string): nat
    decreases |ops|
  {
    if ops == [] then 0
    else
      var (s', answer) := Step(lib, s, ops[0]);
      (if ops[0].ConsumeOidc? && lib.sha256(ops[0].state) == hash && answer.Transaction? then 1 else 0) + Consumptions(lib, s', ops[1..], hash)
  }

  /** Conservation: under any interleaving, callbacks never outnumber the logins they answer. */
  lemma {:induction false} ConsumptionsNeedLogins(lib: Library, s: Store, ops: seq<Operation>, hash: string)
    ensures Consumptions(lib, s, ops, hash) <= Logins(lib, s, ops, hash) + (if Open(s, hash) then 1 else 0)
    decreases |ops|
  {
    if ops != [] {
      ConsumptionsNeedLogins(lib, Step(lib, s, ops[0]).0, ops[1..], hash);
      OpenMoves(lib, s, ops[0], hash);
    }
  }

  predicate IsLogin(lib: Library, op: Operation, hash: string) {
    op.Login? && lib.sha256(op.transaction.state) == hash
  }

  lemma {:induction false} FewLogins(lib: Library, s: Store, ops: seq<Operation>, hash: string)
    requires forall i, j :: 0 <= i < j < |ops| ==> !(IsLogin(lib, ops[i], hash) && IsLogin(lib, ops[j], hash))
    ensures Logins(lib, s, ops, hash) <= 1
    ensures (forall i :: 0 <= i < |ops| ==> !IsLogin(lib, ops[i], hash)) ==> Logins(lib, s, ops, hash) == 0
    decreases |ops|
  {
    if ops != [] {
      var rest := ops[1..];
      assert forall i :: 0 <= i < |rest| ==> rest[i] == ops[i + 1];
      FewLogins(lib, Step(lib, s, ops[0]).0, rest, hash);
    }
  }

  /** A state drawn for one login is consumed at most once, in every run and under any interleaving. */
  lemma LoginIsConsumedOnce(lib: Library, ops: seq<Operation>, hash: string)
    requires forall i, j :: 0 <= i < j < |ops| ==> !(IsLogin(lib, ops[i], hash) && IsLogin(lib, ops[j], hash))
    ensures Consumptions(lib, EMPTY, ops, hash) <= 1
  {
    ConsumptionsNeedLogins(lib, EMPTY, ops, hash);
    FewLogins(lib, EMPTY, ops, hash);
  }

  lemma OpenMoves(lib: Library, s: Store, op: Operation, hash: string)
    ensures var (s', answer) := Step(lib, s, op);
            && (op.Login? && lib.sha256(op.transaction.state) == hash && answer == Done ==> !Open(s, hash))
            && (op.ConsumeOidc? && lib.sha256(op.state) == hash && answer.Transaction? ==> Open(s, hash) && !Open(s', hash))
            && (Open(s', hash) && !Open(s, hash) ==> op.Login? && lib.sha256(op.transaction.state) == hash && answer == Done)
  {
  }

  /** What one callback does: it succeeds only before expiry on the very state it was given, or changes nothing. */
  lemma ConsumeIsExact(lib: Library, s: Store, op: Operation)
    requires op.ConsumeOidc?
    ensures var (s', answer) := Step(lib, s, op);
            var hash := lib.sha256(op.state);
            if answer.Transaction?
            then && answer.transaction.state == op.state
                 && Open(s, hash) && op.now < s.oidc[hash].expiresAt
                 && s' == s.(oidc := s.oidc[hash := s.oidc[hash].(consumedAt := Some(op.now))])
            else answer.Refused? && s' == s
  {
  }

  /** The row that a login leaves for its callback. */
  ghost predicate Awaiting(lib: Library, s: Store, login: Operation)
    requires login.Login?
  {
    var hash := lib.sha256(login.transaction.state);
    && Open(s, hash)
    && s.oidc[hash].transactionId == login.transactionId
    && s.oidc[hash].expiresAt == login.now + login.ttl
    && Ok(s.oidc[hash].payload) == Encrypt(lib, login.ring, login.nonce, lib.toJson(login.transaction), login.transactionId)
  }

  lemma StepKeepsAwaiting(lib: Library, s: Store, login: Operation, op: Operation)
    requires Lawful(lib) && login.Login? && Awaiting(lib, s, login) && op.now < login.now + login.ttl
    requires op.ConsumeOidc? ==> op.state != login.transaction.state && Keeps(op.ring, login.ring)
    ensures Awaiting(lib, Step(lib, s, op).0, login)
  {
    if op.ConsumeOidc? && lib.sha256(op.state) == lib.sha256(login.transaction.state) {
      DecryptInvertsEncrypt(lib, login.ring, op.ring, login.nonce, lib.toJson(login.transaction), login.transactionId);
    }
  }

  /** Other operations, and callbacks with another state, leave a login waiting until it expires. */
  ghost predicate LeavesWaiting(op: Operation, login: Operation)
    requires login.Login?
  {
    op.now < login.now + login.ttl && (op.ConsumeOidc? ==> op.state != login.transaction.state && Keeps(op.ring, login.ring))
  }

  lemma {:induction false} AwaitingLasts(lib: Library, s: Store, login: Operation, ops: seq<Operation>)
    requires Lawful(lib) && login.Login? && Awaiting(lib, s, login) && forall i :: 0 <= i < |ops| ==> LeavesWaiting(ops[i], login)
    ensures Awaiting(lib, After(lib, s, ops), login)
    decreases |ops|
  {
    if ops != [] {
      assert LeavesWaiting(ops[0], login);
      StepKeepsAwaiting(lib, s, login, ops[0]);
      AwaitingLasts(lib, Step(lib, s, ops[0]).0, login, ops[1..]);
    }
  }

  lemma AwaitedCallback(lib: Library, s: Store, login: Operation, callback: Operation, again: Operation)
    requires Lawful(lib) && login.Login? && Awaiting(lib, s, login)
    requires callback.ConsumeOidc? && callback.state == login.transaction.state && Keeps(callback.ring, login.ring)
    requires callback.now < login.now + login.ttl
    requires again.ConsumeOidc? && again.state == callback.state
    ensures Step(lib, s, callback).1 == Transaction(login.transaction)
    ensures Step(lib, Step(lib, s, callback).0, again).1 == Refused(StateRejected)
  {
    DecryptInvertsEncrypt(lib, login.ring, callback.ring, login.nonce, lib.toJson(login.transaction), login.transactionId);
    OpenMoves(lib, s, callback, lib.sha256(callback.state));
    ClosedIsRejected(lib, Step(lib, s, callback).0, again);
  }

  lemma ClosedIsRejected(lib: Library, s: Store, op: Operation)
    requires op.ConsumeOidc? && !Open(s, lib.sha256(op.state))
    ensures Step(lib, s, op).1 == Refused(StateRejected)
  {
  }

  lemma LoginAwaits(lib: Library, s: Store, login: Operation)
    requires login.Login? && Step(lib, s, login).1 == Done
    ensures Awaiting(lib, Step(lib, s, login).0, login)
  {
  }

  /**
    After an accepted login its callback gets exactly that login back, whatever happened in between
    and whatever other states with the same hash were tried; the callback after it is refused.
  */
  lemma CallbackReturnsLogin(lib: Library, s: Store, login: Operation, ops: seq<Operation>, callback: Operation, again: Operation)
    requires Lawful(lib) && login.Login? && Step(lib, s, login).1 == Done && forall i :: 0 <= i < |ops| ==> LeavesWaiting(ops[i], login)
    requires callback.ConsumeOidc? && callback.state == login.transaction.state && Keeps(callback.ring, login.ring)
    requires callback.now < login.now + login.ttl
    requires again.ConsumeOidc? && again.state == callback.state
    ensures var waiting := After(lib, Step(lib, s, login).0, ops);
            && Step(lib, waiting, callback).1 == Transaction(login.transaction)
            && Step(lib, Step(lib, waiting, callback).0, again).1 == Refused(StateRejected)
  {
    LoginAwaits(lib, s, login);
    AwaitingLasts(lib, Step(lib, s, login).0, login, ops);
    AwaitedCallback(lib, After(lib, Step(lib, s, login).0, ops), login, callback, again);
  }
}
