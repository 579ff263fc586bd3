/**
  Cleanup is invisible. A run with cleanups is compared with the same run with every cleanup
  erased: the two give the same answers exactly when no accepted step reuses a key that a cleanup
  had deleted, and distinct identifiers with one expiry for each logout token rule that out.
*/
module AuthCleanup {
  import opened Prelude
  import opened Crypto
  import opened AuthStore

  // ---- What a caller can see --------------------------------------------------------------------

  /** Accept or refuse, with the session or transaction returned; the number of rows is not compared. */
  function Observed(answer: Answer): Answer {
    if answer.Revoked? then Done else answer
  }

  function Observations(lib: Library, s: Store, ops: seq<Operation>): seq<Answer>
    decreases |ops|
  {
    if ops == [] then []
    else
      var (s', answer) := Step(lib, s, ops[0]);
      (if ops[0].Cleanup? then [] else [Observed(answer)]) + Observations(lib, s', ops[1..])
  }

  function EraseCleanups(ops: seq<Operation>): seq<Operation> {
    if ops == [] then []
    else (if ops[0].Cleanup? then [] else [ops[0]]) + EraseCleanups(ops[1..])
  }

  // ---- Keys deleted by cleanup ------------------------------------------------------------------

  /** Every unique key that some cleanup has deleted so far. */
  datatype Reaped = Reaped(sessions: set<Id>, states: set<string>, transactions: set<Id>, logouts: set<LogoutKey>)

  const NOTHING_REAPED := Reaped({}, {}, {}, {})

  function ReapedAfter(lib: Library, s: Store, reaped: Reaped, op: Operation): Reaped {
    if !op.Cleanup? then reaped
    else
      var s' := Step(lib, s, op).0;
      Reaped(reaped.sessions + (s.sessions.Keys - s'.sessions.Keys),
             reaped.states + (s.oidc.Keys - s'.oidc.Keys),
             reaped.transactions + set h | h in s.oidc && h !in s'.oidc :: s.oidc[h].transactionId,
             reaped.logouts + (s.logouts.Keys - s'.logouts.Keys))
  }

  predicate CanEncrypt(ring: KeyRing) {
    ring.activeKeyId in ring.keys
  }

  /** An insertion that nothing stands against, of a unique key that a cleanup had deleted. */
  predicate Reuses(lib: Library, s: Store, reaped: Reaped, op: Operation) {
    match op
    case Create(ring, id, input, csrf, _, _, now) =>
      csrf.Some? && CanEncrypt(ring) && Creatable(input, now) && id !in s.sessions && id in reaped.sessions
    case Login(ring, transactionId, transaction, _, ttl, _) =>
      var hash := lib.sha256(transaction.state);
      && CanEncrypt(ring) && ttl > 0 && hash !in s.oidc && !Holds(s.oidc, transactionId)
      && (hash in reaped.states || transactionId in reaped.transactions)
    case Logout(issuer, jti, sid, expiresAt, now) =>
      var key := LogoutKey(issuer, lib.sha256(jti));
      LogoutAdmissible(issuer, jti, sid, expiresAt, now) && SecureIssuer(issuer) && key !in s.logouts && key in reaped.logouts
    case _ => false
  }

  predicate NoReuse(lib: Library, s: Store, reaped: Reaped, ops: seq<Operation>)
    decreases |ops|
  {
    ops == [] ||
    (&& !Reuses(lib, s, reaped, ops[0])
     && NoReuse(lib, Step(lib, s, ops[0]).0, ReapedAfter(lib, s, reaped, ops[0]), ops[1..]))
  }

  // ---- The simulation ---------------------------------------------------------------------------

  ghost predicate ShadowSessions(swept: map<Id, SessionRow>, full: map<Id, SessionRow>, reaped: set<Id>, t: Time) {
    && full.Keys == swept.Keys + reaped
    && (forall id :: id in reaped ==> !Live(full[id], t))
    && (forall id :: id in swept ==> swept[id] == full[id] || (!Live(swept[id], t) && !Live(full[id], t)))
  }

  ghost predicate ShadowLogins(swept: map<string, OidcRow>, full: map<string, OidcRow>, reaped: set<string>, transactions: set<Id>, t: Time) {
    && full.Keys == swept.Keys + reaped
    && (forall h :: h in reaped && h !in swept ==> full[h].expiresAt <= t)
    && (forall h :: h in swept ==> swept[h] == full[h])
    && (forall id :: Holds(full, id) <==> Holds(swept, id) || id in transactions)
  }

  ghost predicate ShadowEvents(swept: map<LogoutKey, LogoutRow>, full: map<LogoutKey, LogoutRow>, reaped: set<LogoutKey>) {
    full.Keys == swept.Keys + reaped
  }

  /** `swept` ran with the cleanups, `full` without: they differ in dead rows only. */
  ghost predicate Shadow(swept: Store, full: Store, reaped: Reaped, t: Time) {
    && ShadowSessions(swept.sessions, full.sessions, reaped.sessions, t)
    && ShadowLogins(swept.oidc, full.oidc, reaped.states, reaped.transactions, t)
    && ShadowEvents(swept.logouts, full.logouts, reaped.logouts)
  }

  lemma ShadowAges(swept: Store, full: Store, reaped: Reaped, t: Time, t': Time)
    requires Shadow(swept, full, reaped, t) && t <= t'
    ensures Shadow(swept, full, reaped, t')
  {
  }

  /** Writing a row whose key is new, or whose transaction identifier does not change. */
  lemma HoldsAfterWrite(oidc: map<string, OidcRow>, hash: string, row: OidcRow)
    requires hash in oidc ==> oidc[hash].transactionId == row.transactionId
    ensures forall id :: Holds(oidc[hash := row], id) <==> Holds(oidc, id) || id == row.transactionId
  {
    var oidc' := oidc[hash := row];
    forall h | h in oidc ensures Holds(oidc', oidc[h].transactionId) {
      assert h in oidc' && oidc'[h].transactionId == oidc[h].transactionId;
    }
    assert hash in oidc' && oidc'[hash].transactionId == row.transactionId;
  }

  // Cleanup on the swept side, table by table.

  lemma SweepKeepsSessions(swept: map<Id, SessionRow>, full: map<Id, SessionRow>, reaped: set<Id>, retention: int, now: Time)
    requires ShadowSessions(swept, full, reaped, now)
    ensures var swept' := SweptSessions(swept, retention, now);
            ShadowSessions(swept', full, reaped + (swept.Keys - swept'.Keys), now)
  {
    forall id | id in swept
      ensures !Live(swept[id], now) ==> !Live(full[id], now)
      ensures SweptRow(swept[id], retention, now) != Some(swept[id]) ==> !Live(swept[id], now)
    {
    }
  }

  lemma SweepKeepsLogins(swept: map<string, OidcRow>, full: map<string, OidcRow>, reaped: set<string>, transactions: set<Id>, now: Time)
    requires ShadowLogins(swept, full, reaped, transactions, now)
    ensures var swept' := SweptLogins(swept, now);
            ShadowLogins(swept', full, reaped + (swept.Keys - swept'.Keys),
                         transactions + (set h | h in swept && h !in swept' :: swept[h].transactionId), now)
  {
    var swept' := SweptLogins(swept, now);
    var gone := set h | h in swept && h !in swept' :: swept[h].transactionId;
    forall id ensures Holds(swept, id) <==> Holds(swept', id) || id in gone {
      if h :| h in swept && swept[h].transactionId == id {
        assert h in swept' || id in gone;
      }
    }
  }

  lemma SweepKeepsEvents(swept: map<LogoutKey, LogoutRow>, full: map<LogoutKey, LogoutRow>, reaped: set<LogoutKey>, now: Time)
    requires ShadowEvents(swept, full, reaped)
    ensures ShadowEvents(SweptEvents(swept, now), full, reaped + (swept.Keys - SweptEvents(swept, now).Keys))
  {
  }

  lemma CleanupKeepsShadow(lib: Library, swept: Store, full: Store, reaped: Reaped, op: Operation)
    requires Shadow(swept, full, reaped, op.now) && op.Cleanup?
    ensures Shadow(Step(lib, swept, op).0, full, ReapedAfter(lib, swept, reaped, op), op.now)
  {
    if op.retention > 0 {
      SweepKeepsSessions(swept.sessions, full.sessions, reaped.sessions, op.retention, op.now);
      SweepKeepsLogins(swept.oidc, full.oidc, reaped.states, reaped.transactions, op.now);
      SweepKeepsEvents(swept.logouts, full.logouts, reaped.logouts, op.now);
    } else {
      assert ReapedAfter(lib, swept, reaped, op) == reaped;
    }
  }

  // Every other step, taken on both sides.

  /** The step is answered alike exactly when it reuses no deleted key, and then keeps the stores related. */
  ghost predicate Follows(lib: Library, swept: Store, full: Store, reaped: Reaped, op: Operation) {
    && (Reuses(lib, swept, reaped, op) <==> Observed(Step(lib, swept, op).1) != Observed(Step(lib, full, op).1))
    && (!Reuses(lib, swept, reaped, op) ==> Shadow(Step(lib, swept, op).0, Step(lib, full, op).0, reaped, op.now))
  }

  lemma WrittenRowKeepsSessions(swept: map<Id, SessionRow>, full: map<Id, SessionRow>, reaped: set<Id>, id: Id, row: SessionRow, t: Time)
    requires ShadowSessions(swept, full, reaped, t) && (id in full ==> id in swept && id !in reaped)
    ensures ShadowSessions(swept[id := row], full[id := row], reaped, t)
  {
  }

  lemma CreateFollows(lib: Library, swept: Store, full: Store, reaped: Reaped, op: Operation)
    requires Shadow(swept, full, reaped, op.now) && op.Create?
    ensures Follows(lib, swept, full, reaped, op)
  {
    if Step(lib, full, op).1.Session? {
      WrittenRowKeepsSessions(swept.sessions, full.sessions, reaped.sessions, op.id, Step(lib, full, op).0.sessions[op.id], op.now);
    }
  }

  /** What a load of a live row writes, if anything, and answers. */
  function Reload(lib: Library, op: Operation, row: SessionRow): (Option<SessionRow>, Answer)
    requires op.Load?
  {
    var idle := Min(op.now + op.idleTtl, row.expiresAt);
    match Decrypt(lib, op.ring, row.csrf, op.id)
    case Err(e) => (None, Refused(Cipher(e)))
    case Ok(csrf) =>
      if !lib.isUtf8(csrf) then (None, Refused(SessionRejected))
      else
        (Some(row.(idleExpiresAt := idle)),
         match ParseRoles(row.roles)
         case None => Refused(SessionRejected)
         case Some(roles) => Session(BffSession(op.id, row.actorId, roles, row.revision, row.expiresAt, idle, csrf)))
  }

  /** A load depends on its own row only. */
  lemma LoadIsLocal(lib: Library, s: Store, op: Operation)
    requires op.Load?
    ensures Step(lib, s, op) ==
            if op.id in s.sessions && Live(s.sessions[op.id], op.now) then
              var (row, answer) := Reload(lib, op, s.sessions[op.id]);
              (if row.Some? then s.(sessions := s.sessions[op.id := row.value]) else s, answer)
            else (s, Refused(SessionRejected))
  {
  }

  lemma LoadFollows(lib: Library, swept: Store, full: Store, reaped: Reaped, op: Operation)
    requires Shadow(swept, full, reaped, op.now) && op.Load?
    ensures Follows(lib, swept, full, reaped, op)
  {
    LoadIsLocal(lib, swept, op);
    LoadIsLocal(lib, full, op);
    if op.id in full.sessions && Live(full.sessions[op.id], op.now) {
      assert op.id in swept.sessions && swept.sessions[op.id] == full.sessions[op.id];
      var row := Reload(lib, op, full.sessions[op.id]).0;
      if row.Some? {
        WrittenRowKeepsSessions(swept.sessions, full.sessions, reaped.sessions, op.id, row.value, op.now);
      }
    }
  }

  function RevokedRow(row: SessionRow, diagnostic: string, now: Time): SessionRow {
    row.(revokedAt := Coalesce(row.revokedAt, now), diagnostic := Coalesce(row.diagnostic, diagnostic))
  }

  lemma RevokingKeepsSessions(swept: map<Id, SessionRow>, full: map<Id, SessionRow>, reaped: set<Id>, id: Id, diagnostic: string, t: Time)
    requires ShadowSessions(swept, full, reaped, t) && id in full
    ensures var full' := full[id := RevokedRow(full[id], diagnostic, t)];
            && (id in swept ==> ShadowSessions(swept[id := RevokedRow(swept[id], diagnostic, t)], full', reaped, t))
            && (id !in swept ==> ShadowSessions(swept, full', reaped, t))
  {
  }

  lemma RevokeFollows(lib: Library, swept: Store, full: Store, reaped: Reaped, op: Operation)
    requires Shadow(swept, full, reaped, op.now) && op.Revoke?
    ensures Follows(lib, swept, full, reaped, op)
  {
    if op.id in full.sessions {
      RevokingKeepsSessions(swept.sessions, full.sessions, reaped.sessions, op.id, op.diagnostic, op.now);
    }
  }

  lemma RevokingBySidKeepsSessions(swept: map<Id, SessionRow>, full: map<Id, SessionRow>, reaped: set<Id>, sidHash: string, now: Time)
    requires ShadowSessions(swept, full, reaped, now)
    ensures ShadowSessions(RevokeRows(swept, CarryingSid(swept, sidHash), now), RevokeRows(full, CarryingSid(full, sidHash), now), reaped, now)
  {
  }

  lemma RevokeBySidFollows(lib: Library, swept: Store, full: Store, reaped: Reaped, op: Operation)
    requires Shadow(swept, full, reaped, op.now) && op.RevokeBySid?
    ensures Follows(lib, swept, full, reaped, op)
  {
    RevokingBySidKeepsSessions(swept.sessions, full.sessions, reaped.sessions, lib.sha256(op.sid), op.now);
  }

  /** A logout is accepted, or changes nothing. */
  lemma LogoutIsLocal(lib: Library, s: Store, op: Operation)
    requires op.Logout?
    ensures var key, (s', answer) := LogoutKey(op.issuer, lib.sha256(op.jti)), Step(lib, s, op);
            if LogoutAdmissible(op.issuer, op.jti, op.sid, op.expiresAt, op.now) && SecureIssuer(op.issuer) && key !in s.logouts then
              && answer.Revoked? && s'.oidc == s.oidc && s'.logouts == s.logouts[key := LogoutRow(op.now, op.expiresAt)]
              && s'.sessions == RevokeRows(s.sessions, CarryingSid(s.sessions, lib.sha256(op.sid)), op.now)
            else s' == s && answer == Refused(if LogoutAdmissible(op.issuer, op.jti, op.sid, op.expiresAt, op.now) && !SecureIssuer(op.issuer) then CheckViolation else LogoutReplay)
  {
  }

  lemma LogoutFollows(lib: Library, swept: Store, full: Store, reaped: Reaped, op: Operation)
    requires Shadow(swept, full, reaped, op.now) && op.Logout?
    ensures Follows(lib, swept, full, reaped, op)
  {
    LogoutIsLocal(lib, swept, op);
    LogoutIsLocal(lib, full, op);
    RevokingBySidKeepsSessions(swept.sessions, full.sessions, reaped.sessions, lib.sha256(op.sid), op.now);
  }

  lemma WriteKeepsLogins(swept: map<string, OidcRow>, full: map<string, OidcRow>, reaped: set<string>, transactions: set<Id>,
                         hash: string, row: OidcRow, t: Time)
    requires ShadowLogins(swept, full, reaped, transactions, t)
    requires hash in swept || hash !in full
    requires hash in swept ==> swept[hash].transactionId == row.transactionId
    ensures ShadowLogins(swept[hash := row], full[hash := row], reaped, transactions, t)
  {
    HoldsAfterWrite(swept, hash, row);
    HoldsAfterWrite(full, hash, row);
  }

  lemma LoginFollows(lib: Library, swept: Store, full: Store, reaped: Reaped, op: Operation)
    requires Shadow(swept, full, reaped, op.now) && op.Login?
    ensures Follows(lib, swept, full, reaped, op)
  {
    var hash := lib.sha256(op.transaction.state);
    if Step(lib, full, op).1 == Done {
      WriteKeepsLogins(swept.oidc, full.oidc, reaped.states, reaped.transactions, hash, Step(lib, full, op).0.oidc[hash], op.now);
    }
  }

  lemma ConsumeFollows(lib: Library, swept: Store, full: Store, reaped: Reaped, op: Operation)
    requires Shadow(swept, full, reaped, op.now) && op.ConsumeOidc?
    ensures Follows(lib, swept, full, reaped, op)
  {
    var hash := lib.sha256(op.state);
    if hash in swept.oidc {
      WriteKeepsLogins(swept.oidc, full.oidc, reaped.states, reaped.transactions, hash,
                       swept.oidc[hash].(consumedAt := Some(op.now)), op.now);
    }
  }

  lemma StepKeepsShadow(lib: Library, swept: Store, full: Store, reaped: Reaped, op: Operation)
    requires Shadow(swept, full, reaped, op.now) && !op.Cleanup?
    ensures Follows(lib, swept, full, reaped, op)
  {
    match op
    case Create(_, _, _, _, _, _, _) => CreateFollows(lib, swept, full, reaped, op);
    case Load(_, _, _, _) => LoadFollows(lib, swept, full, reaped, op);
    case Revoke(_, _, _) => RevokeFollows(lib, swept, full, reaped, op);
    case RevokeBySid(_, _) => RevokeBySidFollows(lib, swept, full, reaped, op);
    case Logout(_, _, _, _, _) => LogoutFollows(lib, swept, full, reaped, op);
    case Login(_, _, _, _, _, _) => LoginFollows(lib, swept, full, reaped, op);
    case ConsumeOidc(_, _, _) => ConsumeFollows(lib, swept, full, reaped, op);
  }

  // ---- Whole runs -------------------------------------------------------------------------------

  lemma {:induction false} SimulatedRun(lib: Library, swept: Store, full: Store, reaped: Reaped, t: Time, ops: seq<Operation>)
    requires Shadow(swept, full, reaped, t) && Ticking(t, ops)
    ensures Observations(lib, swept, ops) == Observations(lib, full, EraseCleanups(ops)) <==> NoReuse(lib, swept, reaped, ops)
    decreases |ops|
  {
    if ops != [] {
      var op, rest := ops[0], ops[1..];
      ShadowAges(swept, full, reaped, t, op.now);
      var swept', answer := Step(lib, swept, op).0, Step(lib, swept, op).1;
      if op.Cleanup? {
        CleanupKeepsShadow(lib, swept, full, reaped, op);
        SimulatedRun(lib, swept', full, ReapedAfter(lib, swept, reaped, op), op.now, rest);
        assert EraseCleanups(ops) == EraseCleanups(rest);
        assert Observations(lib, swept, ops) == Observations(lib, swept', rest);
      } else {
        StepKeepsShadow(lib, swept, full, reaped, op);
        var full', answer' := Step(lib, full, op).0, Step(lib, full, op).1;
        assert EraseCleanups(ops)[0] == op && EraseCleanups(ops)[1..] == EraseCleanups(rest);
        assert Observations(lib, swept, ops) == [Observed(answer)] + Observations(lib, swept', rest);
        assert Observations(lib, full, EraseCleanups(ops)) == [Observed(answer')] + Observations(lib, full', EraseCleanups(rest));
        if Reuses(lib, swept, reaped, op) {
          assert Observations(lib, swept, ops)[0] != Observations(lib, full, EraseCleanups(ops))[0];
        } else {
          SimulatedRun(lib, swept', full', reaped, op.now, rest);
          assert ([Observed(answer)] + Observations(lib, swept', rest))[1..] == Observations(lib, swept', rest);
          assert ([Observed(answer')] + Observations(lib, full', EraseCleanups(rest)))[1..] == Observations(lib, full', EraseCleanups(rest));
        }
      }
    }
  }

  /** Main result: erasing the cleanups changes no answer, exactly when no deleted key is reused. */
  lemma CleanupIsInvisible(lib: Library, t: Time, ops: seq<Operation>)
    requires Ticking(t, ops)
    ensures Observations(lib, EMPTY, ops) == Observations(lib, EMPTY, EraseCleanups(ops)) <==> NoReuse(lib, EMPTY, NOTHING_REAPED, ops)
  {
    SimulatedRun(lib, EMPTY, EMPTY, NOTHING_REAPED, t, ops);
  }

  /** The reservation is made, deleted by a cleanup at its expiry, and the token identifier is free again. */
  lemma ReservationIsDeleted(lib: Library, issuer: string, jti: string, sid: string)
    requires SecureIssuer(issuer) && jti != "" && sid != ""
    ensures var key := LogoutKey(issuer, lib.sha256(jti));
            var s1 := Step(lib, EMPTY, Logout(issuer, jti, sid, 10, 0)).0;
            var s2, reaped := Step(lib, s1, Cleanup(1, 10)).0, ReapedAfter(lib, s1, NOTHING_REAPED, Cleanup(1, 10));
            key !in s2.logouts && key in reaped.logouts
  {
    var key := LogoutKey(issuer, lib.sha256(jti));
    var s1 := Step(lib, EMPTY, Logout(issuer, jti, sid, 10, 0)).0;
    assert key in s1.logouts && s1.logouts[key].expiresAt == 10;
    assert key !in SweptEvents(s1.logouts, 10);
  }

  lemma {:induction false} ThreeSteps(lib: Library, s: Store, reaped: Reaped, a: Operation, b: Operation, c: Operation)
    requires !a.Cleanup? && b.Cleanup?
    ensures var s1 := Step(lib, s, a).0;
            Reuses(lib, Step(lib, s1, b).0, ReapedAfter(lib, s1, reaped, b), c) ==> !NoReuse(lib, s, reaped, [a, b, c])
    ensures a.now <= b.now <= c.now ==> Ticking(a.now, [a, b, c])
  {
    assert [a, b, c][1..] == [b, c] && [b, c][1..] == [c] && [c][1..] == [];
    var s1 := Step(lib, s, a).0;
    var s2, reaped2 := Step(lib, s1, b).0, ReapedAfter(lib, s1, reaped, b);
    assert Reuses(lib, s2, reaped2, c) ==> !NoReuse(lib, s2, reaped2, [c]);
    assert !NoReuse(lib, s2, reaped2, [c]) ==> !NoReuse(lib, s1, reaped, [b, c]);
    assert a.now <= b.now <= c.now ==> Ticking(c.now, []) && Ticking(b.now, [c]) && Ticking(a.now, [b, c]);
  }

  /** Without the assumptions cleanup shows: a token identifier reused after its reservation was deleted. */
  lemma ReusedTokenRevealsCleanup(lib: Library, issuer: string, jti: string, sid: string)
    requires SecureIssuer(issuer) && jti != "" && sid != ""
    ensures var ops := [Logout(issuer, jti, sid, 10, 0), Cleanup(1, 10), Logout(issuer, jti, sid, 20, 11)];
            Ticking(0, ops) && Observations(lib, EMPTY, ops) != Observations(lib, EMPTY, EraseCleanups(ops))
  {
    var first, sweep, second := Logout(issuer, jti, sid, 10, 0), Cleanup(1, 10), Logout(issuer, jti, sid, 20, 11);
    ReservationIsDeleted(lib, issuer, jti, sid);
    ThreeSteps(lib, EMPTY, NOTHING_REAPED, first, sweep, second);
    CleanupIsInvisible(lib, 0, [first, sweep, second]);
  }

  // ---- The assumptions under which no key is reused ---------------------------------------------

  datatype Seen = Seen(ids: set<Id>, states: set<string>, transactions: set<Id>, expiries: map<LogoutKey, Time>)

  const NOTHING_SEEN := Seen({}, {}, {}, map[])

  /**
    Every session identifier, login state hash and transaction identifier is drawn once, and two
    logout tokens with the same issuer and token identifier carry the same expiry.
  */
  predicate Distinct(lib: Library, seen: Seen, ops: seq<Operation>)
    decreases |ops|
  {
    ops == [] ||
    match ops[0]
    case Create(_, id, _, _, _, _, _) =>
      id !in seen.ids && Distinct(lib, seen.(ids := seen.ids + {id}), ops[1..])
    case Login(_, transactionId, transaction, _, _, _) =>
      var hash := lib.sha256(transaction.state);
      && hash !in seen.states && transactionId !in seen.transactions
      && Distinct(lib, seen.(states := seen.states + {hash}, transactions := seen.transactions + {transactionId}), ops[1..])
    case Logout(issuer, jti, _, expiresAt, _) =>
      var key := LogoutKey(issuer, lib.sha256(jti));
      && (key in seen.expiries ==> seen.expiries[key] == expiresAt)
      && Distinct(lib, seen.(expiries := seen.expiries[key := expiresAt]), ops[1..])
    case _ => Distinct(lib, seen, ops[1..])
  }

  ghost predicate AccountedEvents(logouts: map<LogoutKey, LogoutRow>, reaped: set<LogoutKey>, expiries: map<LogoutKey, Time>, t: Time) {
    && (forall k :: k in logouts ==> k in expiries && logouts[k].expiresAt == expiries[k])
    && (forall k :: k in reaped ==> k in expiries && expiries[k] <= t)
  }

  /** Rows and deleted keys stem from steps already seen; a deleted reservation had expired. */
  ghost predicate Accounted(s: Store, reaped: Reaped, seen: Seen, t: Time) {
    && s.sessions.Keys + reaped.sessions <= seen.ids
    && s.oidc.Keys + reaped.states <= seen.states
    && reaped.transactions <= seen.transactions
    && (forall id :: Holds(s.oidc, id) ==> id in seen.transactions)
    && AccountedEvents(s.logouts, reaped.logouts, seen.expiries, t)
  }

  function SeenAfter(lib: Library, seen: Seen, op: Operation): Seen {
    match op
    case Create(_, id, _, _, _, _, _) => seen.(ids := seen.ids + {id})
    case Login(_, transactionId, transaction, _, _, _) =>
      seen.(states := seen.states + {lib.sha256(transaction.state)}, transactions := seen.transactions + {transactionId})
    case Logout(issuer, jti, _, expiresAt, _) => seen.(expiries := seen.expiries[LogoutKey(issuer, lib.sha256(jti)) := expiresAt])
    case _ => seen
  }

  lemma SweptLoginsStayAccounted(oidc: map<string, OidcRow>, transactions: set<Id>, now: Time)
    requires forall id :: Holds(oidc, id) ==> id in transactions
    ensures forall h :: h in oidc ==> oidc[h].transactionId in transactions
    ensures forall id :: Holds(SweptLogins(oidc, now), id) ==> id in transactions
  {
    forall h | h in oidc ensures oidc[h].transactionId in transactions {
      assert Holds(oidc, oidc[h].transactionId);
    }
  }

  lemma LoginsStayAccounted(lib: Library, s: Store, reaped: Reaped, seen: Seen, op: Operation)
    requires reaped.transactions <= seen.transactions && forall id :: Holds(s.oidc, id) ==> id in seen.transactions
    ensures ReapedAfter(lib, s, reaped, op).transactions <= SeenAfter(lib, seen, op).transactions
    ensures forall id :: Holds(Step(lib, s, op).0.oidc, id) ==> id in SeenAfter(lib, seen, op).transactions
  {
    var s' := Step(lib, s, op).0;
    if op.Cleanup? {
      SweptLoginsStayAccounted(s.oidc, seen.transactions, op.now);
    } else if (op.Login? || op.ConsumeOidc?) && s'.oidc != s.oidc {
      WrittenLoginsStayAccounted(lib, s, seen, op);
    } else {
      assert s'.oidc == s.oidc;
    }
  }

  lemma WrittenLoginsStayAccounted(lib: Library, s: Store, seen: Seen, op: Operation)
    requires forall id :: Holds(s.oidc, id) ==> id in seen.transactions
    requires (op.Login? || op.ConsumeOidc?) && Step(lib, s, op).0.oidc != s.oidc
    ensures forall id :: Holds(Step(lib, s, op).0.oidc, id) ==> id in SeenAfter(lib, seen, op).transactions
  {
    var hash := lib.sha256(if op.Login? then op.transaction.state else op.state);
    var row := Step(lib, s, op).0.oidc[hash];
    HoldsAfterWrite(s.oidc, hash, row);
    if op.ConsumeOidc? {
      assert Holds(s.oidc, row.transactionId);
    }
  }

  lemma EventsStayAccounted(logouts: map<LogoutKey, LogoutRow>, reaped: set<LogoutKey>, expiries: map<LogoutKey, Time>, now: Time)
    requires AccountedEvents(logouts, reaped, expiries, now)
    ensures AccountedEvents(SweptEvents(logouts, now), reaped + (logouts.Keys - SweptEvents(logouts, now).Keys), expiries, now)
  {
  }

  lemma CleanupStaysAccounted(lib: Library, s: Store, reaped: Reaped, seen: Seen, op: Operation)
    requires Accounted(s, reaped, seen, op.now) && op.Cleanup? && op.retention > 0
    ensures Accounted(Step(lib, s, op).0, ReapedAfter(lib, s, reaped, op), seen, op.now)
  {
    LoginsStayAccounted(lib, s, reaped, seen, op);
    EventsStayAccounted(s.logouts, reaped.logouts, seen.expiries, op.now);
    assert SweptSessions(s.sessions, op.retention, op.now).Keys <= s.sessions.Keys;
    assert SweptLogins(s.oidc, op.now).Keys <= s.oidc.Keys;
  }

  /** Steps that insert and delete nothing leave every key in place. */
  lemma KeysUnchanged(lib: Library, s: Store, op: Operation)
    requires op.Load? || op.Revoke? || op.RevokeBySid? || op.ConsumeOidc?
    ensures var s' := Step(lib, s, op).0;
            s'.sessions.Keys == s.sessions.Keys && s'.oidc.Keys == s.oidc.Keys && s'.logouts == s.logouts
  {
  }

  lemma InsertionStaysAccounted(lib: Library, s: Store, reaped: Reaped, seen: Seen, op: Operation)
    requires Accounted(s, reaped, seen, op.now) && Distinct(lib, seen, [op])
    requires op.Create? || op.Login? || op.Logout?
    ensures !Reuses(lib, s, reaped, op)
    ensures Accounted(Step(lib, s, op).0, reaped, SeenAfter(lib, seen, op), op.now)
  {
    LoginsStayAccounted(lib, s, reaped, seen, op);
    match op
    case Create(_, _, _, _, _, _, _) =>
    case Login(_, _, _, _, _, _) =>
    case Logout(_, _, _, _, _) =>
  }

  lemma StepKeepsAccounted(lib: Library, s: Store, reaped: Reaped, seen: Seen, op: Operation)
    requires Accounted(s, reaped, seen, op.now) && Distinct(lib, seen, [op])
    ensures !Reuses(lib, s, reaped, op)
    ensures Accounted(Step(lib, s, op).0, ReapedAfter(lib, s, reaped, op), SeenAfter(lib, seen, op), op.now)
  {
    match op
    case Create(_, _, _, _, _, _, _) => InsertionStaysAccounted(lib, s, reaped, seen, op);
    case Login(_, _, _, _, _, _) => InsertionStaysAccounted(lib, s, reaped, seen, op);
    case Logout(_, _, _, _, _) => InsertionStaysAccounted(lib, s, reaped, seen, op);
    case Cleanup(retention, _) =>
      if retention > 0 {
        CleanupStaysAccounted(lib, s, reaped, seen, op);
      } else {
        assert ReapedAfter(lib, s, reaped, op) == reaped;
      }
    case _ =>
      KeysUnchanged(lib, s, op);
      LoginsStayAccounted(lib, s, reaped, seen, op);
  }

  lemma {:induction false} DistinctRunsReuseNothing(lib: Library, s: Store, reaped: Reaped, seen: Seen, t: Time, ops: seq<Operation>)
    requires Accounted(s, reaped, seen, t) && Ticking(t, ops) && Distinct(lib, seen, ops)
    ensures NoReuse(lib, s, reaped, ops)
    decreases |ops|
  {
    if ops != [] {
      var op := ops[0];
      assert [op][1..] == [];
      assert Distinct(lib, seen, [op]);
      StepKeepsAccounted(lib, s, reaped, seen, op);
      DistinctRunsReuseNothing(lib, Step(lib, s, op).0, ReapedAfter(lib, s, reaped, op), SeenAfter(lib, seen, op), op.now, ops[1..]);
    }
  }

  /** Under the stated assumptions every answer of every run is independent of its cleanups. */
  lemma CleanupInvisibleForDistinctRuns(lib: Library, t: Time, ops: seq<Operation>)
    requires Ticking(t, ops) && Distinct(lib, NOTHING_SEEN, ops)
    ensures Observations(lib, EMPTY, ops) == Observations(lib, EMPTY, EraseCleanups(ops))
  {
    DistinctRunsReuseNothing(lib, EMPTY, NOTHING_REAPED, NOTHING_SEEN, t, ops);
    CleanupIsInvisible(lib, t, ops);
  }
}
