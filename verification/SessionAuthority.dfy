/**
  What a session is good for, end to end: from its creation through the store to a permit
  (crates/auth/src/authorization.rs) and to a delegation (crates/auth/src/resource_delegation.rs).
*/
module SessionAuthority {
  import opened Prelude
  import Crypto
  import opened AuthStore
  import AuthRuns
  import opened Authorization
  import opened Delegation

  const MILLISECOND := 1_000

  /** `actor_from_session`: the absolute expiry is cut to whole milliseconds. */
  function ActorOf(session: BffSession): Actor {
    Actor(session.actorId, session.roles, session.expiresAt / MILLISECOND * MILLISECOND)
  }

  /**
    A permit decided on a loaded session rests on its creation: the actor is the one logged in, one
    of the roles verified then is required now, and the permit ends by the expiry fixed then.
  */
  lemma PermitTracesToLogin(lib: Crypto.Library, s: Store, create: Operation, ops: seq<Operation>, load: Operation,
                            courses: seq<Membership>, projects: seq<Membership>, scope: Scope, required: set<PlatformRole>)
    requires Crypto.Lawful(lib) && create.Create? && load.Load? && load.id == create.id && AuthRuns.NeverCreates(ops, create.id)
    requires Crypto.Keeps(load.ring, create.ring) && Step(lib, s, create).1.Session? && lib.isUtf8(create.csrf.value)
    requires Step(lib, After(lib, Step(lib, s, create).0, ops), load).1.Session?
    requires var session := Step(lib, After(lib, Step(lib, s, create).0, ops), load).1.session;
             Authorize(Context(ActorOf(session), courses, projects, load.now), scope, required).Ok?
    ensures var session := Step(lib, After(lib, Step(lib, s, create).0, ops), load).1.session;
            var decision := Authorize(Context(ActorOf(session), courses, projects, load.now), scope, required).value;
            && decision.actor.actorId == create.input.actorId
            && HoldsRequiredRole(create.input.roles, required)
            && load.now < decision.validUntil <= create.input.expiresAt
  {
    AuthRuns.LoadReturnsCreated(lib, s, create, ops, load);
    var session := Step(lib, After(lib, Step(lib, s, create).0, ops), load).1.session;
    PermitExactly(Context(ActorOf(session), courses, projects, load.now), scope, required);
  }

  /** A session loaded under one idle lifetime and delegated at once. */
  ghost predicate Delegates(lib: Crypto.Library, tokens: Tokens, s: Store, t: Time, ttl: int, load: Operation, secret: string, jti: string) {
    && AuthRuns.Sound(s, t) && AuthRuns.IdleBounded(s, t, ttl) && t <= load.now
    && load.Load? && load.idleTtl == ttl && Step(lib, s, load).1.Session?
    && LawfulTokens(tokens) && jti != "" && Encode(tokens, secret, Step(lib, s, load).1.session, load.now, jti).Ok?
  }

  /** The time from which the token library may refuse the delegation. */
  function Expiry(tokens: Tokens, session: BffSession, now: Time, jti: string): Time
    requires ClaimsFor(tokens, session, now, jti).Ok?
  {
    ClaimsFor(tokens, session, now, jti).value.exp * SECOND
  }

  lemma FreshlyLoadedIsLive(lib: Crypto.Library, tokens: Tokens, s: Store, t: Time, ttl: int, load: Operation, secret: string, jti: string, later: Time)
    requires Delegates(lib, tokens, s, t, ttl, load, secret, jti) && later < Expiry(tokens, Step(lib, s, load).1.session, load.now, jti)
    ensures var (s1, answer) := Step(lib, s, load);
            && answer.session.roles != [] && answer.session.sessionId == load.id
            && load.id in s1.sessions && Live(s1.sessions[load.id], later) && s1.sessions[load.id].diagnostic.None?
  {
    assert AuthRuns.SoundRow(s.sessions[load.id], t);
    ExpiryWithinDeadlines(tokens, Step(lib, s, load).1.session, load.now, jti);
  }

  /**
    From the store to the token, over every later run: until its expiry second the delegation
    decodes to the loaded session, whatever happens to it; and the session row is still live then
    if and only if no step of the run revoked it.
  */
  lemma DelegationOverRun(lib: Crypto.Library, tokens: Tokens, s: Store, t: Time, ttl: int, load: Operation, secret: string, jti: string,
                          ops: seq<Operation>, later: Time)
    requires Delegates(lib, tokens, s, t, ttl, load, secret, jti) && later < Expiry(tokens, Step(lib, s, load).1.session, load.now, jti)
    requires Ticking(load.now, ops) && AuthRuns.NeverCreates(ops, load.id) && forall i :: 0 <= i < |ops| ==> AuthRuns.FixedIdle(ops[i], ttl)
    ensures var (s1, answer) := Step(lib, s, load);
            var s' := After(lib, s1, ops);
            && Decode(tokens, secret, Encode(tokens, secret, answer.session, load.now, jti).value, later)
               == Ok(ResourceDelegation(answer.session.actorId, load.id, answer.session.roles))
            && (load.id in s'.sessions && Live(s'.sessions[load.id], later) <==> !AuthRuns.RevokedDuring(lib, s1, ops, load.id))
  {
    var (s1, answer) := Step(lib, s, load);
    FreshlyLoadedIsLive(lib, tokens, s, t, ttl, load, secret, jti, later);
    DecodeInvertsEncode(tokens, secret, answer.session, load.now, jti, later);
    AuthRuns.RenewalNeverShortens(lib, s, t, load, ttl);
    AuthRuns.LiveUnlessRevoked(lib, s1, load.now, ops, ttl, load.id, later);
  }

  /** A delegation outlives the revocation of its session. */
  lemma RevokedSessionStillDelegates(lib: Crypto.Library, tokens: Tokens, s: Store, t: Time, ttl: int, load: Operation, secret: string, jti: string,
                                     diagnostic: string, at: Time, later: Time)
    requires Delegates(lib, tokens, s, t, ttl, load, secret, jti)
    requires load.now <= at <= later < Expiry(tokens, Step(lib, s, load).1.session, load.now, jti)
    ensures var (s1, answer) := Step(lib, s, load);
            var s' := Step(lib, s1, Revoke(load.id, diagnostic, at)).0;
            && Decode(tokens, secret, Encode(tokens, secret, answer.session, load.now, jti).value, later)
               == Ok(ResourceDelegation(answer.session.actorId, load.id, answer.session.roles))
            && !Live(s'.sessions[load.id], later)
  {
    var revoke := Revoke(load.id, diagnostic, at);
    assert [revoke][1..] == [];
    DelegationOverRun(lib, tokens, s, t, ttl, load, secret, jti, [revoke], later);
    FreshlyLoadedIsLive(lib, tokens, s, t, ttl, load, secret, jti, later);
  }
}
