/**
  The signed Access-to-Resource delegation of crates/auth/src/resource_delegation.rs, over an
  abstract token library.
*/
module Delegation {
  import opened Prelude
  import opened AuthStore

  const ISSUER := "labweaver-access-service"
  const AUDIENCE := "labweaver-resource-service"
  const SECOND := 1_000_000
  const MINIMUM_SECRET := 32

  datatype Claims = Claims(
    iss: string, aud: string, sub: string, sessionId: string, roles: seq<string>, iat: nat, exp: nat, jti: string)

  /**
    Foreign calls: HS256 signing and verification with zero leeway at a given second, and the text
    form of identifiers.
  */
  datatype Tokens = Tokens(
    sign: (string, Claims) -> string,
    verify: (string, string, int) -> Option<Claims>,
    text: Id -> string,
    parse: string -> Option<Id>)

  /**
    A signed token verifies to its claims before its expiry second and to nothing after it (that
    second itself is left open), and an identifier parses from its text.
  */
  ghost predicate LawfulTokens(lib: Tokens) {
    && (forall secret: string, claims: Claims, second: int ::
          claims.iss == ISSUER && claims.aud == AUDIENCE && second < claims.exp ==>
            lib.verify(secret, lib.sign(secret, claims), second) == Some(claims))
    && (forall secret: string, claims: Claims, second: int ::
          second > claims.exp ==> lib.verify(secret, lib.sign(secret, claims), second) == None)
    && (forall id :: lib.parse(lib.text(id)) == Some(id) && lib.text(id) != "")
  }

  datatype DelegationError = Secret | ClaimsInvalid | Expired | Verification

  datatype ResourceDelegation = ResourceDelegation(actorId: Id, sessionId: Id, roles: seq<PlatformRole>)

  /** Whole seconds since the epoch, rounded down. */
  function UnixSeconds(t: Time): int {
    t / SECOND
  }

  function ClaimsFor(lib: Tokens, session: BffSession, now: Time, jti: string): Result<Claims, DelegationError> {
    var nowSeconds := UnixSeconds(now);
    var expirySeconds := UnixSeconds(Min(session.expiresAt, session.idleExpiresAt));
    if expirySeconds <= nowSeconds then Err(Expired)
    else if nowSeconds < 0 then Err(ClaimsInvalid)
    else Ok(Claims(ISSUER, AUDIENCE, lib.text(session.actorId), lib.text(session.sessionId), RoleNames(session.roles),
                   nowSeconds, expirySeconds, jti))
  }

  function Encode(lib: Tokens, secret: string, session: BffSession, now: Time, jti: string): Result<string, DelegationError> {
    if |secret| < MINIMUM_SECRET then Err(Secret)
    else
      match ClaimsFor(lib, session, now, jti)
      case Err(e) => Err(e)
      case Ok(claims) => Ok(lib.sign(secret, claims))
  }

  function Decode(lib: Tokens, secret: string, token: string, now: Time): Result<ResourceDelegation, DelegationError> {
    if |secret| < MINIMUM_SECRET then Err(Secret)
    else
      match lib.verify(secret, token, UnixSeconds(now))
      case None => Err(Verification)
      case Some(claims) =>
        if claims.iss != ISSUER || claims.aud != AUDIENCE || claims.sub == "" || claims.sessionId == "" || claims.jti == "" || claims.roles == []
        then Err(ClaimsInvalid)
        else
          match (lib.parse(claims.sub), lib.parse(claims.sessionId), ParseRoles(claims.roles))
          case (Some(actorId), Some(sessionId), Some(roles)) => Ok(ResourceDelegation(actorId, sessionId, roles))
          case _ => Err(ClaimsInvalid)
  }

  /** Signing succeeds exactly when the nearer deadline lies in a later second than a clock past the epoch. */
  lemma EncodeExactly(lib: Tokens, secret: string, session: BffSession, now: Time, jti: string)
    ensures Encode(lib, secret, session, now, jti).Ok? <==>
            |secret| >= MINIMUM_SECRET && 0 <= now && (now / SECOND + 1) * SECOND <= Min(session.expiresAt, session.idleExpiresAt)
  {
  }

  /** The token is issued in the current second and ends in the second of the nearer deadline, never later than either. */
  lemma ExpiryWithinDeadlines(lib: Tokens, session: BffSession, now: Time, jti: string)
    requires ClaimsFor(lib, session, now, jti).Ok?
    ensures var claims := ClaimsFor(lib, session, now, jti).value;
            && claims.exp * SECOND <= session.expiresAt
            && claims.exp * SECOND <= session.idleExpiresAt
            && Min(session.expiresAt, session.idleExpiresAt) < (claims.exp + 1) * SECOND
            && claims.iat * SECOND <= now < (claims.iat + 1) * SECOND <= claims.exp * SECOND
  {
  }

  /** Before its expiry second a token gives back the actor, session and roles that were signed; after it, nothing. */
  lemma DecodeInvertsEncode(lib: Tokens, secret: string, session: BffSession, now: Time, jti: string, later: Time)
    requires LawfulTokens(lib) && jti != "" && session.roles != []
    requires Encode(lib, secret, session, now, jti).Ok?
    ensures var exp, r := ClaimsFor(lib, session, now, jti).value.exp, Decode(lib, secret, Encode(lib, secret, session, now, jti).value, later);
            && (later < exp * SECOND ==> r == Ok(ResourceDelegation(session.actorId, session.sessionId, session.roles)))
            && (later >= (exp + 1) * SECOND ==> r == Err(Verification))
  {
    var claims := ClaimsFor(lib, session, now, jti).value;
    assert later < claims.exp * SECOND ==> UnixSeconds(later) < claims.exp;
    assert later >= (claims.exp + 1) * SECOND ==> UnixSeconds(later) > claims.exp;
    ParseRolesInvertsRoleNames(session.roles);
    assert claims.roles != [];
  }
}
