/** The scope decision of crates/auth/src/authorization.rs. */
module Authorization {
  import opened Prelude
  import opened AuthStore

  datatype MembershipState = Active | Suspended | Withdrawn

  datatype Actor = Actor(actorId: Id, roles: seq<PlatformRole>, expiresAt: Time)

  /** Course and project memberships share their shape; a course membership has no project. */
  datatype Membership = Membership(
    courseId: Id,
    projectId: Option<Id>,
    actorId: Id,
    role: PlatformRole,
    state: MembershipState,
    revision: nat,
    expiresAt: Option<Time>)

  datatype Scope =
    | Global
    | Service(serviceId: string)
    | Course(courseId: Id)
    | Environment(courseId: Id, environmentId: Id, environmentRevision: nat)
    | Project(courseId: Id, projectId: Id)

  datatype Context = Context(
    actor: Actor,
    courseMemberships: seq<Membership>,
    projectMemberships: seq<Membership>,
    now: Time)

  datatype Decision = Decision(
    actor: Actor,
    scope: Scope,
    authorizationRevision: nat,
    scopeRevision: nat,
    validUntil: Time)

  datatype Denial = RoleDenied | CourseScopeDenied | ProjectScopeDenied | IdentityExpired

  predicate NotExpired(expiry: Option<Time>, now: Time) {
    expiry.None? || expiry.value > now
  }

  function Earliest(actorExpiry: Time, membershipExpiry: Option<Time>): Time {
    if membershipExpiry.Some? && membershipExpiry.value < actorExpiry then membershipExpiry.value else actorExpiry
  }

  /** A membership that grants the scope at some time: everything but its expiry. */
  predicate Matches(actor: Actor, m: Membership, courseId: Id, projectId: Option<Id>, required: set<PlatformRole>) {
    && m.courseId == courseId && m.projectId == projectId
    && m.actorId == actor.actorId
    && m.role in required
    && m.state == Active
  }

  predicate Grants(actor: Actor, m: Membership, courseId: Id, projectId: Option<Id>, required: set<PlatformRole>, now: Time) {
    Matches(actor, m, courseId, projectId, required) && NotExpired(m.expiresAt, now)
  }

  /** `Iterator::find`: the first granting membership in list order. */
  function FindGrant(actor: Actor, ms: seq<Membership>, courseId: Id, projectId: Option<Id>, required: set<PlatformRole>, now: Time)
    : (found: Option<Membership>)
    ensures found.Some? <==> exists i :: 0 <= i < |ms| && Grants(actor, ms[i], courseId, projectId, required, now)
    ensures found.Some? ==> exists i :: 0 <= i < |ms| && found.value == ms[i] && Grants(actor, ms[i], courseId, projectId, required, now)
                                        && forall j :: 0 <= j < i ==> !Grants(actor, ms[j], courseId, projectId, required, now)
  {
    if ms == [] then None
    else if Grants(actor, ms[0], courseId, projectId, required, now) then
      Some(ms[0])
    else
      var rest := FindGrant(actor, ms[1..], courseId, projectId, required, now);
      assert forall i :: 0 < i < |ms| ==> ms[i] == ms[1..][i - 1];
      assert forall i :: 0 <= i < |ms[1..]| ==> ms[1..][i] == ms[i + 1];
      rest
  }

  predicate HoldsRequiredRole(roles: seq<PlatformRole>, required: set<PlatformRole>) {
    exists i :: 0 <= i < |roles| && roles[i] in required
  }

  /** The memberships a scope consults, and the course and project it asks for. */
  datatype Query = Unscoped | Scoped(memberships: seq<Membership>, courseId: Id, projectId: Option<Id>)

  function Consulted(c: Context, scope: Scope): Query {
    match scope
    case Global => Unscoped
    case Service(_) => Unscoped
    case Course(courseId) => Scoped(c.courseMemberships, courseId, None)
    case Environment(courseId, _, _) => Scoped(c.courseMemberships, courseId, None)
    case Project(courseId, projectId) => Scoped(c.projectMemberships, courseId, Some(projectId))
  }

  function Authorize(c: Context, scope: Scope, required: set<PlatformRole>): Result<Decision, Denial> {
    if required == {} || !HoldsRequiredRole(c.actor.roles, required) then Err(RoleDenied)
    else
      var bound: Result<(nat, Time), Denial> :=
        match Consulted(c, scope)
        case Unscoped => Ok((1, c.actor.expiresAt))
        case Scoped(ms, courseId, projectId) =>
          match FindGrant(c.actor, ms, courseId, projectId, required, c.now)
          case None => Err(if scope.Project? then ProjectScopeDenied else CourseScopeDenied)
          case Some(m) => Ok((m.revision, Earliest(c.actor.expiresAt, m.expiresAt)));
      match bound
      case Err(e) => Err(e)
      case Ok((revision, validUntil)) =>
        if c.actor.expiresAt <= c.now || validUntil <= c.now then Err(IdentityExpired)
        else Ok(Decision(c.actor, scope, revision, revision, validUntil))
  }

  /** Some membership consulted by the scope grants it now; unscoped endpoints need none. */
  predicate InScope(c: Context, scope: Scope, required: set<PlatformRole>) {
    match Consulted(c, scope)
    case Unscoped => true
    case Scoped(ms, courseId, projectId) => exists i :: 0 <= i < |ms| && Grants(c.actor, ms[i], courseId, projectId, required, c.now)
  }

  /** Revision and end of a permit come from the first granting membership, or from the actor alone. */
  ghost predicate RestsOn(c: Context, scope: Scope, required: set<PlatformRole>, d: Decision) {
    match Consulted(c, scope)
    case Unscoped => d.authorizationRevision == 1 && d.validUntil == c.actor.expiresAt
    case Scoped(ms, courseId, projectId) =>
      exists i :: 0 <= i < |ms| && Grants(c.actor, ms[i], courseId, projectId, required, c.now)
                  && (forall j :: 0 <= j < i ==> !Grants(c.actor, ms[j], courseId, projectId, required, c.now))
                  && d.authorizationRevision == ms[i].revision
                  && d.validUntil == if ms[i].expiresAt.None? then c.actor.expiresAt else Min(c.actor.expiresAt, ms[i].expiresAt.value)
  }

  /** The decision is a permit or a named denial exactly as role, scope and identity hold, in that order. */
  lemma PermitExactly(c: Context, scope: Scope, required: set<PlatformRole>)
    ensures match Authorize(c, scope, required)
            case Ok(d) =>
              && HoldsRequiredRole(c.actor.roles, required) && InScope(c, scope, required) && c.now < c.actor.expiresAt
              && d.actor == c.actor && d.scope == scope && d.scopeRevision == d.authorizationRevision
              && c.now < d.validUntil <= c.actor.expiresAt
              && RestsOn(c, scope, required, d)
            case Err(RoleDenied) => !HoldsRequiredRole(c.actor.roles, required)
            case Err(IdentityExpired) =>
              HoldsRequiredRole(c.actor.roles, required) && InScope(c, scope, required) && c.actor.expiresAt <= c.now
            case Err(denial) =>
              && HoldsRequiredRole(c.actor.roles, required) && !InScope(c, scope, required)
              && (if scope.Project? then denial == ProjectScopeDenied else denial == CourseScopeDenied)
  {
    if HoldsRequiredRole(c.actor.roles, required) {
      var i :| 0 <= i < |c.actor.roles| && c.actor.roles[i] in required;
      assert required != {};
    }
  }

  // ---- How long a permit stands -----------------------------------------------------------------

  /** The membership found now is still the first one found until it expires. */
  lemma {:induction false} GrantStands(actor: Actor, ms: seq<Membership>, courseId: Id, projectId: Option<Id>, required: set<PlatformRole>, now: Time, later: Time)
    requires now <= later
    requires FindGrant(actor, ms, courseId, projectId, required, now).Some?
    requires NotExpired(FindGrant(actor, ms, courseId, projectId, required, now).value.expiresAt, later)
    ensures FindGrant(actor, ms, courseId, projectId, required, later) == FindGrant(actor, ms, courseId, projectId, required, now)
    decreases |ms|
  {
    if !Grants(actor, ms[0], courseId, projectId, required, now) {
      GrantStands(actor, ms[1..], courseId, projectId, required, now, later);
    }
  }

  /** A permit gives the same decision at a later time exactly while that time is before `valid_until`. */
  lemma PermitStandsExactlyUntil(c: Context, scope: Scope, required: set<PlatformRole>, later: Time)
    requires Authorize(c, scope, required).Ok? && c.now <= later
    ensures Authorize(c.(now := later), scope, required) == Authorize(c, scope, required) <==>
            later < Authorize(c, scope, required).value.validUntil
  {
    PermitExactly(c.(now := later), scope, required);
    if later < Authorize(c, scope, required).value.validUntil {
      match Consulted(c, scope)
      case Unscoped =>
      case Scoped(ms, courseId, projectId) => GrantStands(c.actor, ms, courseId, projectId, required, c.now, later);
    }
  }

  // ---- Irrelevant memberships -------------------------------------------------------------------

  function Granting(actor: Actor, ms: seq<Membership>, courseId: Id, projectId: Option<Id>, required: set<PlatformRole>, now: Time): seq<Membership> {
    if ms == [] then []
    else (if Grants(actor, ms[0], courseId, projectId, required, now) then [ms[0]] else [])
         + Granting(actor, ms[1..], courseId, projectId, required, now)
  }

  lemma {:induction false} FirstGranting(actor: Actor, ms: seq<Membership>, courseId: Id, projectId: Option<Id>, required: set<PlatformRole>, now: Time)
    ensures var gs := Granting(actor, ms, courseId, projectId, required, now);
            FindGrant(actor, ms, courseId, projectId, required, now) == (if gs == [] then None else Some(gs[0]))
    decreases |ms|
  {
    if ms != [] {
      FirstGranting(actor, ms[1..], courseId, projectId, required, now);
    }
  }

  /**
    Expired and non-matching memberships, in whatever number and order, have no influence: two
    contexts whose granting memberships agree get the same answer.
  */
  lemma OnlyGrantingMembershipsCount(c: Context, d: Context, scope: Scope, required: set<PlatformRole>)
    requires c.actor == d.actor && c.now == d.now
    requires var q, r := Consulted(c, scope), Consulted(d, scope);
             q.Scoped? ==> Granting(c.actor, q.memberships, q.courseId, q.projectId, required, c.now)
                           == Granting(c.actor, r.memberships, q.courseId, q.projectId, required, c.now)
    ensures Authorize(c, scope, required) == Authorize(d, scope, required)
  {
    var q, r := Consulted(c, scope), Consulted(d, scope);
    if q.Scoped? {
      FirstGranting(c.actor, q.memberships, q.courseId, q.projectId, required, c.now);
      FirstGranting(c.actor, r.memberships, q.courseId, q.projectId, required, c.now);
    }
  }
}
