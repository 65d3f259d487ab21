/** The guard on every documents route: it needs an open session, records the
    session's role and tenant on the request, and checks the route's roles. */
module Guard {
  import opened Common
  import opened Auth

  datatype Decision = Allow | Deny(error: HttpError)

  /** What the guard stores as `request.user`. */
  datatype User = User(role: Option<string>, tenantId: Option<string>)

  class Request {
    var user: Option<User>

    constructor ()
      ensures user.None?
    {
      user := None;
    }
  }

  /** The guard's decision for a session and the roles a route declares
      (`None` when it declares none). */
  function Decide(token: Option<string>, role: Option<string>, requiredRoles: Option<seq<string>>): (d: Decision)
    ensures d == Deny(Unauthorized) <==> !Truthy(token)
    ensures d == Allow <==>
              Truthy(token) && (requiredRoles.None? || (Truthy(role) && role.value in requiredRoles.value))
    ensures d.Allow? || d == Deny(Unauthorized) || d == Deny(Forbidden)
  {
    if !Truthy(token) then Deny(Unauthorized)
    else if requiredRoles.Some? && Truthy(role) then
      (if role.value in requiredRoles.value then Allow else Deny(Forbidden))
    else if requiredRoles.Some? && !Truthy(role) then Deny(Forbidden)
    else Allow
  }

  /** `canActivate`: decide, and once past the token check record the
      session's role and tenant on the request. */
  method CanActivate(session: SessionState, requiredRoles: Option<seq<string>>, request: Request) returns (d: Decision)
    modifies request
    ensures d == Decide(session.token, session.role, requiredRoles)
    ensures Truthy(session.token) ==> request.user == Some(User(session.role, session.tenantId))
    ensures !Truthy(session.token) ==> request.user == old(request.user)
  {
    if !Truthy(session.token) {
      return Deny(Unauthorized);
    }
    request.user := Some(User(session.role, session.tenantId));
    if requiredRoles.Some? && Truthy(session.role) {
      if session.role.value !in requiredRoles.value {
        return Deny(Forbidden);
      }
    } else if requiredRoles.Some? && !Truthy(session.role) {
      return Deny(Forbidden);
    }
    d := Allow;
  }

  /** A declared but empty role list denies every session. */
  lemma EmptyRoleListDeniesAll(token: Option<string>, role: Option<string>)
    ensures Decide(token, role, Some([])) != Allow
  {
  }

  /** With roles declared, a session without a role is refused as Forbidden. */
  lemma MissingRoleIsForbidden(token: Option<string>, roles: seq<string>)
    requires Truthy(token)
    ensures Decide(token, None, Some(roles)) == Deny(Forbidden)
  {
  }

  /** The documents routes and the roles each declares. */
  datatype Route = Create | FindAll | FindOne | CreateVersion | GetVersions | GetContent
                 | UpdateAcl | UpdateRetention | Remove | DownloadFile

  function RouteRoles(r: Route): Option<seq<string>> {
    match r
    case Create => Some(["ADMIN"])
    case CreateVersion => Some(["ADMIN", "USER"])
    case UpdateAcl => Some(["ADMIN"])
    case Remove => Some(["ADMIN"])
    case _ => None
  }

  /** Creating, re-permissioning and deleting need an ADMIN session, versioning
      an ADMIN or USER one, and every other route any open session. */
  lemma RouteAccess(r: Route, token: Option<string>, role: Option<string>)
    ensures r in {Create, UpdateAcl, Remove} ==>
              (Decide(token, role, RouteRoles(r)) == Allow <==> Truthy(token) && role == Some("ADMIN"))
    ensures r == CreateVersion ==>
              (Decide(token, role, RouteRoles(r)) == Allow <==>
                 Truthy(token) && (role == Some("ADMIN") || role == Some("USER")))
    ensures r !in {Create, UpdateAcl, Remove, CreateVersion} ==>
              (Decide(token, role, RouteRoles(r)) == Allow <==> Truthy(token))
  {
  }

  /** Under the session invariant, every open session passes the versioning
      route, and only an ADMIN one passes the ADMIN routes. */
  lemma OpenSessionsAndRoutes(auth: AuthController, r: Route)
    requires auth.Valid() && auth.activeSession.token.Some?
    ensures Decide(auth.activeSession.token, auth.activeSession.role, RouteRoles(CreateVersion)) == Allow
    ensures r in {Create, UpdateAcl, Remove} ==>
              (Decide(auth.activeSession.token, auth.activeSession.role, RouteRoles(r)) == Allow
               <==> auth.activeSession.role == Some("ADMIN"))
  {
    var s := auth.activeSession;
    assert AuthDto(s.role.value, s.tenantId.value) in auth.registeredUsers;
    assert s.token.value[..|TokenPrefix|] == TokenPrefix;
  }
}
