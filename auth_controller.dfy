/** The in-process authentication state: a registry of (role, tenant) pairs
    and the single global session that register, login and logout drive. */
module Auth {
  import opened Common

  /** The body of register and login; the validation pipe admits only the
      roles ADMIN and USER and a non-empty tenant. */
  datatype AuthDto = AuthDto(role: string, tenantId: string)

  predicate ValidAuthDto(data: AuthDto) {
    (data.role == "ADMIN" || data.role == "USER") && data.tenantId != ""
  }

  const TokenPrefix: string := "session-"

  /** `registeredUsers.find(u => u.role === role && u.tenantId === tenantId)`. */
  function FindUser(users: seq<AuthDto>, role: string, tenantId: string): (r: Option<AuthDto>)
    ensures r.Some? ==> r.value in users && r.value == AuthDto(role, tenantId)
    ensures r.None? <==> AuthDto(role, tenantId) !in users
  {
    if users == [] then None
    else if users[0].role == role && users[0].tenantId == tenantId then Some(users[0])
    else FindUser(users[1..], role, tenantId)
  }

  predicate NoDuplicates(users: seq<AuthDto>) {
    forall i, j :: 0 <= i < j < |users| ==> users[i] != users[j]
  }

  /** The registry after registering `data`: appended only when new. */
  function WithRegistered(users: seq<AuthDto>, data: AuthDto): seq<AuthDto> {
    if FindUser(users, data.role, data.tenantId).None? then users + [data] else users
  }

  /** Registering keeps the registry free of duplicates, makes the pair known,
      forgets no pair, and registering the same pair twice is registering it once. */
  lemma RegisterProperties(users: seq<AuthDto>, data: AuthDto)
    requires NoDuplicates(users)
    ensures NoDuplicates(WithRegistered(users, data))
    ensures data in WithRegistered(users, data)
    ensures forall u :: u in users ==> u in WithRegistered(users, data)
    ensures WithRegistered(WithRegistered(users, data), data) == WithRegistered(users, data)
  {
  }

  /** The global `activeSession` object. */
  class SessionState {
    var token: Option<string>
    var role: Option<string>
    var tenantId: Option<string>

    constructor ()
      ensures token.None? && role.None? && tenantId.None?
    {
      token, role, tenantId := None, None, None;
    }
  }

  /** What a successful login reports. */
  datatype SessionView = SessionView(token: string, role: string, tenantId: string)

  class AuthController {
    var registeredUsers: seq<AuthDto>
    const activeSession: SessionState

    /** The registry has no duplicate pairs and only pairs the validation pipe
        admits; the session is either empty in all
        three fields, or holds a `session-` token and a registered pair. */
    ghost predicate Valid()
      reads this, activeSession
    {
      && NoDuplicates(registeredUsers)
      && (forall u :: u in registeredUsers ==> ValidAuthDto(u))
      && ((activeSession.token.None? && activeSession.role.None? && activeSession.tenantId.None?)
          || (&& activeSession.token.Some? && activeSession.role.Some? && activeSession.tenantId.Some?
              && StartsWith(activeSession.token.value, TokenPrefix)
              && AuthDto(activeSession.role.value, activeSession.tenantId.value) in registeredUsers))
    }

    constructor ()
      ensures Valid() && fresh(activeSession)
      ensures registeredUsers == [] && activeSession.token.None?
    {
      registeredUsers := [];
      activeSession := new SessionState();
    }

    /** Add a (role, tenant) pair unless it is already known. */
    method Register(data: AuthDto) returns (added: bool)
      requires Valid() && ValidAuthDto(data)
      modifies this
      ensures Valid()
      ensures added <==> data !in old(registeredUsers)
      ensures registeredUsers == WithRegistered(old(registeredUsers), data)
    {
      RegisterProperties(registeredUsers, data);
      var found := FindUser(registeredUsers, data.role, data.tenantId);
      added := found.None?;
      if added {
        registeredUsers := registeredUsers + [data];
      }
    }

    /** Open the session for a registered pair, if none is open. `suffix` is the
        random text after the `session-` prefix. */
    method Login(data: AuthDto, suffix: string) returns (r: Result<SessionView>)
      requires Valid()
      modifies activeSession
      ensures Valid()
      ensures Truthy(old(activeSession.token)) ==> r == Err(BadRequest)
      ensures !Truthy(old(activeSession.token)) && data !in registeredUsers ==> r == Err(Unauthorized)
      ensures r.Err? ==> && activeSession.token == old(activeSession.token)
                         && activeSession.role == old(activeSession.role)
                         && activeSession.tenantId == old(activeSession.tenantId)
      ensures !Truthy(old(activeSession.token)) && data in registeredUsers ==>
                && r == Ok(SessionView(TokenPrefix + suffix, data.role, data.tenantId))
                && activeSession.token == Some(TokenPrefix + suffix)
                && activeSession.role == Some(data.role)
                && activeSession.tenantId == Some(data.tenantId)
    {
      if Truthy(activeSession.token) {
        return Err(BadRequest);
      }
      var user := FindUser(registeredUsers, data.role, data.tenantId);
      if user.None? {
        return Err(Unauthorized);
      }
      var token := TokenPrefix + suffix;
      assert token[..|TokenPrefix|] == TokenPrefix;
      activeSession.token := Some(token);
      activeSession.role := Some(data.role);
      activeSession.tenantId := Some(data.tenantId);
      r := Ok(SessionView(token, data.role, data.tenantId));
    }

    /** Close the open session, reporting whose it was; with none open, change nothing. */
    method Logout() returns (closed: Option<(Option<string>, Option<string>)>)
      requires Valid()
      modifies activeSession
      ensures Valid()
      ensures !Truthy(old(activeSession.token)) ==>
                && closed.None?
                && activeSession.token == old(activeSession.token)
                && activeSession.role == old(activeSession.role)
                && activeSession.tenantId == old(activeSession.tenantId)
      ensures Truthy(old(activeSession.token)) ==>
                && closed == Some((old(activeSession.role), old(activeSession.tenantId)))
                && activeSession.token.None? && activeSession.role.None? && activeSession.tenantId.None?
    {
      if !Truthy(activeSession.token) {
        return None;
      }
      closed := Some((activeSession.role, activeSession.tenantId));
      activeSession.token := None;
      activeSession.role := None;
      activeSession.tenantId := None;
    }
  }
}
