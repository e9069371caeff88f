/**
 * The request guards of the (older) HTTP API and the `auth` route that writes the
 * session cookie. The guards are decisions over the outcomes of the user queries
 * they make: the user count, the private `username` cookie and the admin flag of
 * the cookie's user.
 */
module RocketApi {
  import opened Wrappers
  import Users

  const SessionFieldUsername: string := "username"

  datatype Status = Forbidden | InternalServerError

  /** The outcome of a request guard (these guards never forward). */
  datatype Outcome<+T> = Succeed(value: T) | Fail(status: Status)

  datatype Auth = Auth(username: string)

  datatype AdminRights = AdminRights

  /** What `to_string()` gives for a cookie read from a request: its name, `=`, its value. */
  function CookieToString(name: string, value: string): (s: string)
    ensures |s| == |name| + 1 + |value|
    ensures s[..|name|] == name && s[|name|] == '=' && s[|name| + 1..] == value
  {
    name + "=" + value
  }

  /**
   * `Auth::from_request` as written, given the private `username` cookie if the
   * request has one: the username is the cookie's `to_string()`, `username=<value>`.
   */
  function AuthFromRequestAsWritten(cookie: Option<string>): (r: Outcome<Auth>)
    ensures r.Succeed? <==> cookie.Some?
    ensures r.Succeed? ==> r.value.username == SessionFieldUsername + "=" + cookie.value
    ensures r.Fail? ==> r.status == Forbidden
  {
    match cookie
    case Some(u) => Succeed(Auth(CookieToString(SessionFieldUsername, u)))
    case None => Fail(Forbidden)
  }

  /** `Auth::from_request` as intended: the username is the cookie's value. */
  function AuthFromRequest(cookie: Option<string>): (r: Outcome<Auth>)
    ensures r.Succeed? <==> cookie.Some?
    ensures r.Succeed? ==> r.value.username == cookie.value
    ensures r.Fail? ==> r.status == Forbidden
  {
    match cookie
    case Some(u) => Succeed(Auth(u))
    case None => Fail(Forbidden)
  }

  /**
   * The decision of `AdminRights::from_request`, given the outcome of counting the
   * users, the outcome of the `Auth` guard (only consulted when there are users)
   * and the `is_admin` query.
   */
  function AdminRightsGiven<E, F>(count: Result<int, E>, auth: Outcome<Auth>, isAdmin: string -> Result<bool, F>)
    : (r: Outcome<AdminRights>)
    ensures count.Failure? ==> r == Fail(InternalServerError)
    ensures count.Success? && count.value == 0 ==> r == Succeed(AdminRights)
    ensures count.Success? && count.value != 0 && auth.Fail? ==> r == Fail(auth.status)
    ensures count.Success? && count.value != 0 && auth.Succeed? ==>
              r == match isAdmin(auth.value.username)
                   case Failure(_) => Fail(InternalServerError)
                   case Success(admin) => if admin then Succeed(AdminRights) else Fail(Forbidden)
    ensures r.Succeed? <==>
              count.Success? &&
              (count.value == 0 || (auth.Succeed? && isAdmin(auth.value.username) == Success(true)))
  {
    match count
    case Failure(_) => Fail(InternalServerError)
    case Success(n) =>
      if n == 0 then Succeed(AdminRights)
      else
        match auth
        case Fail(status) => Fail(status)
        case Succeed(a) =>
          match isAdmin(a.username)
          case Failure(_) => Fail(InternalServerError)
          case Success(admin) => if admin then Succeed(AdminRights) else Fail(Forbidden)
  }

  /** `AdminRights::from_request` as written: `is_admin` is asked about `username=<value>`. */
  function AdminRightsFromRequestAsWritten<E, F>(count: Result<int, E>, cookie: Option<string>,
                                                 isAdmin: string -> Result<bool, F>)
    : (r: Outcome<AdminRights>)
    ensures count.Success? && count.value != 0 && cookie.Some? ==>
              (r.Succeed? <==> isAdmin(SessionFieldUsername + "=" + cookie.value) == Success(true))
  {
    AdminRightsGiven(count, AuthFromRequestAsWritten(cookie), isAdmin)
  }

  /** `AdminRights::from_request` as intended: `is_admin` is asked about the cookie's value. */
  function AdminRightsFromRequest<E, F>(count: Result<int, E>, cookie: Option<string>,
                                        isAdmin: string -> Result<bool, F>)
    : (r: Outcome<AdminRights>)
    ensures count.Failure? ==> r == Fail(InternalServerError)
    ensures count.Success? && count.value == 0 ==> r == Succeed(AdminRights)
    ensures count.Success? && count.value != 0 && cookie.None? ==> r == Fail(Forbidden)
    ensures count.Success? && count.value != 0 && cookie.Some? ==>
              r == match isAdmin(cookie.value)
                   case Failure(_) => Fail(InternalServerError)
                   case Success(admin) => if admin then Succeed(AdminRights) else Fail(Forbidden)
    ensures r.Succeed? <==>
              count.Success? && (count.value == 0 || (cookie.Some? && isAdmin(cookie.value) == Success(true)))
  {
    AdminRightsGiven(count, AuthFromRequest(cookie), isAdmin)
  }

  /** With no accounts yet, every request holds admin rights, cookie or not. */
  lemma BootstrapWhileNoAccounts<F>(m: Users.Manager, cookie: Option<string>, isAdmin: string -> Result<bool, F>)
    requires m.storeUp && m.users == map[]
    ensures AdminRightsFromRequest(m.Count(), cookie, isAdmin) == Succeed(AdminRights)
    ensures AdminRightsFromRequestAsWritten(m.Count(), cookie, isAdmin) == Succeed(AdminRights)
  {
  }

  /** Once an account exists, admin rights need a cookie naming an account whose admin flag is set. */
  lemma NoBootstrapOnceAccountsExist(m: Users.Manager, cookie: Option<string>,
                                     isAdmin: string -> Result<bool, Users.Error>)
    requires m.storeUp && m.users != map[]
    requires forall u :: isAdmin(u) == m.IsAdmin(u)
    ensures AdminRightsFromRequest(m.Count(), cookie, isAdmin).Succeed? <==>
            cookie.Some? && cookie.value in m.users && m.users[cookie.value].IsAdmin()
  {
  }

  /**
   * The guard as written refuses an administrator's cookie: it asks `is_admin` about
   * `username=<name>`, which names no account, so the request fails with
   * `InternalServerError`, where the intended guard grants admin rights.
   */
  lemma AdminCookieRefusedAsWritten(m: Users.Manager, name: string, isAdmin: string -> Result<bool, Users.Error>)
    requires m.storeUp && name in m.users && m.users[name].IsAdmin()
    requires SessionFieldUsername + "=" + name !in m.users
    requires forall u :: isAdmin(u) == m.IsAdmin(u)
    ensures AdminRightsFromRequestAsWritten(m.Count(), Some(name), isAdmin) == Fail(InternalServerError)
    ensures AdminRightsFromRequest(m.Count(), Some(name), isAdmin) == Succeed(AdminRights)
  {
  }

  /** The private cookies of a response. */
  class CookieJar {
    var privateCookies: map<string, string>

    constructor ()
      ensures privateCookies == map[]
    {
      privateCookies := map[];
    }

    function GetPrivate(name: string): (r: Option<string>)
      reads this
      ensures r.Some? <==> name in privateCookies
      ensures r.Some? ==> r.value == privateCookies[name]
    {
      if name in privateCookies then Some(privateCookies[name]) else None
    }

    method AddPrivate(name: string, value: string)
      modifies this
      ensures privateCookies == old(privateCookies)[name := value]
    {
      privateCookies := privateCookies[name := value];
    }
  }

  datatype AuthCredentials = AuthCredentials(username: string, password: string)

  datatype AuthOutput = AuthOutput(admin: bool)

  /**
   * The `auth` route. `authResult` is what `user::auth` returned for the
   * credentials (its success value is not inspected), and `isAdminResult` what
   * `user::is_admin` returns for the username afterwards.
   */
  method AuthRoute<V, E>(credentials: AuthCredentials, authResult: Result<V, E>, isAdminResult: Result<bool, E>,
                         cookies: CookieJar)
    returns (r: Result<AuthOutput, E>)
    modifies cookies
    ensures authResult.Failure? ==>
              r == Failure(authResult.error) && cookies.privateCookies == old(cookies.privateCookies)
    ensures authResult.Success? ==>
              cookies.privateCookies == old(cookies.privateCookies)[SessionFieldUsername := credentials.username]
    ensures authResult.Success? ==>
              AuthFromRequest(cookies.GetPrivate(SessionFieldUsername)) == Succeed(Auth(credentials.username))
    ensures authResult.Success? ==>
              AuthFromRequestAsWritten(cookies.GetPrivate(SessionFieldUsername)) ==
              Succeed(Auth(SessionFieldUsername + "=" + credentials.username))
    ensures authResult.Success? ==>
              r == match isAdminResult
                   case Success(admin) => Success(AuthOutput(admin))
                   case Failure(e) => Failure(e)
  {
    if authResult.Failure? {
      return Failure(authResult.error);
    }
    cookies.AddPrivate(SessionFieldUsername, credentials.username);
    match isAdminResult
    case Success(admin) => r := Success(AuthOutput(admin));
    case Failure(e) => r := Failure(e);
  }
}
