/**
 * The account manager of the media server: password hashing, login, scoped
 * authorization tokens and the per-account fields (admin flag, linked Last.fm
 * account). The account table is an in-memory map; `storeUp` says whether the
 * database can be reached, and every storage failure becomes `Unspecified`.
 */
module Users {
  import opened Wrappers
  import opened Crypto
  import Json

  datatype Error =
    | EmptyUsername
    | EmptyPassword
    | IncorrectUsername
    | IncorrectPassword
    | InvalidAuthToken
    | IncorrectAuthorizationScope
    | Unspecified

  /** Failures of the members that return an untyped (`anyhow`) error. */
  datatype LookupError = QueryFailed | MissingLastFMCredentials

  /** A row of the `users` table. `admin` is the integer column (0 or 1 as written here). */
  datatype User = User(
    passwordHash: PhcString,
    admin: int,
    lastfmUsername: Option<string>,
    lastfmSessionKey: Option<string>)
  {
    predicate IsAdmin()
      ensures IsAdmin() <==> admin != 0
    {
      admin != 0
    }
  }

  datatype NewUser = NewUser(name: string, password: string, admin: bool)

  datatype AuthorizationScope = PolarisAuth | LastFMLink

  datatype Authorization = Authorization(username: string, scope: AuthorizationScope)

  datatype AuthToken = AuthToken(data: BrancaToken)

  /** Token lifetime per scope, in seconds; 0 means the token never expires. */
  function ScopeTtl(scope: AuthorizationScope): (ttl: nat)
    ensures ttl == 0 <==> scope == PolarisAuth
    ensures scope == LastFMLink ==> ttl == 600
  {
    match scope
    case PolarisAuth => 0
    case LastFMLink => 10 * 60
  }

  // ---------------------------------------------------------------------------
  // The JSON form of an Authorization, as serde writes it:
  //   {"username":"<escaped name>","scope":"PolarisAuth"}

  const UsernamePrefix: string := "{\"username\":\""

  function ScopeName(scope: AuthorizationScope): string {
    match scope
    case PolarisAuth => "PolarisAuth"
    case LastFMLink => "LastFMLink"
  }

  /** What follows the closing quote of the username. */
  function ScopeSuffix(scope: AuthorizationScope): string {
    ",\"scope\":\"" + ScopeName(scope) + "\"}"
  }

  function Serialize(a: Authorization): (s: string)
    ensures |s| >= |UsernamePrefix| + |ScopeSuffix(a.scope)|
    ensures s[..|UsernamePrefix|] == UsernamePrefix
    ensures s[|s| - |ScopeSuffix(a.scope)|..] == ScopeSuffix(a.scope)
  {
    UsernamePrefix + Json.Escape(a.username) + "\"" + ScopeSuffix(a.scope)
  }

  /** Only the canonical serialisation of an Authorization is read back as one. */
  function Deserialize(s: string): (r: Option<Authorization>)
    ensures r.Some? ==> Serialize(r.value) == s
  {
    if |s| < |UsernamePrefix| || s[..|UsernamePrefix|] != UsernamePrefix then None
    else
      match Json.Unquote(s[|UsernamePrefix|..])
      case None => None
      case Some((name, rest)) =>
        Json.UnquoteCanonical(s[|UsernamePrefix|..]);
        assert s == s[..|UsernamePrefix|] + s[|UsernamePrefix|..];
        if rest == ScopeSuffix(PolarisAuth) then Some(Authorization(name, PolarisAuth))
        else if rest == ScopeSuffix(LastFMLink) then Some(Authorization(name, LastFMLink))
        else None
  }

  /** Reading back a serialised Authorization gives the same Authorization. */
  lemma DeserializeSerialize(a: Authorization)
    ensures Deserialize(Serialize(a)) == Some(a)
  {
    var s := Serialize(a);
    var body := Json.Escape(a.username) + "\"" + ScopeSuffix(a.scope);
    assert s == UsernamePrefix + body;
    assert s[..|UsernamePrefix|] == UsernamePrefix;
    assert s[|UsernamePrefix|..] == body;
    Json.UnquoteEscape(a.username, ScopeSuffix(a.scope));
    assert ScopeSuffix(PolarisAuth) != ScopeSuffix(LastFMLink) by {
      assert ScopeSuffix(PolarisAuth)[10] != ScopeSuffix(LastFMLink)[10];
    }
  }

  // ---------------------------------------------------------------------------
  // Passwords

  /** `hash_password`: PBKDF2 under a fresh salt, refusing the empty password. */
  function HashPassword(password: string, salt: Salt): (r: Result<PhcString, Error>)
    ensures password == [] ==> r == Failure(EmptyPassword)
    ensures password != [] ==> r.Success? && forall q :: VerifyPassword(r.value, q) <==> q == password
  {
    if password == [] then Failure(EmptyPassword)
    else Success(Pbkdf2Hash(password, salt))
  }

  /** `verify_password`: a stored hash that does not parse never verifies. */
  predicate VerifyPassword(passwordHash: PhcString, attempted: string)
    ensures VerifyPassword(passwordHash, attempted) <==>
              passwordHash.Phc? && passwordHash == Pbkdf2Hash(attempted, passwordHash.salt)
  {
    match passwordHash
    case Unparsable(_) => false
    case Phc(salt, digest) => Pbkdf2Verify(attempted, salt, digest)
  }

  /** The invariants the account table keeps: no empty name, and Last.fm fields set together. */
  ghost predicate WellFormed(users: map<string, User>) {
    && "" !in users
    && forall name :: name in users ==>
         users[name].lastfmUsername.Some? == users[name].lastfmSessionKey.Some?
  }

  class Manager {
    const secret: Key
    const storeUp: bool
    var users: map<string, User>

    ghost predicate Valid()
      reads this
    {
      WellFormed(users)
    }

    constructor (secret: Key, storeUp: bool, users: map<string, User>)
      requires WellFormed(users)
      ensures Valid()
      ensures this.secret == secret && this.storeUp == storeUp && this.users == users
    {
      this.secret := secret;
      this.storeUp := storeUp;
      this.users := users;
    }

    // -------------------------------------------------------------------------
    // Mutations of the account table

    method Create(newUser: NewUser, salt: Salt) returns (r: Result<(), Error>)
      requires Valid()
      modifies this`users
      ensures Valid()
      ensures newUser.name == [] ==> r == Failure(EmptyUsername)
      ensures newUser.name != [] && newUser.password == [] ==> r == Failure(EmptyPassword)
      ensures newUser.name != [] && newUser.password != [] && (!storeUp || newUser.name in old(users)) ==>
                r == Failure(Unspecified)
      ensures r.Success? <==> newUser.name != [] && newUser.password != [] && storeUp && newUser.name !in old(users)
      ensures r.Failure? ==> users == old(users)
      ensures r.Success? ==>
                users == old(users)[newUser.name := User(Pbkdf2Hash(newUser.password, salt),
                                                         if newUser.admin then 1 else 0, None, None)]
      ensures r.Success? ==> |users| == |old(users)| + 1
      ensures r.Success? ==> users[newUser.name].IsAdmin() == newUser.admin
      ensures r.Success? ==> forall q :: VerifyPassword(users[newUser.name].passwordHash, q) <==> q == newUser.password
    {
      if newUser.name == [] {
        return Failure(EmptyUsername);
      }
      var passwordHash := HashPassword(newUser.password, salt);
      if passwordHash.Failure? {
        return Failure(passwordHash.error);
      }
      if !storeUp || newUser.name in users {
        // no connection, or the insert violates the primary key
        return Failure(Unspecified);
      }
      users := users[newUser.name := User(passwordHash.value, if newUser.admin then 1 else 0, None, None)];
      return Success(());
    }

    method Delete(username: string) returns (r: Result<(), Error>)
      requires Valid()
      modifies this`users
      ensures Valid()
      ensures !storeUp ==> r == Failure(Unspecified) && users == old(users)
      ensures storeUp ==> r == Success(()) && users == old(users) - {username}
      ensures r.Success? ==>
                forall t, scope, now :: DecodeAuthToken(t, scope, now).Success? &&
                                        DecodeAuthToken(t, scope, now).value.username == username ==>
                                          Authenticate(t, scope, now) == Failure(IncorrectUsername)
    {
      if !storeUp {
        return Failure(Unspecified);
      }
      users := users - {username};
      return Success(());
    }

    method SetPassword(username: string, password: string, salt: Salt) returns (r: Result<(), Error>)
      requires Valid()
      modifies this`users
      ensures Valid()
      ensures password == [] ==> r == Failure(EmptyPassword)
      ensures password != [] && !storeUp ==> r == Failure(Unspecified)
      ensures r.Success? <==> password != [] && storeUp
      ensures r.Failure? ==> users == old(users)
      ensures r.Success? ==>
                users == if username in old(users)
                         then old(users)[username := old(users)[username].(passwordHash := Pbkdf2Hash(password, salt))]
                         else old(users)
      ensures r.Success? && username in users ==>
                forall q :: VerifyPassword(users[username].passwordHash, q) <==> q == password
    {
      var passwordHash := HashPassword(password, salt);
      if passwordHash.Failure? {
        return Failure(passwordHash.error);
      }
      if !storeUp {
        return Failure(Unspecified);
      }
      if username in users {
        users := users[username := users[username].(passwordHash := passwordHash.value)];
      }
      return Success(());
    }

    method SetIsAdmin(username: string, isAdmin: bool) returns (r: Result<(), Error>)
      requires Valid()
      modifies this`users
      ensures Valid()
      ensures !storeUp ==> r == Failure(Unspecified) && users == old(users)
      ensures storeUp ==> r == Success(())
      ensures r.Success? ==>
                users == if username in old(users)
                         then old(users)[username := old(users)[username].(admin := if isAdmin then 1 else 0)]
                         else old(users)
      ensures r.Success? && username in users ==> users[username].IsAdmin() == isAdmin
    {
      if !storeUp {
        return Failure(Unspecified);
      }
      if username in users {
        users := users[username := users[username].(admin := if isAdmin then 1 else 0)];
      }
      return Success(());
    }

    method LastfmLink(username: string, lastfmLogin: string, sessionKey: string) returns (r: Result<(), Error>)
      requires Valid()
      modifies this`users
      ensures Valid()
      ensures !storeUp ==> r == Failure(Unspecified) && users == old(users)
      ensures storeUp ==> r == Success(())
      ensures r.Success? ==>
                users == if username in old(users)
                         then old(users)[username := old(users)[username].(lastfmUsername := Some(lastfmLogin),
                                                                           lastfmSessionKey := Some(sessionKey))]
                         else old(users)
      ensures r.Success? ==> (IsLastfmLinked(username) <==> username in users)
      ensures r.Success? && username in users ==> GetLastfmSessionKey(username) == Success(sessionKey)
    {
      if !storeUp {
        return Failure(Unspecified);
      }
      if username in users {
        users := users[username := users[username].(lastfmUsername := Some(lastfmLogin),
                                                     lastfmSessionKey := Some(sessionKey))];
      }
      return Success(());
    }

    method LastfmUnlink(username: string) returns (r: Result<(), LookupError>)
      requires Valid()
      modifies this`users
      ensures Valid()
      ensures !storeUp ==> r == Failure(QueryFailed) && users == old(users)
      ensures storeUp ==> r == Success(())
      ensures r.Success? ==>
                users == if username in old(users)
                         then old(users)[username := old(users)[username].(lastfmUsername := None,
                                                                           lastfmSessionKey := None)]
                         else old(users)
      ensures r.Success? ==> !IsLastfmLinked(username)
    {
      if !storeUp {
        return Failure(QueryFailed);
      }
      if username in users {
        users := users[username := users[username].(lastfmUsername := None, lastfmSessionKey := None)];
      }
      return Success(());
    }

    // -------------------------------------------------------------------------
    // Tokens

    /** `generate_auth_token` at time `now`. */
    function GenerateAuthToken(authorization: Authorization, now: nat): (t: AuthToken)
      ensures t.data.Sealed? && t.data.key == secret && t.data.timestamp == now
      ensures Deserialize(t.data.payload) == Some(authorization)
    {
      DeserializeSerialize(authorization);
      AuthToken(BrancaEncode(Serialize(authorization), secret, now))
    }

    /**
     * `decode_auth_token`: open the envelope under the scope's lifetime, read the
     * payload, then insist that the token was issued for `scope`.
     */
    function DecodeAuthToken(token: AuthToken, scope: AuthorizationScope, now: nat): (r: Result<Authorization, Error>)
      ensures token.data.Garbled? || token.data.key != secret ==> r == Failure(InvalidAuthToken)
      ensures scope == LastFMLink && token.data.Sealed? && token.data.timestamp + 600 < now ==>
                r == Failure(InvalidAuthToken)
      ensures r.Failure? ==> r.error == InvalidAuthToken || r.error == IncorrectAuthorizationScope
      ensures r.Success? ==>
                && r.value.scope == scope
                && token.data == Sealed(secret, Serialize(r.value), token.data.timestamp)
                && (scope == LastFMLink ==> now <= token.data.timestamp + 600)
    {
      match BrancaDecode(token.data, secret, ScopeTtl(scope), now)
      case None => Failure(InvalidAuthToken)
      case Some(payload) =>
        match Deserialize(payload)
        case None => Failure(InvalidAuthToken)
        case Some(authorization) =>
          if authorization.scope != scope then Failure(IncorrectAuthorizationScope)
          else Success(authorization)
    }

    /** `generate_lastfm_link_token`: a short-lived token for the Last.fm linking step. */
    function GenerateLastfmLinkToken(username: string, now: nat): (t: AuthToken)
      ensures t.data.Sealed? && t.data.key == secret && t.data.timestamp == now
      ensures Deserialize(t.data.payload) == Some(Authorization(username, LastFMLink))
    {
      GenerateAuthToken(Authorization(username, LastFMLink), now)
    }

    // -------------------------------------------------------------------------
    // Queries over the current table

    function Count(): (r: Result<int, LookupError>)
      reads this
      ensures r.Success? <==> storeUp
      ensures r.Success? ==> r.value == |users| && (r.value == 0 <==> users == map[])
    {
      if !storeUp then Failure(QueryFailed) else Success(|users|)
    }

    function Exists(username: string): (r: Result<bool, Error>)
      reads this
      ensures r.Success? <==> storeUp
      ensures r.Failure? ==> r.error == Unspecified
      ensures r.Success? ==> (r.value <==> username in users)
    {
      if !storeUp then Failure(Unspecified) else Success(username in users)
    }

    /** `is_admin`: a missing account is a query failure, not `false`. */
    function IsAdmin(username: string): (r: Result<bool, Error>)
      reads this
      ensures r.Success? <==> storeUp && username in users
      ensures r.Failure? ==> r.error == Unspecified
      ensures r.Success? ==> (r.value <==> users[username].admin != 0)
    {
      if !storeUp || username !in users then Failure(Unspecified)
      else Success(users[username].IsAdmin())
    }

    function GetLastfmSessionKey(username: string): (r: Result<string, LookupError>)
      reads this
      ensures r.Success? <==> storeUp && username in users && users[username].lastfmSessionKey.Some?
      ensures r.Success? ==> Some(r.value) == users[username].lastfmSessionKey
      ensures !storeUp || username !in users ==> r == Failure(QueryFailed)
      ensures storeUp && username in users && users[username].lastfmSessionKey.None? ==>
                r == Failure(MissingLastFMCredentials)
    {
      if !storeUp || username !in users then Failure(QueryFailed)
      else
        match users[username].lastfmSessionKey
        case Some(key) => Success(key)
        case None => Failure(MissingLastFMCredentials)
    }

    predicate IsLastfmLinked(username: string)
      reads this
      ensures IsLastfmLinked(username) <==> storeUp && username in users && users[username].lastfmSessionKey.Some?
    {
      GetLastfmSessionKey(username).Success?
    }

    /** `login`: a token for the account when the password verifies against its stored hash. */
    function Login(username: string, password: string, now: nat): (r: Result<AuthToken, Error>)
      reads this
      ensures !storeUp ==> r == Failure(Unspecified)
      ensures storeUp && username !in users ==> r == Failure(IncorrectUsername)
      ensures storeUp && username in users && !VerifyPassword(users[username].passwordHash, password) ==>
                r == Failure(IncorrectPassword)
      ensures storeUp && username in users && users[username].passwordHash.Unparsable? ==>
                r == Failure(IncorrectPassword)
      ensures r.Success? <==> storeUp && username in users && VerifyPassword(users[username].passwordHash, password)
      ensures r.Success? ==>
                && r.value.data.Sealed? && r.value.data.key == secret && r.value.data.timestamp == now
                && Deserialize(r.value.data.payload) == Some(Authorization(username, PolarisAuth))
    {
      if !storeUp then Failure(Unspecified)
      else if username !in users then Failure(IncorrectUsername)
      else if VerifyPassword(users[username].passwordHash, password) then
        Success(GenerateAuthToken(Authorization(username, PolarisAuth), now))
      else Failure(IncorrectPassword)
    }

    /**
     * `authenticate`: decode the token for `scope`, then re-check that its account
     * still exists, which is how deleting an account revokes its tokens.
     */
    function Authenticate(token: AuthToken, scope: AuthorizationScope, now: nat): (r: Result<Authorization, Error>)
      reads this
      ensures DecodeAuthToken(token, scope, now).Failure? ==> r == DecodeAuthToken(token, scope, now)
      ensures DecodeAuthToken(token, scope, now).Success? && !storeUp ==> r == Failure(Unspecified)
      ensures DecodeAuthToken(token, scope, now).Success? && storeUp &&
              DecodeAuthToken(token, scope, now).value.username !in users ==>
                r == Failure(IncorrectUsername)
      ensures r.Success? ==> r == DecodeAuthToken(token, scope, now) && storeUp && r.value.username in users
    {
      match DecodeAuthToken(token, scope, now)
      case Failure(e) => Failure(e)
      case Success(authorization) =>
        match Exists(authorization.username)
        case Failure(e) => Failure(e)
        case Success(found) =>
          if found then Success(authorization) else Failure(IncorrectUsername)
    }

    // -------------------------------------------------------------------------
    // Properties of the token scheme

    /** A token decoded for its own scope within that scope's lifetime gives its Authorization back. */
    lemma TokenRoundTrip(authorization: Authorization, issuedAt: nat, now: nat)
      requires ScopeTtl(authorization.scope) == 0 || now <= issuedAt + ScopeTtl(authorization.scope)
      ensures DecodeAuthToken(GenerateAuthToken(authorization, issuedAt), authorization.scope, now) == Success(authorization)
    {
    }

    /** A session token is accepted at any time, however long after it was issued. */
    lemma SessionTokenNeverExpires(username: string, issuedAt: nat, now: nat)
      ensures DecodeAuthToken(GenerateAuthToken(Authorization(username, PolarisAuth), issuedAt), PolarisAuth, now) ==
              Success(Authorization(username, PolarisAuth))
    {
    }

    /** A Last.fm link token is accepted for 600 seconds and rejected as invalid afterwards. */
    lemma LinkTokenExpires(username: string, issuedAt: nat, now: nat)
      ensures DecodeAuthToken(GenerateAuthToken(Authorization(username, LastFMLink), issuedAt), LastFMLink, now) ==
              if now <= issuedAt + 600 then Success(Authorization(username, LastFMLink)) else Failure(InvalidAuthToken)
    {
    }

    /** A token issued for one scope is refused for the other, once it has opened. */
    lemma ScopeIsBound(authorization: Authorization, scope: AuthorizationScope, issuedAt: nat, now: nat)
      requires scope != authorization.scope
      requires ScopeTtl(scope) == 0 || now <= issuedAt + ScopeTtl(scope)
      ensures DecodeAuthToken(GenerateAuthToken(authorization, issuedAt), scope, now) == Failure(IncorrectAuthorizationScope)
    {
    }

    /** An issued token authenticates exactly while its account exists. */
    lemma IssuedTokenAuthenticatesWhileAccountExists(authorization: Authorization, issuedAt: nat, now: nat)
      requires storeUp
      requires ScopeTtl(authorization.scope) == 0 || now <= issuedAt + ScopeTtl(authorization.scope)
      ensures Authenticate(GenerateAuthToken(authorization, issuedAt), authorization.scope, now) ==
              if authorization.username in users then Success(authorization) else Failure(IncorrectUsername)
    {
    }

    /** Because Last.fm fields are set together, the stored Last.fm username also tells whether an account is linked. */
    lemma LinkedIffLastfmUsername(username: string)
      requires Valid()
      ensures IsLastfmLinked(username) <==> storeUp && username in users && users[username].lastfmUsername.Some?
    {
    }

    /** No account has the empty name, so logging in with it always fails `IncorrectUsername`. */
    lemma EmptyUsernameNeverLogsIn(password: string, now: nat)
      requires Valid() && storeUp
      ensures Login("", password, now) == Failure(IncorrectUsername)
    {
    }

    /** The token a login hands out authenticates its account for the session scope, for as long as the account exists. */
    lemma LoginTokenAuthenticates(username: string, password: string, now: nat, later: nat)
      requires Login(username, password, now).Success?
      ensures Authenticate(Login(username, password, now).value, PolarisAuth, later) ==
              Success(Authorization(username, PolarisAuth))
    {
    }
  }
}
