/** The authentication services of the first module: password registration
    and login, refresh by token alone, and the find-or-create OAuth sign-in.
    The first service signs `{id, fingerprint}` only; the later one and the
    OAuth service add the user's roles. */
module LegacyAuth {
  import opened Common
  import opened Jwt
  import opened Users
  import opened SessionModel
  import opened Sessions
  import AuthFlows
  import Guards

  /** bcrypt cost of stored passwords. */
  const PASSWORD_HASH_COST: nat := 7

  /** `issueTokens` of the first service: the payload carries no roles. */
  function IssueTokensWithoutRoles(userId: nat, fingerprint: Hash, now: int, secret: string): (pair: TokenPair)
    ensures Verify(pair.accessToken, secret, now) == Some(Payload(userId, fingerprint, None))
    ensures Verify(pair.refreshToken, secret, now) == Some(Payload(userId, fingerprint, None))
    ensures pair.refreshToken.expiresAt == now + REFRESH_TOKEN_TTL
  {
    IssueTokens(Payload(userId, fingerprint, None), now, secret)
  }

  /** `issueTokens` of the later service and of the OAuth service. */
  function IssueTokensWithRoles(user: User, fingerprint: Hash, now: int, secret: string): (pair: TokenPair)
    ensures Verify(pair.accessToken, secret, now) == Some(Payload(user.id, fingerprint, Some(user.roles)))
    ensures Verify(pair.refreshToken, secret, now) == Some(Payload(user.id, fingerprint, Some(user.roles)))
  {
    IssueTokens(Payload(user.id, fingerprint, Some(user.roles)), now, secret)
  }

  /** `validateUser`: the user with this e-mail whose stored hash matches the
      password. A user without a password (created through OAuth) makes the
      hash comparison itself throw. */
  function ValidateUser(users: seq<User>, email: string, password: string): (r: Result<User>)
    ensures r.Ok? ==> r.value in users && r.value.email == email
                      && r.value.passwordHash.Some? && Compare(password, r.value.passwordHash.value)
    ensures r == Err(NotFound) <==> forall u :: u in users ==> u.email != email
    ensures r.Err? && r.error != NotFound ==>
              exists u :: u in users && u.email == email
                          && (if u.passwordHash.None? then r.error == InternalServerError
                              else !Compare(password, u.passwordHash.value) && r.error == Unauthorized(WRONG_PASSWORD))
  {
    match FindByEmail(users, email)
    case None => Err(NotFound)
    case Some(user) =>
      if user.passwordHash.None? then Err(InternalServerError)
      else if !Compare(password, user.passwordHash.value) then Err(Unauthorized(WRONG_PASSWORD))
      else Ok(user)
  }

  /** `login` of the first service. */
  function LoginWithoutRoles(users: seq<User>, email: string, password: string, fingerprint: Hash, now: int,
                             secret: string): (r: Result<AuthFlows.AuthResponse>)
    ensures r.Ok? <==> ValidateUser(users, email, password).Ok?
    ensures r.Err? ==> r.error == ValidateUser(users, email, password).error
    ensures r.Ok? ==> r.value.user == ValidateUser(users, email, password).value
                      && Verify(r.value.tokens.accessToken, secret, now) == Some(Payload(r.value.user.id, fingerprint, None))
  {
    var v := ValidateUser(users, email, password);
    if v.Err? then Err(v.error)
    else Ok(AuthFlows.AuthResponse(v.value, IssueTokensWithoutRoles(v.value.id, fingerprint, now, secret)))
  }

  /** `login` of the later service. */
  function LoginWithRoles(users: seq<User>, email: string, password: string, fingerprint: Hash, now: int,
                          secret: string): (r: Result<AuthFlows.AuthResponse>)
    ensures r.Ok? <==> ValidateUser(users, email, password).Ok?
    ensures r.Err? ==> r.error == ValidateUser(users, email, password).error
    ensures r.Ok? ==> r.value.user == ValidateUser(users, email, password).value
                      && Verify(r.value.tokens.accessToken, secret, now)
                         == Some(Payload(r.value.user.id, fingerprint, Some(r.value.user.roles)))
  {
    var v := ValidateUser(users, email, password);
    if v.Err? then Err(v.error)
    else Ok(AuthFlows.AuthResponse(v.value, IssueTokensWithRoles(v.value, fingerprint, now, secret)))
  }

  /** `getNewTokens`: a refresh token that verifies and names an existing user
      yields a new pair for the requesting device; every failure, including a
      missing user, is reported as an invalid refresh token. */
  function GetNewTokens(users: seq<User>, refreshToken: Token, fingerprint: Hash, now: int, secret: string)
    : (r: Result<AuthFlows.AuthResponse>)
    ensures r.Err? ==> r.error == Unauthorized(INVALID_REFRESH_TOKEN)
    ensures r.Ok? <==> Verify(refreshToken, secret, now).Some? && FindById(users, refreshToken.payload.id).Some?
    ensures r.Ok? ==> r.value.user in users && r.value.user.id == refreshToken.payload.id
                      && Verify(r.value.tokens.refreshToken, secret, now) == Some(Payload(r.value.user.id, fingerprint, None))
  {
    match Verify(refreshToken, secret, now)
    case None => Err(Unauthorized(INVALID_REFRESH_TOKEN))
    case Some(payload) =>
      match FindById(users, payload.id)
      case None => Err(Unauthorized(INVALID_REFRESH_TOKEN))
      case Some(user) => Ok(AuthFlows.AuthResponse(user, IssueTokensWithoutRoles(user.id, fingerprint, now, secret)))
  }

  /** `registration` of the first service (a known e-mail is a bad request)
      and, with `conflict`, of the later one (a known e-mail is a conflict, and
      the tokens carry the roles). The password is stored hashed. */
  method Registration(users: UserStore, email: string, password: string, profile: Profile, salt: nat,
                      fingerprint: Hash, now: int, secret: string, conflict: bool)
    returns (r: Result<AuthFlows.AuthResponse>)
    requires users.Valid()
    modifies users
    ensures users.Valid()
    ensures old(users.GetByEmail(email)).Some? ==>
              r == Err(if conflict then Conflict else BadRequest(UserAlreadyExists)) && users.users == old(users.users)
    ensures old(users.GetByEmail(email)).None? ==>
              && r.Ok?
              && r.value.user == User(old(users.nextId), email, RolesFor(email, users.adminMail),
                                      Some(HashSync(password, PASSWORD_HASH_COST, salt)), None, profile)
              && users.users == old(users.users) + [r.value.user]
              && r.value.tokens == if conflict then IssueTokensWithRoles(r.value.user, fingerprint, now, secret)
                                   else IssueTokensWithoutRoles(r.value.user.id, fingerprint, now, secret)
  {
    if users.GetByEmail(email).Some? {
      return Err(if conflict then Conflict else BadRequest(UserAlreadyExists));
    }
    var user := users.Create(email, profile, Some(HashSync(password, PASSWORD_HASH_COST, salt)));
    var tokens := if conflict then IssueTokensWithRoles(user, fingerprint, now, secret)
                  else IssueTokensWithoutRoles(user.id, fingerprint, now, secret);
    return Ok(AuthFlows.AuthResponse(user, tokens));
  }

  /** `oAuth`: a known user has its sessions trimmed and gets a pair with its
      roles; an unknown one is created with the provider and profile, and if
      the store returns nothing the call is a bad request. */
  method OAuth(users: UserStore, store: SessionStore, email: string, fingerprint: Hash, provider: Provider,
               profile: Profile, accepted: bool, now: int, secret: string)
    returns (r: Result<AuthFlows.AuthResponse>)
    requires users.Valid() && store.Valid()
    modifies users, store
    ensures users.Valid() && store.Valid()
    ensures old(users.GetByEmail(email)).Some? ==>
              var user := old(users.GetByEmail(email)).value;
              && r == Ok(AuthFlows.AuthResponse(user, IssueTokensWithRoles(user, fingerprint, now, secret)))
              && users.users == old(users.users)
              && store.sessions == Trimmed(old(store.sessions), user.id)
    ensures old(users.GetByEmail(email)).None? ==>
              && store.sessions == old(store.sessions)
              && (!accepted ==> r == Err(BadRequest(UserNotCreated)) && users.users == old(users.users))
              && (accepted ==>
                    && r.Ok?
                    && r.value.user == User(old(users.nextId), email, RolesFor(email, users.adminMail), None,
                                            Some(provider), profile)
                    && users.users == old(users.users) + [r.value.user]
                    && r.value.tokens == IssueTokensWithRoles(r.value.user, fingerprint, now, secret))
  {
    var found := users.GetByEmail(email);
    if found.Some? {
      store.CheckQuantitySessions(found.value.id);
      return Ok(AuthFlows.AuthResponse(found.value, IssueTokensWithRoles(found.value, fingerprint, now, secret)));
    }
    var created := users.CreateByOAuth(email, provider, profile, accepted);
    if created.None? {
      return Err(BadRequest(UserNotCreated));
    }
    return Ok(AuthFlows.AuthResponse(created.value, IssueTokensWithRoles(created.value, fingerprint, now, secret)));
  }

  // ---------------------------------------------------------------------------
  // Properties

  /** A user registered with a password can log in with it, and with no
      other password. */
  lemma RegisteredUserCanLogIn(users: seq<User>, user: User, password: string, salt: nat, other: string)
    requires FindByEmail(users, user.email).None?
    requires user.passwordHash == Some(HashSync(password, PASSWORD_HASH_COST, salt))
    requires other != password
    ensures ValidateUser(users + [user], user.email, password) == Ok(user)
    ensures ValidateUser(users + [user], user.email, other) == Err(Unauthorized(WRONG_PASSWORD))
  {
    FoundAfterAppend(users, user);
  }

  /** A refresh token from a login yields a new pair for the same user exactly
      until it expires, fifteen days after issue. */
  lemma RefreshUntilExpiry(users: seq<User>, user: User, fingerprint: Hash, issuedAt: int, now: int, secret: string,
                           device: Hash)
    requires FindById(users, user.id) == Some(user)
    ensures var pair := IssueTokensWithoutRoles(user.id, fingerprint, issuedAt, secret);
      var r := GetNewTokens(users, pair.refreshToken, device, now, secret);
      && (r.Ok? <==> now < issuedAt + REFRESH_TOKEN_TTL)
      && (r.Ok? ==> r.value.user == user)
  {
  }

  /** Tokens of the first service carry no roles, so they never open an
      admin route; tokens of the later service open one, within their
      lifetime, exactly when the user holds the ADMIN role. */
  lemma AdminRoutesNeedRoles(users: seq<User>, email: string, password: string, fingerprint: Hash, issuedAt: int,
                             now: int, secret: string, req: Guards.Request)
    requires ValidateUser(users, email, password).Ok?
    requires issuedAt <= now < issuedAt + ACCESS_TOKEN_TTL
    ensures var token := LoginWithoutRoles(users, email, password, fingerprint, issuedAt, secret).value.tokens.accessToken;
      Guards.AdminCheck(req.(bearer := Some(token)), secret, now) == Guards.ADMIN_REFUSED
    ensures var user := ValidateUser(users, email, password).value;
      var token := LoginWithRoles(users, email, password, fingerprint, issuedAt, secret).value.tokens.accessToken;
      Guards.AdminCheck(req.(bearer := Some(token)), secret, now) == Guards.Admitted <==> ADMIN in user.roles
  {
  }
}
