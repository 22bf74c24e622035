/** The authentication service of the current module: the order in which
    registration and login check the account, consume the one-time password,
    create the user and issue tokens; and the login route, which also makes
    room for and opens a session. */
module AuthFlows {
  import opened Common
  import opened Jwt
  import opened Fingerprints
  import opened Users
  import OtpModel
  import Otps
  import opened SessionModel
  import opened Sessions

  /** The user and the issued pair (`IAuthResponse`). */
  datatype AuthResponse = AuthResponse(user: User, tokens: TokenPair)

  /** The payload issued to `user` on a device: the user's id and roles and
      the device's fingerprint hash. */
  function PayloadFor(user: User, fingerprint: IFingerprint): (p: Payload)
    ensures p.id == user.id && p.fingerprint == fingerprint.hashFingerprint && p.roles == Some(user.roles)
  {
    Payload(user.id, fingerprint.hashFingerprint, Some(user.roles))
  }

  /** `registration`: a known e-mail is refused before the code is looked at,
      so the code is not consumed; a user is created only after the code
      checked out, and the tokens carry the new user's id and roles. */
  method Registration(users: UserStore, otps: Otps.OtpTable, userKey: string, email: string, profile: Profile,
                      otpCode: string, fingerprint: IFingerprint, newOtpCode: string, now: int, secret: string)
    returns (r: Result<AuthResponse>)
    requires users.Valid()
    modifies users, otps
    ensures users.Valid()
    ensures old(users.GetByEmail(email)).Some? ==>
              r == Err(Conflict) && users.users == old(users.users) && otps.State() == old(otps.State())
    ensures old(users.GetByEmail(email)).None? ==>
              var check := OtpModel.CheckOtpCode(old(otps.State()), userKey, email, otpCode,
                                                 fingerprint.reqHeadersString, newOtpCode, now);
              && otps.State() == check.db
              && (r.Ok? <==> check.outcome.Pass?)
              && (r.Err? ==> r.error == check.outcome.error && users.users == old(users.users))
              && (r.Ok? ==> && users.users == old(users.users) + [r.value.user]
                            && r.value.user.email == email
                            && r.value.user.roles == RolesFor(email, users.adminMail)
                            && r.value.tokens == IssueTokens(PayloadFor(r.value.user, fingerprint), now, secret))
  {
    if users.GetByEmail(email).Some? {
      return Err(Conflict);
    }
    var outcome := Otps.CheckOtpCode(otps, userKey, email, otpCode, fingerprint.reqHeadersString, newOtpCode, now);
    if outcome.Fail? {
      return Err(outcome.error);
    }
    var user := users.Create(email, profile, None);
    return Ok(AuthResponse(user, IssueTokens(PayloadFor(user, fingerprint), now, secret)));
  }

  /** `login`: an unknown e-mail is refused before the code is looked at;
      otherwise the code decides, and the tokens carry the user's id and roles. */
  method Login(users: UserStore, otps: Otps.OtpTable, userKey: string, email: string, otpCode: string,
               fingerprint: IFingerprint, newOtpCode: string, now: int, secret: string)
    returns (r: Result<AuthResponse>)
    modifies otps
    ensures users.GetByEmail(email).None? ==> r == Err(NotFound) && otps.State() == old(otps.State())
    ensures users.GetByEmail(email).Some? ==>
              var check := OtpModel.CheckOtpCode(old(otps.State()), userKey, email, otpCode,
                                                 fingerprint.reqHeadersString, newOtpCode, now);
              && otps.State() == check.db
              && (r.Ok? <==> check.outcome.Pass?)
              && (r.Err? ==> r.error == check.outcome.error)
              && (r.Ok? ==> r.value.user == users.GetByEmail(email).value
                            && r.value.tokens == IssueTokens(PayloadFor(r.value.user, fingerprint), now, secret))
  {
    var found := users.GetByEmail(email);
    if found.None? {
      return Err(NotFound);
    }
    var outcome := Otps.CheckOtpCode(otps, userKey, email, otpCode, fingerprint.reqHeadersString, newOtpCode, now);
    if outcome.Fail? {
      return Err(outcome.error);
    }
    return Ok(AuthResponse(found.value, IssueTokens(PayloadFor(found.value, fingerprint), now, secret)));
  }

  /** The login route: after a successful login the user's sessions are
      trimmed and a session holding the issued pair and the device hash is
      opened, so the user never holds more than `MAX_SESSIONS_QUANTITY`
      sessions afterwards. A failed login leaves the sessions alone. */
  method LoginRoute(users: UserStore, otps: Otps.OtpTable, store: SessionStore, userKey: string, email: string,
                    otpCode: string, fingerprint: IFingerprint, newOtpCode: string, now: int, secret: string)
    returns (r: Result<AuthResponse>)
    requires store.Valid()
    modifies otps, store
    ensures store.Valid()
    ensures r.Err? ==> store.sessions == old(store.sessions)
    ensures r.Ok? ==>
              && users.GetByEmail(email) == Some(r.value.user)
              && store.sessions == Trimmed(old(store.sessions), r.value.user.id)
                                   + [Session(old(store.nextId), r.value.user.id, fingerprint.hashFingerprint,
                                              r.value.tokens.accessToken, r.value.tokens.refreshToken,
                                              now + SESSIONS_DURATION_DAYS as int * DAY)]
              && |Of(store.sessions, r.value.user.id)| <= MAX_SESSIONS_QUANTITY
  {
    r := Login(users, otps, userKey, email, otpCode, fingerprint, newOtpCode, now, secret);
    if r.Err? {
      return;
    }
    var id := r.value.user.id;
    store.CheckQuantitySessions(id);
    var s := store.CreateSession(id, fingerprint.hashFingerprint, r.value.tokens.accessToken,
                                 r.value.tokens.refreshToken, now);
    TrimThenCreateStaysWithinCap(old(store.sessions), s);
  }
}
