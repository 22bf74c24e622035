/** The route guards. Each guard answers a request with a verdict; the access
    and refresh guards also read, and may delete from, the session table. */
module Guards {
  import opened Common
  import opened Jwt
  import opened Fingerprints
  import opened SessionModel
  import opened Sessions

  /** What a guard sees of a request: its headers, the token after `Bearer `
      in the authorization header and the refresh-token cookie. `None` stands
      for a missing or empty value, which the guards treat alike. */
  datatype Request = Request(headers: Headers, bearer: Option<Token>, refreshCookie: Option<Token>)

  /** A guard lets the request through, refuses it by returning `false`, or raises. */
  datatype Verdict = Admitted | Denied | Raised(error: HttpError)

  /** A verdict together with the session table the guard leaves behind. */
  datatype GuardStep = GuardStep(verdict: Verdict, sessions: seq<Session>)

  const ACCESS_REFUSED: Verdict := Raised(Unauthorized(INVALID_ACCESS_TOKEN))
  const REFRESH_REFUSED: Verdict := Raised(Unauthorized(INVALID_REFRESH_TOKEN))
  const ADMIN_REFUSED: Verdict := Raised(Forbidden(NOT_ENOUGH_RIGHTS))

  // ---------------------------------------------------------------------------
  // JwtAccessGuard

  /** The access guard's decision and effect on the table. */
  function AccessCheck(ss: seq<Session>, req: Request, secret: string, now: int): GuardStep
  {
    if req.bearer.None? then GuardStep(ACCESS_REFUSED, ss)
    else
      var token := req.bearer.value;
      match Verify(token, secret, now)
      case None => GuardStep(ACCESS_REFUSED, ss)
      case Some(payload) =>
        var mine := Of(ss, payload.id);
        match FirstWithAccess(mine, token)
        case None => GuardStep(ACCESS_REFUSED, ss)
        case Some(i) =>
          if now > mine[i].expiresIn then GuardStep(ACCESS_REFUSED, Without(ss, {mine[i].id}))
          else if Compare(ReqHeadersString(req.headers), payload.fingerprint) then GuardStep(Admitted, ss)
          else GuardStep(ACCESS_REFUSED, ss)
  }

  /** `JwtAccessGuard.canActivate`. */
  method JwtAccessGuard(store: SessionStore, req: Request, secret: string, now: int) returns (v: Verdict)
    requires store.Valid()
    modifies store
    ensures store.Valid()
    ensures v == AccessCheck(old(store.sessions), req, secret, now).verdict
    ensures store.sessions == AccessCheck(old(store.sessions), req, secret, now).sessions
  {
    var raw := ReqHeadersString(req.headers);
    if req.bearer.None? {
      return ACCESS_REFUSED;
    }
    var token := req.bearer.value;
    var payload := Verify(token, secret, now);
    if payload.None? {
      return ACCESS_REFUSED;
    }
    var mine := store.UserSessions(payload.value.id);
    var current := FirstWithAccess(mine, token);
    if current.None? {
      return ACCESS_REFUSED;
    }
    var expired := store.CheckExpiredSession(mine[current.value], now);
    if expired {
      return ACCESS_REFUSED;
    }
    if Compare(raw, payload.value.fingerprint) {
      return Admitted;
    }
    return ACCESS_REFUSED;
  }

  /** The access guard admits a request exactly when its bearer token verifies,
      is the access token of one of its user's sessions, that session has not
      expired, and the request comes from the device fingerprinted in the token.
      Every other request raises 401 "Invalid access token". */
  lemma AccessAdmitsExactly(ss: seq<Session>, req: Request, secret: string, now: int)
    ensures var step := AccessCheck(ss, req, secret, now);
      && (step.verdict == Admitted <==>
            && req.bearer.Some?
            && Verify(req.bearer.value, secret, now).Some?
            && var p := Verify(req.bearer.value, secret, now).value;
               && FirstWithAccess(Of(ss, p.id), req.bearer.value).Some?
               && now <= Of(ss, p.id)[FirstWithAccess(Of(ss, p.id), req.bearer.value).value].expiresIn
               && Compare(ReqHeadersString(req.headers), p.fingerprint))
      && (step.verdict != Admitted ==> step.verdict == ACCESS_REFUSED)
  {
  }

  /** A verified token whose user's first session holding it has expired is
      refused and that session is deleted. That is the only change the access
      guard makes: any deletion is of an expired session of the token's user
      holding the token, and an admitted request changes nothing. */
  lemma AccessOnlyDeletesExpired(ss: seq<Session>, req: Request, secret: string, now: int)
    requires DistinctIds(ss)
    ensures var step := AccessCheck(ss, req, secret, now);
      && DistinctIds(step.sessions)
      && (step.verdict == Admitted ==> step.sessions == ss)
      && (step.sessions != ss ==>
            && req.bearer.Some? && Verify(req.bearer.value, secret, now).Some?
            && exists s :: s in ss && s.userId == Verify(req.bearer.value, secret, now).value.id
                           && s.accessToken == req.bearer.value && now > s.expiresIn
                           && step.sessions == Without(ss, {s.id}))
    ensures req.bearer.Some? && Verify(req.bearer.value, secret, now).Some? ==>
      var p := Verify(req.bearer.value, secret, now).value;
      var i := FirstWithAccess(Of(ss, p.id), req.bearer.value);
      i.Some? && now > Of(ss, p.id)[i.value].expiresIn ==>
        AccessCheck(ss, req, secret, now) == GuardStep(ACCESS_REFUSED, Without(ss, {Of(ss, p.id)[i.value].id}))
  {
    var step := AccessCheck(ss, req, secret, now);
    if step.sessions != ss {
      var p := Verify(req.bearer.value, secret, now).value;
      var mine := Of(ss, p.id);
      var i := FirstWithAccess(mine, req.bearer.value).value;
      assert mine[i] in mine;
      DistinctWithout(ss, {mine[i].id});
    }
  }

  /** The first match of a token in a list that gains one row holding it, when
      no earlier row holds it, is that new row. */
  lemma {:induction false} FirstWithAccessAppend(mine: seq<Session>, s: Session)
    requires forall t :: t in mine ==> t.accessToken != s.accessToken
    ensures FirstWithAccess(mine + [s], s.accessToken) == Some(|mine|)
  {
    if |mine| > 0 {
      assert (mine + [s])[1..] == mine[1..] + [s];
      FirstWithAccessAppend(mine[1..], s);
    }
  }

  /** A session created at login from the tokens just issued admits requests
      from the same device until the access token expires, and changes nothing.
      (No earlier session of the user may hold a token issued at the same
      instant, which would be the same token.) */
  lemma FreshSessionAdmitted(ss: seq<Session>, id: nat, userId: nat, device: Headers, salt: nat,
                             roles: Option<seq<Role>>, secret: string, issuedAt: int, now: int, req: Request)
    requires forall t :: t in ss && t.userId == userId && t.accessToken.Signed? ==> t.accessToken.issuedAt != issuedAt
    requires issuedAt <= now < issuedAt + ACCESS_TOKEN_TTL
    requires ReqHeadersString(req.headers) == ReqHeadersString(device)
    ensures var fp := FingerprintOf(device, salt).hashFingerprint;
      var pair := IssueTokens(Payload(userId, fp, roles), issuedAt, secret);
      var created := Session(id, userId, fp, pair.accessToken, pair.refreshToken,
                             issuedAt + SESSIONS_DURATION_DAYS as int * DAY);
      var ss' := ss + [created];
      AccessCheck(ss', req.(bearer := Some(pair.accessToken)), secret, now) == GuardStep(Admitted, ss')
  {
    var fp := FingerprintOf(device, salt).hashFingerprint;
    var pair := IssueTokens(Payload(userId, fp, roles), issuedAt, secret);
    var created := Session(id, userId, fp, pair.accessToken, pair.refreshToken,
                           issuedAt + SESSIONS_DURATION_DAYS as int * DAY);
    OfAppend(ss, created, userId);
    FirstWithAccessAppend(Of(ss, userId), created);
  }

  // ---------------------------------------------------------------------------
  // JwtRefreshGuard

  /** The refresh guard's decision and effect on the table. */
  function RefreshCheck(ss: seq<Session>, req: Request, secret: string, now: int): GuardStep
  {
    if req.refreshCookie.None? then GuardStep(REFRESH_REFUSED, ss)
    else
      var token := req.refreshCookie.value;
      match Verify(token, secret, now)
      case None => GuardStep(REFRESH_REFUSED, ss)
      case Some(payload) =>
        var mine := Of(ss, payload.id);
        if |mine| == 0 then GuardStep(REFRESH_REFUSED, ss)
        else match FirstWithRefresh(mine, token)
          case None => GuardStep(REFRESH_REFUSED, ss)
          case Some(i) =>
            if Compare(ReqHeadersString(req.headers), mine[i].fingerprint) then GuardStep(Admitted, ss)
            else GuardStep(REFRESH_REFUSED, Without(ss, {mine[i].id}))
  }

  /** `JwtRefreshGuard.canActivate`. */
  method JwtRefreshGuard(store: SessionStore, req: Request, secret: string, now: int) returns (v: Verdict)
    requires store.Valid()
    modifies store
    ensures store.Valid()
    ensures v == RefreshCheck(old(store.sessions), req, secret, now).verdict
    ensures store.sessions == RefreshCheck(old(store.sessions), req, secret, now).sessions
  {
    var raw := ReqHeadersString(req.headers);
    if req.refreshCookie.None? {
      return REFRESH_REFUSED;
    }
    var token := req.refreshCookie.value;
    var payload := Verify(token, secret, now);
    if payload.None? {
      return REFRESH_REFUSED;
    }
    var mine := store.UserSessions(payload.value.id);
    if |mine| == 0 {
      return REFRESH_REFUSED;
    }
    var current := FirstWithRefresh(mine, token);
    if current.None? {
      return REFRESH_REFUSED;
    }
    var session := mine[current.value];
    if !Compare(raw, session.fingerprint) {
      store.DeleteSessionById(session.id);
      return REFRESH_REFUSED;
    }
    return Admitted;
  }

  /** The refresh guard admits a request exactly when its cookie verifies, is
      the refresh token of one of its user's sessions, and the request comes
      from the device that session was opened on; the session's own expiry is
      not consulted. Every other request raises 401 "Invalid refresh token". */
  lemma RefreshAdmitsExactly(ss: seq<Session>, req: Request, secret: string, now: int)
    ensures var step := RefreshCheck(ss, req, secret, now);
      && (step.verdict == Admitted <==>
            && req.refreshCookie.Some?
            && Verify(req.refreshCookie.value, secret, now).Some?
            && var mine := Of(ss, Verify(req.refreshCookie.value, secret, now).value.id);
               && FirstWithRefresh(mine, req.refreshCookie.value).Some?
               && Compare(ReqHeadersString(req.headers),
                          mine[FirstWithRefresh(mine, req.refreshCookie.value).value].fingerprint))
      && (step.verdict != Admitted ==> step.verdict == REFRESH_REFUSED)
      && (step.verdict == Admitted ==> step.sessions == ss)
  {
  }

  /** A valid refresh token replayed from another device revokes the session it
      belongs to and nothing else: the session disappears, the user has one
      session fewer and every other user's sessions are untouched. */
  lemma RefreshFromOtherDeviceRevokes(ss: seq<Session>, req: Request, secret: string, now: int, other: nat)
    requires DistinctIds(ss)
    requires req.refreshCookie.Some? && Verify(req.refreshCookie.value, secret, now).Some?
    requires var p := Verify(req.refreshCookie.value, secret, now).value;
      && FirstWithRefresh(Of(ss, p.id), req.refreshCookie.value).Some?
      && !Compare(ReqHeadersString(req.headers),
                  Of(ss, p.id)[FirstWithRefresh(Of(ss, p.id), req.refreshCookie.value).value].fingerprint)
      && other != p.id
    ensures var p := Verify(req.refreshCookie.value, secret, now).value;
      var step := RefreshCheck(ss, req, secret, now);
      && step.verdict == REFRESH_REFUSED
      && step.sessions == DeleteByRefresh(ss, p.id, req.refreshCookie.value)
      && Of(ss, p.id)[FirstWithRefresh(Of(ss, p.id), req.refreshCookie.value).value] !in step.sessions
      && |Of(step.sessions, p.id)| == |Of(ss, p.id)| - 1
      && Of(step.sessions, other) == Of(ss, other)
  {
    var p := Verify(req.refreshCookie.value, secret, now).value;
    DeleteByRefreshEffect(ss, p.id, req.refreshCookie.value, other);
  }

  // ---------------------------------------------------------------------------
  // JwtAdminGuard

  /** `JwtAdminGuard.canActivate`: a payload without roles makes `includes`
      throw, which the guard turns into the same 403. */
  function AdminCheck(req: Request, secret: string, now: int): Verdict
  {
    if req.bearer.None? then ADMIN_REFUSED
    else match Verify(req.bearer.value, secret, now)
      case None => ADMIN_REFUSED
      case Some(payload) =>
        if payload.roles.Some? && ADMIN in payload.roles.value then Admitted else ADMIN_REFUSED
  }

  /** The admin guard admits exactly a verified bearer token whose roles include
      ADMIN, and raises 403 "Not enough rights" otherwise. */
  lemma AdminAdmitsExactly(req: Request, secret: string, now: int)
    ensures AdminCheck(req, secret, now) == Admitted <==>
      && req.bearer.Some?
      && Verify(req.bearer.value, secret, now).Some?
      && Verify(req.bearer.value, secret, now).value.roles.Some?
      && ADMIN in Verify(req.bearer.value, secret, now).value.roles.value
    ensures AdminCheck(req, secret, now) != Admitted ==> AdminCheck(req, secret, now) == ADMIN_REFUSED
  {
  }

  /** An access token issued with the roles a user's e-mail earns passes the
      admin guard, within its lifetime, exactly when that e-mail is the
      administrator address; a token without roles never does. */
  lemma AdminFollowsMail(email: string, adminMail: string, id: nat, fp: Hash, secret: string,
                         issuedAt: int, now: int, req: Request)
    requires issuedAt <= now < issuedAt + ACCESS_TOKEN_TTL
    ensures var pair := IssueTokens(Payload(id, fp, Some(if email == adminMail then [USER, ADMIN] else [USER])),
                                    issuedAt, secret);
      AdminCheck(req.(bearer := Some(pair.accessToken)), secret, now) == Admitted <==> email == adminMail
    ensures var pair := IssueTokens(Payload(id, fp, None), issuedAt, secret);
      AdminCheck(req.(bearer := Some(pair.accessToken)), secret, now) == ADMIN_REFUSED
  {
  }

  // ---------------------------------------------------------------------------
  // JwtAuthGuard of the first authentication module

  /** `JwtAuthGuard.canActivate`. `raw` is the fingerprint string the
      authentication service derives from the headers. No token makes the guard
      return `false`; a token that fails to verify, or comes from another
      device, raises 401 "Invalid access token". */
  function JwtAuthCheck(req: Request, raw: string, secret: string, now: int): Verdict
  {
    if req.bearer.None? then Denied
    else match Verify(req.bearer.value, secret, now)
      case None => ACCESS_REFUSED
      case Some(payload) => if Compare(raw, payload.fingerprint) then Admitted else ACCESS_REFUSED
  }

  /** The first module's guard admits exactly a bearer token that verifies and
      whose payload fingerprint matches the device; with a token present every
      other outcome is 401 "Invalid access token", never another error. */
  lemma JwtAuthAdmitsExactly(req: Request, raw: string, secret: string, now: int)
    ensures JwtAuthCheck(req, raw, secret, now) == Admitted <==>
      req.bearer.Some? && Verify(req.bearer.value, secret, now).Some?
      && Compare(raw, Verify(req.bearer.value, secret, now).value.fingerprint)
    ensures req.bearer.Some? && JwtAuthCheck(req, raw, secret, now) != Admitted ==>
      JwtAuthCheck(req, raw, secret, now) == ACCESS_REFUSED
    ensures req.bearer.None? ==> JwtAuthCheck(req, raw, secret, now) == Denied
  {
  }

  /** The first module's guard consults no session: whatever the access guard
      admits it admits too, and it also admits a token whose session was
      deleted or has expired. Without a token it returns `false` where the
      access guard raises. */
  lemma AccessStricterThanJwtAuth(ss: seq<Session>, req: Request, secret: string, now: int)
    ensures AccessCheck(ss, req, secret, now).verdict == Admitted ==>
      JwtAuthCheck(req, ReqHeadersString(req.headers), secret, now) == Admitted
    ensures req.bearer.None? ==>
      JwtAuthCheck(req, ReqHeadersString(req.headers), secret, now) == Denied
      && AccessCheck(ss, req, secret, now).verdict == ACCESS_REFUSED
    ensures req.bearer.Some? && Verify(req.bearer.value, secret, now).Some?
            && FirstWithAccess(Of(ss, Verify(req.bearer.value, secret, now).value.id), req.bearer.value).None?
            && Compare(ReqHeadersString(req.headers), Verify(req.bearer.value, secret, now).value.fingerprint) ==>
      JwtAuthCheck(req, ReqHeadersString(req.headers), secret, now) == Admitted
      && AccessCheck(ss, req, secret, now).verdict == ACCESS_REFUSED
  {
  }
}
