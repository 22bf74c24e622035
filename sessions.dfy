/** The session services: the session table as a mutable store whose methods
    perform the reads and writes of the service, each proved to leave the
    table as the matching function of `SessionModel` describes. */
module Sessions {
  import opened Common
  import opened Jwt
  import opened SessionModel

  class SessionStore {
    var sessions: seq<Session>
    var nextId: nat

    /** Primary keys are unique and below the next key the database hands out. */
    ghost predicate Valid()
      reads this
    {
      DistinctIds(sessions) && forall x :: x in Ids(sessions) ==> x < nextId
    }

    constructor ()
      ensures Valid() && sessions == []
    {
      sessions := [];
      nextId := 0;
    }

    /** `getUserSessions(userId).sessions`. */
    function UserSessions(userId: nat): seq<Session>
      reads this
    {
      Of(sessions, userId)
    }

    /** `createSession`: a new row that expires fifteen days after `now`. */
    method CreateSession(userId: nat, fingerprint: Hash, accessToken: Token, refreshToken: Token, now: int)
      returns (s: Session)
      requires Valid()
      modifies this
      ensures Valid()
      ensures s == Session(old(nextId), userId, fingerprint, accessToken, refreshToken,
                           now + SESSIONS_DURATION_DAYS as int * DAY)
      ensures sessions == old(sessions) + [s]
    {
      s := Session(nextId, userId, fingerprint, accessToken, refreshToken, now + SESSIONS_DURATION_DAYS as int * DAY);
      IdsAppend(sessions, s);
      DistinctAppend(sessions, s);
      sessions := sessions + [s];
      nextId := nextId + 1;
    }

    /** `addNewTokensToDB`: the user's session holding `oldRefreshToken` gets the new pair. */
    method AddNewTokensToDB(userId: nat, accessToken: Token, oldRefreshToken: Token, refreshToken: Token)
      requires Valid()
      modifies this
      ensures Valid() && nextId == old(nextId)
      ensures sessions == RotateTokens(old(sessions), userId, oldRefreshToken, accessToken, refreshToken)
    {
      var mine := Of(sessions, userId);
      var current := FirstWithRefresh(mine, oldRefreshToken);
      if current.Some? {
        SetTokensKeepsIds(sessions, mine[current.value].id, accessToken, refreshToken);
        sessions := SetTokens(sessions, mine[current.value].id, accessToken, refreshToken);
      }
    }

    /** `addNewAccessTokenToDB` of the older services: only the access token is replaced. */
    method AddNewAccessTokenToDB(userId: nat, accessToken: Token, refreshTokenFromCookies: Token)
      requires Valid()
      modifies this
      ensures Valid() && nextId == old(nextId)
      ensures sessions == RotateAccessToken(old(sessions), userId, refreshTokenFromCookies, accessToken)
    {
      var mine := Of(sessions, userId);
      var current := FirstWithRefresh(mine, refreshTokenFromCookies);
      if current.Some? {
        SetAccessTokenKeepsIds(sessions, mine[current.value].id, accessToken);
        sessions := SetAccessToken(sessions, mine[current.value].id, accessToken);
      }
    }

    /** `deleteSessionById`. */
    method DeleteSessionById(id: nat)
      requires Valid()
      modifies this
      ensures Valid() && nextId == old(nextId)
      ensures sessions == Without(old(sessions), {id})
    {
      IdsWithoutSubset(sessions, {id});
      DistinctWithout(sessions, {id});
      sessions := Without(sessions, {id});
    }

    /** `checkExpiredSession`: a session is expired strictly after its expiry
        instant, and an expired session is deleted. */
    method CheckExpiredSession(session: Session, now: int) returns (expired: bool)
      requires Valid()
      modifies this
      ensures Valid() && nextId == old(nextId)
      ensures expired <==> now > session.expiresIn
      ensures sessions == if expired then Without(old(sessions), {session.id}) else old(sessions)
    {
      if now > session.expiresIn {
        DeleteSessionById(session.id);
        return true;
      }
      return false;
    }

    /** `checkQuantitySessions`: at the cap the oldest session is deleted; over
        it every session but the newest `MAX_SESSIONS_QUANTITY - 1` is. */
    method CheckQuantitySessions(userId: nat)
      requires Valid()
      modifies this
      ensures Valid() && nextId == old(nextId)
      ensures sessions == Trimmed(old(sessions), userId)
    {
      var mine := Of(sessions, userId);
      TrimmedAtCap(sessions, userId);
      if |mine| == MAX_SESSIONS_QUANTITY {
        DeleteSessionById(mine[0].id);
      }
      if |mine| > MAX_SESSIONS_QUANTITY {
        DeleteLeading(mine, |mine| - (MAX_SESSIONS_QUANTITY - 1));
      }
    }

    /** The `sessions.map(...)` of `checkQuantitySessions`: one pass over the
        user's list deleting every row at a position below `doomed`. */
    method DeleteLeading(mine: seq<Session>, doomed: nat)
      requires Valid() && doomed <= |mine|
      modifies this
      ensures Valid() && nextId == old(nextId)
      ensures sessions == Without(old(sessions), Ids(mine[..doomed]))
    {
      ghost var before := sessions;
      var i := 0;
      assert mine[..0] == [];
      WithoutEmpty(before);
      while i < |mine|
        invariant 0 <= i <= |mine|
        invariant Valid() && nextId == old(nextId)
        invariant sessions == Without(before, Ids(mine[..if i <= doomed then i else doomed]))
      {
        if i < doomed {
          DeleteSessionById(mine[i].id);
          WithoutTwice(before, Ids(mine[..i]), {mine[i].id});
          assert mine[..i + 1] == mine[..i] + [mine[i]];
          IdsAppend(mine[..i], mine[i]);
        }
        i := i + 1;
      }
    }

    /** `checkQuantitySessions` of the first authentication service: the
        oldest session is deleted once the user has more than two. */
    method CheckQuantitySessionsLegacy(userId: nat)
      requires Valid()
      modifies this
      ensures Valid() && nextId == old(nextId)
      ensures sessions == LegacyTrimmed(old(sessions), userId)
    {
      var mine := Of(sessions, userId);
      if |mine| > 2 {
        DeleteSessionById(mine[0].id);
      }
    }

    /** `deleteSessionByRefreshToken`. */
    method DeleteSessionByRefreshToken(userId: nat, refreshToken: Token)
      requires Valid()
      modifies this
      ensures Valid() && nextId == old(nextId)
      ensures sessions == DeleteByRefresh(old(sessions), userId, refreshToken)
    {
      var mine := Of(sessions, userId);
      var current := FirstWithRefresh(mine, refreshToken);
      if current.Some? {
        DeleteSessionById(mine[current.value].id);
      }
    }
  }
}
