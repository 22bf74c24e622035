/** The session table as a value: every session row in creation order, with
    the queries and row updates the session services perform on it, and what
    those updates preserve. */
module SessionModel {
  import opened Common
  import opened Jwt

  const MAX_SESSIONS_QUANTITY: nat := 3
  const SESSIONS_DURATION_DAYS: nat := 15

  datatype Session = Session(
    id: nat,
    userId: nat,
    fingerprint: Hash,
    accessToken: Token,
    refreshToken: Token,
    expiresIn: int)

  /** `getUserSessions(userId).sessions`: the user's rows, in creation order. */
  function Of(ss: seq<Session>, userId: nat): (r: seq<Session>)
    ensures |r| <= |ss|
    ensures forall s :: s in r ==> s in ss && s.userId == userId
    ensures forall s :: s in ss && s.userId == userId ==> s in r
  {
    if |ss| == 0 then []
    else (if ss[0].userId == userId then [ss[0]] else []) + Of(ss[1..], userId)
  }

  function Ids(ss: seq<Session>): set<nat>
  {
    if |ss| == 0 then {} else {ss[0].id} + Ids(ss[1..])
  }

  /** Primary keys are unique. */
  predicate DistinctIds(ss: seq<Session>)
  {
    |ss| == 0 || (ss[0].id !in Ids(ss[1..]) && DistinctIds(ss[1..]))
  }

  /** The table after deleting every row whose id is in `ids`. */
  function Without(ss: seq<Session>, ids: set<nat>): (r: seq<Session>)
    ensures |r| <= |ss|
    ensures forall s :: s in r <==> s in ss && s.id !in ids
  {
    if |ss| == 0 then []
    else (if ss[0].id in ids then [] else [ss[0]]) + Without(ss[1..], ids)
  }

  /** The first row whose refresh token is `token` (`sessions.find`). */
  function FirstWithRefresh(ss: seq<Session>, token: Token): (r: Option<nat>)
    ensures r.Some? ==> r.value < |ss| && ss[r.value].refreshToken == token
                        && forall j :: 0 <= j < r.value ==> ss[j].refreshToken != token
    ensures r.None? ==> forall s :: s in ss ==> s.refreshToken != token
  {
    if |ss| == 0 then None
    else if ss[0].refreshToken == token then Some(0)
    else match FirstWithRefresh(ss[1..], token)
      case None => None
      case Some(i) => Some(i + 1)
  }

  /** The first row whose access token is `token`. */
  function FirstWithAccess(ss: seq<Session>, token: Token): (r: Option<nat>)
    ensures r.Some? ==> r.value < |ss| && ss[r.value].accessToken == token
                        && forall j :: 0 <= j < r.value ==> ss[j].accessToken != token
    ensures r.None? ==> forall s :: s in ss ==> s.accessToken != token
  {
    if |ss| == 0 then None
    else if ss[0].accessToken == token then Some(0)
    else match FirstWithAccess(ss[1..], token)
      case None => None
      case Some(i) => Some(i + 1)
  }

  /** `session.update({where: {id}, data: {accessToken, refreshToken}})`. */
  function SetTokens(ss: seq<Session>, id: nat, accessToken: Token, refreshToken: Token): (r: seq<Session>)
    ensures |r| == |ss|
    ensures forall i :: 0 <= i < |ss| ==>
      r[i] == if ss[i].id == id then ss[i].(accessToken := accessToken, refreshToken := refreshToken) else ss[i]
  {
    if |ss| == 0 then []
    else [if ss[0].id == id then ss[0].(accessToken := accessToken, refreshToken := refreshToken) else ss[0]]
         + SetTokens(ss[1..], id, accessToken, refreshToken)
  }

  /** `session.update({where: {id}, data: {accessToken}})`. */
  function SetAccessToken(ss: seq<Session>, id: nat, accessToken: Token): (r: seq<Session>)
    ensures |r| == |ss|
    ensures forall i :: 0 <= i < |ss| ==>
      r[i] == if ss[i].id == id then ss[i].(accessToken := accessToken) else ss[i]
  {
    if |ss| == 0 then []
    else [if ss[0].id == id then ss[0].(accessToken := accessToken) else ss[0]]
         + SetAccessToken(ss[1..], id, accessToken)
  }

  /** How many of a user's oldest sessions `checkQuantitySessions` deletes:
      the oldest one when the user is at the cap, all but the newest
      `MAX_SESSIONS_QUANTITY - 1` when over it, none below it. */
  function EvictionCount(n: nat): (k: nat)
    ensures k <= n
    ensures n - k <= MAX_SESSIONS_QUANTITY - 1 || n < MAX_SESSIONS_QUANTITY
  {
    if n == MAX_SESSIONS_QUANTITY then 1
    else if n > MAX_SESSIONS_QUANTITY then n - (MAX_SESSIONS_QUANTITY - 1)
    else 0
  }

  /** The table after `checkQuantitySessions(userId)`. */
  function Trimmed(ss: seq<Session>, userId: nat): seq<Session>
  {
    var mine := Of(ss, userId);
    Without(ss, Ids(mine[..EvictionCount(|mine|)]))
  }

  // ---------------------------------------------------------------------------
  // Facts about ids

  lemma {:induction false} IdOfMember(ss: seq<Session>, s: Session)
    requires s in ss
    ensures s.id in Ids(ss)
  {
    if ss[0] != s {
      IdOfMember(ss[1..], s);
    }
  }

  lemma {:induction false} IdsAppend(ss: seq<Session>, s: Session)
    ensures Ids(ss + [s]) == Ids(ss) + {s.id}
  {
    if |ss| > 0 {
      assert (ss + [s])[1..] == ss[1..] + [s];
      IdsAppend(ss[1..], s);
    }
  }

  /** An id is in `Ids` exactly when some row carries it. */
  lemma {:induction false} IdsHaveRows(ss: seq<Session>, x: nat)
    requires x in Ids(ss)
    ensures exists s :: s in ss && s.id == x
  {
    if ss[0].id != x {
      IdsHaveRows(ss[1..], x);
    }
  }

  // Unfolding the recursive definitions on a row put in front of a table

  lemma OfCons(x: Session, t: seq<Session>, userId: nat)
    ensures Of([x] + t, userId) == (if x.userId == userId then [x] else []) + Of(t, userId)
  {
    assert ([x] + t)[1..] == t;
  }

  lemma WithoutCons(x: Session, t: seq<Session>, ids: set<nat>)
    ensures Without([x] + t, ids) == (if x.id in ids then [] else [x]) + Without(t, ids)
  {
    assert ([x] + t)[1..] == t;
  }

  lemma IdsCons(x: Session, t: seq<Session>)
    ensures Ids([x] + t) == {x.id} + Ids(t)
    ensures DistinctIds([x] + t) <==> x.id !in Ids(t) && DistinctIds(t)
  {
    assert ([x] + t)[1..] == t;
  }

  lemma {:induction false} IdsOfSubset(ss: seq<Session>, userId: nat)
    ensures Ids(Of(ss, userId)) <= Ids(ss)
  {
    if |ss| > 0 {
      var x, t := ss[0], ss[1..];
      IdsOfSubset(t, userId);
      assert Ids(ss) == {x.id} + Ids(t);
      if x.userId == userId {
        assert Of(ss, userId) == [x] + Of(t, userId);
        IdsCons(x, Of(t, userId));
      } else {
        assert Of(ss, userId) == Of(t, userId);
      }
    }
  }

  lemma {:induction false} IdsWithoutSubset(ss: seq<Session>, ids: set<nat>)
    ensures Ids(Without(ss, ids)) <= Ids(ss) - ids
  {
    if |ss| > 0 {
      var x, t := ss[0], ss[1..];
      IdsWithoutSubset(t, ids);
      assert Ids(ss) == {x.id} + Ids(t);
      if x.id !in ids {
        assert Without(ss, ids) == [x] + Without(t, ids);
        IdsCons(x, Without(t, ids));
      } else {
        assert Without(ss, ids) == Without(t, ids);
      }
    }
  }

  /** Two rows of a table with unique ids that share an id are the same row. */
  lemma {:induction false} SameIdSameRow(ss: seq<Session>, a: Session, b: Session)
    requires DistinctIds(ss) && a in ss && b in ss && a.id == b.id
    ensures a == b
  {
    if a != ss[0] && b != ss[0] {
      SameIdSameRow(ss[1..], a, b);
    } else if a != ss[0] {
      IdOfMember(ss[1..], a);
    } else if b != ss[0] {
      IdOfMember(ss[1..], b);
    }
  }

  // ---------------------------------------------------------------------------
  // Updates keep the ids unique

  lemma {:induction false} DistinctAppend(ss: seq<Session>, s: Session)
    requires DistinctIds(ss) && s.id !in Ids(ss)
    ensures DistinctIds(ss + [s])
  {
    if |ss| > 0 {
      assert ss + [s] == [ss[0]] + (ss[1..] + [s]);
      IdsAppend(ss[1..], s);
      DistinctAppend(ss[1..], s);
      IdsCons(ss[0], ss[1..] + [s]);
    }
  }

  lemma {:induction false} DistinctWithout(ss: seq<Session>, ids: set<nat>)
    requires DistinctIds(ss)
    ensures DistinctIds(Without(ss, ids))
  {
    if |ss| > 0 {
      var x, t := ss[0], ss[1..];
      DistinctWithout(t, ids);
      IdsWithoutSubset(t, ids);
      if x.id !in ids {
        assert Without(ss, ids) == [x] + Without(t, ids);
        IdsCons(x, Without(t, ids));
      } else {
        assert Without(ss, ids) == Without(t, ids);
      }
    }
  }

  lemma {:induction false} DistinctOf(ss: seq<Session>, userId: nat)
    requires DistinctIds(ss)
    ensures DistinctIds(Of(ss, userId))
  {
    if |ss| > 0 {
      var x, t := ss[0], ss[1..];
      DistinctOf(t, userId);
      IdsOfSubset(t, userId);
      if x.userId == userId {
        assert Of(ss, userId) == [x] + Of(t, userId);
        IdsCons(x, Of(t, userId));
      } else {
        assert Of(ss, userId) == Of(t, userId);
      }
    }
  }

  lemma {:induction false} SetTokensKeepsIds(ss: seq<Session>, id: nat, a: Token, r: Token)
    ensures Ids(SetTokens(ss, id, a, r)) == Ids(ss)
    ensures DistinctIds(ss) ==> DistinctIds(SetTokens(ss, id, a, r))
  {
    if |ss| > 0 {
      var x, t := ss[0], ss[1..];
      SetTokensKeepsIds(t, id, a, r);
      var y := if x.id == id then x.(accessToken := a, refreshToken := r) else x;
      IdsCons(y, SetTokens(t, id, a, r));
    }
  }

  lemma {:induction false} SetAccessTokenKeepsIds(ss: seq<Session>, id: nat, a: Token)
    ensures Ids(SetAccessToken(ss, id, a)) == Ids(ss)
    ensures DistinctIds(ss) ==> DistinctIds(SetAccessToken(ss, id, a))
  {
    if |ss| > 0 {
      var x, t := ss[0], ss[1..];
      SetAccessTokenKeepsIds(t, id, a);
      var y := if x.id == id then x.(accessToken := a) else x;
      IdsCons(y, SetAccessToken(t, id, a));
    }
  }

  // ---------------------------------------------------------------------------
  // Deletion

  lemma {:induction false} WithoutEmpty(ss: seq<Session>)
    ensures Without(ss, {}) == ss
  {
    if |ss| > 0 {
      WithoutEmpty(ss[1..]);
    }
  }

  /** Deleting in two rounds is deleting the union at once. */
  lemma {:induction false} WithoutTwice(ss: seq<Session>, a: set<nat>, b: set<nat>)
    ensures Without(Without(ss, a), b) == Without(ss, a + b)
  {
    if |ss| > 0 {
      var x, t := ss[0], ss[1..];
      WithoutTwice(t, a, b);
      if x.id !in a {
        assert Without(ss, a) == [x] + Without(t, a);
        WithoutCons(x, Without(t, a), b);
      } else {
        assert Without(ss, a) == Without(t, a);
      }
    }
  }

  /** Ids that no row carries do not matter. */
  lemma {:induction false} WithoutIgnoresAbsent(ss: seq<Session>, ids: set<nat>, absent: set<nat>)
    requires absent !! Ids(ss)
    ensures Without(ss, ids + absent) == Without(ss, ids)
  {
    if |ss| > 0 {
      WithoutIgnoresAbsent(ss[1..], ids, absent);
    }
  }

  /** Deleting the ids of the first `k` rows of a table with unique ids leaves its suffix. */
  lemma {:induction false} WithoutPrefix(ss: seq<Session>, k: nat)
    requires DistinctIds(ss) && k <= |ss|
    ensures Without(ss, Ids(ss[..k])) == ss[k..]
  {
    if k == 0 {
      assert ss[..0] == [];
      WithoutEmpty(ss);
    } else {
      var rest := ss[1..][..k - 1];
      assert ss[..k] == [ss[0]] + rest;
      IdsCons(ss[0], rest);
      var ids := Ids(ss[..k]);
      assert ids == Ids(rest) + {ss[0].id};
      assert Without(ss, ids) == Without(ss[1..], ids);
      WithoutIgnoresAbsent(ss[1..], Ids(rest), {ss[0].id});
      WithoutPrefix(ss[1..], k - 1);
      assert ss[1..][k - 1..] == ss[k..];
    }
  }

  /** Deleting one present id of a table with unique ids removes exactly one row. */
  lemma {:induction false} WithoutOneLength(ss: seq<Session>, x: nat)
    requires DistinctIds(ss) && x in Ids(ss)
    ensures |Without(ss, {x})| == |ss| - 1
  {
    if ss[0].id == x {
      assert Without(ss, {x}) == Without(ss[1..], {x});
      assert {} + {x} == {x};
      WithoutIgnoresAbsent(ss[1..], {}, {x});
      WithoutEmpty(ss[1..]);
    } else {
      assert Without(ss, {x}) == [ss[0]] + Without(ss[1..], {x});
      WithoutOneLength(ss[1..], x);
    }
  }

  /** Selecting a user's rows commutes with deleting rows. */
  lemma {:induction false} OfWithout(ss: seq<Session>, ids: set<nat>, userId: nat)
    ensures Of(Without(ss, ids), userId) == Without(Of(ss, userId), ids)
  {
    if |ss| > 0 {
      var x, t := ss[0], ss[1..];
      OfWithout(t, ids, userId);
      if x.id !in ids {
        assert Without(ss, ids) == [x] + Without(t, ids);
        OfCons(x, Without(t, ids), userId);
      } else {
        assert Without(ss, ids) == Without(t, ids);
      }
      if x.userId == userId {
        assert Of(ss, userId) == [x] + Of(t, userId);
        WithoutCons(x, Of(t, userId), ids);
      } else {
        assert Of(ss, userId) == Of(t, userId);
      }
    }
  }

  lemma {:induction false} OfAppend(ss: seq<Session>, s: Session, userId: nat)
    ensures Of(ss + [s], userId) == Of(ss, userId) + (if s.userId == userId then [s] else [])
  {
    if |ss| > 0 {
      assert ss + [s] == [ss[0]] + (ss[1..] + [s]);
      OfCons(ss[0], ss[1..] + [s], userId);
      OfAppend(ss[1..], s, userId);
    } else {
      assert (ss + [s])[1..] == [];
    }
  }

  /** A deletion of ids that no row of the other user carries leaves that user's rows alone. */
  lemma {:induction false} OfUntouched(ss: seq<Session>, ids: set<nat>, userId: nat)
    requires forall s :: s in ss && s.userId == userId ==> s.id !in ids
    ensures Of(Without(ss, ids), userId) == Of(ss, userId)
  {
    if |ss| > 0 {
      var x, t := ss[0], ss[1..];
      OfUntouched(t, ids, userId);
      if x.id !in ids {
        assert Without(ss, ids) == [x] + Without(t, ids);
        OfCons(x, Without(t, ids), userId);
      } else {
        assert Without(ss, ids) == Without(t, ids);
      }
    }
  }

  /** The ids of one user's rows are carried by no row of another user. */
  lemma ForeignIdsDisjoint(ss: seq<Session>, owner: nat, k: nat, s: Session)
    requires DistinctIds(ss) && s in ss && s.userId != owner && k <= |Of(ss, owner)|
    ensures s.id !in Ids(Of(ss, owner)[..k])
  {
    var mine := Of(ss, owner);
    if s.id in Ids(mine[..k]) {
      IdsHaveRows(mine[..k], s.id);
      var t :| t in mine[..k] && t.id == s.id;
      assert t in mine;
      SameIdSameRow(ss, s, t);
      assert false;
    }
  }

  // ---------------------------------------------------------------------------
  // What checkQuantitySessions guarantees

  /** `checkQuantitySessions` keeps the user's newest sessions, in order, and
      at most `MAX_SESSIONS_QUANTITY - 1` of them. */
  lemma TrimmedKeepsNewest(ss: seq<Session>, userId: nat)
    requires DistinctIds(ss)
    ensures var mine := Of(ss, userId);
      && Of(Trimmed(ss, userId), userId) == mine[EvictionCount(|mine|)..]
      && |Of(Trimmed(ss, userId), userId)| <= MAX_SESSIONS_QUANTITY - 1
    ensures DistinctIds(Trimmed(ss, userId))
  {
    var mine := Of(ss, userId);
    var k := EvictionCount(|mine|);
    OfWithout(ss, Ids(mine[..k]), userId);
    DistinctOf(ss, userId);
    WithoutPrefix(mine, k);
    DistinctWithout(ss, Ids(mine[..k]));
  }

  /** Below the cap nothing is deleted; at the cap exactly the oldest session is. */
  lemma TrimmedAtCap(ss: seq<Session>, userId: nat)
    ensures var mine := Of(ss, userId);
      && (|mine| < MAX_SESSIONS_QUANTITY ==> Trimmed(ss, userId) == ss)
      && (|mine| == MAX_SESSIONS_QUANTITY ==> Trimmed(ss, userId) == Without(ss, {mine[0].id}))
  {
    var mine := Of(ss, userId);
    if |mine| == MAX_SESSIONS_QUANTITY {
      assert EvictionCount(|mine|) == 1;
      assert Ids(mine[..1]) == {mine[0].id} + Ids(mine[..1][1..]);
      assert mine[..1][1..] == [];
      assert Ids(mine[..1]) == {mine[0].id};
      assert Trimmed(ss, userId) == Without(ss, Ids(mine[..1]));
    } else if |mine| < MAX_SESSIONS_QUANTITY {
      assert EvictionCount(|mine|) == 0;
      assert mine[..0] == [];
      WithoutEmpty(ss);
    }
  }

  /** `checkQuantitySessions` for one user leaves every other user's sessions alone. */
  lemma TrimmedSparesOthers(ss: seq<Session>, userId: nat, other: nat)
    requires DistinctIds(ss) && other != userId
    ensures Of(Trimmed(ss, userId), other) == Of(ss, other)
  {
    var mine := Of(ss, userId);
    var k := EvictionCount(|mine|);
    forall s | s in ss && s.userId == other
      ensures s.id !in Ids(mine[..k])
    {
      ForeignIdsDisjoint(ss, userId, k, s);
    }
    OfUntouched(ss, Ids(mine[..k]), other);
  }

  /** The login path trims and then creates, so a user never ends up with
      more than `MAX_SESSIONS_QUANTITY` sessions. */
  lemma TrimThenCreateStaysWithinCap(ss: seq<Session>, created: Session)
    requires DistinctIds(ss)
    ensures |Of(Trimmed(ss, created.userId) + [created], created.userId)| <= MAX_SESSIONS_QUANTITY
  {
    TrimmedKeepsNewest(ss, created.userId);
    OfAppend(Trimmed(ss, created.userId), created, created.userId);
  }

  /** The table after the first authentication service's `checkQuantitySessions`. */
  function LegacyTrimmed(ss: seq<Session>, userId: nat): seq<Session>
  {
    var mine := Of(ss, userId);
    if |mine| > 2 then Without(ss, {mine[0].id}) else ss
  }

  /** The first service's trim agrees with the later one up to the cap, but
      above it deletes one session only, so a user who already holds more than
      `MAX_SESSIONS_QUANTITY` sessions keeps more than the cap. */
  lemma LegacyTrimDeletesOneOnly(ss: seq<Session>, userId: nat)
    requires DistinctIds(ss)
    ensures |Of(ss, userId)| <= MAX_SESSIONS_QUANTITY ==> LegacyTrimmed(ss, userId) == Trimmed(ss, userId)
    ensures |Of(ss, userId)| > MAX_SESSIONS_QUANTITY ==>
      |Of(LegacyTrimmed(ss, userId), userId)| == |Of(ss, userId)| - 1 > MAX_SESSIONS_QUANTITY - 1
  {
    var mine := Of(ss, userId);
    TrimmedAtCap(ss, userId);
    if |mine| > MAX_SESSIONS_QUANTITY {
      OfWithout(ss, {mine[0].id}, userId);
      DistinctOf(ss, userId);
      IdOfMember(mine, mine[0]);
      WithoutOneLength(mine, mine[0].id);
    }
  }

  // ---------------------------------------------------------------------------
  // Token rotation and deletion by refresh token

  /** `addNewTokensToDB`: the user's first session holding `oldRefresh` gets the new pair. */
  function RotateTokens(ss: seq<Session>, userId: nat, oldRefresh: Token, accessToken: Token, refreshToken: Token)
    : seq<Session>
  {
    var mine := Of(ss, userId);
    match FirstWithRefresh(mine, oldRefresh)
    case None => ss
    case Some(i) => SetTokens(ss, mine[i].id, accessToken, refreshToken)
  }

  /** `addNewAccessTokenToDB`: only the access token of the matching session changes. */
  function RotateAccessToken(ss: seq<Session>, userId: nat, refreshToken: Token, accessToken: Token)
    : seq<Session>
  {
    var mine := Of(ss, userId);
    match FirstWithRefresh(mine, refreshToken)
    case None => ss
    case Some(i) => SetAccessToken(ss, mine[i].id, accessToken)
  }

  /** `deleteSessionByRefreshToken`: the user's first session holding the token is deleted. */
  function DeleteByRefresh(ss: seq<Session>, userId: nat, refreshToken: Token): seq<Session>
  {
    var mine := Of(ss, userId);
    match FirstWithRefresh(mine, refreshToken)
    case None => ss
    case Some(i) => Without(ss, {mine[i].id})
  }

  /** Rotation updates exactly the matching session in place: the number of
      rows and their ids stay, the matching row carries the new pair and keeps
      everything else, every other row is unchanged; with no match nothing changes. */
  lemma RotateTokensInPlace(ss: seq<Session>, userId: nat, oldRefresh: Token, a: Token, r: Token)
    requires DistinctIds(ss)
    ensures var after := RotateTokens(ss, userId, oldRefresh, a, r);
      && |after| == |ss| && DistinctIds(after)
      && ((forall s :: s in Of(ss, userId) ==> s.refreshToken != oldRefresh) ==> after == ss)
    ensures var after := RotateTokens(ss, userId, oldRefresh, a, r);
      forall i :: 0 <= i < |ss| ==>
        if ss[i].userId == userId && ss[i].refreshToken == oldRefresh
           && FirstWithRefresh(Of(ss, userId), oldRefresh).Some?
           && ss[i] == Of(ss, userId)[FirstWithRefresh(Of(ss, userId), oldRefresh).value]
        then after[i] == ss[i].(accessToken := a, refreshToken := r)
        else after[i] == ss[i]
  {
    var mine := Of(ss, userId);
    match FirstWithRefresh(mine, oldRefresh)
    case None =>
    case Some(k) =>
      SetTokensKeepsIds(ss, mine[k].id, a, r);
      forall i | 0 <= i < |ss| && ss[i].id == mine[k].id
        ensures ss[i] == mine[k]
      {
        SameIdSameRow(ss, ss[i], mine[k]);
      }
  }

  /** Rotating the access token alone updates exactly the matching session in
      place: the number of rows and their ids stay, the matching row carries the
      new access token and keeps its refresh token and everything else, every
      other row is unchanged; with no match nothing changes. */
  lemma RotateAccessTokenInPlace(ss: seq<Session>, userId: nat, refresh: Token, a: Token)
    requires DistinctIds(ss)
    ensures var after := RotateAccessToken(ss, userId, refresh, a);
      && |after| == |ss| && Ids(after) == Ids(ss) && DistinctIds(after)
      && ((forall s :: s in Of(ss, userId) ==> s.refreshToken != refresh) ==> after == ss)
    ensures var after := RotateAccessToken(ss, userId, refresh, a);
      forall i :: 0 <= i < |ss| ==>
        if ss[i].userId == userId && ss[i].refreshToken == refresh
           && FirstWithRefresh(Of(ss, userId), refresh).Some?
           && ss[i] == Of(ss, userId)[FirstWithRefresh(Of(ss, userId), refresh).value]
        then after[i] == ss[i].(accessToken := a) && after[i].refreshToken == refresh
        else after[i] == ss[i]
  {
    var mine := Of(ss, userId);
    match FirstWithRefresh(mine, refresh)
    case None =>
    case Some(k) =>
      SetAccessTokenKeepsIds(ss, mine[k].id, a);
      forall i | 0 <= i < |ss| && ss[i].id == mine[k].id
        ensures ss[i] == mine[k]
      {
        SameIdSameRow(ss, ss[i], mine[k]);
      }
  }

  /** Deleting by refresh token removes exactly one session of that user when
      one matches, nothing otherwise, and leaves every other user's sessions alone. */
  lemma DeleteByRefreshEffect(ss: seq<Session>, userId: nat, token: Token, other: nat)
    requires DistinctIds(ss) && other != userId
    ensures var after := DeleteByRefresh(ss, userId, token);
      && DistinctIds(after)
      && Of(after, other) == Of(ss, other)
      && (FirstWithRefresh(Of(ss, userId), token).None? ==> after == ss)
      && (FirstWithRefresh(Of(ss, userId), token).Some? ==>
            |Of(after, userId)| == |Of(ss, userId)| - 1
            && Of(ss, userId)[FirstWithRefresh(Of(ss, userId), token).value] !in after)
  {
    var mine := Of(ss, userId);
    match FirstWithRefresh(mine, token)
    case None =>
    case Some(k) =>
      var x := mine[k].id;
      DistinctWithout(ss, {x});
      forall s | s in ss && s.userId == other
        ensures s.id !in {x}
      {
        if s.id == x {
          SameIdSameRow(ss, s, mine[k]);
        }
      }
      OfUntouched(ss, {x}, other);
      OfWithout(ss, {x}, userId);
      DistinctOf(ss, userId);
      IdOfMember(mine, mine[k]);
      WithoutOneLength(mine, x);
  }
}
