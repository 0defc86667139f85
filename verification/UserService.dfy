/**
  The user service as one object over its tables. Each method is what one sequential call does; the
  interleavings of the statements inside the calls are in `SessionRuns` and `VerifierRuns`.
 */
module UserService {
  import opened Basics
  import opened Accounts
  import opened Sessions
  import opened Pruning
  import opened Lockout
  import Decimal
  import Phc

  datatype ServiceError =
    | InvalidRequest
    | InvalidCredentials
    | InvalidRefresh
    | RefreshReused
    | RateLimited
    | SigningFailed
    | StoreError
    | NoSuchUser
    | LastAdministrator
    | WeakPassword

  /** One minted pair; both tokens carry the session id. */
  datatype IssuedSession = IssuedSession(
    user: User, sessionId: TokenId, access: Token, refresh: Token, issuedAt: Time, expiresAt: Time)

  function LoginAttemptKey(namespace: string, value: string): string { namespace + ":" + value }

  function RefreshKey(userId: int): string
    requires userId >= 1
  {
    LoginAttemptKey("refresh", Decimal.Print(userId))
  }

  /** Budgets of different users are different rows. */
  lemma RefreshKeysDiffer(a: int, b: int)
    requires a >= 1 && b >= 1 && RefreshKey(a) == RefreshKey(b)
    ensures a == b
  {
    assert RefreshKey(a)[8..] == Decimal.Print(a) && RefreshKey(b)[8..] == Decimal.Print(b);
    Decimal.ValueOfPrint(a);
    Decimal.ValueOfPrint(b);
  }

  /** A cap that breaks ties by id, computed row by row. */
  function CappedIds(denylist: Denylist): set<TokenId> {
    set id | id in denylist && |OutlastingRows(denylist, id)| < REVOKED_ACCESS_CAP
  }

  function OutlastingRows(denylist: Denylist, id: TokenId): set<TokenId>
    requires id in denylist
  {
    set j | j in denylist && denylist[j].userId == denylist[id].userId
            && (denylist[j].expiresAt > denylist[id].expiresAt
                || (denylist[j].expiresAt == denylist[id].expiresAt && j != 0 && (id == 0 || j < id)))
  }

  lemma CappedIdsIsCap(denylist: Denylist)
    ensures IsCap(denylist, CappedIds(denylist))
  {
    assert CappedIds(denylist) == CapAgainst(denylist, 0) by {
      forall id | id in denylist ensures id in CappedIds(denylist) <==> id in CapAgainst(denylist, 0) {
        var userId := denylist[id].userId;
        EvictingOrderIsStrict(denylist, 0, userId);
        TopIsRank(DeniedOf(denylist, userId), EvictingOrder(denylist, 0), REVOKED_ACCESS_CAP, id);
        assert Outranking(DeniedOf(denylist, userId), EvictingOrder(denylist, 0), id) == OutlastingRows(denylist, id);
      }
    }
    forall userId ensures CapOf(denylist, CappedIds(denylist), userId) {
      CapAgainstIsCapOf(denylist, 0, userId);
    }
  }

  /** By `CappedIdsIsCap` this is one of the outcomes the prune statements allow. */
  function PrunedDenylist(denylist: Denylist, now: Time): Denylist {
    var live := ExpireDenylist(denylist, now);
    CapDenylist(live, CappedIds(live))
  }

  lemma SessionPruneIsExact(sessions: SessionTable, now: Time)
    ensures var after := CapSessions(ExpireSessions(sessions, now));
            forall j :: j in sessions && j !in after && sessions[j].expiresAt >= now ==>
              && |SessionsOf(after, sessions[j].userId)| == 256
              && forall i :: i in after && after[i].userId == sessions[j].userId ==>
                   after[i].issuedAt > sessions[j].issuedAt || (after[i].issuedAt == sessions[j].issuedAt && i > j)
  {
    var after := CapSessions(ExpireSessions(sessions, now));
    forall j | j in sessions && j !in after && sessions[j].expiresAt >= now
      ensures |SessionsOf(after, sessions[j].userId)| == 256
    {
      DroppedMakesRoom(sessions, now, j);
    }
    forall i, j | i in after && j in sessions && j !in after && sessions[j].expiresAt >= now
                  && after[i].userId == sessions[j].userId
      ensures after[i].issuedAt > sessions[j].issuedAt || (after[i].issuedAt == sessions[j].issuedAt && i > j)
    {
      KeptOutrankDropped(sessions, now, i, j);
    }
  }

  lemma DenylistCapIsExact(denylist: Denylist, kept: set<TokenId>)
    requires kept == CappedIds(denylist)
    ensures var after := CapDenylist(denylist, kept);
            forall j :: j in denylist && j !in after ==>
              && |DeniedOf(after, denylist[j].userId)| == 1024
              && forall i :: i in after && after[i].userId == denylist[j].userId ==>
                   after[i].expiresAt >= denylist[j].expiresAt
  {
    CappedIdsIsCap(denylist);
    var after := CapDenylist(denylist, kept);
    forall j | j in denylist && j !in after ensures |DeniedOf(after, denylist[j].userId)| == 1024 {
      CapMakesRoom(denylist, kept, j);
    }
    forall i, j | i in after && j in denylist && j !in after && after[i].userId == denylist[j].userId
      ensures after[i].expiresAt >= denylist[j].expiresAt
    {
      CapKeepsTheLatest(denylist, kept, i, j);
    }
  }

  /** The refresh token of a pair minted for the stored row; the access token can be minted exactly if it can. */
  function RefreshFor(users: Users, userId: int, newId: TokenId, mintedAt: Time): Option<Token> {
    if userId in users then Mint(RefreshIssuer, userId, users[userId], newId, mintedAt) else None
  }

  /** How far a refresh gets, and what it meets there. */
  datatype Refresh = Malformed | Locked | OldGeneration | Unsigned | Presented(rotation: Rotation)

  function RefreshOf(
    users: Users, sessions: SessionTable, attempts: Attempts,
    presented: Token, newId: TokenId, mintedAt: Time, now: Time): Refresh
  {
    if !ValidToken(presented, RefreshIssuer, now) then Malformed
    else if LockedAt(Row(attempts, RefreshKey(presented.userId)), now) then Locked
    else if !VersionAgrees(users, presented) then OldGeneration
    else
      match RefreshFor(users, presented.userId, newId, mintedAt)
      case None => Unsigned
      case Some(t) => Presented(RotationOf(sessions, presented, newId, t, now))
  }

  lemma RecordedSurvives(sessions: SessionTable, userId: int, newId: TokenId, token: Token, now: Time)
    ensures (forall k :: k in sessions && sessions[k].userId == userId ==> sessions[k].issuedAt < now) ==>
              newId in CapSessions(ExpireSessions(
                sessions[newId := NewSession(userId, token, now, now + REFRESH_LIFETIME)], now))
  {
    if forall k :: k in sessions && sessions[k].userId == userId ==> sessions[k].issuedAt < now {
      NewestSurvives(sessions[newId := NewSession(userId, token, now, now + REFRESH_LIFETIME)], now, newId);
    }
  }

  /** The refresh token a row's user would be given: its claims, for seven days from minting. */
  function SevenDayToken(userId: int, user: User, id: TokenId, mintedAt: Time): Token {
    Token(RefreshIssuer, user.username, userId, user.version, id, mintedAt, mintedAt + REFRESH_LIFETIME)
  }

  /** The access token that goes with it, for three hours. */
  function ThreeHourToken(userId: int, user: User, id: TokenId, mintedAt: Time): Token {
    Token(AccessIssuer, user.username, userId, user.version, id, mintedAt, mintedAt + ACCESS_LIFETIME)
  }

  /**
    A refresh that deserves to succeed, claim by claim and column by column: an intact refresh token inside its
    lifetime, no lock on its user, the user's name and version as in the token, the token's row `id` neither used nor
    revoked nor expired, and room for the new session.
   */
  predicate Genuine(
    users: Users, sessions: SessionTable, attempts: Attempts,
    presented: Token, id: TokenId, newId: TokenId, mintedAt: Time, now: Time)
    requires id in sessions
  {
    && presented.issuer == RefreshIssuer && presented.id != 0 && presented.userId >= 1
    && presented.username != "" && presented.version >= 0 && presented.issuedAt <= now < presented.expiresAt
    && !(var key := RefreshKey(presented.userId);
         key in attempts && attempts[key].lockedUntil != None && now < attempts[key].lockedUntil.value)
    && presented.userId in users && users[presented.userId].username == presented.username
    && users[presented.userId].version == presented.version
    && sessions[id].usedAt == None && sessions[id].revokedAt == None && now < sessions[id].expiresAt
    && newId != 0 && Vacant(sessions, newId, SevenDayToken(presented.userId, users[presented.userId], newId, mintedAt))
  }

  /** A refresh rotates exactly when it is genuine. */
  lemma GenuineRotates(
    users: Users, sessions: SessionTable, attempts: Attempts,
    presented: Token, id: TokenId, newId: TokenId, mintedAt: Time, now: Time)
    requires OnlyHolder(sessions, presented, id)
    ensures var f := RefreshOf(users, sessions, attempts, presented, newId, mintedAt, now);
            f.Presented? && f.rotation.Rotated? <==>
              Genuine(users, sessions, attempts, presented, id, newId, mintedAt, now)
  {
    if newId != 0 && presented.userId in users {
      var token := SevenDayToken(presented.userId, users[presented.userId], newId, mintedAt);
      RotationVerdicts(sessions, presented, id, newId, token, now);
    }
  }

  lemma RotatesIfGenuine(
    users: Users, sessions: SessionTable, attempts: Attempts,
    presented: Token, newId: TokenId, mintedAt: Time, now: Time)
    ensures var f := RefreshOf(users, sessions, attempts, presented, newId, mintedAt, now);
            forall id :: OnlyHolder(sessions, presented, id) ==>
              (f.Presented? && f.rotation.Rotated? <==>
                 Genuine(users, sessions, attempts, presented, id, newId, mintedAt, now))
  {
    forall id | OnlyHolder(sessions, presented, id)
      ensures var f := RefreshOf(users, sessions, attempts, presented, newId, mintedAt, now);
              f.Presented? && f.rotation.Rotated? <==>
                Genuine(users, sessions, attempts, presented, id, newId, mintedAt, now)
    {
      GenuineRotates(users, sessions, attempts, presented, id, newId, mintedAt, now);
    }
  }

  class Service {
    var users: Users
    var sessions: SessionTable
    var denylist: Denylist
    var attempts: Attempts

    constructor (users: Users)
      ensures this.users == users && sessions == map[] && denylist == map[] && attempts == map[]
    {
      this.users := users;
      sessions, denylist, attempts := map[], map[], map[];
    }

    // ---------- Sessions ----------

    method CreateRefreshSession(userId: int, token: Token, issuedAt: Time, expiresAt: Time, id: TokenId)
      returns (r: Result<(), ServiceError>)
      modifies this`sessions
      ensures r.Ok? <==> CreateSession(old(sessions), id, NewSession(userId, token, issuedAt, expiresAt)).Some?
      ensures r.Ok? <==> userId >= 1 && id != 0 && Vacant(old(sessions), id, token)
      ensures r.Ok? ==> sessions == old(sessions)[id := Session(userId, token, issuedAt, expiresAt, None, 0, None)]
      ensures r.Err? ==>
                sessions == old(sessions) && r.error == if userId < 1 || id == 0 then InvalidRequest else StoreError
    {
      VacantMayCreate(sessions, id, token);
      if userId < 1 || id == 0 {
        return Err(InvalidRequest);
      }
      if id in sessions || Holding(sessions, token) != {} {
        return Err(StoreError);
      }
      sessions := sessions[id := NewSession(userId, token, issuedAt, expiresAt)];
      r := Ok(());
    }

    /** Rotation in one transaction; a replay is contained afterwards, outside the rolled-back transaction. */
    method RotateRefreshSession(
      presented: Token, newId: TokenId, newToken: Token, issuedAt: Time, expiresAt: Time, now: Time)
      returns (r: Result<Session, ServiceError>)
      modifies this`sessions, this`users
      ensures match RotationOf(old(sessions), presented, newId, newToken, now)
              case Rotated(_, consumed) =>
                && r == Ok(consumed) && users == old(users)
                && sessions == RotateTx(old(sessions), presented, newId, newToken, issuedAt, expiresAt, now)
              case Reused(userId) =>
                && sessions == RevokeUserSessions(old(sessions), userId, now)
                && users == BumpVersion(old(users), userId, now)
                && r == Err(if userId in old(users) then RefreshReused else StoreError)
              case InvalidSession => r == Err(InvalidRefresh) && sessions == old(sessions) && users == old(users)
              case StoreFailed => r == Err(StoreError) && sessions == old(sessions) && users == old(users)
      // A session rotates exactly if it is live and unused: its row is consumed, and the new one has the same user.
      ensures forall id :: OnlyHolder(old(sessions), presented, id) ==>
                (r.Ok? <==>
                   && newId != 0 && Vacant(old(sessions), newId, newToken)
                   && old(sessions)[id].revokedAt == None && old(sessions)[id].usedAt == None
                   && now < old(sessions)[id].expiresAt)
      ensures forall id :: r.Ok? && OnlyHolder(old(sessions), presented, id) ==>
                  && users == old(users) && sessions.Keys == old(sessions).Keys + {newId}
                  && r.value == sessions[id] == old(sessions)[id].(usedAt := Some(now), replacedBy := newId)
                  && sessions[newId] == Session(old(sessions)[id].userId, newToken, issuedAt, expiresAt, None, 0, None)
                  && (forall other :: other in old(sessions) && other != id ==> sessions[other] == old(sessions)[other])
      // A live, used one is a replay: every session of its owner is revoked and the owner's generation advances.
      ensures forall id ::
                OnlyHolder(old(sessions), presented, id) && newId != 0
                && old(sessions)[id].revokedAt == None && old(sessions)[id].usedAt != None
                && now < old(sessions)[id].expiresAt ==>
                  && var owner := old(sessions)[id].userId;
                     && r == Err(if owner in old(users) then RefreshReused else StoreError)
                     && (owner in users ==> users[owner].version == old(users)[owner].version + 1)
                     && (forall k :: k in sessions && sessions[k].userId == owner ==> sessions[k].revokedAt != None)
      // Anything else is invalid, and changes nothing.
      ensures (forall id :: id in old(sessions) ==> old(sessions)[id].token != presented) ==> r == Err(InvalidRefresh)
      ensures forall id ::
                OnlyHolder(old(sessions), presented, id)
                && (old(sessions)[id].revokedAt != None || old(sessions)[id].expiresAt <= now) ==>
                  r == Err(InvalidRefresh)
      ensures r == Err(InvalidRefresh) ==> sessions == old(sessions) && users == old(users)
    {
      UnheldIsEmpty(sessions, presented);
      VacantMayCreate(sessions, newId, newToken);
      forall id | OnlyHolder(sessions, presented, id) ensures Minimum(Holding(sessions, presented)) == id {
        HolderIsFound(sessions, presented, id);
      }
      if newId == 0 || Holding(sessions, presented) == {} {
        return Err(InvalidRefresh);
      }
      var id := Minimum(Holding(sessions, presented));
      var current := sessions[id];
      if current.revokedAt.Some? || current.expiresAt <= now {
        return Err(InvalidRefresh);
      }
      if current.usedAt.Some? {
        RevokeAllUserSessions(current.userId, now);
        var bumped := BumpTokenVersion(current.userId, now);
        return Err(if bumped.Ok? then RefreshReused else StoreError);
      }
      if newId in sessions || Holding(sessions, newToken) != {} {
        return Err(StoreError);
      }
      current := current.(usedAt := Some(now), replacedBy := newId);
      sessions := sessions[id := current];
      sessions := sessions[newId := NewSession(current.userId, newToken, issuedAt, expiresAt)];
      r := Ok(current);
    }

    method RevokeAllUserSessions(userId: int, now: Time)
      modifies this`sessions
      ensures sessions == RevokeUserSessions(old(sessions), userId, now)
      ensures sessions.Keys == old(sessions).Keys
      ensures forall id :: id in sessions && sessions[id].userId == userId ==> sessions[id].revokedAt.Some?
      // Only live rows of this user change, and only in being revoked now.
      ensures forall id :: id in sessions ==>
                sessions[id] ==
                  if old(sessions)[id].userId == userId && old(sessions)[id].revokedAt == None
                  then old(sessions)[id].(revokedAt := Some(now)) else old(sessions)[id]
    {
      sessions := RevokeUserSessions(sessions, userId, now);
    }

    method BumpTokenVersion(userId: int, now: Time) returns (r: Result<int, ServiceError>)
      modifies this`users
      ensures users == BumpVersion(old(users), userId, now)
      ensures if userId in old(users) then r.Ok? else r == Err(StoreError)
      ensures r.Ok? ==> r.value == users[userId].version == old(users)[userId].version + 1
      ensures users.Keys == old(users).Keys
      ensures forall id :: id in users ==>
                users[id] ==
                  if id == userId
                  then old(users)[id].(version := old(users)[id].version + 1, updatedAt := now) else old(users)[id]
    {
      if userId !in users {
        return Err(StoreError);
      }
      users := users[userId := users[userId].(version := users[userId].version + 1, updatedAt := now)];
      r := Ok(users[userId].version);
    }

    /** Retires one session: exactly its refresh row and its access token, and nothing of anybody else's. */
    method LogoutSession(userId: int, sessionId: TokenId, accessExpires: Time, now: Time)
      returns (r: Result<(), ServiceError>)
      modifies this`sessions, this`denylist
      ensures if userId < 1 || sessionId == 0 then r == Err(InvalidRequest) else r.Ok?
      ensures r.Err? ==> sessions == old(sessions) && denylist == old(denylist)
      ensures sessions.Keys == old(sessions).Keys
      ensures r.Ok? ==> sessionId in denylist
      ensures r.Ok? && sessionId !in old(denylist) ==> denylist[sessionId] == Revocation(userId, accessExpires)
      ensures r.Ok? && sessionId in sessions && sessions[sessionId].userId == userId ==>
                && sessions[sessionId].revokedAt.Some?
                && sessions[sessionId] ==
                     if old(sessions)[sessionId].revokedAt == None
                     then old(sessions)[sessionId].(revokedAt := Some(now)) else old(sessions)[sessionId]
      ensures forall id :: id in sessions && (id != sessionId || sessions[id].userId != userId) ==>
                sessions[id] == old(sessions)[id]
      ensures forall id :: id != sessionId || id in old(denylist) ==>
                (id in denylist <==> id in old(denylist)) && (id in denylist ==> denylist[id] == old(denylist)[id])
      ensures r.Ok? ==> sessions == RevokeSession(old(sessions), userId, sessionId, now)
      ensures r.Ok? ==> denylist == Deny(old(denylist), sessionId, userId, accessExpires)
    {
      if userId < 1 || sessionId == 0 {
        return Err(InvalidRequest);
      }
      if sessionId in sessions && sessions[sessionId].userId == userId && sessions[sessionId].revokedAt.None? {
        sessions := sessions[sessionId := sessions[sessionId].(revokedAt := Some(now))];
      }
      if sessionId !in denylist {
        denylist := denylist[sessionId := Revocation(userId, accessExpires)];
      }
      r := Ok(());
    }

    /** Advances the generation first; only then are the refresh rows retired. */
    method LogoutAllSessions(userId: int, now: Time) returns (r: Result<(), ServiceError>)
      modifies this`sessions, this`users
      ensures r.Ok? <==> userId >= 1 && userId in old(users)
      ensures r.Ok? ==>
                && users == BumpVersion(old(users), userId, now)
                && sessions == RevokeUserSessions(old(sessions), userId, now)
      ensures r.Ok? ==>
                && users[userId].version == old(users)[userId].version + 1
                && (forall id :: id in sessions && sessions[id].userId == userId ==> sessions[id].revokedAt.Some?)
                && (forall id :: id in sessions && sessions[id].userId != userId ==> sessions[id] == old(sessions)[id])
      ensures r.Err? ==>
                && users == old(users) && sessions == old(sessions)
                && r.error == if userId < 1 then InvalidRequest else StoreError
    {
      if userId < 1 {
        return Err(InvalidRequest);
      }
      var bumped := BumpTokenVersion(userId, now);
      if bumped.Err? {
        return Err(bumped.error);
      }
      RevokeAllUserSessions(userId, now);
      r := Ok(());
    }

    /** The middleware's decision on a token with a good signature. */
    method CheckAccess(token: Token, now: Time) returns (accepted: bool)
      ensures accepted <==> ValidToken(token, AccessIssuer, now) && VersionAgrees(users, token) && token.id !in denylist
      // In full: an access token with every claim in place, inside its lifetime, of a user whose name and
      // version are still those of the token, and not revoked.
      ensures accepted <==>
                && token.issuer == AccessIssuer && token.id != 0 && token.userId >= 1
                && token.username != "" && token.version >= 0 && token.issuedAt <= now < token.expiresAt
                && token.userId in users && users[token.userId].username == token.username
                && users[token.userId].version == token.version
                && token.id !in denylist
    {
      if !ValidToken(token, AccessIssuer, now) {
        return false;
      }
      if token.userId !in users {
        return false;
      }
      var user := users[token.userId];
      if user.username != token.username || user.version != token.version {
        return false;
      }
      accepted := token.id !in denylist;
    }

    // ---------- Failure budgets ----------

    method CheckLoginLockout(key: string, now: Time) returns (answer: Answer)
      ensures answer == if key == "" then OPEN else Check(Row(attempts, key), now)
      ensures answer.locked <==>
                && key != "" && key in attempts && attempts[key].lockedUntil != None
                && now < attempts[key].lockedUntil.value
      ensures answer.retryAfter == if answer.locked then attempts[key].lockedUntil.value - now else 0
    {
      if key == "" || key !in attempts {
        return OPEN;
      }
      var attempt := attempts[key];
      if attempt.lockedUntil.Some? && now < attempt.lockedUntil.value {
        return Answer(true, attempt.lockedUntil.value - now);
      }
      answer := OPEN;
    }

    method RecordLoginFailure(key: string, now: Time) returns (r: Result<Answer, ServiceError>)
      modifies this`attempts
      ensures key == "" ==> r == Err(InvalidRequest) && attempts == old(attempts)
      ensures key != "" ==> r == Ok(FailAnswer(Row(old(attempts), key), now))
      ensures key != "" ==> attempts == old(attempts)[key := Fail(Row(old(attempts), key), now)]
    {
      if key == "" {
        return Err(InvalidRequest);
      }
      var attempt := Attempt(0, now, None);
      if key in attempts {
        attempt := attempts[key];
      } else {
        attempts := attempts[key := attempt];
      }
      if attempt.lockedUntil.Some? && now < attempt.lockedUntil.value {
        assert attempts == old(attempts)[key := attempt];
        return Ok(Answer(true, attempt.lockedUntil.value - now));
      }
      if attempt.windowStartedAt == ZERO_TIME || now - attempt.windowStartedAt > LOGIN_LOCKOUT_WINDOW {
        attempt := attempt.(failures := 0);
        attempt := attempt.(windowStartedAt := now);
        attempt := attempt.(lockedUntil := None);
      }
      attempt := attempt.(failures := attempt.failures + 1);
      var answer := OPEN;
      if attempt.failures >= LOGIN_FAILURE_LIMIT {
        attempt := attempt.(lockedUntil := Some(now + LOGIN_LOCKOUT_LENGTH));
        answer := Answer(true, LOGIN_LOCKOUT_LENGTH);
      }
      attempts := attempts[key := attempt];
      r := Ok(answer);
    }

    method RecordLoginSuccess(key: string)
      modifies this`attempts
      ensures attempts == if key == "" then old(attempts) else old(attempts) - {key}
    {
      if key != "" {
        attempts := attempts - {key};
      }
    }

    // ---------- Pruning ----------

    /** The prune statements in order. */
    method PruneAuthState(now: Time)
      modifies this`sessions, this`denylist, this`attempts
      ensures sessions == CapSessions(ExpireSessions(old(sessions), now))
      ensures attempts == PruneAttempts(old(attempts), now)
      ensures denylist == PrunedDenylist(old(denylist), now)
      // Sessions: what is kept is unchanged and unexpired; what is dropped unexpired left 256 newer rows of its user.
      ensures forall id :: id in sessions ==>
                id in old(sessions) && sessions[id] == old(sessions)[id] && old(sessions)[id].expiresAt >= now
      ensures forall j :: j in old(sessions) && j !in sessions && old(sessions)[j].expiresAt >= now ==>
                && |SessionsOf(sessions, old(sessions)[j].userId)| == 256
                && forall i :: i in sessions && sessions[i].userId == old(sessions)[j].userId ==>
                     || sessions[i].issuedAt > old(sessions)[j].issuedAt
                     || (sessions[i].issuedAt == old(sessions)[j].issuedAt && i > j)
      // Revocations: the same, with 1024 that expire no earlier.
      ensures forall id :: id in denylist ==>
                id in old(denylist) && denylist[id] == old(denylist)[id] && old(denylist)[id].expiresAt >= now
      ensures forall j :: j in old(denylist) && j !in denylist && old(denylist)[j].expiresAt >= now ==>
                && |DeniedOf(denylist, old(denylist)[j].userId)| == 1024
                && forall i :: i in denylist && denylist[i].userId == old(denylist)[j].userId ==>
                     denylist[i].expiresAt >= old(denylist)[j].expiresAt
      // Budgets: exactly those go whose window began more than a day ago and whose lock, if any, is over.
      ensures forall key :: key in attempts <==>
                && key in old(attempts)
                && !(&& old(attempts)[key].windowStartedAt < now - 86_400_000_000_000
                     && (old(attempts)[key].lockedUntil == None || old(attempts)[key].lockedUntil.value < now))
      ensures forall key :: key in attempts ==> attempts[key] == old(attempts)[key]
    {
      denylist := ExpireDenylist(denylist, now);
      sessions := ExpireSessions(sessions, now);
      attempts := PruneAttempts(attempts, now);
      CapStoredSessions();
      SessionPruneIsExact(old(sessions), now);
      CapRevocations();
    }

    /** Deletes the rows that 256 newer ones of the same user outrank. */
    method CapStoredSessions()
      modifies this`sessions
      ensures sessions == CapSessions(old(sessions))
    {
      forall id | id in sessions ensures KeptByCap(sessions, id) <==> |NewerRows(sessions, id)| < REFRESH_SESSION_CAP {
        KeptByCapIsRank(sessions, id);
      }
      sessions := map id | id in sessions && |NewerRows(sessions, id)| < REFRESH_SESSION_CAP :: sessions[id];
    }

    /** Deletes revocations until each user has at most 1024, the earliest to expire first. */
    method CapRevocations()
      modifies this`denylist
      ensures denylist == CapDenylist(old(denylist), CappedIds(old(denylist)))
      ensures forall j :: j in old(denylist) && j !in denylist ==>
                && |DeniedOf(denylist, old(denylist)[j].userId)| == 1024
                && forall i :: i in denylist && denylist[i].userId == old(denylist)[j].userId ==>
                     denylist[i].expiresAt >= old(denylist)[j].expiresAt
    {
      DenylistCapIsExact(denylist, CappedIds(denylist));
      denylist := CapDenylist(denylist, CappedIds(denylist));
    }

    // ---------- Issuing tokens ----------

    /** `newId` is the fresh token id and `mintedAt` the clock the minter reads. */
    method IssueSessionPair(userId: int, user: User, newId: TokenId, mintedAt: Time, now: Time)
      returns (r: Result<IssuedSession, ServiceError>)
      modifies this`sessions
      ensures var refresh := Mint(RefreshIssuer, userId, user, newId, mintedAt);
              && (r.Ok? <==> refresh.Some? && MayCreate(old(sessions), newId, refresh.value))
              && (r.Err? ==> r.error == if refresh.None? then SigningFailed else StoreError)
      ensures r.Err? ==> sessions == old(sessions)
      ensures r.Ok? ==>
                && r.value.user == user && r.value.sessionId == newId
                && r.value.issuedAt == now && r.value.expiresAt == now + ACCESS_LIFETIME
                && Mint(AccessIssuer, userId, user, newId, mintedAt) == Some(r.value.access)
                && Mint(RefreshIssuer, userId, user, newId, mintedAt) == Some(r.value.refresh)
                && sessions == old(sessions)[newId := NewSession(userId, r.value.refresh, now, now + REFRESH_LIFETIME)]
      ensures r.Ok? <==>
                && userId >= 1 && newId != 0 && user.username != "" && user.version >= 0
                && Vacant(old(sessions), newId, SevenDayToken(userId, user, newId, mintedAt))
      ensures r.Ok? ==>
                && r.value.access == ThreeHourToken(userId, user, newId, mintedAt)
                && r.value.refresh == SevenDayToken(userId, user, newId, mintedAt)
                && ValidToken(r.value.access, AccessIssuer, mintedAt)
                && ValidToken(r.value.refresh, RefreshIssuer, mintedAt)
    {
      VacantMayCreate(sessions, newId, SevenDayToken(userId, user, newId, mintedAt));
      var access := Mint(AccessIssuer, userId, user, newId, mintedAt);
      var refresh := Mint(RefreshIssuer, userId, user, newId, mintedAt);
      if access.None? || refresh.None? {
        return Err(SigningFailed);
      }
      var created := CreateRefreshSession(userId, refresh.value, now, now + REFRESH_LIFETIME, newId);
      if created.Err? {
        return Err(created.error);
      }
      r := Ok(IssuedSession(user, newId, access.value, refresh.value, now, now + ACCESS_LIFETIME));
    }

    /** A login mints from the row as it is now, records the session and prunes; or it changes nothing. */
    method IssueLoginSession(userId: int, newId: TokenId, mintedAt: Time, now: Time)
      returns (r: Result<IssuedSession, ServiceError>)
      modifies this`sessions, this`denylist, this`attempts
      ensures var refresh := RefreshFor(users, userId, newId, mintedAt);
              r.Ok? <==> refresh.Some? && MayCreate(old(sessions), newId, refresh.value)
      ensures r.Err? ==> sessions == old(sessions) && denylist == old(denylist) && attempts == old(attempts)
      ensures r.Err? ==>
                r.error == (
                  if userId < 1 then InvalidRequest
                  else if userId in users && RefreshFor(users, userId, newId, mintedAt).None? then SigningFailed
                  else StoreError)
      ensures r.Ok? ==>
                && userId >= 1 && userId in users && r.value.user == users[userId]
                && r.value.sessionId == newId && r.value.issuedAt == now && r.value.expiresAt == now + ACCESS_LIFETIME
                && Mint(AccessIssuer, userId, users[userId], newId, mintedAt) == Some(r.value.access)
                && RefreshFor(users, userId, newId, mintedAt) == Some(r.value.refresh)
                && sessions == CapSessions(ExpireSessions(
                     old(sessions)[newId := NewSession(userId, r.value.refresh, now, now + REFRESH_LIFETIME)], now))
                && denylist == PrunedDenylist(old(denylist), now)
                && attempts == PruneAttempts(old(attempts), now)
      // The same in full: when a login succeeds, what it hands out, and that its row is there afterwards.
      ensures r.Ok? <==>
                && userId >= 1 && newId != 0 && userId in users
                && users[userId].username != "" && users[userId].version >= 0
                && Vacant(old(sessions), newId, SevenDayToken(userId, users[userId], newId, mintedAt))
      ensures r.Ok? ==>
                && r.value.access == ThreeHourToken(userId, users[userId], newId, mintedAt)
                && r.value.refresh == SevenDayToken(userId, users[userId], newId, mintedAt)
      ensures r.Ok? && (forall k :: k in old(sessions) && old(sessions)[k].userId == userId ==>
                          old(sessions)[k].issuedAt < now) ==>
                && newId in sessions
                && sessions[newId] == Session(userId, r.value.refresh, now, now + REFRESH_LIFETIME, None, 0, None)
      // So the pair is valid from the start, in the current generation, and shares its id.
      ensures r.Ok? ==>
                && r.value.access.id == r.value.refresh.id == newId
                && ValidToken(r.value.access, AccessIssuer, mintedAt)
                && ValidToken(r.value.refresh, RefreshIssuer, mintedAt)
                && VersionAgrees(users, r.value.access) && VersionAgrees(users, r.value.refresh)
    {
      if userId < 1 {
        return Err(InvalidRequest);
      }
      if userId !in users {
        return Err(StoreError);
      }
      r := IssueSessionPair(userId, users[userId], newId, mintedAt, now);
      if r.Ok? {
        RecordedSurvives(old(sessions), userId, newId, r.value.refresh, now);
        PruneAuthState(now);
      }
    }

    /** Mints the replacement pair for a user row that agrees with the presented token, and rotates. */
    method MintAndRotate(presented: Token, newId: TokenId, mintedAt: Time, now: Time)
      returns (r: Result<(Token, Token), ServiceError>)
      requires VersionAgrees(users, presented)
      modifies this`sessions, this`users
      ensures match RefreshFor(old(users), presented.userId, newId, mintedAt)
              case None => r == Err(SigningFailed) && sessions == old(sessions) && users == old(users)
              case Some(refresh) =>
                match RotationOf(old(sessions), presented, newId, refresh, now)
                case Rotated(_, _) =>
                  && r.Ok? && r.value.1 == refresh && users == old(users)
                  && Mint(AccessIssuer, presented.userId, users[presented.userId], newId, mintedAt) == Some(r.value.0)
                  && sessions == RotateTx(old(sessions), presented, newId, refresh, now, now + REFRESH_LIFETIME, now)
                case Reused(owner) =>
                  && r == Err(if owner in old(users) then RefreshReused else StoreError)
                  && users == BumpVersion(old(users), owner, now)
                  && sessions == RevokeUserSessions(old(sessions), owner, now)
                case InvalidSession => r == Err(InvalidRefresh) && sessions == old(sessions) && users == old(users)
                case StoreFailed => r == Err(StoreError) && sessions == old(sessions) && users == old(users)
      // The two rows of a success.
      ensures forall id :: r.Ok? && OnlyHolder(old(sessions), presented, id) ==>
                && id in sessions && sessions[id] == old(sessions)[id].(usedAt := Some(now), replacedBy := newId)
                && newId in sessions
                && sessions[newId] ==
                     Session(old(sessions)[id].userId, r.value.1, now, now + REFRESH_LIFETIME, None, 0, None)
    {
      var user := users[presented.userId];
      var access := Mint(AccessIssuer, presented.userId, user, newId, mintedAt);
      var refresh := Mint(RefreshIssuer, presented.userId, user, newId, mintedAt);
      if access.None? || refresh.None? {
        return Err(SigningFailed);
      }
      var rotated := RotateRefreshSession(presented, newId, refresh.value, now, now + REFRESH_LIFETIME, now);
      if rotated.Err? {
        return Err(rotated.error);
      }
      r := Ok((access.value, refresh.value));
    }

    /** A genuine refresh token is rotated once; anything else leaves sessions alone or contains the replay. */
    method IssueRefreshedTokens(presented: Token, newId: TokenId, mintedAt: Time, now: Time)
      returns (r: Result<IssuedSession, ServiceError>)
      modifies this
      // Every outcome with its whole effect.
      ensures match RefreshOf(old(users), old(sessions), old(attempts), presented, newId, mintedAt, now)
              case Malformed => r == Err(InvalidRefresh) && attempts == old(attempts)
              case Locked => r == Err(RateLimited) && attempts == old(attempts)
              case OldGeneration => r == Err(InvalidRefresh) && CountedAgainst(presented, now, old(attempts))
              case Unsigned => r == Err(SigningFailed) && attempts == old(attempts)
              case Presented(Rotated(_, _)) =>
                && r.Ok? && attempts == PruneAttempts(old(attempts) - {RefreshKey(presented.userId)}, now)
              case Presented(Reused(owner)) =>
                && r == Err(if owner in old(users) then RefreshReused else StoreError) && attempts == old(attempts)
              case Presented(InvalidSession) =>
                r == Err(InvalidRefresh) && CountedAgainst(presented, now, old(attempts))
              case Presented(StoreFailed) => r == Err(StoreError) && attempts == old(attempts)
      ensures match RefreshOf(old(users), old(sessions), old(attempts), presented, newId, mintedAt, now)
              case Presented(Rotated(_, _)) =>
                && r.Ok? && users == old(users)
                && sessions == CapSessions(ExpireSessions(
                     RotateTx(old(sessions), presented, newId, r.value.refresh, now, now + REFRESH_LIFETIME, now), now))
                && denylist == PrunedDenylist(old(denylist), now)
              case Presented(Reused(owner)) =>
                && users == BumpVersion(old(users), owner, now)
                && sessions == RevokeUserSessions(old(sessions), owner, now)
                && denylist == old(denylist)
              case _ => users == old(users) && sessions == old(sessions) && denylist == old(denylist)
      // When it succeeds, and when a replay is reported.
      ensures r.Ok? <==>
                var f := RefreshOf(old(users), old(sessions), old(attempts), presented, newId, mintedAt, now);
                f.Presented? && f.rotation.Rotated?
      ensures r == Err(RefreshReused) <==>
                var f := RefreshOf(old(users), old(sessions), old(attempts), presented, newId, mintedAt, now);
                f.Presented? && f.rotation.Reused? && f.rotation.userId in old(users)
      ensures forall id :: OnlyHolder(old(sessions), presented, id) ==>
                (r.Ok? <==> Genuine(old(users), old(sessions), old(attempts), presented, id, newId, mintedAt, now))
      // What a success leaves of the two rows: the presented one consumed, the new one of the same user and live.
      ensures forall id :: r.Ok? && OnlyHolder(old(sessions), presented, id) && id in sessions ==>
                sessions[id] == old(sessions)[id].(usedAt := Some(now), replacedBy := newId)
      ensures forall id :: r.Ok? && OnlyHolder(old(sessions), presented, id) && newId in sessions ==>
                sessions[newId] ==
                  Session(old(sessions)[id].userId, r.value.refresh, now, now + REFRESH_LIFETIME, None, 0, None)
      ensures r.Ok? ==>
                && r.value.access == ThreeHourToken(presented.userId, users[presented.userId], newId, mintedAt)
                && r.value.refresh == SevenDayToken(presented.userId, users[presented.userId], newId, mintedAt)
      // What is handed out: a fresh pair for the presented token's user, in the current generation.
      ensures r.Ok? ==>
                && VersionAgrees(old(users), presented) && r.value.user == users[presented.userId]
                && r.value.sessionId == newId && r.value.issuedAt == now && r.value.expiresAt == now + ACCESS_LIFETIME
                && Mint(AccessIssuer, presented.userId, r.value.user, newId, mintedAt) == Some(r.value.access)
                && RefreshFor(users, presented.userId, newId, mintedAt) == Some(r.value.refresh)
                && VersionAgrees(users, r.value.access) && VersionAgrees(users, r.value.refresh)
    {
      RotatesIfGenuine(users, sessions, attempts, presented, newId, mintedAt, now);
      if !ValidToken(presented, RefreshIssuer, now) {
        return Err(InvalidRefresh);
      }
      var key := RefreshKey(presented.userId);
      var lock := CheckLoginLockout(key, now);
      if lock.locked {
        return Err(RateLimited);
      }
      if presented.userId !in users || users[presented.userId].username != presented.username
         || users[presented.userId].version != presented.version {
        var counted := RecordLoginFailure(key, now);
        return Err(InvalidRefresh);
      }
      r := FinishRefresh(presented, newId, mintedAt, now);
    }

    /** The rest of a refresh, once the user row agrees with the token: mint, rotate, settle the budget, prune. */
    method FinishRefresh(presented: Token, newId: TokenId, mintedAt: Time, now: Time)
      returns (r: Result<IssuedSession, ServiceError>)
      requires VersionAgrees(users, presented) && presented.userId >= 1
      modifies this
      ensures var f := RefreshFor(old(users), presented.userId, newId, mintedAt);
              if f.None? then
                && r == Err(SigningFailed) && users == old(users) && sessions == old(sessions)
                && denylist == old(denylist) && attempts == old(attempts)
              else
                match RotationOf(old(sessions), presented, newId, f.value, now)
                case Rotated(_, _) =>
                  && r.Ok? && users == old(users) && denylist == PrunedDenylist(old(denylist), now)
                  && attempts == PruneAttempts(old(attempts) - {RefreshKey(presented.userId)}, now)
                  && sessions == CapSessions(ExpireSessions(
                       RotateTx(old(sessions), presented, newId, f.value, now, now + REFRESH_LIFETIME, now), now))
                case Reused(owner) =>
                  && r == Err(if owner in old(users) then RefreshReused else StoreError)
                  && users == BumpVersion(old(users), owner, now)
                  && sessions == RevokeUserSessions(old(sessions), owner, now)
                  && denylist == old(denylist) && attempts == old(attempts)
                case InvalidSession =>
                  && r == Err(InvalidRefresh) && users == old(users) && sessions == old(sessions)
                  && denylist == old(denylist) && CountedAgainst(presented, now, old(attempts))
                case StoreFailed =>
                  && r == Err(StoreError) && users == old(users) && sessions == old(sessions)
                  && denylist == old(denylist) && attempts == old(attempts)
      ensures r.Ok? ==>
                && r.value.user == users[presented.userId] && r.value.sessionId == newId
                && r.value.issuedAt == now && r.value.expiresAt == now + ACCESS_LIFETIME
                && Mint(AccessIssuer, presented.userId, r.value.user, newId, mintedAt) == Some(r.value.access)
                && RefreshFor(users, presented.userId, newId, mintedAt) == Some(r.value.refresh)
      ensures forall id :: r.Ok? && OnlyHolder(old(sessions), presented, id) && id in sessions ==>
                sessions[id] == old(sessions)[id].(usedAt := Some(now), replacedBy := newId)
      ensures forall id :: r.Ok? && OnlyHolder(old(sessions), presented, id) && newId in sessions ==>
                sessions[newId] ==
                  Session(old(sessions)[id].userId, r.value.refresh, now, now + REFRESH_LIFETIME, None, 0, None)
    {
      var key, user := RefreshKey(presented.userId), users[presented.userId];
      var pair := MintAndRotate(presented, newId, mintedAt, now);
      if pair.Err? {
        if pair.error == InvalidRefresh {
          var counted := RecordLoginFailure(key, now);
        }
        return Err(pair.error);
      }
      RecordLoginSuccess(key);
      PruneAuthState(now);
      r := Ok(IssuedSession(user, newId, pair.value.0, pair.value.1, now, now + ACCESS_LIFETIME));
    }

    /** One more failure in the budget of the presented token's user, and in no other. */
    predicate CountedAgainst(presented: Token, now: Time, before: Attempts)
      requires presented.userId >= 1
      reads this`attempts
    {
      var key := RefreshKey(presented.userId);
      attempts == before[key := Fail(Row(before, key), now)]
    }

    // ---------- Accounts ----------

    method DeleteUserById(id: int, now: Time) returns (r: Result<(), ServiceError>)
      modifies this`users, this`sessions
      ensures users == DeleteUser(old(users), id)
      ensures r == match DeleteOutcomeOf(old(users), id)
                   case Deleted => Ok(())
                   case UserNotFound => Err(NoSuchUser)
                   case LastAdmin => Err(LastAdministrator)
      // It is refused exactly for an absent user and for the only administrator; else that row goes, and no other.
      ensures r.Ok? <==>
                && id in old(users)
                && (old(users)[id].role == "admin" ==>
                      exists other :: other in old(users) && other != id && old(users)[other].role == "admin")
      ensures r.Ok? ==> users == old(users) - {id}
      ensures r.Ok? ==>
                && sessions.Keys == old(sessions).Keys
                && (forall k :: k in sessions && sessions[k].userId == id ==> sessions[k].revokedAt != None)
                && (forall k :: k in sessions && sessions[k].userId != id ==> sessions[k] == old(sessions)[k])
      ensures HasAdmin(old(users)) ==> HasAdmin(users)
      ensures r.Ok? ==> id !in users && sessions == RevokeUserSessions(old(sessions), id, now)
      ensures r.Err? ==> users == old(users) && sessions == old(sessions)
    {
      if HasAdmin(users) {
        DeleteKeepsAdmin(users, id);
      }
      if id !in users {
        return Err(NoSuchUser);
      }
      if users[id].role == ADMIN {
        CountTellsOthers(users, id);
        var administrators := |AdminIds(users)|;
        if administrators <= 1 {
          return Err(LastAdministrator);
        }
      }
      users := users - {id};
      RevokeAllUserSessions(id, now);
      r := Ok(());
    }

    /** Profile fields only: nobody's verifier, role or generation changes, and no other row does. */
    method UpdateProfile(id: int, username: string, profile: Profile, now: Time)
      modifies this`users
      ensures users == UpdateUser(old(users), id, username, profile, now)
      ensures SameRoles(old(users), users)
      ensures forall other :: other in users ==>
                && users[other].verifier == old(users)[other].verifier
                && users[other].version == old(users)[other].version
                && (other != id ==> users[other] == old(users)[other])
      // Nothing happens for an absent row or a name in use; otherwise exactly the non-empty fields are stored.
      ensures id !in old(users) || NameTaken(old(users), id, username) ==> users == old(users)
      ensures id in old(users) && !NameTaken(old(users), id, username) ==>
                && users[id].username == (if username == "" then old(users)[id].username else username)
                && var before, after := old(users)[id].profile, users[id].profile;
                   && after.email == (if profile.email == "" then before.email else profile.email)
                   && after.nickname == (if profile.nickname == "" then before.nickname else profile.nickname)
                   && after.avatar == (if profile.avatar == "" then before.avatar else profile.avatar)
                   && after.description ==
                        (if profile.description == "" then before.description else profile.description)
                   && users[id].updatedAt == now
    {
      UpdatesKeepRoles(users, id, username, profile, Legacy(""), Legacy(""), 0, now);
      if id in users && !NameTaken(users, id, username) {
        var user := users[id];
        user := user.(username := FirstNonEmpty(username, user.username));
        user := user.(profile := Profile(
          FirstNonEmpty(profile.email, user.profile.email), FirstNonEmpty(profile.nickname, user.profile.nickname),
          FirstNonEmpty(profile.avatar, user.profile.avatar),
          FirstNonEmpty(profile.description, user.profile.description)));
        users := users[id := user.(updatedAt := now)];
      }
    }

    /** Success is a password the row's verifier accepts; an outdated verifier is upgraded to the same password. */
    method AuthenticateUser(username: string, plaintext: string, salt: nat, now: Time)
      returns (r: Result<(int, User), ServiceError>)
      modifies this`users
      ensures r.Ok? <==>
                && 1 <= |username| <= 256 && 1 <= |plaintext| <= 1024 && Named(old(users), username) != {}
                && old(users)[Minimum(Named(old(users), username))].verifier.Accepts(plaintext)
      ensures r.Err? ==> r.error == InvalidCredentials && users == old(users)
      ensures users.Keys == old(users).Keys
      // The answer is the first row of that name, which accepts the password; and such a row is always the answer.
      ensures r.Ok? ==>
                && r.value.0 in old(users) && old(users)[r.value.0].username == username
                && (forall k :: k in old(users) && old(users)[k].username == username ==> r.value.0 <= k)
                && old(users)[r.value.0].verifier.Accepts(plaintext)
      ensures forall id ::
                && id in old(users) && old(users)[id].username == username && old(users)[id].verifier.Accepts(plaintext)
                && (forall k :: k in old(users) && old(users)[k].username == username ==> id <= k)
                && 1 <= |username| <= 256 && 1 <= |plaintext| <= 1024 ==>
                  r.Ok? && r.value.0 == id
      // Only its verifier and update time may change, and only to the current parameters; every other row stays.
      ensures forall id :: id in users && (r.Err? || id != r.value.0) ==> users[id] == old(users)[id]
      ensures r.Ok? ==>
                && var before, after := old(users)[r.value.0], users[r.value.0];
                   && after == before.(verifier := after.verifier, updatedAt := after.updatedAt)
                   && r.value.1 == before.(verifier := after.verifier)
                   && after.verifier.Argon2id? && after.verifier.parameters == Phc.Parameters(65536, 3, 4, 16, 32)
                   && (before.verifier.parameters == after.verifier.parameters ==> after == before)
      ensures forall id, p :: id in users ==> (users[id].verifier.Accepts(p) <==> old(users)[id].verifier.Accepts(p))
      ensures forall id :: id in users ==>
                users[id].version == old(users)[id].version && users[id].role == old(users)[id].role
      ensures r.Ok? ==> !users[r.value.0].verifier.NeedsRehash()
    {
      assert forall k :: k in users && users[k].username == username ==> k in Named(users, username);
      if |username| == 0 || |username| > 256 || |plaintext| == 0 || |plaintext| > 1024 {
        return Err(InvalidCredentials);
      }
      if Named(users, username) == {} {
        return Err(InvalidCredentials);
      }
      var id := Minimum(Named(users, username));
      var user := users[id];
      if !user.verifier.Accepts(plaintext) {
        return Err(InvalidCredentials);
      }
      if user.verifier.NeedsRehash() {
        var upgraded := Argon2id(plaintext, Phc.DEFAULTS, salt);
        users := users[id := users[id].(verifier := upgraded, updatedAt := now)];
        user := user.(verifier := upgraded);
      }
      r := Ok((id, user));
    }

    /** The new password replaces the old one, the generation advances by one, and every session is retired. */
    method ChangeUserPassword(id: int, oldPassword: string, newPassword: string, salt: nat, now: Time)
      returns (r: Result<(), ServiceError>)
      modifies this`users, this`sessions
      ensures r.Ok? <==>
                && ValidNewPassword(newPassword) && 1 <= |oldPassword| <= 1024
                && id in old(users) && old(users)[id].verifier.Accepts(oldPassword)
      ensures r.Err? ==>
                && users == old(users) && sessions == old(sessions)
                && r.error == if ValidNewPassword(newPassword) then InvalidCredentials else WeakPassword
      ensures r.Ok? ==>
                && 12 <= |newPassword| <= 1024 && '\0' !in newPassword && '\r' !in newPassword && '\n' !in newPassword
      ensures r == Err(WeakPassword) ==>
                || |newPassword| < 12 || 1024 < |newPassword|
                || '\0' in newPassword || '\r' in newPassword || '\n' in newPassword
      // Afterwards exactly the new password verifies, under a version one higher; nothing else of any row changes.
      ensures r.Ok? ==>
                && users.Keys == old(users).Keys
                && (forall p :: users[id].verifier.Accepts(p) <==> p == newPassword)
                && users[id].version == old(users)[id].version + 1
                && users[id] == old(users)[id].(
                     verifier := users[id].verifier, version := users[id].version, updatedAt := now)
                && (forall other :: other in users && other != id ==> users[other] == old(users)[other])
                && sessions.Keys == old(sessions).Keys
                && (forall k :: k in sessions && sessions[k].userId == id ==> sessions[k].revokedAt != None)
                && (forall k :: k in sessions && sessions[k].userId != id ==> sessions[k] == old(sessions)[k])
      ensures r.Ok? ==>
                && id in users && users[id].verifier.Accepts(newPassword)
                && (oldPassword != newPassword ==> !users[id].verifier.Accepts(oldPassword))
                && StoreVerifier(old(users), id, old(users)[id].verifier, users[id].verifier, 1, now) == Some(users)
                && sessions == RevokeUserSessions(old(sessions), id, now)
    {
      if !ValidNewPassword(newPassword) {
        return Err(WeakPassword);
      }
      if |oldPassword| == 0 || |oldPassword| > 1024 || id !in users || !users[id].verifier.Accepts(oldPassword) {
        return Err(InvalidCredentials);
      }
      var hashed := Argon2id(newPassword, Phc.DEFAULTS, salt);
      users := users[id := users[id].(verifier := hashed, version := users[id].version + 1, updatedAt := now)];
      RevokeAllUserSessions(id, now);
      r := Ok(());
    }
  }
}
