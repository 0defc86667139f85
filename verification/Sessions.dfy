/**
  Refresh sessions, the access-token denylist and session tokens. Every function is one
  database statement or transaction, or one pure step around it.
 */
module Sessions {
  import opened Basics
  import opened Accounts

  const ACCESS_LIFETIME: Time := 3 * HOUR
  const REFRESH_LIFETIME: Time := 7 * 24 * HOUR

  /** A token identifier: the number its 32 hexadecimal digits spell. Zero stands for the empty text. */
  type TokenId = int

  datatype Issuer = AccessIssuer | RefreshIssuer

  /** A signed token is its claims; signing cannot be forged, and its digest is as good as the token itself. */
  datatype Token = Token(
    issuer: Issuer, username: string, userId: int, version: int, id: TokenId, issuedAt: Time, expiresAt: Time)

  function Lifetime(issuer: Issuer): Time {
    if issuer.AccessIssuer? then ACCESS_LIFETIME else REFRESH_LIFETIME
  }

  /** `mintSessionToken`. */
  function Mint(issuer: Issuer, userId: int, user: User, id: TokenId, now: Time): Option<Token> {
    if user.username == "" || userId < 1 || id == 0 || user.version < 0 then None
    else Some(Token(issuer, user.username, userId, user.version, id, now, now + Lifetime(issuer)))
  }

  /** `validateSessionToken` on a token whose signature is good. */
  predicate ValidToken(t: Token, issuer: Issuer, now: Time) {
    && t.issuer == issuer && t.id != 0 && t.userId >= 1 && t.username != "" && t.version >= 0
    && t.issuedAt <= now < t.expiresAt
  }

  /** When a token can be minted, and its claims: those of the row, for three hours or for seven days. */
  lemma MintedClaims(issuer: Issuer, userId: int, user: User, id: TokenId, now: Time)
    ensures var t := Mint(issuer, userId, user, id, now);
            && (t.Some? <==> user.username != "" && user.version >= 0 && userId >= 1 && id != 0)
            && (t.Some? ==>
                  && t.value.issuer == issuer && t.value.id == id && t.value.userId == userId
                  && t.value.username == user.username && t.value.version == user.version && t.value.issuedAt == now
                  && t.value.expiresAt ==
                       now + (if issuer == AccessIssuer then 10_800_000_000_000 else 604_800_000_000_000))
  {
  }

  /** A minted token is good for its lifetime from its minting on, and never as the other kind. */
  lemma MintedTokenWindow(issuer: Issuer, userId: int, user: User, id: TokenId, now: Time, asked: Issuer, at: Time)
    requires Mint(issuer, userId, user, id, now).Some?
    ensures ValidToken(Mint(issuer, userId, user, id, now).value, asked, at) <==>
              asked == issuer && now <= at < now + (if issuer == AccessIssuer then 3 * HOUR else 168 * HOUR)
  {
  }

  /** The credential-generation check made by the middleware and by a refresh. */
  predicate VersionAgrees(users: Users, t: Token) {
    t.userId in users && users[t.userId].username == t.username && users[t.userId].version == t.version
  }

  datatype Session = Session(
    userId: int, token: Token, issuedAt: Time, expiresAt: Time,
    usedAt: Option<Time>, replacedBy: TokenId, revokedAt: Option<Time>)

  type SessionTable = map<TokenId, Session>

  function NewSession(userId: int, token: Token, issuedAt: Time, expiresAt: Time): Session {
    Session(userId, token, issuedAt, expiresAt, None, 0, None)
  }

  function Holding(sessions: SessionTable, t: Token): set<TokenId> {
    set id | id in sessions && sessions[id].token == t
  }

  /** An insertion respects the primary key and the unique digest index. */
  predicate MayCreate(sessions: SessionTable, id: TokenId, t: Token) {
    id !in sessions && Holding(sessions, t) == {}
  }

  function CreateSession(sessions: SessionTable, id: TokenId, s: Session): Option<SessionTable> {
    if s.userId < 1 || id == 0 || !MayCreate(sessions, id, s.token) then None else Some(sessions[id := s])
  }

  datatype Rotation =
    | Rotated(id: TokenId, consumed: Session)
    | Reused(userId: int)
    | InvalidSession
    | StoreFailed

  /** What the rotation transaction finds; only `Rotated` commits. */
  function RotationOf(sessions: SessionTable, presented: Token, newId: TokenId, newToken: Token, now: Time): Rotation {
    if newId == 0 || Holding(sessions, presented) == {} then InvalidSession else
    var id := Minimum(Holding(sessions, presented));
    var s := sessions[id];
    if s.revokedAt.Some? || s.expiresAt <= now then InvalidSession
    else if s.usedAt.Some? then Reused(s.userId)
    else if !MayCreate(sessions, newId, newToken) then StoreFailed
    else Rotated(id, s.(usedAt := Some(now), replacedBy := newId))
  }

  function RotateTx(
    sessions: SessionTable, presented: Token, newId: TokenId, newToken: Token,
    issuedAt: Time, expiresAt: Time, now: Time)
    : SessionTable
  {
    match RotationOf(sessions, presented, newId, newToken, now)
    case Rotated(id, consumed) =>
      sessions[id := consumed][newId := NewSession(consumed.userId, newToken, issuedAt, expiresAt)]
    case _ => sessions
  }

  // ---------- What a rotation decides and does, row by row ----------

  /** Row `id`, and no other, holds this token: what the unique digest index guarantees of every stored token. */
  predicate OnlyHolder(sessions: SessionTable, t: Token, id: TokenId) {
    && id in sessions && sessions[id].token == t
    && forall other :: other in sessions && sessions[other].token == t ==> other == id
  }

  /** Neither the new session's id nor its token is taken. */
  predicate Vacant(sessions: SessionTable, id: TokenId, t: Token) {
    id !in sessions && forall other :: other in sessions ==> sessions[other].token != t
  }

  lemma HolderIsFound(sessions: SessionTable, t: Token, id: TokenId)
    requires OnlyHolder(sessions, t, id)
    ensures Holding(sessions, t) != {} && Minimum(Holding(sessions, t)) == id
  {
    assert id in Holding(sessions, t);
  }

  lemma UnheldIsEmpty(sessions: SessionTable, t: Token)
    ensures Holding(sessions, t) == {} <==> forall id :: id in sessions ==> sessions[id].token != t
  {
    var holders := Holding(sessions, t);
    if holders == {} {
      forall id | id in sessions ensures sessions[id].token != t {
        assert id !in holders;
      }
    } else {
      var id := SomeMember(holders);
      assert sessions[id].token == t;
    }
  }

  lemma VacantMayCreate(sessions: SessionTable, id: TokenId, t: Token)
    ensures MayCreate(sessions, id, t) <==> Vacant(sessions, id, t)
  {
    UnheldIsEmpty(sessions, t);
  }

  /**
    Every verdict and exactly when it is given: a live, unused session rotates; a live, used one is a replay of its
    owner's token; a revoked or expired one is invalid; and only a taken id or token fails the store.
   */
  lemma RotationVerdicts(
    sessions: SessionTable, presented: Token, id: TokenId, newId: TokenId, newToken: Token, now: Time)
    requires OnlyHolder(sessions, presented, id) && newId != 0
    ensures var verdict := RotationOf(sessions, presented, newId, newToken, now);
            var row, vacant := sessions[id], Vacant(sessions, newId, newToken);
            && (row.revokedAt != None || row.expiresAt <= now ==> verdict == InvalidSession)
            && (row.revokedAt == None && now < row.expiresAt && row.usedAt != None ==> verdict == Reused(row.userId))
            && (row.revokedAt == None && now < row.expiresAt && row.usedAt == None && !vacant ==>
                  verdict == StoreFailed)
            && (row.revokedAt == None && now < row.expiresAt && row.usedAt == None && vacant ==>
                  verdict.Rotated? && verdict.id == id)
  {
    HolderIsFound(sessions, presented, id);
    VacantMayCreate(sessions, newId, newToken);
  }

  /** A token that no row holds is invalid, whatever else is in the table. */
  lemma UnknownIsInvalid(sessions: SessionTable, presented: Token, newId: TokenId, newToken: Token, now: Time)
    requires forall id :: id in sessions ==> sessions[id].token != presented
    ensures RotationOf(sessions, presented, newId, newToken, now) == InvalidSession
  {
    UnheldIsEmpty(sessions, presented);
  }

  /**
    The table after a rotation: the presented row is consumed in favour of the new one, which belongs to the same
    user and is unused and unrevoked; every other row is as before.
   */
  lemma RotationEffect(
    sessions: SessionTable, presented: Token, id: TokenId, newId: TokenId, newToken: Token,
    issuedAt: Time, expiresAt: Time, now: Time, other: TokenId)
    requires OnlyHolder(sessions, presented, id) && newId != 0 && Vacant(sessions, newId, newToken)
    requires sessions[id].revokedAt == None && sessions[id].usedAt == None && now < sessions[id].expiresAt
    ensures var after := RotateTx(sessions, presented, newId, newToken, issuedAt, expiresAt, now);
            && after.Keys == sessions.Keys + {newId}
            && after[id].usedAt == Some(now) && after[id].replacedBy == newId
            && after[id] == sessions[id].(usedAt := Some(now), replacedBy := newId)
            && after[newId] == Session(sessions[id].userId, newToken, issuedAt, expiresAt, None, 0, None)
            && (other in sessions && other != id ==> after[other] == sessions[other])
  {
    RotationVerdicts(sessions, presented, id, newId, newToken, now);
    HolderIsFound(sessions, presented, id);
  }

  function Retire(s: Session, now: Time): Session {
    if s.revokedAt.None? then s.(revokedAt := Some(now)) else s
  }

  function RevokeUserSessions(sessions: SessionTable, userId: int, now: Time): SessionTable {
    map id | id in sessions :: if sessions[id].userId == userId then Retire(sessions[id], now) else sessions[id]
  }

  function RevokeSession(sessions: SessionTable, userId: int, sessionId: TokenId, now: Time): SessionTable {
    if sessionId in sessions && sessions[sessionId].userId == userId
    then sessions[sessionId := Retire(sessions[sessionId], now)] else sessions
  }

  function DropUserSessions(sessions: SessionTable, userId: int): SessionTable {
    map id | id in sessions && sessions[id].userId != userId :: sessions[id]
  }

  datatype Revocation = Revocation(userId: int, expiresAt: Time)

  type Denylist = map<TokenId, Revocation>

  /** Insert, or do nothing if the identifier is denied already. */
  function Deny(denylist: Denylist, id: TokenId, userId: int, expiresAt: Time): Denylist {
    if id in denylist then denylist else denylist[id := Revocation(userId, expiresAt)]
  }
}
