/**
  The pruning statements. `ORDER BY ... LIMIT k` is read as picking the best remaining row
  k times; the theorems say which rows that keeps.
 */
module Pruning {
  import opened Basics
  import opened Sessions

  const REFRESH_SESSION_CAP := 256
  const REVOKED_ACCESS_CAP := 1024

  // ---------- The first k of a strictly ordered set ----------

  type Order = (int, int) -> bool

  ghost predicate Strict(ids: set<int>, above: Order) {
    && (forall i :: i in ids ==> !above(i, i))
    && (forall i, j :: i in ids && j in ids && i != j ==> above(i, j) || above(j, i))
    && (forall i, j, k :: i in ids && j in ids && k in ids && above(i, j) && above(j, k) ==> above(i, k))
  }

  ghost predicate IsBest(ids: set<int>, above: Order, b: int) {
    b in ids && forall j :: j in ids && j != b ==> above(b, j)
  }

  lemma {:induction false} BestExists(ids: set<int>, above: Order) returns (b: int)
    requires ids != {} && Strict(ids, above)
    ensures IsBest(ids, above, b)
    decreases |ids|
  {
    var x := SomeMember(ids);
    var rest := ids - {x};
    b := x;
    if rest != {} {
      var y := BestExists(rest, above);
      b := if above(x, y) then x else y;
      forall j | j in ids && j != b ensures above(b, j) {
        assert j == x || j in rest;
      }
    } else {
      assert ids == {x};
    }
  }

  ghost function Best(ids: set<int>, above: Order): (b: int)
    requires ids != {} && Strict(ids, above)
    ensures IsBest(ids, above, b)
  {
    assert exists b :: IsBest(ids, above, b) by {
      var b := BestExists(ids, above);
    }
    var b :| IsBest(ids, above, b);
    b
  }

  /** Take the best row, then the best of the rest, and so on, at most k times. */
  ghost function Top(ids: set<int>, above: Order, k: nat): set<int>
    requires Strict(ids, above)
    decreases k
  {
    if k == 0 || ids == {} then {} else
    var b := Best(ids, above);
    {b} + Top(ids - {b}, above, k - 1)
  }

  ghost function Outranking(ids: set<int>, above: Order, id: int): set<int> {
    set j | j in ids && above(j, id)
  }

  /** A row is among the first k exactly when fewer than k rows outrank it. */
  lemma {:induction false} TopIsRank(ids: set<int>, above: Order, k: nat, id: int)
    requires Strict(ids, above)
    ensures id in Top(ids, above, k) <==> id in ids && |Outranking(ids, above, id)| < k
    decreases k
  {
    if k > 0 && ids != {} {
      var b := Best(ids, above);
      TopIsRank(ids - {b}, above, k - 1, id);
      if id == b {
        forall j | j in ids ensures !above(j, b) {
          assert j != b ==> above(b, j);
        }
        assert Outranking(ids, above, b) == {};
      } else if id in ids {
        assert Outranking(ids, above, id) == Outranking(ids - {b}, above, id) + {b};
      }
    }
  }

  lemma {:induction false} TopSize(ids: set<int>, above: Order, k: nat)
    requires Strict(ids, above)
    ensures Top(ids, above, k) <= ids
    ensures |Top(ids, above, k)| == if |ids| < k then |ids| else k
    decreases k
  {
    if k > 0 && ids != {} {
      var b := Best(ids, above);
      TopSize(ids - {b}, above, k - 1);
    }
  }

  // ---------- Sessions: the newest 256 of each user ----------

  /** Rows whose lifetime is over at `now` go; a row expiring right now stays. */
  function ExpireSessions(sessions: SessionTable, now: Time): SessionTable {
    map id | id in sessions && sessions[id].expiresAt >= now :: sessions[id]
  }

  function SessionsOf(sessions: SessionTable, userId: int): set<TokenId> {
    set id | id in sessions && sessions[id].userId == userId
  }

  /** `ORDER BY issued_at DESC, id DESC`. */
  predicate Newer(sessions: SessionTable, i: TokenId, j: TokenId) {
    i in sessions && j in sessions
    && (sessions[i].issuedAt > sessions[j].issuedAt || (sessions[i].issuedAt == sessions[j].issuedAt && i > j))
  }

  ghost function NewerOrder(sessions: SessionTable): Order { (i, j) => Newer(sessions, i, j) }

  lemma NewerIsStrict(sessions: SessionTable, userId: int)
    ensures Strict(SessionsOf(sessions, userId), NewerOrder(sessions))
  {
  }

  ghost function CapSessions(sessions: SessionTable): SessionTable {
    map id | id in sessions && KeptByCap(sessions, id) :: sessions[id]
  }

  /** `id IN (SELECT id ... WHERE user_id = this row's user ORDER BY ... LIMIT 256)`. */
  ghost predicate KeptByCap(sessions: SessionTable, id: TokenId)
    requires id in sessions
  {
    var userId := sessions[id].userId;
    NewerIsStrict(sessions, userId);
    id in Top(SessionsOf(sessions, userId), NewerOrder(sessions), REFRESH_SESSION_CAP)
  }

  function NewerRows(sessions: SessionTable, id: TokenId): set<TokenId>
    requires id in sessions
  {
    set j | j in sessions && sessions[j].userId == sessions[id].userId && Newer(sessions, j, id)
  }

  lemma KeptByCapIsRank(sessions: SessionTable, id: TokenId)
    requires id in sessions
    ensures KeptByCap(sessions, id) <==> |NewerRows(sessions, id)| < REFRESH_SESSION_CAP
  {
    var userId := sessions[id].userId;
    NewerIsStrict(sessions, userId);
    TopIsRank(SessionsOf(sessions, userId), NewerOrder(sessions), REFRESH_SESSION_CAP, id);
    assert Outranking(SessionsOf(sessions, userId), NewerOrder(sessions), id) == NewerRows(sessions, id);
  }

  /**
    After both session statements of a prune, a user's rows are precisely the unexpired ones
    that fewer than 256 unexpired rows of the same user outrank; each is unchanged, and no
    user keeps more than 256.
   */
  lemma PruneKeepsTheNewest(sessions: SessionTable, now: Time, id: TokenId, userId: int)
    ensures var live := ExpireSessions(sessions, now);
            var after := CapSessions(live);
            && (id in after <==>
                 id in sessions && sessions[id].expiresAt >= now && |NewerRows(live, id)| < REFRESH_SESSION_CAP)
            && (id in after ==> after[id] == sessions[id])
            && |SessionsOf(after, userId)| <= REFRESH_SESSION_CAP
  {
    var live := ExpireSessions(sessions, now);
    var after := CapSessions(live);
    if id in live {
      KeptByCapIsRank(live, id);
    }
    NewerIsStrict(live, userId);
    var top := Top(SessionsOf(live, userId), NewerOrder(live), REFRESH_SESSION_CAP);
    TopSize(SessionsOf(live, userId), NewerOrder(live), REFRESH_SESSION_CAP);
    assert SessionsOf(after, userId) <= top;
    SubsetSize(SessionsOf(after, userId), top);
  }

  /** What is dropped although unexpired makes room for exactly 256 rows of its user. */
  lemma DroppedMakesRoom(sessions: SessionTable, now: Time, j: TokenId)
    requires j in sessions && sessions[j].expiresAt >= now && j !in CapSessions(ExpireSessions(sessions, now))
    ensures |SessionsOf(CapSessions(ExpireSessions(sessions, now)), sessions[j].userId)| == 256
  {
    var live, userId := ExpireSessions(sessions, now), sessions[j].userId;
    var ids, after := SessionsOf(live, userId), CapSessions(live);
    NewerIsStrict(live, userId);
    var top := Top(ids, NewerOrder(live), REFRESH_SESSION_CAP);
    TopSize(ids, NewerOrder(live), REFRESH_SESSION_CAP);
    assert j in ids && j !in top;
    if |ids| < REFRESH_SESSION_CAP {
      SubsetOfSameSize(top, ids);
    }
    assert SessionsOf(after, userId) == top;
  }

  /** Each of these is newer than what was dropped: issued later, or at the same time under a greater id. */
  lemma KeptOutrankDropped(sessions: SessionTable, now: Time, i: TokenId, j: TokenId)
    requires i in CapSessions(ExpireSessions(sessions, now))
    requires j in sessions && sessions[j].expiresAt >= now && j !in CapSessions(ExpireSessions(sessions, now))
    requires sessions[i].userId == sessions[j].userId
    ensures sessions[i].issuedAt > sessions[j].issuedAt || (sessions[i].issuedAt == sessions[j].issuedAt && i > j)
  {
    var live := ExpireSessions(sessions, now);
    KeptByCapIsRank(live, i);
    KeptByCapIsRank(live, j);
    if !(sessions[i].issuedAt > sessions[j].issuedAt || (sessions[i].issuedAt == sessions[j].issuedAt && i > j)) {
      assert NewerRows(live, j) <= NewerRows(live, i);
      SubsetSize(NewerRows(live, j), NewerRows(live, i));
    }
  }

  /** A session issued after all others of its user survives the prune made right then. */
  lemma NewestSurvives(sessions: SessionTable, now: Time, id: TokenId)
    requires id in sessions && sessions[id].expiresAt >= now
    requires forall k :: k in sessions && k != id && sessions[k].userId == sessions[id].userId ==>
               sessions[k].issuedAt < sessions[id].issuedAt
    ensures id in CapSessions(ExpireSessions(sessions, now))
  {
    var live := ExpireSessions(sessions, now);
    KeptByCapIsRank(live, id);
    assert NewerRows(live, id) == {};
  }

  /**
    So a consumed, unrevoked, unexpired session outranked by fewer than 256 of its user's rows
    is still recognized after a prune: presenting its token is reuse, not merely invalid.
   */
  lemma PruneKeepsReuseEvidence(
    sessions: SessionTable, pruneAt: Time, id: TokenId, presented: Token, newId: TokenId, newToken: Token, now: Time)
    requires id in sessions && Holding(sessions, presented) == {id} && newId != 0
    requires pruneAt <= now < sessions[id].expiresAt
    requires sessions[id].usedAt.Some? && sessions[id].revokedAt.None?
    requires |NewerRows(sessions, id)| < REFRESH_SESSION_CAP
    ensures var after := CapSessions(ExpireSessions(sessions, pruneAt));
            RotationOf(after, presented, newId, newToken, now) == Reused(sessions[id].userId)
  {
    var live := ExpireSessions(sessions, pruneAt);
    var after := CapSessions(live);
    assert NewerRows(live, id) <= NewerRows(sessions, id);
    SubsetSize(NewerRows(live, id), NewerRows(sessions, id));
    PruneKeepsTheNewest(sessions, pruneAt, id, sessions[id].userId);
    assert Holding(after, presented) == {id};
    assert Minimum({id}) == id;
  }

  // ---------- Denylist: 1024 of the latest-expiring per user ----------

  function ExpireDenylist(denylist: Denylist, now: Time): Denylist {
    map id | id in denylist && denylist[id].expiresAt >= now :: denylist[id]
  }

  function DeniedOf(denylist: Denylist, userId: int): set<TokenId> {
    set id | id in denylist && denylist[id].userId == userId
  }

  /**
    A choice of rows that `ORDER BY expires_at DESC LIMIT 1024` per user may return; ties are the database's
    to break.
   */
  ghost predicate IsCap(denylist: Denylist, kept: set<TokenId>) {
    && kept <= denylist.Keys
    && (forall userId :: CapOf(denylist, kept, userId))
  }

  ghost predicate CapOf(denylist: Denylist, kept: set<TokenId>, userId: int) {
    var all := DeniedOf(denylist, userId);
    && |all * kept| == (if |all| < REVOKED_ACCESS_CAP then |all| else REVOKED_ACCESS_CAP)
    && forall i, j :: i in all * kept && j in all - kept ==> denylist[i].expiresAt >= denylist[j].expiresAt
  }

  function CapDenylist(denylist: Denylist, kept: set<TokenId>): Denylist {
    map id | id in denylist && id in kept :: denylist[id]
  }

  /** What a cap drops makes room for exactly 1024 rows of its user. */
  lemma CapMakesRoom(denylist: Denylist, kept: set<TokenId>, j: TokenId)
    requires IsCap(denylist, kept) && j in denylist && j !in kept
    ensures |DeniedOf(CapDenylist(denylist, kept), denylist[j].userId)| == 1024
  {
    var all := DeniedOf(denylist, denylist[j].userId);
    assert CapOf(denylist, kept, denylist[j].userId);
    assert j in all - kept;
    if |all| < REVOKED_ACCESS_CAP {
      SubsetOfSameSize(all * kept, all);
    }
    assert DeniedOf(CapDenylist(denylist, kept), denylist[j].userId) == all * kept;
  }

  /** And each of these expires no earlier. */
  lemma CapKeepsTheLatest(denylist: Denylist, kept: set<TokenId>, i: TokenId, j: TokenId)
    requires IsCap(denylist, kept) && i in kept && j in denylist && j !in kept
    requires denylist[i].userId == denylist[j].userId
    ensures denylist[i].expiresAt >= denylist[j].expiresAt
  {
    var all := DeniedOf(denylist, denylist[j].userId);
    assert CapOf(denylist, kept, denylist[j].userId);
    assert i in all * kept && j in all - kept;
  }

  /** The same user's revocations that expire no earlier than this one, itself included. */
  function LastingAsLong(denylist: Denylist, id: TokenId): set<TokenId>
    requires id in denylist
  {
    set j | j in denylist && denylist[j].userId == denylist[id].userId
            && denylist[j].expiresAt >= denylist[id].expiresAt
  }

  /** A revocation with at most 1024 as long-lasting ones of its user survives every cap. */
  lemma CapKeepsLasting(denylist: Denylist, kept: set<TokenId>, id: TokenId)
    requires IsCap(denylist, kept) && id in denylist
    requires |LastingAsLong(denylist, id)| <= REVOKED_ACCESS_CAP
    ensures id in CapDenylist(denylist, kept)
  {
    var all := DeniedOf(denylist, denylist[id].userId);
    assert CapOf(denylist, kept, denylist[id].userId);
    assert id in all;
    if |all| <= REVOKED_ACCESS_CAP {
      SubsetOfSameSize(all * kept, all);
    } else if id !in kept {
      assert forall i :: i in all * kept ==> denylist[i].expiresAt >= denylist[id].expiresAt;
      assert all * kept + {id} <= LastingAsLong(denylist, id);
      SubsetSize(all * kept + {id}, LastingAsLong(denylist, id));
    }
  }

  /** Later expiry first; among equals, every other row before `last`. */
  ghost function EvictingOrder(denylist: Denylist, last: TokenId): Order {
    (i: int, j: int) =>
      i in denylist && j in denylist
      && (denylist[i].expiresAt > denylist[j].expiresAt
          || (denylist[i].expiresAt == denylist[j].expiresAt && i != last && (j == last || i < j)))
  }

  lemma EvictingOrderIsStrict(denylist: Denylist, last: TokenId, userId: int)
    ensures Strict(DeniedOf(denylist, userId), EvictingOrder(denylist, last))
  {
  }

  /** One admissible cap: the one that breaks ties against `last`. */
  ghost function CapAgainst(denylist: Denylist, last: TokenId): set<TokenId> {
    set id | id in denylist && TopOfUser(denylist, last, id)
  }

  ghost predicate TopOfUser(denylist: Denylist, last: TokenId, id: TokenId)
    requires id in denylist
  {
    EvictingOrderIsStrict(denylist, last, denylist[id].userId);
    id in Top(DeniedOf(denylist, denylist[id].userId), EvictingOrder(denylist, last), REVOKED_ACCESS_CAP)
  }

  lemma CapAgainstIsCapOf(denylist: Denylist, last: TokenId, userId: int)
    ensures CapOf(denylist, CapAgainst(denylist, last), userId)
  {
    var all, order, kept := DeniedOf(denylist, userId), EvictingOrder(denylist, last), CapAgainst(denylist, last);
    EvictingOrderIsStrict(denylist, last, userId);
    var top := Top(all, order, REVOKED_ACCESS_CAP);
    TopSize(all, order, REVOKED_ACCESS_CAP);
    assert all * kept == top;
    forall i, j | i in all * kept && j in all - kept ensures denylist[i].expiresAt >= denylist[j].expiresAt {
      TopIsRank(all, order, REVOKED_ACCESS_CAP, i);
      TopIsRank(all, order, REVOKED_ACCESS_CAP, j);
      if order(j, i) {
        assert Outranking(all, order, j) <= Outranking(all, order, i);
        SubsetSize(Outranking(all, order, j), Outranking(all, order, i));
      }
    }
  }

  /** The bound is exact: with more than 1024 as long-lasting ones, some admissible cap evicts the revocation. */
  lemma CapMayEvict(denylist: Denylist, id: TokenId)
    requires id in denylist && |LastingAsLong(denylist, id)| > REVOKED_ACCESS_CAP
    ensures IsCap(denylist, CapAgainst(denylist, id)) && id !in CapAgainst(denylist, id)
  {
    forall userId ensures CapOf(denylist, CapAgainst(denylist, id), userId) {
      CapAgainstIsCapOf(denylist, id, userId);
    }
    var userId := denylist[id].userId;
    var all, order := DeniedOf(denylist, userId), EvictingOrder(denylist, id);
    EvictingOrderIsStrict(denylist, id, userId);
    TopIsRank(all, order, REVOKED_ACCESS_CAP, id);
    assert Outranking(all, order, id) == LastingAsLong(denylist, id) - {id};
  }
}
