/**
  The other half of the session theorems: not only does nothing wrong happen, what should happen does. A genuine
  refresh rotates, a replay starts its containment, and a login ends in a token that is accepted.
 */
module Progress {
  import opened Basics
  import opened Accounts
  import opened Sessions
  import opened SessionRuns
  import opened Containment

  /** A process about to rotate, and the stored row of the token it presents. */
  predicate AboutToRotate(s: State, a: Action, id: TokenId) {
    && a.Rotate? && a.pid in s.processes && s.processes[a.pid].RefreshMinted?
    && id in s.sessions && s.sessions[id].token == s.processes[a.pid].presented
  }

  lemma RowIsOnlyHolder(s: State, id: TokenId)
    requires RowsAgree(s) && id in s.sessions
    ensures OnlyHolder(s.sessions, s.sessions[id].token, id)
  {
    assert RowAgrees(s.history, id, s.sessions[id]);
    forall other | other in s.sessions && s.sessions[other].token == s.sessions[id].token ensures other == id {
      assert RowAgrees(s.history, other, s.sessions[other]);
    }
  }

  /** There is always room for a pending pair. */
  lemma PendingIsVacant(s: State, pid: int)
    requires Inv(s) && pid in s.processes && Pending(s.processes[pid]) != 0
    ensures Vacant(s.sessions, Pending(s.processes[pid]), s.processes[pid].refresh)
  {
    forall id | id in s.sessions
      ensures id != Pending(s.processes[pid]) && s.sessions[id].token != s.processes[pid].refresh
    {
      assert RowAgrees(s.history, id, s.sessions[id]);
    }
  }

  /**
    A refresh that reaches its rotation with a stored, unused, unrevoked, unexpired session rotates it: the row is
    consumed in favour of the new one, which is live and of the same user; the client gets the new pair; and no
    other row changes. Whatever ran before makes no difference.
   */
  lemma LiveSessionRotates(states: seq<State>, actions: seq<Action>, i: nat, id: TokenId, other: TokenId)
    requires IsRun(states, actions) && i < |actions| && AboutToRotate(states[i], actions[i], id)
    requires states[i].sessions[id].usedAt == None && states[i].sessions[id].revokedAt == None
    requires states[i].processes[actions[i].pid].now < states[i].sessions[id].expiresAt
    ensures Consumes(states, actions, i, id)
    ensures var s, t, p := states[i], states[i + 1], states[i].processes[actions[i].pid];
            && t.sessions.Keys == s.sessions.Keys + {p.refresh.id}
            && t.sessions[id] == s.sessions[id].(usedAt := Some(p.now), replacedBy := p.refresh.id)
            && t.sessions[p.refresh.id] ==
                 Session(s.sessions[id].userId, p.refresh, p.now, p.now + REFRESH_LIFETIME, None, 0, None)
            && (other in s.sessions && other != id ==> t.sessions[other] == s.sessions[other])
            && t.issued == s.issued + {p.access, p.refresh}
  {
    RunInv(states, actions, i);
    assert StepAt(states, actions, i);
    var s, p := states[i], states[i].processes[actions[i].pid];
    RowIsOnlyHolder(s, id);
    PendingIsVacant(s, actions[i].pid);
    RotationVerdicts(s.sessions, p.presented, id, p.refresh.id, p.refresh, p.now);
    RotationEffect(
      s.sessions, p.presented, id, p.refresh.id, p.refresh, p.now, p.now + REFRESH_LIFETIME, p.now, other);
  }

  /** With a used row it is a replay: nothing is handed out or stored, and the containment of its owner begins. */
  lemma ReplayStartsContainment(states: seq<State>, actions: seq<Action>, i: nat, id: TokenId)
    requires IsRun(states, actions) && i < |actions| && AboutToRotate(states[i], actions[i], id)
    requires states[i].sessions[id].usedAt != None && states[i].sessions[id].revokedAt == None
    requires states[i].processes[actions[i].pid].now < states[i].sessions[id].expiresAt
    ensures var s, t, pid := states[i], states[i + 1], actions[i].pid;
            && t.sessions == s.sessions && t.issued == s.issued
            && t.processes == s.processes[pid := FamilyRevoking(s.sessions[id].userId, s.processes[pid].now)]
  {
    RunInv(states, actions, i);
    assert StepAt(states, actions, i);
    var s, p := states[i], states[i].processes[actions[i].pid];
    RowIsOnlyHolder(s, id);
    RotationVerdicts(s.sessions, p.presented, id, p.refresh.id, p.refresh, p.now);
  }

  /** Containment, once begun, revokes every session of the owner and then raises the owner's version by one. */
  lemma ContainmentProceeds(s: State, pid: int, userId: int, now: Time, t: State, u: State, id: TokenId)
    requires pid in s.processes && s.processes[pid] == FamilyRevoking(userId, now)
    requires Next(s, RevokeFamily(pid), t) && Next(t, BumpFamily(pid), u)
    ensures t.sessions.Keys == s.sessions.Keys && u.sessions == t.sessions
    ensures id in t.sessions ==>
              && (t.sessions[id].userId == userId ==> t.sessions[id].revokedAt != None)
              && (t.sessions[id].userId != userId ==> t.sessions[id] == s.sessions[id])
    ensures u.users.Keys == s.users.Keys
    ensures userId in u.users ==> u.users[userId].version == s.users[userId].version + 1
    ensures pid in u.processes && u.processes[pid] == Done
  {
  }

  /** Revoked or expired, it is refused, and nothing changes but the process. */
  lemma DeadSessionIsRefused(states: seq<State>, actions: seq<Action>, i: nat, id: TokenId)
    requires IsRun(states, actions) && i < |actions| && AboutToRotate(states[i], actions[i], id)
    requires || states[i].sessions[id].revokedAt != None
             || states[i].sessions[id].expiresAt <= states[i].processes[actions[i].pid].now
    ensures var s, t := states[i], states[i + 1];
            t.sessions == s.sessions && t.issued == s.issued && t.processes == s.processes[actions[i].pid := Done]
  {
    RunInv(states, actions, i);
    assert StepAt(states, actions, i);
    var s, p := states[i], states[i].processes[actions[i].pid];
    RowIsOnlyHolder(s, id);
    RotationVerdicts(s.sessions, p.presented, id, p.refresh.id, p.refresh, p.now);
  }

  // ---------- Undisturbed requests ----------

  /** The four steps of a login by a stored user. */
  lemma LoginMints(s: State, pid: int, userId: int, id: TokenId) returns (s1: State, s2: State, s3: State)
    requires pid !in s.processes && userId in s.users && userId >= 1 && id != 0 && id !in s.mints
    requires s.users[userId].username != "" && s.users[userId].version >= 0
    ensures Next(s, BeginLogin(pid, userId), s1) && Next(s1, ReadForLogin(pid), s2) && Next(s2, MintLogin(pid, id), s3)
    ensures pid in s3.processes && s3.processes[pid].LoginMinted? && s3.processes[pid].now == s.clock
    ensures Mint(AccessIssuer, userId, s.users[userId], id, s.clock) == Some(s3.processes[pid].access)
    ensures Mint(RefreshIssuer, userId, s.users[userId], id, s.clock) == Some(s3.processes[pid].refresh)
    ensures s3 == s.(step := s3.step, processes := s3.processes, mints := s3.mints)
  {
    var user := s.users[userId];
    s1 := Move(s, pid, LoginBegun(userId, s.clock));
    s2 := Move(s1, pid, LoginRead(userId, user, s1.step, s.clock));
    var access, refresh :=
      Mint(AccessIssuer, userId, user, id, s.clock).value, Mint(RefreshIssuer, userId, user, id, s.clock).value;
    s3 := Move(s2, pid, LoginMinted(access, refresh, s.clock)).(mints := s2.mints[id := s1.step]);
    assert MintLoginStep(s2, pid, id, s3);
  }

  /** Its last step records a live session of the user and hands both tokens out. */
  lemma LoginRecords(s: State, pid: int) returns (t: State)
    requires Inv(s) && pid in s.processes && s.processes[pid].LoginMinted?
    ensures Next(s, RecordLogin(pid), t)
    ensures var p := s.processes[pid];
            && t.issued == s.issued + {p.access, p.refresh}
            && t.sessions == s.sessions[p.refresh.id :=
                 Session(p.refresh.userId, p.refresh, p.now, p.now + REFRESH_LIFETIME, None, 0, None)]
    ensures t.users == s.users && t.denylist == s.denylist && t.clock == s.clock
    ensures t.processes == s.processes[pid := Done]
  {
    var p := s.processes[pid];
    PendingIsVacant(s, pid);
    VacantMayCreate(s.sessions, p.refresh.id, p.refresh);
    var row := NewSession(p.refresh.userId, p.refresh, p.now, p.now + REFRESH_LIFETIME);
    t := Move(s, pid, Done).(
      sessions := s.sessions[p.refresh.id := row],
      issued := s.issued + {p.access, p.refresh},
      history := Recorded(s.history, p.refresh.userId, 0, p.refresh.id));
    assert CreateSession(s.sessions, p.refresh.id, row) == Some(t.sessions);
    assert RecordLoginStep(s, pid, t);
  }

  /** A request with an issued token inside its lifetime passes the version check if the user's row still agrees. */
  lemma AccessPasses(s: State, pid: int, token: Token) returns (s1: State, s2: State)
    requires pid !in s.processes && token in s.issued && ValidToken(token, AccessIssuer, s.clock)
    requires VersionAgrees(s.users, token)
    ensures Next(s, BeginAccess(pid, token), s1) && Next(s1, ReadVersion(pid), s2)
    ensures pid in s2.processes && s2.processes[pid] == AccessVersioned(token, s1.step) && s2.denylist == s.denylist
  {
    s1 := Move(s, pid, AccessBegun(token));
    s2 := Move(s1, pid, AccessVersioned(token, s1.step));
  }

  lemma MintsKeepInv(s0: State, a0: Action, s1: State, a1: Action, s2: State, a2: Action, s3: State)
    requires Inv(s0) && Next(s0, a0, s1) && Next(s1, a1, s2) && Next(s2, a2, s3)
    ensures Inv(s3)
  {
    NextInv(s0, a0, s1);
    NextInv(s1, a1, s2);
    NextInv(s2, a2, s3);
  }

  /** Nobody can have denied a token whose id is still pending. */
  lemma PendingIsNotDenied(s: State, pid: int)
    requires Inv(s) && pid in s.processes && Pending(s.processes[pid]) != 0
    ensures Pending(s.processes[pid]) !in s.denylist
  {
    assert s.denylist.Keys <= s.history.Keys;
  }

  lemma MintedIsGood(s: State, userId: int, id: TokenId, token: Token)
    requires userId in s.users && Mint(AccessIssuer, userId, s.users[userId], id, s.clock) == Some(token)
    ensures token.userId == userId && token.id == id
    ensures ValidToken(token, AccessIssuer, s.clock) && VersionAgrees(s.users, token)
  {
    MintedTokenWindow(AccessIssuer, userId, s.users[userId], id, s.clock, AccessIssuer, s.clock);
  }

  /**
    In every reachable state a stored user can log in. The access token handed out is valid, agrees with the user's row
    and is not denied, so that by `AccessPasses` a request with it is accepted.
   */
  lemma LoginSucceeds(states: seq<State>, actions: seq<Action>, i: nat, pid: int, userId: int, id: TokenId)
    returns (s1: State, s2: State, s3: State, s4: State, token: Token)
    requires IsRun(states, actions) && i < |states| && pid !in states[i].processes
    requires userId in states[i].users && userId >= 1 && id != 0 && id !in states[i].mints
    requires states[i].users[userId].username != "" && states[i].users[userId].version >= 0
    ensures Next(states[i], BeginLogin(pid, userId), s1) && Next(s1, ReadForLogin(pid), s2)
    ensures Next(s2, MintLogin(pid, id), s3) && Next(s3, RecordLogin(pid), s4)
    ensures token in s4.issued && token.userId == userId && token.id == id
    ensures ValidToken(token, AccessIssuer, s4.clock) && VersionAgrees(s4.users, token) && token.id !in s4.denylist
    ensures id in s4.sessions && s4.sessions[id].usedAt == None && s4.sessions[id].revokedAt == None
    ensures s4.sessions[id].userId == userId && s4.sessions[id].expiresAt == states[i].clock + REFRESH_LIFETIME
    ensures s4.users == states[i].users && s4.clock == states[i].clock
  {
    RunInv(states, actions, i);
    s1, s2, s3 := LoginMints(states[i], pid, userId, id);
    MintsKeepInv(states[i], BeginLogin(pid, userId), s1, ReadForLogin(pid), s2, MintLogin(pid, id), s3);
    token := s3.processes[pid].access;
    PendingIsNotDenied(s3, pid);
    MintedIsGood(states[i], userId, id, token);
    s4 := LoginRecords(s3, pid);
  }

  /**
    A client can always refresh with an issued, valid token whose user row still agrees: three steps lead to the
    rotation, and with a stored session that is unused, unrevoked and unexpired `LiveSessionRotates` to success.
   */
  lemma GenuineRefreshReachesRotation(s: State, pid: int, token: Token, id: TokenId)
    returns (s1: State, s2: State, s3: State)
    requires pid !in s.processes && token in s.issued && ValidToken(token, RefreshIssuer, s.clock)
    requires VersionAgrees(s.users, token) && id != 0 && id !in s.mints
    ensures Next(s, BeginRefresh(pid, token), s1) && Next(s1, ReadForRefresh(pid), s2)
    ensures Next(s2, MintRefresh(pid, id), s3)
    ensures pid in s3.processes && s3.processes[pid].RefreshMinted?
    ensures s3.processes[pid].presented == token && s3.processes[pid].now == s.clock
    ensures Mint(AccessIssuer, token.userId, s.users[token.userId], id, s.clock) == Some(s3.processes[pid].access)
    ensures Mint(RefreshIssuer, token.userId, s.users[token.userId], id, s.clock) == Some(s3.processes[pid].refresh)
    ensures s3 == s.(step := s3.step, processes := s3.processes, mints := s3.mints)
  {
    var userId, user := token.userId, s.users[token.userId];
    s1 := Move(s, pid, RefreshBegun(token, s.clock));
    s2 := Move(s1, pid, RefreshRead(token, user, s1.step, s.clock));
    var access, refresh :=
      Mint(AccessIssuer, userId, user, id, s.clock).value, Mint(RefreshIssuer, userId, user, id, s.clock).value;
    s3 := Move(s2, pid, RefreshMinted(token, access, refresh, s.clock)).(mints := s2.mints[id := s1.step]);
    assert MintRefreshStep(s2, pid, id, s3);
  }
}
