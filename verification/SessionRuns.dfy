/**
  Logins, refreshes, access checks and logouts of any number of clients, each split at every
  statement it sends to the database, interleaved with one another, with prunes, and with
  the operations that change a user row. Refresh rotation follows section 4.14.2 of RFC 9700.
 */
module SessionRuns {
  import opened Basics
  import opened Accounts
  import opened Sessions
  import opened Pruning

  /** One request in flight. `now` is the time its handler captured, `readAt` the step that read the user row. */
  datatype Process =
    | LoginBegun(userId: int, now: Time)
    | LoginRead(userId: int, user: User, readAt: nat, now: Time)
    | LoginMinted(access: Token, refresh: Token, now: Time)
    | RefreshBegun(presented: Token, now: Time)
    | RefreshRead(presented: Token, user: User, readAt: nat, now: Time)
    | RefreshMinted(presented: Token, access: Token, refresh: Token, now: Time)
    | FamilyRevoking(userId: int, now: Time)
    | FamilyBumping(userId: int)
    | AccessBegun(token: Token)
    | AccessVersioned(token: Token, readAt: nat)
    | LogoutBegun(token: Token)
    | LogoutRevoked(token: Token)
    | Done

  /** A session ever recorded: whose it is, what it replaced and what replaced it (0 for nothing), and its ordinal. */
  datatype Link = Link(userId: int, previous: TokenId, next: TokenId, born: nat)

  type History = map<TokenId, Link>

  /**
    The database tables and processes, plus what the theorems speak about: the tokens handed to
    clients, the step that read the user row behind each token id, and every session ever recorded.
   */
  datatype State = State(
    clock: Time, step: nat,
    users: Users, sessions: SessionTable, denylist: Denylist,
    processes: map<int, Process>,
    issued: set<Token>, mints: map<TokenId, nat>, history: History)

  datatype Action =
    | Tick(to: Time)
    | BeginLogin(pid: int, userId: int)
    | ReadForLogin(pid: int)
    | MintLogin(pid: int, id: TokenId)
    | RecordLogin(pid: int)
    | BeginRefresh(pid: int, token: Token)
    | ReadForRefresh(pid: int)
    | MintRefresh(pid: int, id: TokenId)
    | Rotate(pid: int)
    | RevokeFamily(pid: int)
    | BumpFamily(pid: int)
    | BeginAccess(pid: int, token: Token)
    | ReadVersion(pid: int)
    | CheckDenylist(pid: int)
    | BeginLogout(pid: int, token: Token)
    | LogoutRevoke(pid: int)
    | LogoutDeny(pid: int)
    | Bump(userId: int)
    | RevokeAll(userId: int)
    | Reset(userId: int)
    | Update(userId: int, username: string, profile: Profile)
    | Remove(userId: int)
    | PruneSessions(now: Time)
    | PruneDenylist(now: Time)
    | CapSessionRows
    | CapDenyRows(kept: set<TokenId>)

  function Move(s: State, pid: int, p: Process): State {
    s.(step := s.step + 1, processes := s.processes[pid := p])
  }

  function Onward(s: State): State { s.(step := s.step + 1) }

  predicate At(s: State, pid: int) { pid in s.processes }

  /** A token a client can present: handed out by this service, for this purpose, and not expired. */
  predicate Presentable(s: State, t: Token, issuer: Issuer) {
    t in s.issued && ValidToken(t, issuer, s.clock)
  }

  function Recorded(h: History, userId: int, previous: TokenId, id: TokenId): History {
    var linked := if previous in h then h[previous := h[previous].(next := id)] else h;
    linked[id := Link(userId, previous, 0, |h|)]
  }

  predicate MintLoginStep(s: State, pid: int, id: TokenId, t: State) {
    At(s, pid) && s.processes[pid].LoginRead? && id !in s.mints
    && var p := s.processes[pid];
       var access := Mint(AccessIssuer, p.userId, p.user, id, s.clock);
       var refresh := Mint(RefreshIssuer, p.userId, p.user, id, s.clock);
       if access.None? || refresh.None? then t == Move(s, pid, Done)
       else t == Move(s, pid, LoginMinted(access.value, refresh.value, p.now)).(mints := s.mints[id := p.readAt])
  }

  predicate RecordLoginStep(s: State, pid: int, t: State) {
    At(s, pid) && s.processes[pid].LoginMinted?
    && var p := s.processes[pid];
       var made := CreateSession(
         s.sessions, p.refresh.id, NewSession(p.refresh.userId, p.refresh, p.now, p.now + REFRESH_LIFETIME));
       t == Move(s, pid, Done).(
              sessions := if made.Some? then made.value else s.sessions,
              issued := if made.Some? then s.issued + {p.access, p.refresh} else s.issued,
              history := if made.Some? then Recorded(s.history, p.refresh.userId, 0, p.refresh.id) else s.history)
  }

  predicate MintRefreshStep(s: State, pid: int, id: TokenId, t: State) {
    At(s, pid) && s.processes[pid].RefreshRead? && id !in s.mints
    && var p := s.processes[pid];
       var access := Mint(AccessIssuer, p.presented.userId, p.user, id, s.clock);
       var refresh := Mint(RefreshIssuer, p.presented.userId, p.user, id, s.clock);
       if access.None? || refresh.None? then t == Move(s, pid, Done)
       else t == Move(s, pid, RefreshMinted(p.presented, access.value, refresh.value, p.now)).(
                   mints := s.mints[id := p.readAt])
  }

  predicate RotateStep(s: State, pid: int, t: State) {
    At(s, pid) && s.processes[pid].RefreshMinted?
    && var p := s.processes[pid];
       var id := p.refresh.id;
       var found := RotationOf(s.sessions, p.presented, id, p.refresh, p.now);
       t == Move(s, pid, if found.Reused? then FamilyRevoking(found.userId, p.now) else Done).(
              sessions := RotateTx(s.sessions, p.presented, id, p.refresh, p.now, p.now + REFRESH_LIFETIME, p.now),
              issued := if found.Rotated? then s.issued + {p.access, p.refresh} else s.issued,
              history := if found.Rotated? then Recorded(s.history, found.consumed.userId, found.id, id) else s.history)
  }

  /** The steps of `IssueLoginSession`: read the user row, mint the pair, record the session. */
  predicate NextLogin(s: State, a: Action, t: State) {
    match a
    case BeginLogin(pid, userId) => pid !in s.processes && t == Move(s, pid, LoginBegun(userId, s.clock))
    case ReadForLogin(pid) =>
      At(s, pid) && s.processes[pid].LoginBegun?
      && var p := s.processes[pid];
         t == Move(s, pid, if p.userId in s.users then LoginRead(p.userId, s.users[p.userId], s.step, p.now) else Done)
    case MintLogin(pid, id) => MintLoginStep(s, pid, id, t)
    case RecordLogin(pid) => RecordLoginStep(s, pid, t)
    case _ => false
  }

  /** The steps of `IssueRefreshedTokens`: read and compare the user row, mint the replacement pair, rotate. */
  predicate NextRefresh(s: State, a: Action, t: State) {
    match a
    case BeginRefresh(pid, token) =>
      pid !in s.processes && Presentable(s, token, RefreshIssuer) && t == Move(s, pid, RefreshBegun(token, s.clock))
    case ReadForRefresh(pid) =>
      At(s, pid) && s.processes[pid].RefreshBegun?
      && var p := s.processes[pid];
         t == Move(s, pid,
                if VersionAgrees(s.users, p.presented)
                then RefreshRead(p.presented, s.users[p.presented.userId], s.step, p.now) else Done)
    case MintRefresh(pid, id) => MintRefreshStep(s, pid, id, t)
    case Rotate(pid) => RotateStep(s, pid, t)
    case _ => false
  }

  /** What a detected replay does, the access middleware, and `LogoutSession`. */
  predicate NextRequest(s: State, a: Action, t: State) {
    match a
    case RevokeFamily(pid) =>
      At(s, pid) && s.processes[pid].FamilyRevoking?
      && var p := s.processes[pid];
         t == Move(s, pid, FamilyBumping(p.userId)).(sessions := RevokeUserSessions(s.sessions, p.userId, p.now))
    case BumpFamily(pid) =>
      At(s, pid) && s.processes[pid].FamilyBumping?
      && t == Move(s, pid, Done).(users := BumpVersion(s.users, s.processes[pid].userId, s.clock))
    case BeginAccess(pid, token) =>
      pid !in s.processes && Presentable(s, token, AccessIssuer) && t == Move(s, pid, AccessBegun(token))
    case ReadVersion(pid) =>
      At(s, pid) && s.processes[pid].AccessBegun?
      && var p := s.processes[pid];
         t == Move(s, pid, if VersionAgrees(s.users, p.token) then AccessVersioned(p.token, s.step) else Done)
    case CheckDenylist(pid) => At(s, pid) && s.processes[pid].AccessVersioned? && t == Move(s, pid, Done)
    case BeginLogout(pid, token) =>
      pid !in s.processes && Presentable(s, token, AccessIssuer) && t == Move(s, pid, LogoutBegun(token))
    case LogoutRevoke(pid) =>
      At(s, pid) && s.processes[pid].LogoutBegun?
      && var p := s.processes[pid];
         t == Move(s, pid, LogoutRevoked(p.token)).(
                sessions := RevokeSession(s.sessions, p.token.userId, p.token.id, s.clock))
    case LogoutDeny(pid) =>
      At(s, pid) && s.processes[pid].LogoutRevoked?
      && var p := s.processes[pid];
         t == Move(s, pid, Done).(denylist := Deny(s.denylist, p.token.id, p.token.userId, p.token.expiresAt))
    case _ => false
  }

  /**
    Time, the statements of logout-all, password changes and resets, profile edits, deletions, and the prune
    statements.
   */
  ghost predicate NextStore(s: State, a: Action, t: State) {
    match a
    case Tick(to) => s.clock <= to && t == Onward(s).(clock := to)
    case Bump(userId) => t == Onward(s).(users := BumpVersion(s.users, userId, s.clock))
    case RevokeAll(userId) => t == Onward(s).(sessions := RevokeUserSessions(s.sessions, userId, s.clock))
    case Reset(userId) =>
      t == Onward(s).(users := BumpVersion(s.users, userId, s.clock), sessions := DropUserSessions(s.sessions, userId))
    case Update(userId, username, profile) =>
      t == Onward(s).(users := UpdateUser(s.users, userId, username, profile, s.clock))
    case Remove(userId) => t == Onward(s).(users := DeleteUser(s.users, userId))
    case PruneSessions(now) => now <= s.clock && t == Onward(s).(sessions := ExpireSessions(s.sessions, now))
    case PruneDenylist(now) => now <= s.clock && t == Onward(s).(denylist := ExpireDenylist(s.denylist, now))
    case CapSessionRows => t == Onward(s).(sessions := CapSessions(s.sessions))
    case CapDenyRows(kept) => IsCap(s.denylist, kept) && t == Onward(s).(denylist := CapDenylist(s.denylist, kept))
    case _ => false
  }

  predicate InLogin(a: Action) { a.BeginLogin? || a.ReadForLogin? || a.MintLogin? || a.RecordLogin? }

  predicate InRefresh(a: Action) { a.BeginRefresh? || a.ReadForRefresh? || a.MintRefresh? || a.Rotate? }

  predicate InRequest(a: Action) {
    a.RevokeFamily? || a.BumpFamily? || a.BeginAccess? || a.ReadVersion? || a.CheckDenylist?
    || a.BeginLogout? || a.LogoutRevoke? || a.LogoutDeny?
  }

  predicate OfProcess(a: Action) { InLogin(a) || InRefresh(a) || InRequest(a) }

  ghost predicate Next(s: State, a: Action, t: State) {
    if InLogin(a) then NextLogin(s, a, t)
    else if InRefresh(a) then NextRefresh(s, a, t)
    else if InRequest(a) then NextRequest(s, a, t)
    else NextStore(s, a, t)
  }

  predicate Init(s: State) {
    && s.step == 0 && s.sessions == map[] && s.denylist == map[] && s.processes == map[]
    && s.issued == {} && s.mints == map[] && s.history == map[]
  }

  ghost predicate StepAt(states: seq<State>, actions: seq<Action>, i: int)
    requires |states| == |actions| + 1 && 0 <= i < |actions|
  {
    Next(states[i], actions[i], states[i + 1])
  }

  ghost predicate IsRun(states: seq<State>, actions: seq<Action>) {
    && |states| == |actions| + 1
    && Init(states[0])
    && forall i :: 0 <= i < |actions| ==> StepAt(states, actions, i)
  }

  // ---------- Invariants ----------

  /** The id of the pair a process has minted and not yet recorded, or 0. */
  function Pending(p: Process): TokenId {
    if p.LoginMinted? || p.RefreshMinted? then p.refresh.id else 0
  }

  predicate ProperPair(p: Process)
    requires p.LoginMinted? || p.RefreshMinted?
  {
    && p.access.issuer == AccessIssuer && p.refresh.issuer == RefreshIssuer
    && p.access.id == p.refresh.id != 0 && p.access.userId == p.refresh.userId >= 1
    && p.access.version == p.refresh.version
    && (p.RefreshMinted? ==> p.refresh.userId == p.presented.userId)
  }

  /** Minted ids are fresh: pending ones are nowhere in the history and belong to one process. */
  predicate PendingIsFresh(s: State) {
    && s.history.Keys <= s.mints.Keys
    && (forall pid :: pid in s.processes && Pending(s.processes[pid]) != 0 ==>
          && Pending(s.processes[pid]) in s.mints && Pending(s.processes[pid]) !in s.history
          && ProperPair(s.processes[pid]))
    && (forall p, q :: p in s.processes && q in s.processes && p != q && Pending(s.processes[p]) != 0 ==>
          Pending(s.processes[p]) != Pending(s.processes[q]))
    && (forall pid :: pid in s.processes && (s.processes[pid].LoginMinted? || s.processes[pid].RefreshMinted?) ==>
          Pending(s.processes[pid]) != 0)
  }

  /** A process that carries a token got it from a client. */
  predicate Carries(s: State, p: Process) {
    match p
    case RefreshBegun(t, _) => t in s.issued
    case RefreshRead(t, _, _, _) => t in s.issued
    case RefreshMinted(t, _, _, _) => t in s.issued
    case AccessBegun(t) => t in s.issued && t.issuer == AccessIssuer
    case AccessVersioned(t, _) => t in s.issued && t.issuer == AccessIssuer
    case LogoutBegun(t) => t in s.issued && t.issuer == AccessIssuer
    case LogoutRevoked(t) => t in s.issued && t.issuer == AccessIssuer
    case _ => true
  }

  /** What a client holds has a history, and its owner. */
  predicate TokensRecorded(s: State) {
    forall t :: t in s.issued ==> t.id in s.history && s.history[t.id].userId == t.userId
  }

  /** No two issued tokens of one kind share an id. */
  predicate TokensUnique(s: State) {
    forall t, u :: t in s.issued && u in s.issued && t.issuer == u.issuer && t.id == u.id ==> t == u
  }

  predicate AllCarry(s: State) { forall pid :: pid in s.processes ==> Carries(s, s.processes[pid]) }

  /** A stored row agrees with the history of its session. */
  predicate RowAgrees(h: History, id: TokenId, row: Session) {
    && id in h && id != 0
    && row.token.id == id && row.token.issuer == RefreshIssuer
    && row.userId == row.token.userId == h[id].userId && row.userId >= 1
    && row.replacedBy == h[id].next && (row.usedAt.Some? <==> h[id].next != 0)
    && row.expiresAt == row.issuedAt + REFRESH_LIFETIME
  }

  predicate RowsAgree(s: State) {
    forall id :: id in s.sessions ==> RowAgrees(s.history, id, s.sessions[id])
  }

  /** Links point both ways, keep the owner, and lead from older to younger. */
  predicate LinkAgrees(h: History, id: TokenId)
    requires id in h
  {
    var l := h[id];
    && id != 0 && l.born < |h|
    && (l.next != 0 ==>
          && l.next in h && h[l.next].previous == id
          && h[l.next].userId == l.userId && h[l.next].born > l.born)
    && (l.previous != 0 ==> l.previous in h && h[l.previous].next == id)
  }

  predicate Chained(h: History) { forall id :: id in h ==> LinkAgrees(h, id) }

  predicate Denied(s: State) {
    forall id, t :: id in s.denylist && t in s.issued && t.issuer == AccessIssuer && t.id == id ==>
      s.denylist[id] == Revocation(t.userId, t.expiresAt)
  }

  predicate DenylistIsRecorded(s: State) { s.denylist.Keys <= s.history.Keys }

  predicate Inv(s: State) {
    PendingIsFresh(s) && TokensRecorded(s) && TokensUnique(s) && AllCarry(s) && RowsAgree(s)
    && Chained(s.history) && Denied(s) && DenylistIsRecorded(s)
  }

  lemma RecordedLinks(h: History, userId: int, previous: TokenId, id: TokenId)
    requires Chained(h) && id !in h && id != 0
    requires previous == 0 || (previous in h && h[previous].next == 0 && h[previous].userId == userId)
    ensures Chained(Recorded(h, userId, previous, id))
    ensures Recorded(h, userId, previous, id).Keys == h.Keys + {id}
    ensures |Recorded(h, userId, previous, id)| == |h| + 1
  {
    var g := Recorded(h, userId, previous, id);
    assert g.Keys == h.Keys + {id};
    assert |g.Keys| == |h.Keys| + 1;
    forall x | x in g ensures LinkAgrees(g, x) {
      if x in h {
        assert LinkAgrees(h, x);
      }
    }
  }

  /** What a committed rotation is, in a state that satisfies the invariant. */
  lemma RotationFacts(s: State, presented: Token, newId: TokenId, newToken: Token, now: Time)
    requires RowsAgree(s) && RotationOf(s.sessions, presented, newId, newToken, now).Rotated?
    ensures var r := RotationOf(s.sessions, presented, newId, newToken, now);
            && r.id == presented.id && r.id in s.sessions && r.id in s.history && s.history[r.id].next == 0
            && s.sessions[r.id].token == presented && s.sessions[r.id].usedAt.None? && s.sessions[r.id].revokedAt.None?
            && r.consumed == s.sessions[r.id].(usedAt := Some(now), replacedBy := newId)
            && newId != 0 && newId !in s.sessions
  {
    var id := Minimum(Holding(s.sessions, presented));
    assert RowAgrees(s.history, id, s.sessions[id]);
  }

  predicate Records(a: Action) { a.RecordLogin? || a.Rotate? }

  /** Either a step records nothing, or it records one pending pair as the newest session. */
  predicate RecordsPair(s: State, a: Action, t: State, previous: TokenId) {
    && Records(a) && At(s, a.pid) && (s.processes[a.pid].LoginMinted? || s.processes[a.pid].RefreshMinted?)
    && var p := s.processes[a.pid];
       && t.history == Recorded(s.history, p.refresh.userId, previous, p.refresh.id)
       && t.issued == s.issued + {p.access, p.refresh}
       && t.processes == s.processes[a.pid := Done]
       && t.mints == s.mints && t.denylist == s.denylist && t.users == s.users
       && (previous == 0 <==> a.RecordLogin?)
       && (previous != 0 ==>
             && p.RefreshMinted? && previous == p.presented.id && previous in s.sessions && previous in s.history
             && s.history[previous].next == 0 && s.history[previous].userId == p.refresh.userId
             && s.sessions[previous].revokedAt.None? && s.sessions[previous].usedAt.None?)
       && t.sessions ==
            (if previous == 0 then s.sessions
             else s.sessions[previous := s.sessions[previous].(usedAt := Some(p.now), replacedBy := p.refresh.id)])
            [p.refresh.id := NewSession(p.refresh.userId, p.refresh, p.now, p.now + REFRESH_LIFETIME)]
  }

  /** Rows may disappear or be revoked, and nothing else. */
  predicate OnlyRetired(before: SessionTable, after: SessionTable) {
    forall id :: id in after ==>
      && id in before
      && after[id] == before[id].(revokedAt := after[id].revokedAt)
      && (before[id].revokedAt.Some? ==> after[id] == before[id])
  }

  predicate RecordsNothing(s: State, t: State) {
    t.history == s.history && t.issued == s.issued && OnlyRetired(s.sessions, t.sessions)
  }

  /** A step moves at most one process, and mints at most one fresh pair. */
  predicate Moved(s: State, t: State, pid: int, p: Process) {
    && (t.processes == s.processes || t.processes == s.processes[pid := p])
    && Carries(s, p)
    && t.step == s.step + 1
    && (if p.LoginMinted? || p.RefreshMinted?
        then t.processes == s.processes[pid := p] && Pending(p) !in s.mints && ProperPair(p)
             && Pending(p) in t.mints && t.mints == s.mints[Pending(p) := t.mints[Pending(p)]] && t.history == s.history
        else t.mints == s.mints)
  }

  /** What the moved process has learned: a row read now, or a pair minted from a row it had read. */
  predicate Learned(s: State, t: State, pid: int, p: Process) {
    match p
    case LoginRead(userId, user, k, _) => k == s.step && userId in s.users && s.users[userId] == user
    case RefreshRead(presented, user, k, _) =>
      k == s.step && VersionAgrees(s.users, presented) && s.users[presented.userId] == user
    case AccessVersioned(token, k) => k == s.step && VersionAgrees(s.users, token)
    case LoginMinted(access, refresh, _) =>
      && pid in s.processes && s.processes[pid].LoginRead? && access.id in t.mints
      && var q := s.processes[pid];
         access.userId == q.userId && access.version == q.user.version && t.mints[access.id] == q.readAt
    case RefreshMinted(_, access, refresh, _) =>
      && pid in s.processes && s.processes[pid].RefreshRead? && access.id in t.mints
      && var q := s.processes[pid];
         access.userId == q.presented.userId && access.version == q.user.version && t.mints[access.id] == q.readAt
    case _ => true
  }

  /** No user appears and no version falls. */
  predicate VersionsKept(before: Users, after: Users) {
    forall id :: id in after ==> id in before && before[id].version <= after[id].version
  }

  /** Denylist rows are old ones, or come from the claims of an issued access token. */
  predicate DenyKept(s: State, t: State) {
    forall id :: id in t.denylist ==>
      (id in s.denylist && t.denylist[id] == s.denylist[id])
      || (exists token :: token in s.issued && token.issuer == AccessIssuer && token.id == id
                          && t.denylist[id] == Revocation(token.userId, token.expiresAt))
  }

  function Phase(s: State, pid: int): Process { if pid in s.processes then s.processes[pid] else Done }

  /** All that the theorems need to know about a step. */
  predicate Summary(s: State, a: Action, t: State, pid: int, p: Process, previous: TokenId) {
    && Moved(s, t, pid, p) && Learned(s, t, pid, p)
    && (RecordsNothing(s, t) || RecordsPair(s, a, t, previous))
    && VersionsKept(s.users, t.users) && DenyKept(s, t)
    && (OfProcess(a) ==> t.clock == s.clock && forall id :: id in s.denylist ==> id in t.denylist)
  }

  lemma StoreSummary(s: State, a: Action, t: State)
    requires NextStore(s, a, t)
    ensures Summary(s, a, t, 0, Done, 0)
  {
  }

  lemma RequestSummary(s: State, a: Action, t: State)
    requires AllCarry(s) && NextRequest(s, a, t)
    ensures Summary(s, a, t, a.pid, Phase(t, a.pid), 0)
  {
    if a.pid in s.processes {
      assert Carries(s, s.processes[a.pid]);
    }
    if a.LogoutDeny? {
      assert s.processes[a.pid].token in s.issued;
    }
  }

  lemma LoginSummary(s: State, a: Action, t: State)
    requires NextLogin(s, a, t) && (a.BeginLogin? || a.ReadForLogin?)
    ensures Summary(s, a, t, a.pid, Phase(t, a.pid), 0)
  {
  }

  lemma RefreshSummary(s: State, a: Action, t: State)
    requires AllCarry(s) && NextRefresh(s, a, t) && (a.BeginRefresh? || a.ReadForRefresh?)
    ensures Summary(s, a, t, a.pid, Phase(t, a.pid), 0)
  {
    if a.pid in s.processes {
      assert Carries(s, s.processes[a.pid]);
    }
  }

  predicate Calm(s: State, t: State) { t.users == s.users && t.denylist == s.denylist && t.clock == s.clock }

  lemma MintLoginMoves(s: State, pid: int, id: TokenId, t: State)
    requires MintLoginStep(s, pid, id, t)
    ensures Moved(s, t, pid, Phase(t, pid)) && Calm(s, t)
  {
  }

  lemma MintLoginLearns(s: State, pid: int, id: TokenId, t: State)
    requires MintLoginStep(s, pid, id, t)
    ensures Learned(s, t, pid, Phase(t, pid)) && RecordsNothing(s, t)
  {
  }

  lemma MintRefreshMoves(s: State, pid: int, id: TokenId, t: State)
    requires AllCarry(s) && MintRefreshStep(s, pid, id, t)
    ensures Moved(s, t, pid, Phase(t, pid)) && Calm(s, t)
  {
    assert Carries(s, s.processes[pid]);
  }

  lemma MintRefreshLearns(s: State, pid: int, id: TokenId, t: State)
    requires MintRefreshStep(s, pid, id, t)
    ensures Learned(s, t, pid, Phase(t, pid)) && RecordsNothing(s, t)
  {
  }

  lemma RecordLoginRecords(s: State, a: Action, t: State)
    requires PendingIsFresh(s) && a.RecordLogin? && RecordLoginStep(s, a.pid, t)
    ensures RecordsNothing(s, t) || RecordsPair(s, a, t, 0)
  {
  }

  lemma RecordLoginMoves(s: State, pid: int, t: State)
    requires RecordLoginStep(s, pid, t)
    ensures Moved(s, t, pid, Done) && Calm(s, t)
  {
  }

  lemma RotateMoves(s: State, pid: int, t: State)
    requires RotateStep(s, pid, t)
    ensures Moved(s, t, pid, Phase(t, pid)) && Calm(s, t)
  {
  }

  lemma RotateLearns(s: State, pid: int, t: State)
    requires RotateStep(s, pid, t)
    ensures Learned(s, t, pid, Phase(t, pid))
  {
  }

  lemma RotateRecords(s: State, a: Action, t: State) returns (previous: TokenId)
    requires Inv(s) && a.Rotate? && RotateStep(s, a.pid, t)
    ensures RecordsNothing(s, t) || RecordsPair(s, a, t, previous)
    ensures var p := s.processes[a.pid];
            RotationOf(s.sessions, p.presented, p.refresh.id, p.refresh, p.now).Rotated? <==> t.history != s.history
  {
    previous := 0;
    var p := s.processes[a.pid];
    var r := RotationOf(s.sessions, p.presented, p.refresh.id, p.refresh, p.now);
    if r.Rotated? {
      RotationFacts(s, p.presented, p.refresh.id, p.refresh, p.now);
      assert RowAgrees(s.history, r.id, s.sessions[r.id]);
      previous := r.id;
      assert p.refresh.id in t.history && p.refresh.id !in s.history;
    }
  }

  lemma CalmSummary(s: State, a: Action, t: State, pid: int, p: Process, previous: TokenId)
    requires Moved(s, t, pid, p) && Learned(s, t, pid, p) && Calm(s, t)
    requires RecordsNothing(s, t) || RecordsPair(s, a, t, previous)
    ensures Summary(s, a, t, pid, p, previous)
  {
  }

  lemma SummarizeLogin(s: State, a: Action, t: State) returns (p: Process)
    requires Inv(s) && InLogin(a) && NextLogin(s, a, t)
    ensures Summary(s, a, t, a.pid, p, 0)
  {
    p := Phase(t, a.pid);
    match a
    case RecordLogin(pid) =>
      p := Done;
      RecordLoginRecords(s, a, t);
      RecordLoginMoves(s, pid, t);
      CalmSummary(s, a, t, pid, p, 0);
    case MintLogin(pid, id) =>
      MintLoginMoves(s, pid, id, t);
      MintLoginLearns(s, pid, id, t);
      CalmSummary(s, a, t, pid, p, 0);
    case _ => LoginSummary(s, a, t);
  }

  lemma SummarizeRefresh(s: State, a: Action, t: State) returns (p: Process, previous: TokenId)
    requires Inv(s) && InRefresh(a) && NextRefresh(s, a, t)
    ensures Summary(s, a, t, a.pid, p, previous)
  {
    p, previous := Phase(t, a.pid), 0;
    match a
    case Rotate(pid) =>
      previous := RotateRecords(s, a, t);
      RotateMoves(s, pid, t);
      RotateLearns(s, pid, t);
      CalmSummary(s, a, t, pid, p, previous);
    case MintRefresh(pid, id) =>
      MintRefreshMoves(s, pid, id, t);
      MintRefreshLearns(s, pid, id, t);
      CalmSummary(s, a, t, pid, p, 0);
    case _ => RefreshSummary(s, a, t);
  }

  lemma Summarize(s: State, a: Action, t: State) returns (pid: int, p: Process, previous: TokenId)
    requires Inv(s) && Next(s, a, t)
    ensures Summary(s, a, t, pid, p, previous)
  {
    pid, p, previous := 0, Done, 0;
    if InLogin(a) {
      pid := a.pid;
      p := SummarizeLogin(s, a, t);
    } else if InRefresh(a) {
      pid := a.pid;
      p, previous := SummarizeRefresh(s, a, t);
    } else if InRequest(a) {
      pid, p := a.pid, Phase(t, a.pid);
      RequestSummary(s, a, t);
    } else {
      StoreSummary(s, a, t);
    }
  }

  lemma MovedPending(s: State, a: Action, t: State, pid: int, p: Process, previous: TokenId)
    requires Inv(s) && Moved(s, t, pid, p)
    requires t.history == s.history || RecordsPair(s, a, t, previous)
    ensures PendingIsFresh(t)
  {
    if t.history != s.history {
      var q := s.processes[a.pid];
      assert t.history.Keys == s.history.Keys + {q.refresh.id} by {
        RecordedLinks(s.history, q.refresh.userId, previous, q.refresh.id);
      }
    }
  }

  lemma TokensStayRecorded(s: State, a: Action, t: State, previous: TokenId)
    requires Inv(s)
    requires RecordsNothing(s, t) || RecordsPair(s, a, t, previous)
    ensures TokensRecorded(t) && TokensUnique(t)
  {
  }

  lemma AllStillCarry(s: State, t: State, pid: int, p: Process)
    requires AllCarry(s) && Moved(s, t, pid, p) && s.issued <= t.issued
    ensures AllCarry(t)
  {
    forall q | q in t.processes ensures Carries(t, t.processes[q]) {
      assert q in s.processes ==> Carries(s, s.processes[q]);
    }
  }

  lemma RowsStayAgreeing(s: State, a: Action, t: State, previous: TokenId)
    requires Inv(s)
    requires RecordsNothing(s, t) || RecordsPair(s, a, t, previous)
    ensures RowsAgree(t)
  {
    forall id | id in t.sessions ensures RowAgrees(t.history, id, t.sessions[id]) {
      if id in s.sessions {
        assert RowAgrees(s.history, id, s.sessions[id]);
      }
    }
  }

  lemma LinksStayChained(s: State, a: Action, t: State, previous: TokenId)
    requires Inv(s)
    requires t.history == s.history || RecordsPair(s, a, t, previous)
    ensures Chained(t.history)
  {
    if t.history != s.history {
      RecordedLinks(s.history, s.processes[a.pid].refresh.userId, previous, s.processes[a.pid].refresh.id);
    }
  }

  lemma DenialsStayTrue(s: State, a: Action, t: State, previous: TokenId)
    requires Inv(s) && DenyKept(s, t)
    requires RecordsNothing(s, t) || RecordsPair(s, a, t, previous)
    ensures Denied(t) && DenylistIsRecorded(t)
  {
    if t.history != s.history {
      var q := s.processes[a.pid];
      assert t.history.Keys == s.history.Keys + {q.refresh.id} by {
        RecordedLinks(s.history, q.refresh.userId, previous, q.refresh.id);
      }
    }
    forall id, token | id in t.denylist && token in t.issued && token.issuer == AccessIssuer && token.id == id
      ensures t.denylist[id] == Revocation(token.userId, token.expiresAt)
    {
      assert id in s.history ==> token in s.issued;
    }
    forall id | id in t.denylist ensures id in t.history {
      assert id in s.history;
    }
  }

  lemma NextInv(s: State, a: Action, t: State)
    requires Inv(s) && Next(s, a, t)
    ensures Inv(t)
  {
    var pid, p, previous := Summarize(s, a, t);
    SummaryInv(s, a, t, pid, p, previous);
  }

  lemma SummaryInv(s: State, a: Action, t: State, pid: int, p: Process, previous: TokenId)
    requires Inv(s) && Summary(s, a, t, pid, p, previous)
    ensures Inv(t)
  {
    MovedPending(s, a, t, pid, p, previous);
    TokensStayRecorded(s, a, t, previous);
    AllStillCarry(s, t, pid, p);
    RowsStayAgreeing(s, a, t, previous);
    LinksStayChained(s, a, t, previous);
    DenialsStayTrue(s, a, t, previous);
  }

  lemma {:induction false} RunInv(states: seq<State>, actions: seq<Action>, i: nat)
    requires IsRun(states, actions) && i < |states|
    ensures Inv(states[i]) && states[i].step == i
  {
    if i > 0 {
      RunInv(states, actions, i - 1);
      assert StepAt(states, actions, i - 1);
      NextInv(states[i - 1], actions[i - 1], states[i]);
      var pid, p, previous := Summarize(states[i - 1], actions[i - 1], states[i]);
    }
  }
}
