/** What `LogoutSession` guarantees for the rest of a run, prunes included, and the one way past it. */
module Logout {
  import opened Basics
  import opened Accounts
  import opened Sessions
  import opened Pruning
  import opened SessionRuns
  import opened Containment

  /** Step `i` is the refresh half of a logout with the access token `t`. */
  predicate RevokesSession(states: seq<State>, actions: seq<Action>, i: nat, t: Token)
    requires |states| == |actions| + 1 && i < |actions|
  {
    && actions[i].LogoutRevoke? && actions[i].pid in states[i].processes
    && states[i].processes[actions[i].pid] == LogoutBegun(t)
  }

  /** Step `i` is the access half of a logout with the access token `t`. */
  predicate DeniesToken(states: seq<State>, actions: seq<Action>, i: nat, t: Token)
    requires |states| == |actions| + 1 && i < |actions|
  {
    && actions[i].LogoutDeny? && actions[i].pid in states[i].processes
    && states[i].processes[actions[i].pid] == LogoutRevoked(t)
  }

  /** Step `j` ends an access check of `t` with the request accepted. */
  predicate Accepts(states: seq<State>, actions: seq<Action>, j: nat, t: Token)
    requires |states| == |actions| + 1 && j < |actions|
  {
    && actions[j].CheckDenylist? && actions[j].pid in states[j].processes
    && states[j].processes[actions[j].pid].AccessVersioned? && states[j].processes[actions[j].pid].token == t
    && t.id !in states[j].denylist
  }

  /** The refresh half: from then on the session never rotates; and no other session changes at that step. */
  lemma LoggedOutSessionNeverRotates(states: seq<State>, actions: seq<Action>, i: nat, j: nat, t: Token, other: TokenId)
    requires IsRun(states, actions) && i < j < |actions| && RevokesSession(states, actions, i, t)
    ensures !Consumes(states, actions, j, t.id)
    ensures states[i + 1].sessions.Keys == states[i].sessions.Keys
    ensures other in states[i].sessions && other != t.id ==> states[i + 1].sessions[other] == states[i].sessions[other]
  {
    RunInv(states, actions, i);
    var s := states[i];
    assert StepAt(states, actions, i);
    assert Carries(s, s.processes[actions[i].pid]);
    assert t.id in s.history && s.history[t.id].userId == t.userId;
    assert t.id in s.sessions ==> RowAgrees(s.history, t.id, s.sessions[t.id]);
    assert Dead(states[i + 1], t.id);
    DeadForever(states, actions, i + 1, j, t.id);
    DeadIsNotConsumed(states, actions, j, t.id);
  }

  // ---------- The access half ----------

  /** Capping the denylist now would be sure to keep the revocation of a token that has not expired. */
  predicate SparedByCap(s: State, t: Token) {
    t.id in s.denylist && s.clock <= t.expiresAt ==> |LastingAsLong(s.denylist, t.id)| <= REVOKED_ACCESS_CAP
  }

  /** At every cap from step `i` up to step `j` at most 1024 of the user's revocations last as long as this token's. */
  predicate CapsSpare(states: seq<State>, actions: seq<Action>, i: nat, j: nat, t: Token)
    requires |states| == |actions| + 1 && i <= j < |states|
  {
    forall k :: i <= k < j && actions[k].CapDenyRows? ==> SparedByCap(states[k], t)
  }

  /** The token is denied, or it is past its expiry. */
  predicate Barred(s: State, t: Token) {
    && t in s.issued && t.issuer == AccessIssuer
    && (t.id in s.denylist || s.clock > t.expiresAt)
  }

  lemma StoreKeepsBarred(s: State, a: Action, u: State, t: Token)
    requires Inv(s) && NextStore(s, a, u) && Barred(s, t)
    requires a.CapDenyRows? ==> SparedByCap(s, t)
    ensures Barred(u, t)
  {
    assert t.id in s.denylist ==> s.denylist[t.id] == Revocation(t.userId, t.expiresAt);
    if a.CapDenyRows? && t.id in s.denylist && s.clock <= t.expiresAt {
      CapKeepsLasting(s.denylist, a.kept, t.id);
    }
  }

  lemma BarredStep(s: State, a: Action, u: State, t: Token)
    requires Inv(s) && Next(s, a, u) && Barred(s, t)
    requires a.CapDenyRows? ==> SparedByCap(s, t)
    ensures Barred(u, t)
  {
    if OfProcess(a) {
      var pid, p, previous := Summarize(s, a, u);
    } else {
      StoreKeepsBarred(s, a, u, t);
    }
  }

  lemma {:induction false} BarredForever(states: seq<State>, actions: seq<Action>, i: nat, j: nat, t: Token)
    requires IsRun(states, actions) && i <= j < |states| && Barred(states[i], t) && CapsSpare(states, actions, i, j, t)
    ensures Barred(states[j], t)
  {
    if i < j {
      BarredForever(states, actions, i, j - 1, t);
      RunInv(states, actions, j - 1);
      assert StepAt(states, actions, j - 1);
      BarredStep(states[j - 1], actions[j - 1], states[j], t);
    }
  }

  lemma DeniedIsBarred(states: seq<State>, actions: seq<Action>, i: nat, t: Token)
    requires IsRun(states, actions) && i < |actions| && DeniesToken(states, actions, i, t)
    ensures Barred(states[i + 1], t)
  {
    RunInv(states, actions, i);
    assert StepAt(states, actions, i);
    assert Carries(states[i], states[i].processes[actions[i].pid]);
  }

  /**
    Logout is permanent: a logged-out access token is refused by every later denylist read made up to the
    token's expiry, if no cap in between found more than 1024 revocations of its user that last as long.
   */
  lemma LoggedOutTokenIsRefused(states: seq<State>, actions: seq<Action>, i: nat, j: nat, t: Token)
    requires IsRun(states, actions) && i < j < |actions| && DeniesToken(states, actions, i, t)
    requires CapsSpare(states, actions, i + 1, j, t)
    ensures Accepts(states, actions, j, t) ==> states[j].clock > t.expiresAt
  {
    DeniedIsBarred(states, actions, i, t);
    BarredForever(states, actions, i + 1, j, t);
  }

  /**
    Up to the expiry is exact: while a request with a logged-out token waits between its version read and
    its denylist read, a prune clears the way for it if and only if the token's expiry has passed.
   */
  lemma StalledRequestSlipsThrough(
    states: seq<State>, actions: seq<Action>, i: nat, j: nat, t: Token, pid: int, k: nat, u: State)
    requires IsRun(states, actions) && i < j < |states| && DeniesToken(states, actions, i, t)
    requires CapsSpare(states, actions, i + 1, j, t)
    requires pid in states[j].processes && states[j].processes[pid] == AccessVersioned(t, k)
    requires Next(states[j], PruneDenylist(states[j].clock), u)
    ensures pid in u.processes && u.processes[pid] == AccessVersioned(t, k)
    ensures t.id !in u.denylist <==> states[j].clock > t.expiresAt
  {
    DeniedIsBarred(states, actions, i, t);
    BarredForever(states, actions, i + 1, j, t);
    RunInv(states, actions, j);
    var s := states[j];
    assert t.id in s.denylist ==> s.denylist[t.id] == Revocation(t.userId, t.expiresAt);
  }

  /** The condition on caps is exact too: where it fails, an admissible cap releases the token at once. */
  lemma CapMayRelease(s: State, t: Token) returns (a: Action, u: State)
    requires t.id in s.denylist && s.clock <= t.expiresAt && !SparedByCap(s, t)
    ensures a.CapDenyRows? && Next(s, a, u) && t.id !in u.denylist && u.processes == s.processes && u.clock == s.clock
  {
    CapMayEvict(s.denylist, t.id);
    a := CapDenyRows(CapAgainst(s.denylist, t.id));
    u := Onward(s).(denylist := CapDenylist(s.denylist, a.kept));
  }

  // ---------- Such a state is reached ----------

  function ExampleAccess(user: User): Token { Token(AccessIssuer, user.username, 1, 0, 7, 0, ACCESS_LIFETIME) }

  function ExampleRefresh(user: User): Token { Token(RefreshIssuer, user.username, 1, 0, 7, 0, REFRESH_LIFETIME) }

  function ExampleRow(user: User): Session { NewSession(1, ExampleRefresh(user), 0, REFRESH_LIFETIME) }

  function ExampleStart(user: User): State { State(0, 0, map[1 := user], map[], map[], map[], {}, map[], map[]) }

  /** In the middle of the first login, with its pair minted and not yet recorded. */
  function ExampleMinted(user: User): State {
    State(0, 3, map[1 := user], map[], map[],
          map[1 := LoginMinted(ExampleAccess(user), ExampleRefresh(user), 0)], {}, map[7 := 1], map[])
  }

  /** After one login, before anything else. */
  function ExampleLoggedIn(user: User): State {
    State(0, 4, map[1 := user], map[7 := ExampleRow(user)], map[], map[1 := Done],
          {ExampleAccess(user), ExampleRefresh(user)}, map[7 := 1], map[7 := Link(1, 0, 0, 0)])
  }

  /** A run, with no cap in it, that leads to this state. */
  ghost predicate RunTo(states: seq<State>, actions: seq<Action>, s: State) {
    IsRun(states, actions) && states[|actions|] == s && forall k :: 0 <= k < |actions| ==> !actions[k].CapDenyRows?
  }

  lemma Extend(states: seq<State>, actions: seq<Action>, s: State, a: Action, t: State)
    requires RunTo(states, actions, s) && Next(s, a, t) && !a.CapDenyRows?
    ensures RunTo(states + [t], actions + [a], t)
  {
    var more, acts := states + [t], actions + [a];
    forall i | 0 <= i < |acts| ensures StepAt(more, acts, i) {
      if i < |actions| {
        assert StepAt(states, actions, i);
      }
    }
  }

  lemma ExtendLogin(states: seq<State>, actions: seq<Action>, s: State, a: Action, t: State)
    requires RunTo(states, actions, s) && InLogin(a) && NextLogin(s, a, t)
    ensures RunTo(states + [t], actions + [a], t)
  {
    Extend(states, actions, s, a, t);
  }

  lemma ExtendRequest(states: seq<State>, actions: seq<Action>, s: State, a: Action, t: State)
    requires RunTo(states, actions, s) && InRequest(a) && NextRequest(s, a, t)
    ensures RunTo(states + [t], actions + [a], t)
  {
    Extend(states, actions, s, a, t);
  }

  lemma ExtendStore(states: seq<State>, actions: seq<Action>, s: State, a: Action, t: State)
    requires RunTo(states, actions, s) && !OfProcess(a) && !a.CapDenyRows? && NextStore(s, a, t)
    ensures RunTo(states + [t], actions + [a], t)
  {
    Extend(states, actions, s, a, t);
  }

  lemma ExampleMint(user: User) returns (states: seq<State>, actions: seq<Action>, s3: State)
    requires user.username != "" && user.version == 0
    ensures RunTo(states, actions, s3) && |actions| == 3
    ensures s3 == ExampleMinted(user)
  {
    var s0 := ExampleStart(user);
    var s1 := Move(s0, 1, LoginBegun(1, 0));
    var s2 := Move(s1, 1, LoginRead(1, user, 1, 0));
    s3 := Move(s2, 1, LoginMinted(ExampleAccess(user), ExampleRefresh(user), 0)).(mints := map[7 := 1]);
    ExtendLogin([s0], [], s0, BeginLogin(1, 1), s1);
    ExtendLogin([s0] + [s1], [] + [BeginLogin(1, 1)], s1, ReadForLogin(1), s2);
    assert MintLoginStep(s2, 1, 7, s3);
    ExtendLogin([s0] + [s1] + [s2], [] + [BeginLogin(1, 1)] + [ReadForLogin(1)], s2, MintLogin(1, 7), s3);
    states := [s0] + [s1] + [s2] + [s3];
    actions := [] + [BeginLogin(1, 1)] + [ReadForLogin(1)] + [MintLogin(1, 7)];
  }

  lemma ExampleRecord(user: User, s3: State)
    requires user.username != "" && user.version == 0
    requires s3 == ExampleMinted(user)
    ensures RecordLoginStep(s3, 1, ExampleLoggedIn(user))
  {
    var row := ExampleRow(user);
    assert Holding(s3.sessions, ExampleRefresh(user)) == {};
    var made := CreateSession(s3.sessions, 7, row);
    assert made.Some? && made.value == map[7 := row];
    assert |s3.history| == 0;
    assert Recorded(s3.history, 1, 0, 7) == map[7 := Link(1, 0, 0, 0)];
    assert s3.processes[1 := Done] == map[1 := Done];
  }

  lemma ExampleLogin(user: User) returns (states: seq<State>, actions: seq<Action>)
    requires user.username != "" && user.version == 0
    ensures RunTo(states, actions, ExampleLoggedIn(user)) && |actions| == 4
  {
    var before, acts, s3 := ExampleMint(user);
    ExampleRecord(user, s3);
    ExtendLogin(before, acts, s3, RecordLogin(1), ExampleLoggedIn(user));
    states, actions := before + [ExampleLoggedIn(user)], acts + [RecordLogin(1)];
  }

  /** From any run: an access check waits at its denylist read, and a logout of its token begins. */
  lemma ExampleStall(states: seq<State>, actions: seq<Action>, s: State, t: Token)
    returns (more: seq<State>, acts: seq<Action>, u: State)
    requires RunTo(states, actions, s) && 2 !in s.processes && 3 !in s.processes
    requires Presentable(s, t, AccessIssuer) && VersionAgrees(s.users, t)
    ensures RunTo(more, acts, u) && |acts| == |actions| + 3
    ensures 2 in u.processes && u.processes[2] == AccessVersioned(t, s.step + 1)
    ensures 3 in u.processes && u.processes[3] == LogoutBegun(t)
    ensures u.denylist == s.denylist && u.clock == s.clock
  {
    var s1 := Move(s, 2, AccessBegun(t));
    var s2 := Move(s1, 2, AccessVersioned(t, s1.step));
    u := Move(s2, 3, LogoutBegun(t));
    ExtendRequest(states, actions, s, BeginAccess(2, t), s1);
    ExtendRequest(states + [s1], actions + [BeginAccess(2, t)], s1, ReadVersion(2), s2);
    ExtendRequest(states + [s1] + [s2], actions + [BeginAccess(2, t)] + [ReadVersion(2)], s2, BeginLogout(3, t), u);
    more := states + [s1] + [s2] + [u];
    acts := actions + [BeginAccess(2, t)] + [ReadVersion(2)] + [BeginLogout(3, t)];
  }

  lemma ExampleDeny(states: seq<State>, actions: seq<Action>, s: State, t: Token)
    returns (more: seq<State>, acts: seq<Action>, u: State)
    requires RunTo(states, actions, s) && s.denylist == map[] && 3 in s.processes && s.processes[3] == LogoutBegun(t)
    ensures RunTo(more, acts, u) && |acts| == |actions| + 2
    ensures DeniesToken(more, acts, |actions| + 1, t)
    ensures 2 in s.processes ==> 2 in u.processes && u.processes[2] == s.processes[2]
    ensures u.denylist == map[t.id := Revocation(t.userId, t.expiresAt)] && u.clock == s.clock
  {
    var s1 := Move(s, 3, LogoutRevoked(t)).(sessions := RevokeSession(s.sessions, t.userId, t.id, s.clock));
    u := Move(s1, 3, Done).(denylist := map[t.id := Revocation(t.userId, t.expiresAt)]);
    ExtendRequest(states, actions, s, LogoutRevoke(3), s1);
    ExtendRequest(states + [s1], actions + [LogoutRevoke(3)], s1, LogoutDeny(3), u);
    more := states + [s1] + [u];
    acts := actions + [LogoutRevoke(3)] + [LogoutDeny(3)];
  }

  /** Time passes the token's expiry and a prune drops its revocation. */
  lemma ExamplePrune(states: seq<State>, actions: seq<Action>, s: State, t: Token, late: Time)
    returns (more: seq<State>, acts: seq<Action>, u: State)
    requires RunTo(states, actions, s) && s.clock <= t.expiresAt < late
    requires s.denylist == map[t.id := Revocation(t.userId, t.expiresAt)]
    ensures RunTo(more, acts, u) && states <= more && actions <= acts && |acts| == |actions| + 2
    ensures u.processes == s.processes && t.id !in u.denylist
  {
    var s1 := Onward(s).(clock := late);
    u := Onward(s1).(denylist := ExpireDenylist(s1.denylist, late));
    ExtendStore(states, actions, s, Tick(late), s1);
    ExtendStore(states + [s1], actions + [Tick(late)], s1, PruneDenylist(late), u);
    more, acts := states + [s1] + [u], actions + [Tick(late)] + [PruneDenylist(late)];
  }

  lemma ExampleEscape(states: seq<State>, actions: seq<Action>, s: State, t: Token, readAt: nat)
    returns (more: seq<State>, acts: seq<Action>, u: State)
    requires RunTo(states, actions, s) && t.id !in s.denylist
    requires 2 in s.processes && s.processes[2] == AccessVersioned(t, readAt)
    ensures RunTo(more, acts, u) && states <= more && actions <= acts && |acts| == |actions| + 1
    ensures Accepts(more, acts, |actions|, t)
  {
    u := Move(s, 2, Done);
    ExtendRequest(states, actions, s, CheckDenylist(2), u);
    more, acts := states + [u], actions + [CheckDenylist(2)];
  }

  /** So there is a run, with no cap in it at all, in which a token is accepted after its logout. */
  lemma StalledRequestExample(user: User) returns (states: seq<State>, actions: seq<Action>, t: Token)
    requires user.username != "" && user.version == 0
    ensures IsRun(states, actions) && |actions| == 12 && CapsSpare(states, actions, 0, |actions|, t)
    ensures DeniesToken(states, actions, 8, t) && Accepts(states, actions, 11, t)
  {
    t := ExampleAccess(user);
    var s4 := ExampleLoggedIn(user);
    var r1, a1 := ExampleLogin(user);
    var r2, a2, s7 := ExampleStall(r1, a1, s4, t);
    var r3, a3, s9 := ExampleDeny(r2, a2, s7, t);
    var r4, a4, s11 := ExamplePrune(r3, a3, s9, t, ACCESS_LIFETIME + 1);
    var s12: State;
    states, actions, s12 := ExampleEscape(r4, a4, s11, t, 5);
    StaysDenied(r3, a3, states, actions, 8, t);
  }

  lemma StaysDenied(states: seq<State>, actions: seq<Action>, more: seq<State>, acts: seq<Action>, i: nat, t: Token)
    requires |states| == |actions| + 1 && |more| == |acts| + 1 && states <= more && actions <= acts
    requires i < |actions| && DeniesToken(states, actions, i, t)
    ensures DeniesToken(more, acts, i, t)
  {
    assert more[i] == states[i] && acts[i] == actions[i];
  }
}
