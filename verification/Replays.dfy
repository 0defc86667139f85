/** How long a consumed session is remembered: a replay of its token is recognized through any run of prunes. */
module Replays {
  import opened Basics
  import opened Sessions
  import opened Pruning
  import opened SessionRuns

  /** A stored session that a rotation has consumed. */
  predicate Consumed(s: State, id: TokenId) { id in s.sessions && s.sessions[id].usedAt.Some? }

  /** This step neither caps the session below 256 newer rows nor resets its owner's password. */
  predicate Spares(s: State, a: Action, id: TokenId)
    requires id in s.sessions
  {
    && (a.CapSessionRows? ==> |NewerRows(s.sessions, id)| < REFRESH_SESSION_CAP)
    && (a.Reset? ==> a.userId != s.sessions[id].userId)
  }

  /** The same row, except that it may have been revoked. */
  predicate SameButRevoked(before: Session, after: Session) {
    after == before.(revokedAt := after.revokedAt) && (before.revokedAt.Some? ==> after == before)
  }

  lemma StoreKeepsRow(s: State, a: Action, t: State, id: TokenId)
    requires NextStore(s, a, t) && id in s.sessions && Spares(s, a, id) && t.clock <= s.sessions[id].expiresAt
    ensures id in t.sessions
  {
    if a.CapSessionRows? {
      KeptByCapIsRank(s.sessions, id);
    }
  }

  lemma ProcessKeepsRow(s: State, a: Action, t: State, id: TokenId)
    requires OfProcess(a) && Next(s, a, t) && id in s.sessions
    ensures id in t.sessions
  {
    if a.Rotate? {
      assert RotateStep(s, a.pid, t);
    } else if a.RecordLogin? {
      assert RecordLoginStep(s, a.pid, t);
    }
  }

  lemma ConsumedStep(s: State, a: Action, t: State, id: TokenId)
    requires Inv(s) && Next(s, a, t) && Consumed(s, id) && Spares(s, a, id) && t.clock <= s.sessions[id].expiresAt
    ensures Consumed(t, id) && SameButRevoked(s.sessions[id], t.sessions[id])
  {
    if OfProcess(a) {
      ProcessKeepsRow(s, a, t, id);
    } else {
      StoreKeepsRow(s, a, t, id);
    }
    var pid, p, previous := Summarize(s, a, t);
    assert RowAgrees(s.history, id, s.sessions[id]);
  }

  /** Every step from `i` up to `j` spares the session as long as it is stored. */
  predicate SparedUntil(states: seq<State>, actions: seq<Action>, i: nat, j: nat, id: TokenId)
    requires |states| == |actions| + 1 && i <= j < |states|
  {
    forall k :: i <= k < j && id in states[k].sessions ==> Spares(states[k], actions[k], id)
  }

  lemma ClockStep(s: State, a: Action, t: State)
    requires Inv(s) && Next(s, a, t)
    ensures s.clock <= t.clock
  {
    if OfProcess(a) {
      var pid, p, previous := Summarize(s, a, t);
    }
  }

  lemma {:induction false} ConsumedIsRemembered(states: seq<State>, actions: seq<Action>, i: nat, j: nat, id: TokenId)
    requires IsRun(states, actions) && i <= j < |states| && Consumed(states[i], id)
    requires SparedUntil(states, actions, i, j, id) && states[j].clock <= states[i].sessions[id].expiresAt
    ensures Consumed(states[j], id) && SameButRevoked(states[i].sessions[id], states[j].sessions[id])
  {
    if i < j {
      var s, a, t := states[j - 1], actions[j - 1], states[j];
      RunInv(states, actions, j - 1);
      assert StepAt(states, actions, j - 1);
      ClockStep(s, a, t);
      ConsumedIsRemembered(states, actions, i, j - 1, id);
      ConsumedStep(s, a, t, id);
    }
  }

  lemma RowHoldsItsTokenAlone(s: State, id: TokenId)
    requires RowsAgree(s) && id in s.sessions
    ensures Holding(s.sessions, s.sessions[id].token) == {id}
  {
    assert RowAgrees(s.history, id, s.sessions[id]);
    forall other | other in s.sessions && s.sessions[other].token == s.sessions[id].token ensures other == id {
      assert RowAgrees(s.history, other, s.sessions[other]);
    }
  }

  /**
    Replays stay recognizable: a session consumed at state `i` and presented again at state `j`, before it expires, is
    answered as reuse unless it has been revoked since, and as invalid exactly then. Any steps may lie in between,
    as long as no cap found it outranked by 256 rows and no reset dropped its owner's sessions.
   */
  lemma ReplayIsRecognized(
    states: seq<State>, actions: seq<Action>, i: nat, j: nat, id: TokenId, newId: TokenId, newToken: Token, now: Time)
    requires IsRun(states, actions) && i <= j < |states| && Consumed(states[i], id)
    requires SparedUntil(states, actions, i, j, id) && states[j].clock <= states[i].sessions[id].expiresAt
    requires newId != 0 && now < states[i].sessions[id].expiresAt
    ensures id in states[j].sessions
    ensures RotationOf(states[j].sessions, states[i].sessions[id].token, newId, newToken, now) ==
              if states[j].sessions[id].revokedAt.Some? then InvalidSession else Reused(states[i].sessions[id].userId)
  {
    ConsumedIsRemembered(states, actions, i, j, id);
    RunInv(states, actions, j);
    RowHoldsItsTokenAlone(states[j], id);
    assert Minimum({id}) == id;
  }

  /**
    The condition on caps is exact: a cap forgets a session outranked by 256 rows, and its replay is merely
    invalid.
   */
  lemma OutrankedIsForgotten(s: State, id: TokenId, newId: TokenId, newToken: Token, now: Time)
    requires RowsAgree(s) && id in s.sessions && |NewerRows(s.sessions, id)| >= REFRESH_SESSION_CAP
    ensures RotationOf(CapSessions(s.sessions), s.sessions[id].token, newId, newToken, now) == InvalidSession
  {
    var after, token := CapSessions(s.sessions), s.sessions[id].token;
    RowHoldsItsTokenAlone(s, id);
    KeptByCapIsRank(s.sessions, id);
    assert id !in after;
    assert Holding(after, token) == {} by {
      assert forall other :: other in Holding(after, token) ==> other in Holding(s.sessions, token);
    }
  }
}
