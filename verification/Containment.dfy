/** Credential generations over whole runs: what a version bump cuts off, and what a detected replay contains. */
module Containment {
  import opened Sessions
  import opened SessionRuns

  // ---------- Versions only grow ----------

  lemma {:induction false} VersionsGrow(states: seq<State>, actions: seq<Action>, i: nat, j: nat, userId: int)
    requires IsRun(states, actions) && i <= j < |states| && userId in states[j].users
    ensures userId in states[i].users && states[i].users[userId].version <= states[j].users[userId].version
  {
    if i < j {
      RunInv(states, actions, j - 1);
      assert StepAt(states, actions, j - 1);
      var pid, p, previous := Summarize(states[j - 1], actions[j - 1], states[j]);
      VersionsGrow(states, actions, i, j - 1, userId);
    }
  }

  // ---------- Every token goes back to a row read at a known step ----------

  /** The user row at step `k` is the one this token was minted from. */
  predicate Backed(states: seq<State>, t: Token, k: nat) {
    k < |states| && t.userId in states[k].users && states[k].users[t.userId].version == t.version
  }

  predicate ReadBacked(states: seq<State>, s: State, p: Process) {
    match p
    case LoginRead(userId, user, k, _) =>
      k < s.step && k < |states| && userId in states[k].users && states[k].users[userId] == user
    case RefreshRead(presented, user, k, _) =>
      && k < s.step && k < |states| && VersionAgrees(states[k].users, presented)
      && states[k].users[presented.userId] == user
    case LoginMinted(access, refresh, _) =>
      access.id in s.mints && s.mints[access.id] < s.step && Backed(states, access, s.mints[access.id])
    case RefreshMinted(_, access, refresh, _) =>
      access.id in s.mints && s.mints[access.id] < s.step && Backed(states, access, s.mints[access.id])
    case AccessVersioned(t, k) => k < s.step && k < |states| && VersionAgrees(states[k].users, t)
    case _ => true
  }

  predicate TokenBacked(states: seq<State>, s: State, t: Token) {
    t.id in s.mints && s.mints[t.id] < s.step && Backed(states, t, s.mints[t.id])
  }

  predicate Witnessed(states: seq<State>, s: State) {
    && (forall t :: t in s.issued ==> TokenBacked(states, s, t))
    && (forall pid :: pid in s.processes ==> ReadBacked(states, s, s.processes[pid]))
  }

  lemma OtherStaysBacked(states: seq<State>, s: State, t: State, mover: int, moved: Process, pid: int)
    requires Moved(s, t, mover, moved) && pid in s.processes && ReadBacked(states, s, s.processes[pid])
    ensures ReadBacked(states, t, s.processes[pid])
  {
  }

  lemma MoverIsBacked(states: seq<State>, s: State, t: State, mover: int, moved: Process)
    requires Moved(s, t, mover, moved) && Learned(s, t, mover, moved)
    requires mover in s.processes ==> ReadBacked(states, s, s.processes[mover])
    requires s.step < |states| && states[s.step] == s
    ensures ReadBacked(states, t, moved)
  {
  }

  lemma TokenStaysBacked(
    states: seq<State>, s: State, a: Action, t: State, mover: int, moved: Process, previous: TokenId, token: Token)
    requires Inv(s) && Witnessed(states, s) && Summary(s, a, t, mover, moved, previous) && token in t.issued
    ensures TokenBacked(states, t, token)
  {
    if token in s.issued {
      assert TokenBacked(states, s, token);
    } else {
      assert ReadBacked(states, s, s.processes[a.pid]);
    }
  }

  lemma ProcessesStayBacked(states: seq<State>, s: State, t: State, mover: int, moved: Process)
    requires Witnessed(states, s) && Moved(s, t, mover, moved) && Learned(s, t, mover, moved)
    requires s.step < |states| && states[s.step] == s
    ensures forall pid :: pid in t.processes ==> ReadBacked(states, t, t.processes[pid])
  {
    forall pid | pid in t.processes ensures ReadBacked(states, t, t.processes[pid]) {
      if pid in s.processes && t.processes[pid] == s.processes[pid] {
        OtherStaysBacked(states, s, t, mover, moved, pid);
      } else {
        MoverIsBacked(states, s, t, mover, moved);
      }
    }
  }

  lemma WitnessedStep(
    states: seq<State>, s: State, a: Action, t: State, mover: int, moved: Process, previous: TokenId)
    requires Inv(s) && Witnessed(states, s) && Summary(s, a, t, mover, moved, previous)
    requires s.step < |states| && states[s.step] == s
    ensures Witnessed(states, t)
  {
    ProcessesStayBacked(states, s, t, mover, moved);
    forall token | token in t.issued ensures TokenBacked(states, t, token) {
      TokenStaysBacked(states, s, a, t, mover, moved, previous, token);
    }
  }

  lemma {:induction false} RunWitnessed(states: seq<State>, actions: seq<Action>, i: nat)
    requires IsRun(states, actions) && i < |states|
    ensures Witnessed(states, states[i])
  {
    if i > 0 {
      RunWitnessed(states, actions, i - 1);
      RunInv(states, actions, i - 1);
      assert StepAt(states, actions, i - 1);
      var mover, moved, previous := Summarize(states[i - 1], actions[i - 1], states[i]);
      WitnessedStep(states, states[i - 1], actions[i - 1], states[i], mover, moved, previous);
    }
  }

  // ---------- Theorems ----------

  /**
    Generation barrier: if step `i` raises a user's version, then any token of that user which agrees with a
    version read at a later step `k` was minted from a user row that was itself read after step `i`.
   */
  lemma GenerationBarrier(states: seq<State>, actions: seq<Action>, i: nat, k: nat, j: nat, t: Token)
    requires IsRun(states, actions) && i < k <= j < |states| && t in states[j].issued
    requires t.userId in states[i].users && t.userId in states[i + 1].users
    requires states[i].users[t.userId].version < states[i + 1].users[t.userId].version
    requires VersionAgrees(states[k].users, t)
    ensures t.id in states[j].mints && states[j].mints[t.id] > i
  {
    RunWitnessed(states, actions, j);
    assert TokenBacked(states, states[j], t);
    var m := states[j].mints[t.id];
    VersionsGrow(states, actions, i + 1, k, t.userId);
    if m <= i {
      VersionsGrow(states, actions, m, i, t.userId);
    }
  }

  /** Once revoked or gone, a recorded session never rotates again. */
  predicate Dead(s: State, id: TokenId) {
    id in s.history && (id in s.sessions ==> s.sessions[id].revokedAt.Some?)
  }

  lemma DeadStep(s: State, a: Action, t: State, previous: TokenId, id: TokenId)
    requires Inv(s) && (RecordsNothing(s, t) || RecordsPair(s, a, t, previous)) && Dead(s, id)
    ensures Dead(t, id)
  {
    if t.history != s.history {
      var p := s.processes[a.pid];
      RecordedLinks(s.history, p.refresh.userId, previous, p.refresh.id);
    }
  }

  lemma {:induction false} DeadForever(states: seq<State>, actions: seq<Action>, i: nat, j: nat, id: TokenId)
    requires IsRun(states, actions) && i <= j < |states| && Dead(states[i], id)
    ensures Dead(states[j], id)
  {
    if i < j {
      DeadForever(states, actions, i, j - 1, id);
      RunInv(states, actions, j - 1);
      assert StepAt(states, actions, j - 1);
      var pid, p, previous := Summarize(states[j - 1], actions[j - 1], states[j]);
      DeadStep(states[j - 1], actions[j - 1], states[j], previous, id);
    }
  }

  /** Step `i` commits a rotation that consumes session `id`. */
  predicate Consumes(states: seq<State>, actions: seq<Action>, i: nat, id: TokenId)
    requires |states| == |actions| + 1 && i < |actions|
  {
    && actions[i].Rotate? && actions[i].pid in states[i].processes && states[i].processes[actions[i].pid].RefreshMinted?
    && var p := states[i].processes[actions[i].pid];
       var r := RotationOf(states[i].sessions, p.presented, p.refresh.id, p.refresh, p.now);
       r.Rotated? && r.id == id
  }

  lemma DeadIsNotConsumed(states: seq<State>, actions: seq<Action>, i: nat, id: TokenId)
    requires IsRun(states, actions) && i < |actions| && Dead(states[i], id)
    ensures !Consumes(states, actions, i, id)
  {
    RunInv(states, actions, i);
    if Consumes(states, actions, i, id) {
      var p := states[i].processes[actions[i].pid];
      RotationFacts(states[i], p.presented, p.refresh.id, p.refresh, p.now);
    }
  }

  /** A family revocation kills every session of the user that is stored at that moment, for good. */
  lemma RevokedFamilyIsDead(states: seq<State>, actions: seq<Action>, r: nat, j: nat, id: TokenId)
    requires IsRun(states, actions) && r < j < |actions| && actions[r].RevokeFamily?
    requires actions[r].pid in states[r].processes && states[r].processes[actions[r].pid].FamilyRevoking?
    requires id in states[r].sessions && states[r].sessions[id].userId == states[r].processes[actions[r].pid].userId
    ensures !Consumes(states, actions, j, id)
  {
    RunInv(states, actions, r);
    assert StepAt(states, actions, r);
    assert RowAgrees(states[r].history, id, states[r].sessions[id]);
    assert Dead(states[r + 1], id);
    DeadForever(states, actions, r + 1, j, id);
    DeadIsNotConsumed(states, actions, j, id);
  }

  /** The token and read step of a process whose version check has passed. */
  predicate VersionChecked(p: Process, t: Token, k: nat) {
    (p.AccessVersioned? && p.token == t && p.readAt == k) || (p.RefreshRead? && p.presented == t && p.readAt == k)
  }

  lemma CheckedIsWitnessed(states: seq<State>, actions: seq<Action>, j: nat, client: int, t: Token, k: nat)
    requires IsRun(states, actions) && j < |states|
    requires client in states[j].processes && VersionChecked(states[j].processes[client], t, k)
    ensures t in states[j].issued && k < j && VersionAgrees(states[k].users, t)
  {
    RunInv(states, actions, j);
    RunWitnessed(states, actions, j);
    assert ReadBacked(states, states[j], states[j].processes[client]);
    assert Carries(states[j], states[j].processes[client]);
  }

  /**
    Reuse containment: let a process that detected a replay for user `u` revoke the family at step `r`
    and bump the version at step `b`. Whatever ran in between,
    - no session of `u` stored at step `r` is ever rotated again;
    - a token of `u` accepted by a version read after step `b`, for access or for refresh, was minted
      from a user row also read after step `b`.
   */
  lemma ReuseContainment(
    states: seq<State>, actions: seq<Action>, pid: int, u: int, r: nat, b: nat, j: nat,
    id: TokenId, client: int, t: Token, k: nat)
    requires IsRun(states, actions) && r < b < j < |actions|
    requires actions[r] == RevokeFamily(pid) && pid in states[r].processes && states[r].processes[pid].FamilyRevoking?
    requires states[r].processes[pid].userId == u
    requires actions[b] == BumpFamily(pid) && pid in states[b].processes && states[b].processes[pid] == FamilyBumping(u)
    requires u in states[b].users
    ensures id in states[r].sessions && states[r].sessions[id].userId == u ==> !Consumes(states, actions, j, id)
    ensures client in states[j].processes && VersionChecked(states[j].processes[client], t, k)
            && t.userId == u && k > b ==>
              t.id in states[j].mints && states[j].mints[t.id] > b
  {
    if id in states[r].sessions && states[r].sessions[id].userId == u {
      RevokedFamilyIsDead(states, actions, r, j, id);
    }
    if client in states[j].processes && VersionChecked(states[j].processes[client], t, k) && t.userId == u && k > b {
      assert StepAt(states, actions, b);
      CheckedIsWitnessed(states, actions, j, client, t, k);
      GenerationBarrier(states, actions, b, k, j, t);
    }
  }
}
