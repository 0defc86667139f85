/** Rotation conserves sessions: the links left by a run form one chain per login, each with one live end. */
module Chains {
  import opened Basics
  import opened Sessions
  import opened SessionRuns
  import opened Containment

  /** Follow `replaced_by` to the session that replaced all the others. */
  function End(h: History, id: TokenId): TokenId
    requires Chained(h) && id in h
    decreases |h| - h[id].born
  {
    assert LinkAgrees(h, id);
    if h[id].next == 0 then id else
    assert LinkAgrees(h, h[id].next);
    End(h, h[id].next)
  }

  /** Go back to the login that started the chain. */
  function Root(h: History, id: TokenId): TokenId
    requires Chained(h) && id in h
    decreases h[id].born
  {
    assert LinkAgrees(h, id);
    if h[id].previous == 0 then id else
    assert LinkAgrees(h, h[id].previous);
    Root(h, h[id].previous)
  }

  lemma {:induction false} EndOf(h: History, id: TokenId)
    requires Chained(h) && id in h
    ensures End(h, id) in h && h[End(h, id)].next == 0
    ensures Root(h, End(h, id)) == Root(h, id)
    ensures h[End(h, id)].userId == h[id].userId
    decreases |h| - h[id].born
  {
    assert LinkAgrees(h, id);
    if h[id].next != 0 {
      assert LinkAgrees(h, h[id].next);
      EndOf(h, h[id].next);
    }
  }

  lemma {:induction false} RootOf(h: History, id: TokenId)
    requires Chained(h) && id in h
    ensures Root(h, id) in h && h[Root(h, id)].previous == 0
    ensures End(h, Root(h, id)) == End(h, id)
    decreases h[id].born
  {
    assert LinkAgrees(h, id);
    if h[id].previous != 0 {
      assert LinkAgrees(h, h[id].previous);
      RootOf(h, h[id].previous);
    }
  }

  function Logins(h: History): set<TokenId> { set id | id in h && h[id].previous == 0 }

  function Unconsumed(h: History): set<TokenId> { set id | id in h && h[id].next == 0 }

  /** Roots and ends pair off, so there are as many of the one as of the other. */
  lemma {:induction false} PairsOff(h: History, roots: set<TokenId>, ends: set<TokenId>)
    requires Chained(h) && roots <= Logins(h) && ends <= Unconsumed(h)
    requires forall r :: r in roots ==> End(h, r) in ends
    requires forall e :: e in ends ==> Root(h, e) in roots
    ensures |roots| == |ends|
    decreases |roots|
  {
    if roots == {} {
      if ends != {} {
        var e := SomeMember(ends);
        assert false;
      }
    } else {
      var r := SomeMember(roots);
      var e := End(h, r);
      EndOf(h, r);
      assert Root(h, e) == r;
      forall x | x in roots - {r} ensures End(h, x) in ends - {e} {
        EndOf(h, x);
      }
      forall y | y in ends - {e} ensures Root(h, y) in roots - {r} {
        RootOf(h, y);
      }
      PairsOff(h, roots - {r}, ends - {e});
    }
  }

  /**
    In every reachable state, `Root` and `End` are inverse between the logins and the never-consumed
    sessions ever recorded: one chain per login, one live end per chain, all of one user.
   */
  lemma RotationConservesSessions(states: seq<State>, actions: seq<Action>, i: nat, id: TokenId)
    requires IsRun(states, actions) && i < |states|
    ensures var h := states[i].history;
            && Chained(h)
            && |Unconsumed(h)| == |Logins(h)|
            && (id in Logins(h) ==> End(h, id) in Unconsumed(h) && Root(h, End(h, id)) == id)
            && (id in Unconsumed(h) ==> Root(h, id) in Logins(h) && End(h, Root(h, id)) == id)
            && (id in h ==> End(h, id) in Unconsumed(h) && h[End(h, id)].userId == h[id].userId)
            // These are the table's own links: a stored row's `replaced_by` is its link, set exactly if it is used.
            && (id in states[i].sessions ==> RowAgrees(h, id, states[i].sessions[id]))
  {
    RunInv(states, actions, i);
    var h := states[i].history;
    forall r | r in Logins(h) ensures End(h, r) in Unconsumed(h) && Root(h, End(h, r)) == r {
      EndOf(h, r);
    }
    forall e | e in Unconsumed(h) ensures Root(h, e) in Logins(h) && End(h, Root(h, e)) == e {
      RootOf(h, e);
    }
    PairsOff(h, Logins(h), Unconsumed(h));
    if id in h {
      EndOf(h, id);
    }
  }

  /** How many logins the run recorded up to state `i`. */
  function LoginsRecorded(states: seq<State>, actions: seq<Action>, i: nat): nat
    requires |states| == |actions| + 1 && i < |states|
  {
    if i == 0 then 0 else
    LoginsRecorded(states, actions, i - 1)
    + (if actions[i - 1].RecordLogin? && states[i].history != states[i - 1].history then 1 else 0)
  }

  lemma LoginsOfRecorded(h: History, userId: int, previous: TokenId, id: TokenId)
    requires id !in h && (previous == 0 || previous in h)
    requires 0 !in h
    ensures Logins(Recorded(h, userId, previous, id)) == if previous == 0 then Logins(h) + {id} else Logins(h)
  {
  }

  lemma LoginsStep(s: State, a: Action, t: State, previous: TokenId)
    requires Inv(s) && (RecordsNothing(s, t) || RecordsPair(s, a, t, previous))
    ensures |Logins(t.history)| == |Logins(s.history)| + (if a.RecordLogin? && t.history != s.history then 1 else 0)
  {
    if t.history != s.history {
      var p := s.processes[a.pid];
      assert 0 !in s.history by { assert forall id :: id in s.history ==> LinkAgrees(s.history, id); }
      LoginsOfRecorded(s.history, p.refresh.userId, previous, p.refresh.id);
    }
  }

  /** The never-consumed sessions ever recorded are as many as the logins the run recorded. */
  lemma {:induction false} UnconsumedCountsLogins(states: seq<State>, actions: seq<Action>, i: nat)
    requires IsRun(states, actions) && i < |states|
    ensures |Unconsumed(states[i].history)| == LoginsRecorded(states, actions, i) == |Logins(states[i].history)|
  {
    RotationConservesSessions(states, actions, i, 0);
    if i > 0 {
      UnconsumedCountsLogins(states, actions, i - 1);
      RunInv(states, actions, i - 1);
      assert StepAt(states, actions, i - 1);
      var pid, p, previous := Summarize(states[i - 1], actions[i - 1], states[i]);
      LoginsStep(states[i - 1], actions[i - 1], states[i], previous);
    }
  }

  // ---------- Single use ----------

  lemma ConsumedStep(s: State, a: Action, t: State, previous: TokenId, id: TokenId)
    requires Inv(s) && (RecordsNothing(s, t) || RecordsPair(s, a, t, previous))
    requires id in s.history && s.history[id].next != 0
    ensures id in t.history && t.history[id] == s.history[id]
  {
  }

  lemma {:induction false} ConsumedForever(states: seq<State>, actions: seq<Action>, i: nat, j: nat, id: TokenId)
    requires IsRun(states, actions) && i <= j < |states|
    requires id in states[i].history && states[i].history[id].next != 0
    ensures id in states[j].history && states[j].history[id] == states[i].history[id]
  {
    if i < j {
      ConsumedForever(states, actions, i, j - 1, id);
      RunInv(states, actions, j - 1);
      assert StepAt(states, actions, j - 1);
      var pid, p, previous := Summarize(states[j - 1], actions[j - 1], states[j]);
      ConsumedStep(states[j - 1], actions[j - 1], states[j], previous, id);
    }
  }

  /** No session is ever consumed by two successful rotations, prunes and resets notwithstanding. */
  lemma NoTokenRotatesTwice(states: seq<State>, actions: seq<Action>, i: nat, j: nat, id: TokenId)
    requires IsRun(states, actions) && i < j < |actions| && Consumes(states, actions, i, id)
    ensures !Consumes(states, actions, j, id)
  {
    RunInv(states, actions, i);
    assert StepAt(states, actions, i);
    var p := states[i].processes[actions[i].pid];
    RotationFacts(states[i], p.presented, p.refresh.id, p.refresh, p.now);
    assert states[i + 1].history[id].next == p.refresh.id;
    ConsumedForever(states, actions, i + 1, j, id);
    RunInv(states, actions, j);
    if Consumes(states, actions, j, id) {
      var q := states[j].processes[actions[j].pid];
      RotationFacts(states[j], q.presented, q.refresh.id, q.refresh, q.now);
    }
  }
}
