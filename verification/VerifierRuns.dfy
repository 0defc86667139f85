/**
  Logins that upgrade a verifier, racing with password changes, local resets, profile
  updates and deletions. Every read and every compare-and-swap is a step of its own.
 */
module VerifierRuns {
  import opened Basics
  import opened Accounts
  import Phc

  datatype Process =
    | LoggingIn(username: string, plaintext: string)
    | Upgrading(id: int, plaintext: string, read: Verifier)
    | Rereading(id: int, plaintext: string)
    | LoggedIn(id: int, plaintext: string)
    | ChangeRequested(id: int, current: string, wanted: string)
    | Changing(id: int, read: Verifier, wanted: string)
    | Changed(id: int)
    | Refused

  /**
    `used` holds every verifier ever stored, `latest` the password of each user's latest
    committed change or reset, `commits` how often each user's password was replaced, `bumps` how
    often a logout-all or a contained replay raised the version, and `base` the versions at the start.
   */
  datatype State = State(
    users: Users, processes: map<int, Process>,
    used: set<Verifier>, latest: map<int, string>,
    commits: multiset<int>, bumps: multiset<int>, base: map<int, int>)

  datatype Action =
    | Begin(pid: int, process: Process)
    | ReadLogin(pid: int)
    | Upgrade(pid: int, salt: nat, now: Time)
    | Reread(pid: int)
    | ReadChange(pid: int)
    | Commit(pid: int, salt: nat, now: Time)
    | Reset(id: int, wanted: string, salt: nat, now: Time)
    | Bump(id: int, now: Time)
    | Delete(id: int)
    | Update(id: int, username: string, profile: Profile, now: Time)

  function Fresh(plaintext: string, salt: nat): Verifier {
    Argon2id(plaintext, Phc.DEFAULTS, salt)
  }

  predicate Init(s: State) {
    && s.processes == map[]
    && s.used == (set id | id in s.users :: s.users[id].verifier)
    && s.latest == (map id | id in s.users && s.users[id].verifier.Argon2id? :: s.users[id].verifier.secret)
    && s.commits == multiset{} && s.bumps == multiset{}
    && s.base == (map id | id in s.users :: s.users[id].version)
  }

  function Move(s: State, pid: int, p: Process): State {
    s.(processes := s.processes[pid := p])
  }

  /** `AuthenticateUser` after loading the row it found by name. */
  function AfterRead(users: Users, username: string, plaintext: string): Process {
    if Named(users, username) == {} then Refused else
    var id := Minimum(Named(users, username));
    var v := users[id].verifier;
    if !v.Accepts(plaintext) then Refused
    else if v.NeedsRehash() then Upgrading(id, plaintext, v)
    else LoggedIn(id, plaintext)
  }

  predicate Running(s: State, pid: int) { pid in s.processes }

  predicate Next(s: State, a: Action, t: State) {
    match a
    case Begin(pid, p) =>
      pid !in s.processes && (p.LoggingIn? || p.ChangeRequested?) && t == Move(s, pid, p)
    case ReadLogin(pid) =>
      Running(s, pid) && s.processes[pid].LoggingIn?
      && t == Move(s, pid, AfterRead(s.users, s.processes[pid].username, s.processes[pid].plaintext))
    case Upgrade(pid, salt, now) =>
      Running(s, pid) && s.processes[pid].Upgrading?
      && var p := s.processes[pid];
         var hashed := Fresh(p.plaintext, salt);
         && hashed !in s.used
         && (match StoreVerifier(s.users, p.id, p.read, hashed, 0, now)
             case Some(users) =>
               t == Move(s, pid, LoggedIn(p.id, p.plaintext)).(users := users, used := s.used + {hashed})
             case None => t == Move(s, pid, Rereading(p.id, p.plaintext)))
    case Reread(pid) =>
      Running(s, pid) && s.processes[pid].Rereading?
      && var p := s.processes[pid];
         t == Move(s, pid,
                if p.id in s.users && s.users[p.id].verifier.Accepts(p.plaintext)
                then LoggedIn(p.id, p.plaintext) else Refused)
    case ReadChange(pid) =>
      Running(s, pid) && s.processes[pid].ChangeRequested?
      && var p := s.processes[pid];
         t == Move(s, pid,
                if ValidNewPassword(p.wanted) && 1 <= |p.current| <= 1024
                   && p.id in s.users && s.users[p.id].verifier.Accepts(p.current)
                then Changing(p.id, s.users[p.id].verifier, p.wanted) else Refused)
    case Commit(pid, salt, now) =>
      Running(s, pid) && s.processes[pid].Changing?
      && var p := s.processes[pid];
         var hashed := Fresh(p.wanted, salt);
         && hashed !in s.used
         && (match StoreVerifier(s.users, p.id, p.read, hashed, 1, now)
             case Some(users) =>
               t == Move(s, pid, Changed(p.id)).(users := users, used := s.used + {hashed},
                      latest := s.latest[p.id := p.wanted], commits := s.commits + multiset{p.id})
             case None => t == Move(s, pid, Refused))
    case Reset(id, wanted, salt, now) =>
      var hashed := Fresh(wanted, salt);
      && hashed !in s.used && id in s.users
      && var stored := StoreVerifier(s.users, id, s.users[id].verifier, hashed, 1, now);
         stored.Some?
         && t == s.(users := stored.value, used := s.used + {hashed},
                    latest := s.latest[id := wanted], commits := s.commits + multiset{id})
    case Bump(id, now) =>
      id in s.users && t == s.(users := BumpVersion(s.users, id, now), bumps := s.bumps + multiset{id})
    case Delete(id) => t == s.(users := DeleteUser(s.users, id))
    case Update(id, username, profile, now) => t == s.(users := UpdateUser(s.users, id, username, profile, now))
  }

  // ---------- Invariants ----------

  /**
    Every stored verifier has been recorded as used. It is Argon2id exactly for a user with a known latest
    password, and then it is a verifier of that password.
   */
  predicate LatestWins(s: State) {
    forall id :: id in s.users ==>
      && s.users[id].verifier in s.used
      && (s.users[id].verifier.Argon2id? <==> id in s.latest)
      && (id in s.latest ==> s.latest[id] == s.users[id].verifier.secret)
  }

  predicate VersionsCount(s: State) {
    forall id :: id in s.users ==>
      id in s.base && s.users[id].version == s.base[id] + s.commits[id] + s.bumps[id]
  }

  /** What a waiting process has read was stored once, and accepted its plaintext. */
  predicate ReadsAreUsed(s: State) {
    forall pid :: pid in s.processes ==>
      && (s.processes[pid].Upgrading? ==>
           s.processes[pid].read in s.used && s.processes[pid].read.Accepts(s.processes[pid].plaintext))
      && (s.processes[pid].Changing? ==> s.processes[pid].read in s.used)
  }

  predicate Inv(s: State) { LatestWins(s) && VersionsCount(s) && ReadsAreUsed(s) }

  lemma InitInv(s: State)
    requires Init(s)
    ensures Inv(s)
  {
  }

  lemma NextLatestWins(s: State, a: Action, t: State)
    requires Inv(s) && Next(s, a, t)
    ensures LatestWins(t)
  {
  }

  lemma NextVersionsCount(s: State, a: Action, t: State)
    requires VersionsCount(s) && Next(s, a, t)
    ensures VersionsCount(t)
  {
  }

  lemma NextReadsAreUsed(s: State, a: Action, t: State)
    requires Inv(s) && Next(s, a, t)
    ensures ReadsAreUsed(t)
  {
  }

  lemma NextInv(s: State, a: Action, t: State)
    requires Inv(s) && Next(s, a, t)
    ensures Inv(t)
  {
    NextLatestWins(s, a, t);
    NextVersionsCount(s, a, t);
    NextReadsAreUsed(s, a, t);
  }

  predicate StepAt(states: seq<State>, actions: seq<Action>, i: int)
    requires |states| == |actions| + 1 && 0 <= i < |actions|
  {
    Next(states[i], actions[i], states[i + 1])
  }

  predicate IsRun(states: seq<State>, actions: seq<Action>) {
    && |states| == |actions| + 1
    && Init(states[0])
    && forall i :: 0 <= i < |actions| ==> StepAt(states, actions, i)
  }

  lemma {:induction false} RunInv(states: seq<State>, actions: seq<Action>, i: nat)
    requires IsRun(states, actions) && i < |states|
    ensures Inv(states[i])
  {
    if i == 0 {
      InitInv(states[0]);
    } else {
      RunInv(states, actions, i - 1);
      assert StepAt(states, actions, i - 1);
      NextInv(states[i - 1], actions[i - 1], states[i]);
    }
  }

  // ---------- Theorems ----------

  /**
    At every moment of every run a user's stored verifier accepts exactly the password of the latest
    committed change, and nothing while there has been none over a legacy value; the token version has
    grown by one per committed change and one per bump.
   */
  lemma StoredVerifierMatchesLatestChange(states: seq<State>, actions: seq<Action>, i: nat, id: int, plaintext: string)
    requires IsRun(states, actions) && i < |states| && id in states[i].users
    ensures var s := states[i];
            s.users[id].verifier.Accepts(plaintext) <==> id in s.latest && plaintext == s.latest[id]
    ensures id in states[0].users
    ensures states[i].users[id].version == states[0].users[id].version + states[i].commits[id] + states[i].bumps[id]
  {
    RunInv(states, actions, i);
    BaseIsInitial(states, actions, i);
  }

  lemma {:induction false} BaseIsInitial(states: seq<State>, actions: seq<Action>, i: nat)
    requires IsRun(states, actions) && i < |states|
    ensures states[i].base == states[0].base
  {
    if i > 0 {
      BaseIsInitial(states, actions, i - 1);
      assert StepAt(states, actions, i - 1);
    }
  }

  /** An upgrade, in any state of any run, changes no user's accepted plaintexts, version or latest password. */
  lemma UpgradeChangesNoPassword(states: seq<State>, actions: seq<Action>, i: nat, id: int, plaintext: string)
    requires IsRun(states, actions) && i < |actions| && actions[i].Upgrade? && id in states[i].users
    ensures id in states[i + 1].users
    ensures states[i + 1].users[id].verifier.Accepts(plaintext) <==> states[i].users[id].verifier.Accepts(plaintext)
    ensures states[i + 1].users[id].version == states[i].users[id].version
    ensures states[i + 1].latest == states[i].latest
  {
    RunInv(states, actions, i);
    assert StepAt(states, actions, i);
  }

  /** A login succeeds only with the password of the latest committed change at that moment. */
  lemma LoginNeedsLatestPassword(states: seq<State>, actions: seq<Action>, i: nat, pid: int)
    requires IsRun(states, actions) && i < |actions|
    requires pid in states[i + 1].processes && states[i + 1].processes[pid].LoggedIn?
    requires pid !in states[i].processes || !states[i].processes[pid].LoggedIn?
    ensures var p := states[i + 1].processes[pid];
            p.id in states[i].latest && p.plaintext == states[i].latest[p.id]
  {
    RunInv(states, actions, i);
    assert StepAt(states, actions, i);
  }

  /** A login with the latest password of the first user of that name is not refused: it is in, or about to upgrade. */
  lemma RightPasswordIsNotRefused(states: seq<State>, actions: seq<Action>, i: nat, id: int)
    requires IsRun(states, actions) && i < |actions| && actions[i].ReadLogin? && actions[i].pid in states[i].processes
    requires states[i].processes[actions[i].pid].LoggingIn? && id in states[i].users && id in states[i].latest
    requires states[i].users[id].username == states[i].processes[actions[i].pid].username
    requires forall k :: k in states[i].users && states[i].users[k].username == states[i].users[id].username ==> id <= k
    requires states[i].latest[id] == states[i].processes[actions[i].pid].plaintext
    ensures actions[i].pid in states[i + 1].processes
    ensures var p, v := states[i].processes[actions[i].pid], states[i].users[id].verifier;
            && v.Argon2id?
            && states[i + 1].processes[actions[i].pid] ==
                 if v.parameters == Phc.Parameters(65536, 3, 4, 16, 32)
                 then LoggedIn(id, p.plaintext) else Upgrading(id, p.plaintext, v)
  {
    RunInv(states, actions, i);
    assert StepAt(states, actions, i);
    var named := Named(states[i].users, states[i].users[id].username);
    assert id in named && Minimum(named) == id;
  }

  /** Such an upgrade stores current parameters for the same password, unless the verifier changed since it was read. */
  lemma UpgradeSettles(states: seq<State>, actions: seq<Action>, i: nat)
    requires IsRun(states, actions) && i < |actions| && actions[i].Upgrade? && actions[i].pid in states[i].processes
    requires states[i].processes[actions[i].pid].Upgrading?
    ensures actions[i].pid in states[i + 1].processes
    ensures var p, q := states[i].processes[actions[i].pid], states[i + 1].processes[actions[i].pid];
            if p.id in states[i].users && states[i].users[p.id].verifier == p.read then
              && q == LoggedIn(p.id, p.plaintext)
              && p.id in states[i + 1].users
              && var v := states[i + 1].users[p.id].verifier;
                 v.Accepts(p.plaintext) && v.parameters == Phc.Parameters(65536, 3, 4, 16, 32)
            else q == Rereading(p.id, p.plaintext) && states[i + 1].users == states[i].users
  {
    assert StepAt(states, actions, i);
  }

  /** After a lost race the login still succeeds, exactly with the password that is then the latest. */
  lemma RereadSettles(states: seq<State>, actions: seq<Action>, i: nat)
    requires IsRun(states, actions) && i < |actions| && actions[i].Reread? && actions[i].pid in states[i].processes
    requires states[i].processes[actions[i].pid].Rereading?
    ensures actions[i].pid in states[i + 1].processes
    ensures var p := states[i].processes[actions[i].pid];
            states[i + 1].processes[actions[i].pid] ==
              if p.id in states[i].users && p.id in states[i].latest && states[i].latest[p.id] == p.plaintext
              then LoggedIn(p.id, p.plaintext) else Refused
  {
    RunInv(states, actions, i);
    assert StepAt(states, actions, i);
  }

  /** A change commits exactly if the verifier it read is still the stored one, and is then the latest password. */
  lemma ChangeSettles(states: seq<State>, actions: seq<Action>, i: nat)
    requires IsRun(states, actions) && i < |actions| && actions[i].Commit? && actions[i].pid in states[i].processes
    requires states[i].processes[actions[i].pid].Changing?
    ensures actions[i].pid in states[i + 1].processes
    ensures var p, q := states[i].processes[actions[i].pid], states[i + 1].processes[actions[i].pid];
            if p.id in states[i].users && states[i].users[p.id].verifier == p.read then
              q == Changed(p.id) && p.id in states[i + 1].latest && states[i + 1].latest[p.id] == p.wanted
            else q == Refused && states[i + 1].users == states[i].users
  {
    assert StepAt(states, actions, i);
  }

  /** A request for a change gets there exactly with the latest password and an acceptable new one. */
  lemma ChangeIsAdmitted(states: seq<State>, actions: seq<Action>, i: nat)
    requires IsRun(states, actions) && i < |actions| && actions[i].ReadChange? && actions[i].pid in states[i].processes
    requires states[i].processes[actions[i].pid].ChangeRequested?
    ensures actions[i].pid in states[i + 1].processes
    ensures var p, q := states[i].processes[actions[i].pid], states[i + 1].processes[actions[i].pid];
            if && p.id in states[i].users && p.id in states[i].latest && states[i].latest[p.id] == p.current
               && 1 <= |p.current| <= 1024 && 12 <= |p.wanted| <= 1024
               && '\0' !in p.wanted && '\r' !in p.wanted && '\n' !in p.wanted
            then q == Changing(p.id, states[i].users[p.id].verifier, p.wanted)
            else q == Refused
  {
    RunInv(states, actions, i);
    assert StepAt(states, actions, i);
  }

  /** This verifier was stored once and is not what the user's row holds now. */
  predicate Retired(s: State, id: int, v: Verifier) {
    v in s.used && (id in s.users ==> s.users[id].verifier != v)
  }

  lemma RetiredStep(s: State, a: Action, t: State, id: int, v: Verifier)
    requires LatestWins(s) && Next(s, a, t) && Retired(s, id, v)
    ensures Retired(t, id, v)
  {
  }

  lemma {:induction false} RetiredForever(
    states: seq<State>, actions: seq<Action>, i: nat, j: nat, id: int, v: Verifier)
    requires IsRun(states, actions) && i <= j < |states| && Retired(states[i], id, v)
    ensures Retired(states[j], id, v)
  {
    if i < j {
      RetiredForever(states, actions, i, j - 1, id, v);
      RunInv(states, actions, j - 1);
      assert StepAt(states, actions, j - 1);
      RetiredStep(states[j - 1], actions[j - 1], states[j], id, v);
    }
  }

  /** Step `i` is a change by `pid` that commits over the verifier `v` it had read for user `id`. */
  predicate CommitsOver(states: seq<State>, actions: seq<Action>, i: nat, id: int, v: Verifier)
    requires IsRun(states, actions) && i < |actions|
  {
    && actions[i].Commit?
    && actions[i].pid in states[i].processes
    && states[i].processes[actions[i].pid].Changing?
    && states[i].processes[actions[i].pid].id == id
    && states[i].processes[actions[i].pid].read == v
    && actions[i].pid in states[i + 1].processes
    && states[i + 1].processes[actions[i].pid] == Changed(id)
  }

  lemma CommitRetires(s: State, a: Action, t: State)
    requires LatestWins(s) && Next(s, a, t)
    requires a.Commit? && a.pid in s.processes && s.processes[a.pid].Changing? && t.processes[a.pid].Changed?
    ensures var p := s.processes[a.pid];
            p.id in s.users && s.users[p.id].verifier == p.read && Retired(t, p.id, p.read)
  {
  }

  /**
    A committed change makes its password the one that verifies, raises its user's version by exactly one,
    and leaves every other row alone.
   */
  lemma CommitReplacesOnePassword(
    states: seq<State>, actions: seq<Action>, i: nat, id: int, v: Verifier, other: int, plaintext: string)
    requires IsRun(states, actions) && i < |actions| && CommitsOver(states, actions, i, id, v)
    ensures id in states[i].users && id in states[i + 1].users && states[i].users[id].verifier == v
    ensures states[i + 1].users[id].verifier.Accepts(plaintext) <==>
              plaintext == states[i].processes[actions[i].pid].wanted
    ensures states[i + 1].users[id].version == states[i].users[id].version + 1
    ensures other in states[i].users && other != id ==>
              other in states[i + 1].users && states[i + 1].users[other] == states[i].users[other]
  {
    RunInv(states, actions, i);
    assert StepAt(states, actions, i);
    CommitRetires(states[i], actions[i], states[i + 1]);
  }

  /** Among changes that read the same verifier of a user, at most one ever commits. */
  lemma OneCommitPerVerifier(states: seq<State>, actions: seq<Action>, i: nat, j: nat, id: int, v: Verifier)
    requires IsRun(states, actions) && i < j < |actions|
    requires CommitsOver(states, actions, i, id, v)
    ensures !CommitsOver(states, actions, j, id, v)
  {
    RunInv(states, actions, i);
    assert StepAt(states, actions, i);
    CommitRetires(states[i], actions[i], states[i + 1]);
    RetiredForever(states, actions, i + 1, j, id, v);
    RunInv(states, actions, j);
    if CommitsOver(states, actions, j, id, v) {
      assert StepAt(states, actions, j);
      CommitRetires(states[j], actions[j], states[j + 1]);
    }
  }
}
