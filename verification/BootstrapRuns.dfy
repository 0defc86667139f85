/**
  Any number of `ReconcileState` and `CreateAdmin` calls, interleaved at every seal access and
  every transaction, with crashes anywhere, beside a daemon that edits and deletes users, and
  (in one of the theorems) an operator who replaces the whole database.
 */
module BootstrapRuns {
  import opened Basics
  import opened Installation
  import opened Accounts
  import opened Bootstrap

  datatype Request = Request(username: string, verifier: Verifier)

  /** Why a process is reconciling or sealing: alone, or as part of one administrator request. */
  datatype Stage = Standalone | BeforeAdmin(request: Request) | AfterRefusal | AfterCommit(userId: int)

  datatype Outcome =
    | Reconciled(standing: Standing)
    | Created(userId: int)
    | Refused(error: BootstrapError)

  datatype Phase =
    | LoadingSeal(stage: Stage)
    | Reconciling(stage: Stage, seen: Option<string>)
    | SealLoading(stage: Stage, standing: Standing)
    | SealLinking(stage: Stage, standing: Standing)
    | SealReloading(stage: Stage, standing: Standing)
    | Inserting(request: Request, standing: Standing)
    | Returned(outcome: Outcome)
    | Crashed

  /** `commits` lists the processes that committed an administrator, in order. */
  datatype World = World(db: Database, seal: Option<string>, processes: map<int, Phase>, commits: seq<int>)

  datatype Action =
    | Begin(pid: int, stage: Stage)
    | LoadSeal(pid: int)
    | Reconcile(pid: int, newId: string, now: Time)
    | SealLoad(pid: int)
    | SealLink(pid: int)
    | SealReload(pid: int)
    | Insert(pid: int, userId: int, hookOk: bool, now: Time)
    | Crash(pid: int)
    | Delete(id: int)
    | Edit(users: Users)
    | Replace(db: Database)

  function Move(w: World, pid: int, p: Phase): World {
    w.(processes := w.processes[pid := p])
  }

  /** Where a call goes once its reconcile, and the seal that asked for, are done. */
  function Settled(stage: Stage, standing: Standing): Phase {
    match stage
    case Standalone => Returned(Reconciled(standing))
    case BeforeAdmin(request) =>
      if standing.status == Pristine then Inserting(request, standing) else Returned(Refused(AlreadyInitialized))
    case AfterRefusal => Returned(Refused(AlreadyInitialized))
    case AfterCommit(userId) => Returned(Created(userId))
  }

  function AfterVerdict(stage: Stage, v: Verdict): Phase {
    if v.createSeal then SealLoading(stage, v.standing)
    else if v.recovery then Returned(Refused(RecoveryRequired))
    else Settled(stage, v.standing)
  }

  /** The answer of a seal creation that found `seal` in its way. */
  function FoundSeal(stage: Stage, standing: Standing, seal: Option<string>): Phase {
    if seal == Some(standing.id) then Settled(stage, standing) else Returned(Refused(SealFailed))
  }

  predicate At(w: World, pid: int) { pid in w.processes }

  predicate Next(w: World, a: Action, x: World) {
    match a
    case Begin(pid, stage) =>
      pid !in w.processes
      && (match stage
          case Standalone => x == Move(w, pid, LoadingSeal(stage))
          case BeforeAdmin(r) =>
            x == Move(w, pid, if r.verifier.Argon2id? then LoadingSeal(stage) else Returned(Refused(WeakVerifier)))
          case _ => false)
    case LoadSeal(pid) =>
      At(w, pid) && w.processes[pid].LoadingSeal?
      && x == Move(w, pid, Reconciling(w.processes[pid].stage, w.seal))
    case Reconcile(pid, newId, now) =>
      At(w, pid) && w.processes[pid].Reconciling? && ValidId(newId)
      && var p := w.processes[pid];
         x == Move(w, pid, AfterVerdict(p.stage, Judge(w.db, p.seen, newId))).(
                db := ReconcileTx(w.db, p.seen, newId, now))
    case SealLoad(pid) =>
      At(w, pid) && w.processes[pid].SealLoading?
      && var p := w.processes[pid];
         x == Move(w, pid,
                if !ValidId(p.standing.id) then Returned(Refused(SealFailed))
                else if w.seal.Some? then FoundSeal(p.stage, p.standing, w.seal)
                else SealLinking(p.stage, p.standing))
    case SealLink(pid) =>
      At(w, pid) && w.processes[pid].SealLinking?
      && var p := w.processes[pid];
         x == (if w.seal.None?
               then Move(w, pid, Settled(p.stage, p.standing)).(seal := Some(p.standing.id))
               else Move(w, pid, SealReloading(p.stage, p.standing)))
    case SealReload(pid) =>
      At(w, pid) && w.processes[pid].SealReloading?
      && var p := w.processes[pid];
         x == Move(w, pid, FoundSeal(p.stage, p.standing, w.seal))
    case Insert(pid, userId, hookOk, now) =>
      At(w, pid) && w.processes[pid].Inserting?
      && var p := w.processes[pid];
         x == (if !MayInsert(w.db, p.standing.id) then Move(w, pid, LoadingSeal(AfterRefusal))
               else if userId < 1 || !hookOk then Move(w, pid, Returned(Refused(HookFailed)))
               else Move(w, pid, SealLoading(AfterCommit(userId), p.standing)).(
                      db := InsertAdmin(w.db, userId, NewAdmin(p.request.username, p.request.verifier, now), now),
                      commits := w.commits + [pid]))
    case Crash(pid) => At(w, pid) && x == Move(w, pid, Crashed)
    case Delete(id) => x == w.(db := w.db.(users := DeleteUser(w.db.users, id)))
    case Edit(users) => SameRoles(w.db.users, users) && x == w.(db := w.db.(users := users))
    case Replace(db) => x == w.(db := db)
  }

  predicate StepAt(worlds: seq<World>, actions: seq<Action>, i: int)
    requires |worlds| == |actions| + 1 && 0 <= i < |actions|
  {
    Next(worlds[i], actions[i], worlds[i + 1])
  }

  predicate IsRun(worlds: seq<World>, actions: seq<Action>) {
    |worlds| == |actions| + 1 && forall i :: 0 <= i < |actions| ==> StepAt(worlds, actions, i)
  }

  predicate Untampered(actions: seq<Action>) {
    forall i :: 0 <= i < |actions| ==> !actions[i].Replace?
  }

  // ---------- One step, in any world ----------

  /** No step of the code lowers the marker's status, and a locked marker freezes bootstrap and user rows alike. */
  lemma StepOnlyAdvances(w: World, a: Action, x: World)
    requires Next(w, a, x) && !a.Replace?
    requires forall pid :: pid in w.processes && w.processes[pid].Reconciling? && w.processes[pid].seen.Some? ==>
               ValidId(w.processes[pid].seen.value)
    ensures Rank(x.db) >= Rank(w.db)
    ensures Rank(w.db) == 3 ==> x.db.marker == w.db.marker && x.commits == w.commits
    ensures Rank(w.db) == 3 && !a.Delete? && !a.Edit? ==> x.db.users == w.db.users
    ensures Rank(w.db) > 0 ==> x.db.marker.Some? && x.db.marker.value.id == w.db.marker.value.id
  {
    if a.Reconcile? {
      var p := w.processes[a.pid];
      ReconcileOnlyAdvances(w.db, p.seen, a.newId, a.now);
    }
  }

  /** Every identifier a process may seal with, or has read from the seal, is well formed. */
  predicate SealsAreValid(w: World) {
    && (w.seal.Some? ==> ValidId(w.seal.value))
    && (forall pid :: pid in w.processes ==>
          && (w.processes[pid].Reconciling? && w.processes[pid].seen.Some? ==> ValidId(w.processes[pid].seen.value))
          && (w.processes[pid].SealLinking? ==> ValidId(w.processes[pid].standing.id)))
  }

  lemma NextSealsAreValid(w: World, a: Action, x: World)
    requires SealsAreValid(w) && Next(w, a, x)
    ensures SealsAreValid(x)
  {
  }

  lemma {:induction false} RunSealsAreValid(worlds: seq<World>, actions: seq<Action>, i: nat)
    requires IsRun(worlds, actions) && i < |worlds| && SealsAreValid(worlds[0])
    ensures SealsAreValid(worlds[i])
  {
    if i > 0 {
      RunSealsAreValid(worlds, actions, i - 1);
      assert StepAt(worlds, actions, i - 1);
      NextSealsAreValid(worlds[i - 1], actions[i - 1], worlds[i]);
    }
  }

  /**
    Between replacements of the database the marker's status never moves backwards, whatever the
    appliance looked like at the start; and once locked, the lock and its id stay and nobody inserts an administrator.
   */
  lemma {:induction false} MarkerNeverMovesBack(worlds: seq<World>, actions: seq<Action>, i: nat, j: nat)
    requires IsRun(worlds, actions) && i <= j < |worlds| && SealsAreValid(worlds[0])
    requires forall k :: i <= k < j ==> !actions[k].Replace?
    ensures Rank(worlds[j].db) >= Rank(worlds[i].db)
    ensures Rank(worlds[i].db) == 3 ==>
              worlds[j].db.marker == worlds[i].db.marker && worlds[j].commits == worlds[i].commits
    ensures Rank(worlds[i].db) > 0 ==>
              worlds[j].db.marker.Some? && worlds[j].db.marker.value.id == worlds[i].db.marker.value.id
  {
    if i < j {
      MarkerNeverMovesBack(worlds, actions, i, j - 1);
      RunSealsAreValid(worlds, actions, j - 1);
      assert StepAt(worlds, actions, j - 1);
      StepOnlyAdvances(worlds[j - 1], actions[j - 1], worlds[j]);
    }
  }

  /** The seal is write-once under every step, tampering included; a creation that succeeds leaves its own id there. */
  lemma StepKeepsSeal(w: World, a: Action, x: World)
    requires Next(w, a, x)
    ensures w.seal.Some? ==> x.seal == w.seal
    ensures (a.SealLoad? || a.SealLink? || a.SealReload?) && !x.processes[a.pid].SealLinking?
            && !x.processes[a.pid].SealReloading? && x.processes[a.pid] != Returned(Refused(SealFailed)) ==>
              x.seal == Some(w.processes[a.pid].standing.id)
  {
  }

  lemma {:induction false} SealIsWriteOnce(worlds: seq<World>, actions: seq<Action>, i: nat, j: nat)
    requires IsRun(worlds, actions) && i <= j < |worlds| && worlds[i].seal.Some?
    ensures worlds[j].seal == worlds[i].seal
  {
    if i < j {
      SealIsWriteOnce(worlds, actions, i, j - 1);
      assert StepAt(worlds, actions, j - 1);
      StepKeepsSeal(worlds[j - 1], actions[j - 1], worlds[j]);
    }
  }

  /** Step `i` ends a seal creation for `id` with success. */
  predicate CreatesSeal(w: World, a: Action, x: World, id: string) {
    && (a.SealLoad? || a.SealLink? || a.SealReload?) && At(w, a.pid) && At(x, a.pid)
    && (w.processes[a.pid].SealLoading? || w.processes[a.pid].SealLinking? || w.processes[a.pid].SealReloading?)
    && w.processes[a.pid].standing.id == id
    && !x.processes[a.pid].SealLinking? && !x.processes[a.pid].SealReloading?
    && x.processes[a.pid] != Returned(Refused(SealFailed))
  }

  /** After a creation that succeeded, every later load reads its id, and no creation for another id succeeds. */
  lemma CreatedSealIsLoaded(
    worlds: seq<World>, actions: seq<Action>, i: nat, j: nat, id: string, other: string, w: World, x: World)
    requires IsRun(worlds, actions) && i < j < |actions| && w == worlds[j] && x == worlds[j + 1]
    requires CreatesSeal(worlds[i], actions[i], worlds[i + 1], id)
    ensures w.seal == Some(id)
    ensures actions[j].LoadSeal? ==>
              && At(x, actions[j].pid) && x.processes[actions[j].pid].Reconciling?
              && x.processes[actions[j].pid].seen == Some(id)
    ensures CreatesSeal(w, actions[j], x, other) ==> other == id
  {
    assert StepAt(worlds, actions, i);
    StepKeepsSeal(worlds[i], actions[i], worlds[i + 1]);
    SealIsWriteOnce(worlds, actions, i + 1, j);
    assert StepAt(worlds, actions, j);
    StepKeepsSeal(w, actions[j], x);
  }

  // ---------- Undisturbed calls ----------

  /** An administrator is committed exactly over a pristine marker with the promised id and no users. */
  lemma InsertCommitsExactly(w: World, a: Action, x: World)
    requires Next(w, a, x) && a.Insert?
    ensures x.commits != w.commits <==>
              && w.db.marker != None && w.db.marker.value.status == Pristine
              && w.db.marker.value.id == w.processes[a.pid].standing.id && w.db.users.Keys == {}
              && a.userId >= 1 && a.hookOk
    ensures x.commits != w.commits ==>
              && x.commits == w.commits + [a.pid] && x.db.users.Keys == {a.userId}
              && var user, request := x.db.users[a.userId], w.processes[a.pid].request;
                 && user.username == request.username && user.verifier == request.verifier && user.role == "admin"
                 && x.db.marker == Some(Marker(w.db.marker.value.id, Initialized, Some(a.userId), Some(a.now)))
    ensures x.commits == w.commits ==> x.db == w.db
  {
  }

  /** The run goes from this world to that one. */
  predicate Leads(w: World, worlds: seq<World>, actions: seq<Action>, x: World) {
    IsRun(worlds, actions) && worlds[0] == w && worlds[|actions|] == x
  }

  lemma Onward(w: World, worlds: seq<World>, actions: seq<Action>, x: World, a: Action, y: World)
    requires Leads(w, worlds, actions, x) && Next(x, a, y)
    ensures Leads(w, worlds + [y], actions + [a], y)
  {
    var more, acts := worlds + [y], actions + [a];
    forall i | 0 <= i < |acts| ensures StepAt(more, acts, i) {
      if i < |actions| {
        assert StepAt(worlds, actions, i);
      }
    }
  }

  /** Loading the seal and the reconcile transaction. */
  lemma ReconcilesFirst(w: World, pid: int, stage: Stage, newId: string, now: Time)
    returns (worlds: seq<World>, actions: seq<Action>, x: World)
    requires pid !in w.processes && ValidId(newId)
    requires stage.Standalone? || (stage.BeforeAdmin? && stage.request.verifier.Argon2id?)
    ensures Leads(w, worlds, actions, x)
    ensures x == Move(w, pid, AfterVerdict(stage, Judge(w.db, w.seal, newId))).(
                   db := ReconcileTx(w.db, w.seal, newId, now))
  {
    var w1 := Move(w, pid, LoadingSeal(stage));
    var w2 := Move(w, pid, Reconciling(stage, w.seal));
    x := Move(w, pid, AfterVerdict(stage, Judge(w.db, w.seal, newId))).(db := ReconcileTx(w.db, w.seal, newId, now));
    assert w1.processes[pid := w2.processes[pid]] == w2.processes;
    assert w2.processes[pid := x.processes[pid]] == x.processes;
    Onward(w, [w], [], w, Begin(pid, stage), w1);
    Onward(w, [w] + [w1], [] + [Begin(pid, stage)], w1, LoadSeal(pid), w2);
    Onward(w, [w] + [w1] + [w2], [] + [Begin(pid, stage)] + [LoadSeal(pid)], w2, Reconcile(pid, newId, now), x);
    worlds := [w] + [w1] + [w2] + [x];
    actions := [] + [Begin(pid, stage)] + [LoadSeal(pid)] + [Reconcile(pid, newId, now)];
  }

  /** Creating a seal where there is none. */
  lemma SealsNext(w: World, worlds: seq<World>, actions: seq<Action>, x: World, pid: int, stage: Stage, s: Standing)
    returns (more: seq<World>, acts: seq<Action>, y: World)
    requires Leads(w, worlds, actions, x) && x.seal == None && ValidId(s.id)
    requires pid in x.processes && x.processes[pid] == SealLoading(stage, s)
    ensures Leads(w, more, acts, y)
    ensures y == Move(x, pid, Settled(stage, s)).(seal := Some(s.id))
  {
    var x1 := Move(x, pid, SealLinking(stage, s));
    y := Move(x, pid, Settled(stage, s)).(seal := Some(s.id));
    assert x1.processes[pid := y.processes[pid]] == y.processes;
    Onward(w, worlds, actions, x, SealLoad(pid), x1);
    Onward(w, worlds + [x1], actions + [SealLoad(pid)], x1, SealLink(pid), y);
    more, acts := worlds + [x1] + [y], actions + [SealLoad(pid)] + [SealLink(pid)];
  }

  lemma JudgedIdIsValid(db: Database, seen: Option<string>, newId: string)
    requires ValidId(newId) && (seen.Some? ==> ValidId(seen.value))
    ensures ValidId(Judge(db, seen, newId).standing.id)
    ensures Judge(db, seen, newId).createSeal ==> seen == None
  {
  }

  /**
    A reconcile that nobody disturbs does in its separate steps, from any world whatever, what the whole call promises:
    the judged database, the seal if it asked for one, and the standing or the demand for recovery.
   */
  lemma UndisturbedReconcile(w: World, pid: int, newId: string, now: Time)
    returns (worlds: seq<World>, actions: seq<Action>, x: World)
    requires pid !in w.processes && ValidId(newId) && (w.seal.Some? ==> ValidId(w.seal.value))
    ensures Leads(w, worlds, actions, x)
    ensures var v := Judge(w.db, w.seal, newId);
            && x.db == ReconcileTx(w.db, w.seal, newId, now) && x.seal == SealAfter(v, w.seal)
            && Told(x, pid, if v.recovery then Refused(RecoveryRequired) else Reconciled(v.standing))
  {
    var v := Judge(w.db, w.seal, newId);
    JudgedIdIsValid(w.db, w.seal, newId);
    worlds, actions, x := ReconcilesFirst(w, pid, Standalone, newId, now);
    if v.createSeal {
      worlds, actions, x := SealsNext(w, worlds, actions, x, pid, Standalone, v.standing);
    }
  }

  /**
    And an administrator request that nobody disturbs, while setup is open, ends with the administrator created: the
    row asked for, the marker in service and naming it, and the seal.
   */
  lemma UndisturbedSetup(w: World, pid: int, request: Request, newId: string, userId: int, now: Time)
    returns (worlds: seq<World>, actions: seq<Action>, x: World)
    requires pid !in w.processes && ValidId(newId) && request.verifier.Argon2id? && userId >= 1
    requires SetupIsOpen(w.db, w.seal)
    ensures Leads(w, worlds, actions, x)
    ensures Told(x, pid, Created(userId)) && x.commits == w.commits + [pid]
    ensures x.db.users == map[userId := NewAdmin(request.username, request.verifier, now)]
    ensures x.db.marker.Some? && x.db.marker.value.status == Initialized && x.seal == Some(x.db.marker.value.id)
  {
    var v := Judge(w.db, w.seal, newId);
    JudgedIdIsValid(w.db, w.seal, newId);
    var before: World;
    worlds, actions, before := ReconcilesFirst(w, pid, BeforeAdmin(request), newId, now);
    var a := Insert(pid, userId, true, now);
    var admin := NewAdmin(request.username, request.verifier, now);
    assert MayInsert(before.db, v.standing.id);
    var y := Move(before, pid, SealLoading(AfterCommit(userId), v.standing)).(
      db := InsertAdmin(before.db, userId, admin, now), commits := w.commits + [pid]);
    Onward(w, worlds, actions, before, a, y);
    worlds, actions, x := SealsNext(w, worlds + [y], actions + [a], y, pid, AfterCommit(userId), v.standing);
  }

  // ---------- Untampered runs ----------

  /** Nothing has started yet: an empty appliance, or a legacy one with an administrator. */
  predicate Factory(w: World) {
    && w.db.marker.None? && w.seal.None? && w.processes == map[] && w.commits == []
    && (w.db.users.Keys == {} || HasAdmin(w.db.users))
  }

  /** The database side: never locked, users appear with the marker, the seal follows the marker. */
  predicate Coherent(w: World) {
    && (w.db.users.Keys == {} || HasAdmin(w.db.users))
    && (w.db.marker.None? ==> w.seal.None? && w.commits == [])
    && (w.db.marker.Some? ==>
          var m := w.db.marker.value;
          && ReadableMarker(m) && m.status != Recovery
          && (m.status == Pristine ==> w.db.users.Keys == {} && w.seal.None? && w.commits == [])
          && (m.status == Initialized ==>
               HasAdmin(w.db.users) && |w.commits| <= 1 && (w.seal.None? || w.seal == Some(m.id))))
  }

  predicate MarkerIs(w: World, id: string) { w.db.marker.Some? && w.db.marker.value.id == id }

  predicate InService(w: World, id: string) { MarkerIs(w, id) && w.db.marker.value.status == Initialized }

  predicate CommittedBy(w: World, pid: int) { w.commits == [pid] }

  predicate Sealing(w: World, pid: int, stage: Stage, s: Standing) {
    && InService(w, s.id) && s.status != Recovery
    && (stage.AfterCommit? ==> CommittedBy(w, pid))
    && (stage.BeforeAdmin? ==> s.status == Initialized)
  }

  /** What each process may still believe. */
  predicate Sound(w: World, pid: int, p: Phase) {
    match p
    case LoadingSeal(stage) => !stage.AfterCommit?
    case Reconciling(stage, seen) => !stage.AfterCommit? && (seen.Some? ==> InService(w, seen.value) && w.seal == seen)
    case SealLoading(stage, s) => Sealing(w, pid, stage, s)
    case SealLinking(stage, s) => Sealing(w, pid, stage, s)
    case SealReloading(stage, s) => Sealing(w, pid, stage, s) && w.seal.Some?
    case Inserting(_, s) => MarkerIs(w, s.id) && s.status == Pristine
    case Returned(Reconciled(s)) =>
      MarkerIs(w, s.id) && (s.status == Initialized ==> InService(w, s.id)) && s.status != Recovery
    case Returned(Created(_)) => CommittedBy(w, pid) && w.seal.Some?
    case Returned(Refused(e)) => e != RecoveryRequired && e != SealFailed
    case Crashed => true
  }

  predicate AllSound(w: World) {
    forall pid :: pid in w.processes ==> Sound(w, pid, w.processes[pid])
  }

  predicate Inv(w: World) { Coherent(w) && AllSound(w) }

  lemma NextCoherent(w: World, a: Action, x: World)
    requires Inv(w) && Next(w, a, x) && !a.Replace?
    ensures Coherent(x)
  {
    match a
    case Delete(id) =>
      if HasAdmin(w.db.users) {
        DeleteKeepsAdmin(w.db.users, id);
      }
    case Edit(users) => SameRolesKeepsAdmin(w.db.users, users);
    case Insert(pid, userId, hookOk, now) =>
      if x.db != w.db {
        assert x.db.users[userId].role == ADMIN;
      }
    case _ =>
  }

  /** What processes believe about a world, they may go on believing about this later one. */
  predicate Upholds(w: World, x: World) {
    && (w.db.marker.Some? ==> MarkerIs(x, w.db.marker.value.id))
    && (w.db.marker.Some? && w.db.marker.value.status == Initialized ==> x.db.marker.value.status == Initialized)
    && (w.seal.Some? ==> x.seal == w.seal)
    && (|w.commits| == 1 ==> x.commits == w.commits)
  }

  lemma NextUpholds(w: World, a: Action, x: World)
    requires Inv(w) && Next(w, a, x) && !a.Replace?
    ensures Upholds(w, x)
  {
    if a.Insert? || a.SealLink? || a.Reconcile? {
      assert Sound(w, a.pid, w.processes[a.pid]);
    }
  }

  lemma SoundIsUpheld(w: World, x: World, pid: int, p: Phase)
    requires Upholds(w, x) && Sound(w, pid, p)
    ensures Sound(x, pid, p)
  {
  }

  /** What the others believe survives any step of this one. */
  lemma NextKeepsOthers(w: World, a: Action, x: World, pid: int)
    requires Inv(w) && Next(w, a, x) && !a.Replace?
    requires pid in w.processes && pid in x.processes && x.processes[pid] == w.processes[pid]
    ensures Sound(x, pid, x.processes[pid])
  {
    NextUpholds(w, a, x);
    SoundIsUpheld(w, x, pid, w.processes[pid]);
  }

  lemma ReconcileIsSound(w: World, a: Action, x: World)
    requires Inv(w) && Next(w, a, x) && a.Reconcile?
    ensures Sound(x, a.pid, x.processes[a.pid])
  {
    assert Sound(w, a.pid, w.processes[a.pid]);
  }

  lemma SealStepIsSound(w: World, a: Action, x: World)
    requires Inv(w) && Next(w, a, x) && (a.SealLoad? || a.SealLink? || a.SealReload?)
    ensures Sound(x, a.pid, x.processes[a.pid])
  {
    assert Sound(w, a.pid, w.processes[a.pid]);
  }

  lemma OtherStepIsSound(w: World, a: Action, x: World)
    requires Inv(w) && Next(w, a, x) && (a.Begin? || a.LoadSeal? || a.Insert? || a.Crash?)
    ensures Sound(x, a.pid, x.processes[a.pid])
  {
    if a.pid in w.processes {
      assert Sound(w, a.pid, w.processes[a.pid]);
    }
  }

  lemma NextInv(w: World, a: Action, x: World)
    requires Inv(w) && Next(w, a, x) && !a.Replace?
    ensures Inv(x)
  {
    NextCoherent(w, a, x);
    forall pid | pid in x.processes ensures Sound(x, pid, x.processes[pid]) {
      if pid in w.processes && x.processes[pid] == w.processes[pid] {
        NextKeepsOthers(w, a, x, pid);
      } else {
        assert !a.Delete? && !a.Edit? && pid == a.pid;
        if a.Reconcile? {
          ReconcileIsSound(w, a, x);
        } else if a.SealLoad? || a.SealLink? || a.SealReload? {
          SealStepIsSound(w, a, x);
        } else {
          OtherStepIsSound(w, a, x);
        }
      }
    }
  }

  lemma {:induction false} RunInv(worlds: seq<World>, actions: seq<Action>, i: nat)
    requires IsRun(worlds, actions) && Untampered(actions) && Factory(worlds[0]) && i < |worlds|
    ensures Inv(worlds[i])
  {
    if i > 0 {
      RunInv(worlds, actions, i - 1);
      assert StepAt(worlds, actions, i - 1);
      NextInv(worlds[i - 1], actions[i - 1], worlds[i]);
    }
  }

  predicate Told(w: World, pid: int, o: Outcome) { pid in w.processes && w.processes[pid] == Returned(o) }

  predicate ToldCreated(w: World, pid: int) {
    pid in w.processes && w.processes[pid].Returned? && w.processes[pid].outcome.Created?
  }

  /** On an appliance that started empty, the user table holds exactly what was committed. */
  predicate TableIsCommits(w: World) { |w.db.users.Keys| == |w.commits| }

  lemma DeleteKeepsOnlyUser(users: Users, id: int)
    requires |users.Keys| <= 1 && (users.Keys == {} || HasAdmin(users))
    ensures DeleteUser(users, id) == users
  {
    if id in users {
      SubsetSize({id}, users.Keys);
      SubsetOfSameSize({id}, users.Keys);
      SubsetSize(AdminIds(users), users.Keys);
    }
  }

  lemma TableStep(w: World, a: Action, x: World)
    requires Inv(w) && Next(w, a, x) && !a.Replace? && TableIsCommits(w)
    ensures TableIsCommits(x)
  {
    match a
    case Delete(id) => DeleteKeepsOnlyUser(w.db.users, id);
    case Insert(pid, userId, hookOk, now) =>
      if x.db != w.db {
        assert x.db.users.Keys == {userId};
      }
    case _ =>
  }

  lemma {:induction false} RunTableIsCommits(worlds: seq<World>, actions: seq<Action>, i: nat)
    requires IsRun(worlds, actions) && Untampered(actions) && Factory(worlds[0]) && i < |worlds|
    requires worlds[0].db.users.Keys == {}
    ensures TableIsCommits(worlds[i])
  {
    if i > 0 {
      RunTableIsCommits(worlds, actions, i - 1);
      RunInv(worlds, actions, i - 1);
      assert StepAt(worlds, actions, i - 1);
      TableStep(worlds[i - 1], actions[i - 1], worlds[i]);
    }
  }

  /**
    Exactly once: however the calls interleave and crash, at most one administrator is ever
    committed, at most one caller is told so, and nobody is told that recovery is required.
    From an empty table, its rows are the administrator that was committed and nothing else.
   */
  lemma ExactlyOnce(worlds: seq<World>, actions: seq<Action>, i: nat)
    requires IsRun(worlds, actions) && Untampered(actions) && Factory(worlds[0]) && i < |worlds|
    ensures |worlds[i].commits| <= 1
    ensures forall p, q :: ToldCreated(worlds[i], p) && ToldCreated(worlds[i], q) ==> p == q
    ensures forall p :: !Told(worlds[i], p, Refused(RecoveryRequired)) && !Told(worlds[i], p, Refused(SealFailed))
    ensures worlds[0].db.users.Keys == {} ==>
              && |worlds[i].db.users.Keys| == |worlds[i].commits|
              && (forall id :: id in worlds[i].db.users ==> worlds[i].db.users[id].role == ADMIN)
  {
    RunInv(worlds, actions, i);
    var w := worlds[i];
    forall p | p in w.processes
      ensures ToldCreated(w, p) ==> w.commits == [p]
      ensures !Told(w, p, Refused(RecoveryRequired)) && !Told(w, p, Refused(SealFailed))
    {
      assert Sound(w, p, w.processes[p]);
    }
    if worlds[0].db.users.Keys == {} {
      RunTableIsCommits(worlds, actions, i);
      forall id | id in w.db.users ensures w.db.users[id].role == ADMIN {
        var admin :| admin in w.db.users && w.db.users[admin].role == ADMIN;
        SubsetSize({id, admin}, w.db.users.Keys);
      }
    }
  }

  /** Commit before seal: a seal always names the marker in service; and a legacy table never gains an administrator. */
  lemma SealFollowsMarker(worlds: seq<World>, actions: seq<Action>, i: nat)
    requires IsRun(worlds, actions) && Untampered(actions) && Factory(worlds[0]) && i < |worlds|
    ensures worlds[i].seal.Some? ==> InService(worlds[i], worlds[i].seal.value) && HasAdmin(worlds[i].db.users)
    ensures Rank(worlds[i].db) != 3
  {
    RunInv(worlds, actions, i);
  }

  lemma {:induction false} UsersNeverVanish(worlds: seq<World>, actions: seq<Action>, i: nat)
    requires IsRun(worlds, actions) && Untampered(actions) && Factory(worlds[0]) && i < |worlds|
    requires HasAdmin(worlds[0].db.users)
    ensures HasAdmin(worlds[i].db.users) && worlds[i].commits == []
    ensures worlds[i].db.users.Keys <= worlds[0].db.users.Keys
  {
    if i > 0 {
      UsersNeverVanish(worlds, actions, i - 1);
      RunInv(worlds, actions, i - 1);
      RunInv(worlds, actions, i);
      var w, a, x := worlds[i - 1], actions[i - 1], worlds[i];
      assert StepAt(worlds, actions, i - 1);
      if a.Delete? {
        DeleteKeepsAdmin(w.db.users, a.id);
      } else if a.Edit? {
        SameRolesKeepsAdmin(w.db.users, a.users);
      }
    }
  }

  /**
    Whatever crash left behind, one whole reconcile puts it right without adding a user: it is not a
    recovery, it keeps an existing installation id, and the seal exists afterwards exactly if the marker is in service.
   */
  lemma CrashIsRepaired(worlds: seq<World>, actions: seq<Action>, i: nat, newId: string, now: Time)
    requires IsRun(worlds, actions) && Untampered(actions) && Factory(worlds[0]) && i < |worlds| && ValidId(newId)
    ensures var w := worlds[i];
            var v := Judge(w.db, w.seal, newId);
            var db := ReconcileTx(w.db, w.seal, newId, now);
            && !v.recovery && db.users == w.db.users
            && (w.db.marker.Some? ==> v.standing.id == w.db.marker.value.id)
            && (w.db.users.Keys != {} <==> v.standing.status == Initialized)
            && SealAfter(v, w.seal) == (if v.standing.status == Initialized then Some(v.standing.id) else None)
            && db.marker.Some? && db.marker.value.id == v.standing.id && db.marker.value.status == v.standing.status
  {
    RunInv(worlds, actions, i);
    if worlds[i].seal.None? {
      UnsealedPolicy(worlds[i].db, newId);
    } else {
      SealForbidsSetup(worlds[i].db, worlds[i].seal.value, newId);
    }
  }

  lemma InServiceStep(w: World, a: Action, x: World, id: string)
    requires Inv(w) && Next(w, a, x) && !a.Replace? && InService(w, id)
    ensures InService(x, id)
  {
    if a.Reconcile? {
      assert Sound(w, a.pid, w.processes[a.pid]);
    }
  }

  lemma {:induction false} InServiceForever(worlds: seq<World>, actions: seq<Action>, i: nat, j: nat, id: string)
    requires IsRun(worlds, actions) && Untampered(actions) && Factory(worlds[0]) && i <= j < |worlds|
    requires InService(worlds[i], id)
    ensures InService(worlds[j], id)
  {
    if i < j {
      InServiceForever(worlds, actions, i, j - 1, id);
      RunInv(worlds, actions, j - 1);
      assert StepAt(worlds, actions, j - 1);
      InServiceStep(worlds[j - 1], actions[j - 1], worlds[j], id);
    }
  }

  /**
    Last administrator and restart: once in service, through any deletions and edits, an
    administrator remains and every restart reconciles to service under the same installation id.
   */
  lemma RestartKeepsInstallation(worlds: seq<World>, actions: seq<Action>, i: nat, j: nat, id: string, newId: string)
    requires IsRun(worlds, actions) && Untampered(actions) && Factory(worlds[0]) && i <= j < |worlds|
    requires InService(worlds[i], id)
    ensures HasAdmin(worlds[j].db.users)
    ensures var v := Judge(worlds[j].db, worlds[j].seal, newId); v.standing == Standing(id, Initialized) && !v.recovery
  {
    InServiceForever(worlds, actions, i, j, id);
    RunInv(worlds, actions, j);
  }

  // ---------- Runs with a surviving seal and a replaced database ----------

  /** Every process has only ever seen the seal. */
  predicate SealSeen(w: World, seal: string) {
    && w.seal == Some(seal) && w.commits == []
    && forall pid :: pid in w.processes ==>
         match w.processes[pid]
         case LoadingSeal(stage) => stage.Standalone? || stage.BeforeAdmin?
         case Reconciling(stage, seen) => (stage.Standalone? || stage.BeforeAdmin?) && seen == Some(seal)
         case Returned(Reconciled(s)) => s == Standing(seal, Initialized)
         case Returned(Refused(_)) => true
         case Crashed => true
         case _ => false
  }

  lemma NextSealSeen(w: World, a: Action, x: World, seal: string)
    requires SealSeen(w, seal) && Next(w, a, x)
    ensures SealSeen(x, seal)
    ensures x.db.users.Keys <= w.db.users.Keys || a.Replace?
  {
    if a.Reconcile? {
      SealForbidsSetup(w.db, seal, a.newId);
    }
  }

  lemma {:induction false} RunSealSeen(worlds: seq<World>, actions: seq<Action>, i: nat, seal: string)
    requires IsRun(worlds, actions) && i < |worlds|
    requires worlds[0].seal == Some(seal) && worlds[0].processes == map[] && worlds[0].commits == []
    ensures SealSeen(worlds[i], seal)
  {
    if i > 0 {
      RunSealSeen(worlds, actions, i - 1, seal);
      assert StepAt(worlds, actions, i - 1);
      NextSealSeen(worlds[i - 1], actions[i - 1], worlds[i], seal);
    }
  }

  predicate ToldStanding(w: World, pid: int) {
    pid in w.processes && w.processes[pid].Returned? && w.processes[pid].outcome.Reconciled?
  }

  /**
    Restoring a database cannot reopen setup: while a seal survives, whatever databases are put
    in place and however calls interleave, no step of the code inserts a user, no call reports
    anything but the seal's own installation, and it does so only after a transaction that saw users.
   */
  lemma RestoreCannotReopenSetup(worlds: seq<World>, actions: seq<Action>, i: nat, seal: string, w: World, x: World)
    requires IsRun(worlds, actions) && i < |actions| && w == worlds[i] && x == worlds[i + 1]
    requires worlds[0].seal == Some(seal) && worlds[0].processes == map[] && worlds[0].commits == []
    ensures x.commits == []
    ensures !actions[i].Replace? ==> x.db.users.Keys <= w.db.users.Keys
    ensures forall pid :: !ToldCreated(x, pid)
    ensures forall pid :: ToldStanding(x, pid) ==> x.processes[pid].outcome.standing == Standing(seal, Initialized)
    ensures forall pid :: ToldStanding(x, pid) && !ToldStanding(w, pid) ==>
              w.db.users.Keys != {} && w.db.marker.Some? && w.db.marker.value.id == seal
  {
    RunSealSeen(worlds, actions, i, seal);
    RunSealSeen(worlds, actions, i + 1, seal);
    assert StepAt(worlds, actions, i);
    NextSealSeen(w, actions[i], x, seal);
    if actions[i].Reconcile? {
      SealForbidsSetup(w.db, seal, actions[i].newId);
    }
  }
}
