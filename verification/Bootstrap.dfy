/**
  The exactly-once bootstrap: a database marker paired with a seal file kept outside the
  database. This module holds the transactions as functions, the calls that make whole
  operations of them, and what one completed call guarantees.
 */
module Bootstrap {
  import opened Basics
  import opened Installation
  import opened Accounts

  datatype Status = Pristine | Initialized | Recovery | Unknown(text: string)

  datatype Marker = Marker(id: string, status: Status, adminUserId: Option<int>, initializedAt: Option<Time>)

  datatype Database = Database(marker: Option<Marker>, users: Users)

  datatype Standing = Standing(id: string, status: Status)

  /** What the reconcile transaction decides: the standing to report and the flags it captures. */
  datatype Verdict = Verdict(standing: Standing, createSeal: bool, recovery: bool)

  predicate ReadableMarker(m: Marker) { ValidId(m.id) && !m.status.Unknown? }

  function FirstUserId(users: Users): Option<int> {
    if users.Keys == {} then None else Some(Minimum(users.Keys))
  }

  function Locked(id: string): Verdict { Verdict(Standing(id, Recovery), false, true) }

  function Judge(db: Database, seen: Option<string>, newId: string): Verdict {
    if db.marker.None? then
      if seen.Some? then Locked(seen.value)
      else if db.users.Keys != {} then Verdict(Standing(newId, Initialized), true, false)
      else Verdict(Standing(newId, Pristine), false, false)
    else
      var m := db.marker.value;
      if !ReadableMarker(m) then Locked(if seen.Some? then seen.value else newId)
      else match m.status
        case Pristine =>
          if seen.Some? then Locked(m.id)
          else if db.users.Keys != {} then Verdict(Standing(m.id, Initialized), true, false)
          else Verdict(Standing(m.id, Pristine), false, false)
        case Initialized =>
          if db.users.Keys == {} then Locked(m.id)
          else if seen.Some? && seen.value != m.id then Locked(m.id)
          else Verdict(Standing(m.id, Initialized), seen.None?, false)
        case _ => Locked(m.id)
  }

  function MarkerFor(s: Standing, users: Users, now: Time): Marker {
    Marker(s.id, s.status, FirstUserId(users), if s.status == Initialized then Some(now) else None)
  }

  /** The database after the reconcile transaction; an unchanged status writes nothing. */
  function ReconcileTx(db: Database, seen: Option<string>, newId: string, now: Time): Database {
    var s := Judge(db, seen, newId).standing;
    if db.marker.Some? && ReadableMarker(db.marker.value) && db.marker.value.status == s.status then db
    else db.(marker := Some(MarkerFor(s, db.users, now)))
  }

  /** The seal after a completed reconcile that saw `seen`. */
  function SealAfter(v: Verdict, seen: Option<string>): Option<string> {
    if v.createSeal then Some(v.standing.id) else seen
  }

  function NewAdmin(username: string, verifier: Verifier, now: Time): User {
    User(username, verifier, ADMIN, Profile("", "", "", ""), 0, now)
  }

  /** The administrator transaction commits only over the pristine marker it was promised and no users. */
  predicate MayInsert(db: Database, id: string) {
    && db.marker.Some? && db.marker.value.status == Pristine && db.marker.value.id == id
    && db.users.Keys == {}
  }

  function InsertAdmin(db: Database, userId: int, admin: User, now: Time): Database
    requires db.marker.Some?
  {
    Database(
      Some(Marker(db.marker.value.id, Initialized, Some(userId), Some(now))),
      db.users[userId := admin])
  }

  // ---------- The seal file ----------

  datatype SealError = Unreadable | InvalidId | OtherInstallation

  /** A seal file is absent, or holds text; `Sealed` is what `Load` makes of it. */
  predicate ReadableSeal(file: Option<string>) { file.None? || ReadSeal(file.value).Some? }

  function Sealed(file: Option<string>): Option<string>
    requires ReadableSeal(file)
  {
    if file.None? then None else ReadSeal(file.value)
  }

  class FileSeal {
    var file: Option<string>

    constructor ()
      ensures file == None
    {
      file := None;
    }

    method Load() returns (r: Result<Option<string>, SealError>)
      ensures r.Ok? <==> ReadableSeal(file)
      ensures r.Ok? ==> r.value == Sealed(file)
      ensures r.Ok? && r.value.Some? ==> ValidId(r.value.value)
    {
      if file.None? {
        return Ok(None);
      }
      var id := ReadSeal(file.value);
      if id.None? {
        return Err(Unreadable);
      }
      r := Ok(id);
    }

    /** Publishes the seal unless one is there already; an existing file is never touched. */
    method Create(id: string) returns (r: Result<(), SealError>)
      modifies this
      ensures r.Ok? ==> ReadableSeal(file) && Sealed(file) == Some(id)
      ensures r.Err? ==> file == old(file)
      ensures old(file).Some? ==> file == old(file)
      ensures r.Ok? <==> ValidId(id) && ReadableSeal(old(file)) && (old(file).None? || Sealed(old(file)) == Some(id))
      ensures r.Ok? && old(file).None? ==> file == Some("recasaos-user-bootstrap-v1:" + id + "\n")
    {
      if !ValidId(id) {
        return Err(InvalidId);
      }
      var existing := Load();
      if existing.Err? {
        return Err(existing.error);
      }
      if existing.value.Some? {
        if existing.value.value != id {
          return Err(OtherInstallation);
        }
        return Ok(());
      }
      SealTextIsCanonical(SealText(id), id);
      file := Some(SealText(id));
      r := Ok(());
    }
  }

  // ---------- Whole calls ----------

  datatype BootstrapError = WeakVerifier | SealFailed | AlreadyInitialized | RecoveryRequired | HookFailed

  predicate SetupIsOpen(db: Database, file: Option<string>) {
    && file.None? && db.users.Keys == {}
    && (db.marker.None? || (ReadableMarker(db.marker.value) && db.marker.value.status == Pristine))
  }

  class Appliance {
    var database: Database
    const seal: FileSeal

    constructor (database: Database, seal: FileSeal)
      ensures this.database == database && this.seal == seal
    {
      this.database := database;
      this.seal := seal;
    }

    method ReconcileState(random: seq<bv8>, now: Time) returns (r: Result<Standing, BootstrapError>)
      requires |random| == 16
      modifies this, seal
      ensures !ReadableSeal(old(seal.file)) ==>
                r == Err(SealFailed) && database == old(database) && seal.file == old(seal.file)
      ensures ReadableSeal(old(seal.file)) ==>
                var seen := Sealed(old(seal.file));
                var newId := Dashed(HexText(Stamped(random)));
                var v := Judge(old(database), seen, newId);
                && database == ReconcileTx(old(database), seen, newId, now)
                && ReadableSeal(seal.file)
                && Sealed(seal.file) == SealAfter(v, seen)
                && r == if v.recovery then Err(RecoveryRequired) else Ok(v.standing)
      // Setup is open exactly when there is no seal, no user and no other marker; then nothing else was written.
      ensures r.Ok? && r.value.status == Pristine <==> SetupIsOpen(old(database), old(seal.file))
      ensures SetupIsOpen(old(database), old(seal.file)) ==>
                MayInsert(database, r.value.id) && ValidId(r.value.id) && seal.file.None?
                && (old(database).marker.Some? ==> r.value.id == old(database).marker.value.id)
      ensures database.users == old(database).users
    {
      var loaded := seal.Load();
      if loaded.Err? {
        return Err(SealFailed);
      }
      var seen := loaded.value;
      var newId := NewInstallationId(random);
      StampedIsVersionFour(random);
      DashedParts(HexText(Stamped(random)));
      CompactDetermines(newId, Dashed(HexText(Stamped(random))));

      var createSeal, recovery := false, false;
      var result: Standing;
      var users := database.users;
      if database.marker.None? {
        if seen.Some? {
          result := Standing(seen.value, Recovery);
          recovery := true;
        } else if users.Keys != {} {
          result := Standing(newId, Initialized);
          createSeal := true;
        } else {
          result := Standing(newId, Pristine);
        }
        database := database.(marker := Some(MarkerFor(result, users, now)));
      } else {
        var marker := database.marker.value;
        result := Standing(marker.id, marker.status);
        if !ReadableMarker(marker) {
          result := Standing(if seen.Some? then seen.value else newId, Recovery);
          recovery := true;
          database := database.(marker := Some(MarkerFor(result, users, now)));
        } else {
          if marker.status == Recovery {
            recovery := true;
          } else if marker.status == Pristine {
            if seen.Some? {
              result := result.(status := Recovery);
              recovery := true;
            } else if users.Keys != {} {
              result := result.(status := Initialized);
              createSeal := true;
            }
          } else {
            if users.Keys == {} || (seen.Some? && seen.value != marker.id) {
              result := result.(status := Recovery);
              recovery := true;
            } else if seen.None? {
              createSeal := true;
            }
          }
          if result.status != marker.status {
            database := database.(marker := Some(MarkerFor(result, users, now)));
          }
        }
      }

      if createSeal {
        var created := seal.Create(result.id);
        if created.Err? {
          return Err(SealFailed);
        }
      }
      if recovery {
        return Err(RecoveryRequired);
      }
      r := Ok(result);
    }

    /** `userId` is the row number the database would assign; `hookOk` the answer of the caller's hook. */
    method CreateAdmin(username: string, verifier: Verifier, random: seq<bv8>, userId: int, hookOk: bool, now: Time)
      returns (r: Result<int, BootstrapError>)
      requires |random| == 16
      modifies this, seal
      // Success means exactly: nothing was there, and now the marker, one administrator and the seal agree.
      ensures r.Ok? <==>
                && verifier.Argon2id? && hookOk && userId >= 1
                && SetupIsOpen(old(database), old(seal.file))
      ensures r.Ok? ==>
                && r.value == userId
                && database.users == map[userId := NewAdmin(username, verifier, now)]
                && database.marker.Some? && database.marker.value.status == Initialized
                && (old(database).marker.Some? ==> database.marker.value.id == old(database).marker.value.id)
                && ReadableSeal(seal.file) && Sealed(seal.file) == Some(database.marker.value.id)
      // That administrator is the one asked for, with the verifier given, and the marker names it and dates it.
      ensures r.Ok? ==>
                && userId in database.users
                && database.users[userId].username == username && database.users[userId].verifier == verifier
                && database.users[userId].role == "admin" && database.users[userId].version == 0
                && database.users[userId].updatedAt == now
                && database.marker.value.adminUserId == Some(userId) && database.marker.value.initializedAt == Some(now)
      // Every refusal leaves every user row alone, and writes nothing beyond what its reconcile wrote.
      ensures r.Err? ==> database.users == old(database).users
      ensures !verifier.Argon2id? ==> r == Err(WeakVerifier) && database == old(database) && seal.file == old(seal.file)
      ensures verifier.Argon2id? && !ReadableSeal(old(seal.file)) ==>
                r == Err(SealFailed) && database == old(database) && seal.file == old(seal.file)
      ensures r.Err? && verifier.Argon2id? && ReadableSeal(old(seal.file)) ==>
                var seen := Sealed(old(seal.file));
                var newId := Dashed(HexText(Stamped(random)));
                var v := Judge(old(database), seen, newId);
                && database == ReconcileTx(old(database), seen, newId, now)
                && ReadableSeal(seal.file) && Sealed(seal.file) == SealAfter(v, seen)
                && r.error == (
                     if v.recovery then RecoveryRequired
                     else if v.standing.status == Pristine then HookFailed
                     else AlreadyInitialized)
    {
      if !verifier.Argon2id? {
        return Err(WeakVerifier);
      }
      var state := ReconcileState(random, now);
      if state.Err? {
        return Err(state.error);
      }
      if state.value.status != Pristine {
        return Err(AlreadyInitialized);
      }
      r := InsertAndSeal(state.value.id, username, verifier, userId, hookOk, now);
    }

    /**
      The administrator transaction and, after its commit, the seal. Its first check fails only if another process got
      in between; `BootstrapRuns` has those interleavings.
     */
    method InsertAndSeal(id: string, username: string, verifier: Verifier, userId: int, hookOk: bool, now: Time)
      returns (r: Result<int, BootstrapError>)
      modifies this, seal
      ensures !MayInsert(old(database), id) || userId < 1 || !hookOk ==>
                && r == Err(if MayInsert(old(database), id) then HookFailed else AlreadyInitialized)
                && database == old(database) && seal.file == old(seal.file)
      ensures MayInsert(old(database), id) && userId >= 1 && hookOk ==>
                && database == InsertAdmin(old(database), userId, NewAdmin(username, verifier, now), now)
                && r == (if ValidId(id) && ReadableSeal(old(seal.file)) && Sealed(old(seal.file)) in {None, Some(id)}
                         then Ok(userId) else Err(SealFailed))
                && (r.Ok? ==> ReadableSeal(seal.file) && Sealed(seal.file) == Some(id))
                && (r.Err? ==> seal.file == old(seal.file))
      // It commits exactly over a pristine marker with the promised id and no users; then row and marker are these.
      ensures database != old(database) <==>
                && old(database).marker != None && old(database).marker.value.status == Pristine
                && old(database).marker.value.id == id && old(database).users.Keys == {} && userId >= 1 && hookOk
      ensures database != old(database) ==>
                && database.users.Keys == {userId}
                && database.users[userId].username == username && database.users[userId].verifier == verifier
                && database.users[userId].role == "admin" && database.users[userId].version == 0
                && database.users[userId].updatedAt == now
                && database.marker == Some(Marker(id, Initialized, Some(userId), Some(now)))
    {
      if !MayInsert(database, id) {
        return Err(AlreadyInitialized);
      }
      if userId < 1 || !hookOk {
        return Err(HookFailed);
      }
      database := InsertAdmin(database, userId, NewAdmin(username, verifier, now), now);
      var created := seal.Create(id);
      if created.Err? {
        return Err(SealFailed);
      }
      r := Ok(userId);
    }
  }

  /** An identifier with its dashes in place is determined by its hexadecimal digits. */
  lemma CompactDetermines(a: string, b: string)
    requires |a| == 36 && |b| == 36 && Compact(a) == Compact(b)
    requires forall i :: i in {8, 13, 18, 23} ==> a[i] == '-' && b[i] == '-'
    ensures a == b
  {
    var c, d := Compact(a), Compact(b);
    forall i | 0 <= i < 36 ensures a[i] == b[i] {
      if i < 8 { assert c[i] == a[i] && d[i] == b[i]; }
      else if 9 <= i < 13 { assert c[i - 1] == a[i] && d[i - 1] == b[i]; }
      else if 14 <= i < 18 { assert c[i - 2] == a[i] && d[i - 2] == b[i]; }
      else if 19 <= i < 23 { assert c[i - 3] == a[i] && d[i - 3] == b[i]; }
      else if 24 <= i { assert c[i - 4] == a[i] && d[i - 4] == b[i]; }
      else { assert i in {8, 13, 18, 23}; }
    }
  }

  // ---------- Properties of the reconcile transaction ----------

  /** Status order: setup, then service, then lock. A missing or unreadable marker is below them. */
  function Rank(db: Database): nat {
    if db.marker.None? || !ReadableMarker(db.marker.value) then 0
    else match db.marker.value.status
      case Pristine => 1
      case Initialized => 2
      case _ => 3
  }

  /** Reconciling never lowers the status, never touches a user row and never unlocks. */
  lemma ReconcileOnlyAdvances(db: Database, seen: Option<string>, newId: string, now: Time)
    requires ValidId(newId) && (seen.Some? ==> ValidId(seen.value))
    ensures Rank(ReconcileTx(db, seen, newId, now)) >= Rank(db)
    ensures ReconcileTx(db, seen, newId, now).users == db.users
    ensures Rank(db) == 3 ==> ReconcileTx(db, seen, newId, now) == db && Judge(db, seen, newId).recovery
    ensures Rank(db) > 0 ==>
              && ReconcileTx(db, seen, newId, now).marker.Some?
              && ReconcileTx(db, seen, newId, now).marker.value.id == db.marker.value.id
    // What is stored is what is reported, dated exactly if it newly enters service.
    ensures var v, after := Judge(db, seen, newId), ReconcileTx(db, seen, newId, now).marker;
            && after.Some? && Standing(after.value.id, after.value.status) == v.standing && ReadableMarker(after.value)
            && (after != db.marker ==>
                  && (after.value.initializedAt == (if v.standing.status == Initialized then Some(now) else None))
                  && (after.value.adminUserId.None? <==> db.users.Keys == {})
                  && (after.value.adminUserId.Some? ==> IsMinimum(after.value.adminUserId.value, db.users.Keys)))
  {
  }

  /**
    Convergence from any state whatever, tampered with or not: a second reconcile gives the
    same answer as the first, asks for no seal and writes nothing.
   */
  lemma ReconcileConverges(db: Database, seen: Option<string>, id1: string, id2: string, t1: Time, t2: Time)
    requires ValidId(id1) && (seen.Some? ==> ValidId(seen.value))
    ensures var v1 := Judge(db, seen, id1);
            var db1 := ReconcileTx(db, seen, id1, t1);
            var seen1 := SealAfter(v1, seen);
            var v2 := Judge(db1, seen1, id2);
            && v2.standing == v1.standing && v2.recovery == v1.recovery && !v2.createSeal
            && ReconcileTx(db1, seen1, id2, t2) == db1
            && db1.users == db.users
  {
  }

  /** Without a seal: what is locked, what is open for setup, and that entering service always asks for the seal. */
  lemma UnsealedPolicy(db: Database, newId: string)
    ensures var v := Judge(db, None, newId);
            && (v.recovery <==>
                  && db.marker.Some?
                  && (!ReadableMarker(db.marker.value) || db.marker.value.status == Recovery
                      || (db.marker.value.status == Initialized && db.users.Keys == {})))
            && (v.standing.status == Pristine <==>
                  && db.users.Keys == {}
                  && (db.marker.None? || (ReadableMarker(db.marker.value) && db.marker.value.status == Pristine)))
            && (v.createSeal <==> v.standing.status == Initialized)
            && (v.recovery <==> v.standing.status == Recovery)
            && v.standing.id ==
                 (if db.marker.Some? && ReadableMarker(db.marker.value) then db.marker.value.id else newId)
  {
  }

  /** With a seal in place nothing is ever pristine, and only the seal's own installation with users is in service. */
  lemma SealForbidsSetup(db: Database, seal: string, newId: string)
    ensures var v := Judge(db, Some(seal), newId);
            && v.standing.status != Pristine && !v.createSeal
            && (v.recovery <==> v.standing.status == Recovery)
            && (v.standing.status == Initialized <==>
                  && db.marker.Some? && ReadableMarker(db.marker.value)
                  && db.marker.value.status == Initialized && db.marker.value.id == seal && db.users.Keys != {})
            && (v.standing.status == Initialized ==> v.standing.id == seal)
            && v.standing.id ==
                 (if db.marker.Some? && ReadableMarker(db.marker.value) then db.marker.value.id else seal)
  {
  }
}
