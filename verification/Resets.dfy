/** The local password resets, run while the daemon is stopped: what they check, what they repair, what they change. */
module Resets {
  import opened Basics
  import opened Installation
  import opened Accounts
  import opened Sessions
  import opened Bootstrap
  import Phc

  datatype ResetError =
    | InvalidTarget
    | WeakPassword
    | TargetNotFound
    | NotAdministrator
    | IsAdministrator
    | NeedsRecovery

  predicate ValidResetUsername(username: string) {
    1 <= |username| <= 256 && forall i :: 0 <= i < |username| ==> username[i] !in ['\0', '\r', '\n']
  }

  // ---------- Finding the one target ----------

  /** `SELECT ... WHERE username = ? LIMIT 2`: up to two different matching rows, both if there are two. */
  predicate LimitTwo(users: Users, username: string, rows: seq<int>) {
    && |rows| <= 2
    && (forall i :: 0 <= i < |rows| ==> rows[i] in Named(users, username))
    && (|rows| == 2 ==> rows[0] != rows[1])
    && (|rows| < 2 ==> forall id :: id in Named(users, username) ==> id in rows)
  }

  method SelectByName(users: Users, username: string) returns (rows: seq<int>)
    ensures LimitTwo(users, username, rows)
  {
    rows := [];
    var rest := Named(users, username);
    while rest != {} && |rows| < 2
      invariant |rows| <= 2 && rest <= Named(users, username)
      invariant forall i :: 0 <= i < |rows| ==> rows[i] in Named(users, username) && rows[i] !in rest
      invariant |rows| == 2 ==> rows[0] != rows[1]
      invariant forall id :: id in Named(users, username) ==> id in rows || id in rest
      decreases |rest|
    {
      var id := Minimum(rest);
      rows := rows + [id];
      rest := rest - {id};
    }
  }

  /** The one row with this name, if there is exactly one and it is, or is not, an administrator as asked. */
  function Target(users: Users, username: string, administrator: bool): Result<int, ResetError> {
    var ids := Named(users, username);
    if ids == {} then Err(TargetNotFound)
    else if ids != {Minimum(ids)} then Err(InvalidTarget)
    else if administrator && users[Minimum(ids)].role != ADMIN then Err(NotAdministrator)
    else if !administrator && users[Minimum(ids)].role == ADMIN then Err(IsAdministrator)
    else Ok(Minimum(ids))
  }

  /** Why each answer is given: the only row of that name and role, no row, several, or the wrong role. */
  lemma TargetIsTheOnlyOne(users: Users, username: string, administrator: bool)
    ensures var t := Target(users, username, administrator);
            && (t.Ok? ==>
                  && t.value in users && users[t.value].username == username
                  && (users[t.value].role == "admin" <==> administrator)
                  && (forall k :: k in users && users[k].username == username ==> k == t.value))
            && (t == Err(TargetNotFound) <==> forall k :: k in users ==> users[k].username != username)
            && (t == Err(InvalidTarget) <==> SeveralNamed(users, username))
            && (t.Err? && t.error in {NotAdministrator, IsAdministrator} ==>
                  && t.error == (if administrator then NotAdministrator else IsAdministrator)
                  && forall k :: k in users && users[k].username == username ==>
                       (users[k].role == "admin" <==> !administrator))
            && (t.Err? ==> t.error in {TargetNotFound, InvalidTarget, NotAdministrator, IsAdministrator})
  {
    var ids := Named(users, username);
    assert forall k :: k in users && users[k].username == username ==> k in ids;
    if ids != {} {
      var first := Minimum(ids);
      if ids != {first} {
        var others := ids - {first};
        var other := SomeMember(others);
        assert other in ids && other != first;
      }
    }
  }

  predicate SeveralNamed(users: Users, username: string) {
    exists i, j ::
      i in users && j in users && i != j && users[i].username == username && users[j].username == username
  }

  /** `loadUniqueAdministrator` and `loadUniqueNonAdministrator`: scan the rows, keeping the last one read. */
  method LoadUnique(users: Users, username: string, administrator: bool) returns (r: Result<int, ResetError>)
    ensures r == Target(users, username, administrator)
  {
    var rows := SelectByName(users, username);
    var ids := Named(users, username);
    var count, userId, role := 0, 0, "";
    while count < |rows|
      invariant 0 <= count <= |rows|
      invariant count > 0 ==> userId == rows[count - 1] && role == users[userId].role
    {
      userId := rows[count];
      role := users[userId].role;
      count := count + 1;
    }
    assert |rows| < 2 ==> forall id :: id in ids ==> id in rows;
    if count == 0 {
      if ids != {} {
        var id := SomeMember(ids);
        assert false;
      }
      return Err(TargetNotFound);
    }
    if count != 1 {
      assert ids != {Minimum(ids)} by { assert rows[0] in ids && rows[1] in ids; }
      return Err(InvalidTarget);
    }
    assert rows == [userId];
    assert forall id :: id in ids ==> id == userId;
    assert userId in ids;
    assert ids == {userId};
    if administrator && role != ADMIN {
      return Err(NotAdministrator);
    }
    if !administrator && role == ADMIN {
      return Err(IsAdministrator);
    }
    r := Ok(userId);
  }

  // ---------- The reset ----------

  class SessionRows {
    var rows: SessionTable
  }

  /** The marker and seal a reset accepts before it reconciles. */
  predicate Resettable(marker: Option<Marker>, seal: Option<string>) {
    if marker.None? then seal.None?
    else marker.value.status == Initialized && (seal.None? || seal == Some(marker.value.id))
  }

  function Replaced(u: User, plaintext: string, salt: nat, now: Time): User {
    u.(verifier := Argon2id(plaintext, Phc.DEFAULTS, salt), version := u.version + 1, updatedAt := now)
  }

  /**
    The target was the only row of that name, of the role asked for; now it accepts exactly the new password, at the
    current parameters and one version higher, and is otherwise as before; no other row changed.
   */
  ghost predicate OnlyThisPassword(
    before: Users, after: Users, id: int, username: string, plaintext: string, administrator: bool, now: Time)
  {
    && id in before && before[id].username == username && (before[id].role == "admin" <==> administrator)
    && (forall k :: k in before && before[k].username == username ==> k == id)
    && after.Keys == before.Keys
    && (forall p :: after[id].verifier.Accepts(p) <==> p == plaintext)
    && after[id].verifier.Argon2id? && after[id].verifier.parameters == Phc.Parameters(65536, 3, 4, 16, 32)
    && after[id] == before[id].(verifier := after[id].verifier, version := before[id].version + 1, updatedAt := now)
    && (forall k :: k in after && k != id ==> after[k] == before[k])
  }

  /** Exactly this user's sessions are gone. */
  ghost predicate OnlyTheseSessions(before: SessionTable, after: SessionTable, userId: int) {
    && (forall id :: id in after <==> id in before && before[id].userId != userId)
    && (forall id :: id in after ==> after[id] == before[id])
  }

  /** The middle of a reset: check the marker against the seal, reconcile, and check both again. */
  method Reconciled(app: Appliance, seen: Option<string>, random: seq<bv8>, now: Time) returns (ok: bool)
    requires |random| == 16 && ReadableSeal(app.seal.file) && Sealed(app.seal.file) == seen
    requires seen.Some? ==> ValidId(seen.value)
    requires app.database.users.Keys != {}
    modifies app, app.seal
    ensures ok <==> Resettable(old(app.database.marker), seen)
                    && (old(app.database.marker).Some? ==> ReadableMarker(old(app.database.marker).value))
    ensures app.database.users == old(app.database.users)
    ensures ok ==>
              && app.database.marker.Some? && app.database.marker.value.status == Initialized
              && ReadableSeal(app.seal.file) && Sealed(app.seal.file) == Some(app.database.marker.value.id)
    ensures !Resettable(old(app.database.marker), seen) ==>
              app.database == old(app.database) && app.seal.file == old(app.seal.file)
    ensures Resettable(old(app.database.marker), seen) ==>
              app.database == ReconcileTx(old(app.database), seen, Dashed(HexText(Stamped(random))), now)
    ensures Rank(app.database) >= Rank(old(app.database))
  {
    if app.database.marker.None? {
      if seen.Some? {
        return false;
      }
    } else if app.database.marker.value.status != Initialized {
      return false;
    } else if seen.Some? && seen.value != app.database.marker.value.id {
      return false;
    }
    StampedIsVersionFour(random);
    ReconcileOnlyAdvances(app.database, seen, Dashed(HexText(Stamped(random))), now);
    var state := app.ReconcileState(random, now);
    if state.Err? || state.value.status != Initialized {
      return false;
    }
    var loaded := app.seal.Load();
    if loaded.Err? || loaded.value != Some(state.value.id) {
      return false;
    }
    var marker := app.database.marker;
    ok := marker.Some? && marker.value.id == state.value.id && marker.value.status == Initialized;
  }

  /** The final transaction: find the target again, replace its verifier, advance its version, drop its sessions. */
  method StoreReset(
    app: Appliance, sessions: SessionRows, administrator: bool,
    username: string, plaintext: string, salt: nat, now: Time)
    returns (r: Result<int, ResetError>)
    modifies app, sessions
    ensures r == Target(old(app.database.users), username, administrator)
    ensures r.Err? ==> app.database == old(app.database) && sessions.rows == old(sessions.rows)
    ensures r.Ok? ==>
              && r.value in old(app.database).users
              && app.database == old(app.database).(
                   users := old(app.database).users[
                     r.value := Replaced(old(app.database).users[r.value], plaintext, salt, now)])
              && sessions.rows == DropUserSessions(old(sessions.rows), r.value)
    // In full, row by row.
    ensures r.Ok? ==>
              && OnlyThisPassword(
                   old(app.database).users, app.database.users, r.value, username, plaintext, administrator, now)
              && OnlyTheseSessions(old(sessions.rows), sessions.rows, r.value)
  {
    TargetIsTheOnlyOne(app.database.users, username, administrator);
    r := LoadUnique(app.database.users, username, administrator);
    if r.Err? {
      return;
    }
    var userId := r.value;
    var user := app.database.users[userId];
    user := user.(verifier := Argon2id(plaintext, Phc.DEFAULTS, salt), updatedAt := now);
    user := user.(version := user.version + 1);
    app.database := app.database.(users := app.database.users[userId := user]);
    sessions.rows := DropUserSessions(sessions.rows, userId);
  }

  /**
    `ResetAdminPassword` (`administrator`) and `ResetUserPassword`: they differ only in the role they
    accept. A missing state table reads as a missing marker.
   */
  method ResetPassword(
    app: Appliance, sessions: SessionRows, administrator: bool,
    username: string, plaintext: string, salt: nat, random: seq<bv8>, now: Time)
    returns (r: Result<int, ResetError>)
    requires |random| == 16
    modifies app, app.seal, sessions
    // A refusal leaves every user row and every session as it was, whatever was imported or repaired on the way.
    ensures r.Err? ==> app.database.users == old(app.database.users) && sessions.rows == old(sessions.rows)
    // Success changes exactly one row, in verifier, version and update time, and drops exactly that user's sessions.
    ensures r.Ok? ==>
              && Target(old(app.database.users), username, administrator) == Ok(r.value)
              && r.value in old(app.database.users)
              && app.database.users ==
                   old(app.database.users)[r.value := Replaced(old(app.database.users)[r.value], plaintext, salt, now)]
              && sessions.rows == DropUserSessions(old(sessions.rows), r.value)
    // In full, row by row.
    ensures r.Ok? ==>
              && OnlyThisPassword(
                   old(app.database).users, app.database.users, r.value, username, plaintext, administrator, now)
              && OnlyTheseSessions(old(sessions.rows), sessions.rows, r.value)
    // And it happens only with an initialized marker equal to the seal.
    ensures r.Ok? ==>
              && app.database.marker.Some? && app.database.marker.value.status == Initialized
              && ReadableSeal(app.seal.file) && Sealed(app.seal.file) == Some(app.database.marker.value.id)
    // When exactly it succeeds.
    ensures r.Ok? <==>
              && ValidResetUsername(username) && ValidNewPassword(plaintext) && ReadableSeal(old(app.seal.file))
              && Target(old(app.database.users), username, administrator).Ok?
              && Resettable(old(app.database.marker), Sealed(old(app.seal.file)))
              && (old(app.database.marker).Some? ==> ReadableMarker(old(app.database.marker).value))
    ensures r.Ok? <==>
              && 1 <= |username| <= 256 && '\0' !in username && '\r' !in username && '\n' !in username
              && 12 <= |plaintext| <= 1024 && '\0' !in plaintext && '\r' !in plaintext && '\n' !in plaintext
              && Target(old(app.database).users, username, administrator).Ok? && ReadableSeal(old(app.seal.file))
              && var marker, seal := old(app.database).marker, Sealed(old(app.seal.file));
                 if marker == None then seal == None
                 else
                   && marker.value.status == Initialized && ValidId(marker.value.id)
                   && seal in {None, Some(marker.value.id)}
    // Why it fails otherwise; without a marker and seal to reset under, nothing at all is written.
    ensures r.Err? ==>
              r.error == (
                if !ValidResetUsername(username) then InvalidTarget
                else if !ValidNewPassword(plaintext) then WeakPassword
                else if !ReadableSeal(old(app.seal.file)) then NeedsRecovery
                else
                  match Target(old(app.database.users), username, administrator)
                  case Err(e) => e
                  case Ok(_) => NeedsRecovery)
    ensures r.Err? && (r.error != NeedsRecovery || !ReadableSeal(old(app.seal.file))
                       || !Resettable(old(app.database.marker), Sealed(old(app.seal.file)))) ==>
              app.database == old(app.database) && app.seal.file == old(app.seal.file)
    // A locked appliance stays locked and unchanged.
    ensures Rank(app.database) >= Rank(old(app.database))
    ensures Rank(old(app.database)) == 3 ==>
              r.Err? && app.database == old(app.database) && app.seal.file == old(app.seal.file)
  {
    if !ValidResetUsername(username) {
      return Err(InvalidTarget);
    }
    if !ValidNewPassword(plaintext) {
      return Err(WeakPassword);
    }
    var loaded := app.seal.Load();
    if loaded.Err? {
      return Err(NeedsRecovery);
    }
    var target := LoadUnique(app.database.users, username, administrator);
    if target.Err? {
      return target;
    }
    assert app.database.users.Keys != {} by { assert target.value in app.database.users; }
    var ready := Reconciled(app, loaded.value, random, now);
    if !ready {
      return Err(NeedsRecovery);
    }
    r := StoreReset(app, sessions, administrator, username, plaintext, salt, now);
  }
}
