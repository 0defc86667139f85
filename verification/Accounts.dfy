/** User rows and the statements that change them. */
module Accounts {
  import opened Basics
  import Phc

  /**
    A stored verifier. Argon2id is ideal here: a verifier made from `secret` accepts exactly
    that plaintext, and two hashes with different salts are different texts. Anything
    that does not parse as bounded Argon2id is `Legacy` and accepts nothing.
   */
  datatype Verifier = Argon2id(secret: string, parameters: Phc.Parameters, salt: nat) | Legacy(text: string)
  {
    predicate Accepts(plaintext: string) { Argon2id? && secret == plaintext }
    predicate NeedsRehash() { Legacy? || parameters != Phc.DEFAULTS }
  }

  datatype Profile = Profile(email: string, nickname: string, avatar: string, description: string)

  datatype User = User(
    username: string, verifier: Verifier, role: string, profile: Profile, version: int, updatedAt: Time)

  type Users = map<int, User>

  const ADMIN := "admin"

  function AdminIds(users: Users): set<int> {
    set id | id in users && users[id].role == ADMIN
  }

  predicate HasAdmin(users: Users) {
    exists id :: id in users && users[id].role == ADMIN
  }

  function Named(users: Users, username: string): set<int> {
    set id | id in users && users[id].username == username
  }

  datatype DeleteOutcome = Deleted | UserNotFound | LastAdmin

  function DeleteOutcomeOf(users: Users, id: int): DeleteOutcome {
    if id !in users then UserNotFound
    else if users[id].role == ADMIN && |AdminIds(users)| <= 1 then LastAdmin
    else Deleted
  }

  /** The deletion transaction: it commits only its `Deleted` outcome. */
  function DeleteUser(users: Users, id: int): Users {
    if DeleteOutcomeOf(users, id) == Deleted then users - {id} else users
  }

  function FirstNonEmpty(candidate: string, fallback: string): string {
    if candidate != "" then candidate else fallback
  }

  predicate NameTaken(users: Users, id: int, username: string) {
    username != "" && exists other :: other in users && other != id && users[other].username == username
  }

  /** Profile update: empty fields are skipped, and a username already taken fails the statement. */
  function UpdateUser(users: Users, id: int, username: string, p: Profile, now: Time): Users {
    if id !in users then users
    else if NameTaken(users, id, username) then users
    else
      var u := users[id];
      users[id := u.(
        username := FirstNonEmpty(username, u.username),
        profile := Profile(
          FirstNonEmpty(p.email, u.profile.email), FirstNonEmpty(p.nickname, u.profile.nickname),
          FirstNonEmpty(p.avatar, u.profile.avatar), FirstNonEmpty(p.description, u.profile.description)),
        updatedAt := now)]
  }

  /** Compare-and-swap on the verifier; `None` means that no row was affected. */
  function StoreVerifier(users: Users, id: int, expected: Verifier, stored: Verifier, bump: int, now: Time)
    : Option<Users>
  {
    if id in users && users[id].verifier == expected
    then Some(users[id := users[id].(verifier := stored, version := users[id].version + bump, updatedAt := now)])
    else None
  }

  function BumpVersion(users: Users, id: int, now: Time): Users {
    if id in users then users[id := users[id].(version := users[id].version + 1, updatedAt := now)] else users
  }

  predicate ValidNewPassword(plaintext: string) {
    12 <= |plaintext| <= 1024 && forall i :: 0 <= i < |plaintext| ==> plaintext[i] !in ['\0', '\r', '\n']
  }

  // ---------- What the statements keep ----------

  /** The same rows, each with its role. */
  predicate SameRoles(before: Users, after: Users) {
    before.Keys == after.Keys && forall id :: id in before ==> after[id].role == before[id].role
  }

  lemma UpdatesKeepRoles(
    users: Users, id: int, username: string, p: Profile, v: Verifier, w: Verifier, bump: int, now: Time)
    ensures SameRoles(users, UpdateUser(users, id, username, p, now))
    ensures var stored := StoreVerifier(users, id, v, w, bump, now); stored.Some? ==> SameRoles(users, stored.value)
    ensures SameRoles(users, BumpVersion(users, id, now))
  {
  }

  predicate UniqueNames(users: Users) {
    forall i, j :: i in users && j in users && users[i].username == users[j].username ==> i == j
  }

  /** A profile update touches one row's profile and name, never a credential, and names stay unique. */
  lemma UpdateKeepsCredentials(users: Users, id: int, username: string, p: Profile, now: Time, other: int)
    requires other in users
    ensures var after := UpdateUser(users, id, username, p, now);
            && other in after
            && after[other].verifier == users[other].verifier && after[other].version == users[other].version
            && (other != id ==> after[other] == users[other])
            && (username == "" ==> after[other].username == users[other].username)
            && (UniqueNames(users) ==> UniqueNames(after))
  {
  }

  /** Counting administrators, as the deletion does, tells whether there is another one. */
  lemma CountTellsOthers(users: Users, id: int)
    requires id in users && users[id].role == ADMIN
    ensures |AdminIds(users)| <= 1 <==> forall other :: other in users && users[other].role == "admin" ==> other == id
  {
    var others := AdminIds(users) - {id};
    assert |others| == |AdminIds(users)| - 1;
    if others != {} {
      var other := SomeMember(others);
      assert other in users && users[other].role == "admin" && other != id;
    } else {
      forall other | other in users && users[other].role == "admin" ensures other == id {
        assert other !in others;
      }
    }
  }

  /** Deleting users one at a time never removes the last administrator. */
  lemma DeleteKeepsAdmin(users: Users, id: int)
    requires HasAdmin(users)
    ensures HasAdmin(DeleteUser(users, id))
  {
    if DeleteOutcomeOf(users, id) == Deleted {
      var admins := AdminIds(users);
      if users[id].role == ADMIN {
        var others := admins - {id};
        assert |others| == |admins| - 1;
        var other := SomeMember(others);
        assert other in users - {id};
      } else {
        var admin :| admin in users && users[admin].role == ADMIN;
        assert admin in users - {id};
      }
    }
  }

  lemma SameRolesKeepsAdmin(before: Users, after: Users)
    requires SameRoles(before, after)
    ensures HasAdmin(before) <==> HasAdmin(after)
  {
  }
}
