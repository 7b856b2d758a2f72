/** The bootstrap script: create the administrator account unless a user with its username
    already exists. Hashing is the parameter `hash`, the creation time the parameter `now`. */
module Seed {
  import opened Wrappers
  import opened Db
  import LoginRoute

  const AdminUsername := "butterchef"
  const AdminEmail := "admin@5jkitchens.com"
  const AdminPassword := "qw12QW!@"

  function AdminUser(id: nat, hash: string -> string, now: int): User {
    User(id, AdminUsername, AdminEmail, hash(AdminPassword), "admin", false, now)
  }

  /** The user list after the script, with `id` the next free id. */
  function Seeded(users: seq<User>, id: nat, hash: string -> string, now: int): seq<User> {
    if FindByUsername(users, AdminUsername).Some? then users else users + [AdminUser(id, hash, now)]
  }

  /** After the script a "butterchef" row exists; an existing one is left exactly as it was, and
      otherwise the one new row is an administrator who need not change the password. */
  lemma SeededHasAdmin(users: seq<User>, id: nat, hash: string -> string, now: int)
    ensures FindByUsername(Seeded(users, id, hash, now), AdminUsername).Some?
    ensures FindByUsername(users, AdminUsername).Some? ==> Seeded(users, id, hash, now) == users
    ensures FindByUsername(users, AdminUsername).None? ==>
              && Seeded(users, id, hash, now) == users + [AdminUser(id, hash, now)]
              && FindByUsername(Seeded(users, id, hash, now), AdminUsername) == Some(AdminUser(id, hash, now))
  {
    if FindByUsername(users, AdminUsername).None? {
      FindAfterMisses(users, AdminUser(id, hash, now));
    }
  }

  lemma {:induction false} FindAfterMisses(users: seq<User>, u: User)
    requires FindByUsername(users, u.username).None?
    ensures FindByUsername(users + [u], u.username) == Some(u)
  {
    if users != [] {
      assert (users + [u])[1..] == users[1..] + [u];
      FindAfterMisses(users[1..], u);
    }
  }

  /** Running the script twice is the same as running it once. */
  lemma SeedIdempotent(users: seq<User>, id1: nat, id2: nat, hash: string -> string, now1: int, now2: int)
    ensures Seeded(Seeded(users, id1, hash, now1), id2, hash, now2) == Seeded(users, id1, hash, now1)
  {
    SeededHasAdmin(users, id1, hash, now1);
  }

  /** The script keeps usernames and emails unique, provided no other row already uses the
      administrator's email address (the database's unique index would otherwise refuse it). */
  lemma SeedKeepsUniqueLogins(users: seq<User>, id: nat, hash: string -> string, now: int)
    requires UniqueLogins(users)
    requires forall k :: 0 <= k < |users| ==> users[k].email != AdminEmail
    ensures UniqueLogins(Seeded(users, id, hash, now))
  {
    var r := Seeded(users, id, hash, now);
    if FindByUsername(users, AdminUsername).None? {
      forall i, j | 0 <= i < j < |r| ensures r[i].username != r[j].username && r[i].email != r[j].email {
        assert r[i] == users[i];
        if j < |users| { assert r[j] == users[j]; }
      }
    }
  }

  /** On an empty store, where `passwordMatches(p, hash(q))` holds exactly when `p == q`, the
      seeded administrator logs in with the seeded password and gets the session cookie, and any
      other password gets 401 "Invalid credentials.". */
  lemma SeededAdminCanLogIn(id: nat, hash: string -> string, now: int, passwordMatches: (string, string) -> bool,
                            sign: nat -> string, production: bool, other: string)
    requires forall p, q :: passwordMatches(p, hash(q)) <==> p == q
    requires other != AdminPassword && other != ""
    ensures var users := Seeded([], id, hash, now);
            var r := LoginRoute.Login(LoginRoute.LoginRequest(Some(AdminUsername), Some(AdminPassword)),
                                      users, passwordMatches, sign, production);
            r.status == 200 && r.cookie == Some(LoginRoute.SessionCookie(sign(id), production))
    ensures var users := Seeded([], id, hash, now);
            LoginRoute.Login(LoginRoute.LoginRequest(Some(AdminUsername), Some(other)),
                             users, passwordMatches, sign, production) == LoginRoute.InvalidCredentials
  {
    SeededHasAdmin([], id, hash, now);
    assert passwordMatches(AdminPassword, hash(AdminPassword));
    assert !passwordMatches(other, hash(AdminPassword));
  }

  /** `main()` against the store. */
  method Run(db: Database, hash: string -> string, now: int)
    requires db.Valid()
    modifies db
    ensures db.Valid()
    ensures db.users == Seeded(old(db.users), old(db.nextId), hash, now)
    ensures db.subscribers == old(db.subscribers) && db.orders == old(db.orders)
  {
    var existing := FindByUsername(db.users, AdminUsername);
    if existing.None? {
      var _ := db.InsertUser(AdminUser(0, hash, now));
    }
  }
}
