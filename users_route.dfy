/** The admin users collection endpoint: listing users oldest first without their password hashes,
    and creating a user after checking required fields and username/email clashes. Hashing is the
    parameter `hash`, the creation time the parameter `now`. */
module UsersRoute {
  import opened Wrappers
  import opened Sorting
  import opened Db

  /** The columns the endpoint selects: everything but the password hash. */
  datatype UserSummary = UserSummary(
    id: nat,
    username: string,
    email: string,
    role: string,
    forcePasswordChange: bool,
    createdAt: int)

  function Summary(u: User): UserSummary {
    UserSummary(u.id, u.username, u.email, u.role, u.forcePasswordChange, u.createdAt)
  }

  function Summaries(users: seq<User>): (r: seq<UserSummary>)
    ensures |r| == |users|
    ensures forall k :: 0 <= k < |users| ==> r[k] == Summary(users[k])
  {
    seq(|users|, k requires 0 <= k < |users| => Summary(users[k]))
  }

  /** `orderBy: { createdAt: "asc" }`. */
  function ByCreatedAt(): (UserSummary, UserSummary) -> bool {
    (a: UserSummary, b: UserSummary) => a.createdAt <= b.createdAt
  }

  /** `GET /api/admin/users`. */
  function List(users: seq<User>): seq<UserSummary> {
    SortBy(Summaries(users), ByCreatedAt())
  }

  /** The listing holds every user's summary exactly once, and is ordered oldest first. */
  lemma ListIsSortedSummaries(users: seq<User>)
    ensures multiset(List(users)) == multiset(Summaries(users))
    ensures forall i, j :: 0 <= i < j < |List(users)| ==> List(users)[i].createdAt <= List(users)[j].createdAt
    ensures forall s :: s in List(users) <==> exists u :: u in users && s == Summary(u)
  {
    var leq := ByCreatedAt();
    assert IsTotalPreorder(leq);
    SortBySorted(Summaries(users), leq);
    var r := List(users);
    forall s ensures s in r <==> exists u :: u in users && s == Summary(u) {
      calc {
        s in r;
        s in multiset(r);
        s in multiset(Summaries(users));
        s in Summaries(users);
      }
      if s in Summaries(users) {
        var k :| 0 <= k < |Summaries(users)| && Summaries(users)[k] == s;
        assert users[k] in users;
      }
      if exists u :: u in users && s == Summary(u) {
        var u :| u in users && s == Summary(u);
        var k :| 0 <= k < |users| && users[k] == u;
        assert Summaries(users)[k] == s;
      }
    }
  }

  datatype CreateRequest = CreateRequest(
    username: Option<string>,
    email: Option<string>,
    password: Option<string>,
    role: Option<string>,
    forcePasswordChange: Option<bool>)

  datatype CreateResponse = Created(user: UserSummary) | Rejected(status: int, error: string)

  /** The response and the user list after a `POST`. */
  datatype Posted = Posted(response: CreateResponse, users: seq<User>)

  const MissingFields := Rejected(400, "Username, email and password are required.")
  const AlreadyExists := Rejected(409, "Username or email already exists.")

  /** `findFirst({ where: { OR: [{ username }, { email }] } })` finds a row. */
  predicate Clashes(users: seq<User>, username: string, email: string) {
    exists k :: 0 <= k < |users| && (users[k].username == username || users[k].email == email)
  }

  /** The row `POST` creates under id `id`. */
  function NewUser(req: CreateRequest, id: nat, hash: string -> string, now: int): User
    requires req.username.Some? && req.email.Some? && req.password.Some?
  {
    User(id, req.username.value, req.email.value, hash(req.password.value),
         OrElse(req.role, "user"), req.forcePasswordChange.GetOr(false), now)
  }

  /** `POST /api/admin/users` against the user list, with `id` the next free id. */
  function Create(users: seq<User>, id: nat, req: CreateRequest, hash: string -> string, now: int): Posted {
    if !Truthy(req.username) || !Truthy(req.email) || !Truthy(req.password) then Posted(MissingFields, users)
    else if Clashes(users, req.username.value, req.email.value) then Posted(AlreadyExists, users)
    else
      var u := NewUser(req, id, hash, now);
      Posted(Created(Summary(u)), users + [u])
  }

  /** Every outcome of `POST`: 400 for a missing field, 409 for a taken username or email, both
      leaving the users alone; otherwise 201 with exactly one new row, whose role defaults to
      "user", whose flag defaults to false and whose hash is of the given password. */
  lemma CreateOutcomes(users: seq<User>, id: nat, req: CreateRequest, hash: string -> string, now: int)
    ensures var p := Create(users, id, req, hash, now);
            && (!Truthy(req.username) || !Truthy(req.email) || !Truthy(req.password) ==>
                  p == Posted(MissingFields, users))
            && (Truthy(req.username) && Truthy(req.email) && Truthy(req.password) &&
                Clashes(users, req.username.value, req.email.value) ==>
                  p == Posted(AlreadyExists, users))
            && (p.response.Created? <==>
                  Truthy(req.username) && Truthy(req.email) && Truthy(req.password) &&
                  !Clashes(users, req.username.value, req.email.value))
            && (p.response.Created? ==>
                  && |p.users| == |users| + 1 && p.users[..|users|] == users
                  && var u := p.users[|users|];
                  && u == User(id, req.username.value, req.email.value, hash(req.password.value),
                               if Truthy(req.role) then req.role.value else "user",
                               if req.forcePasswordChange.Some? then req.forcePasswordChange.value else false, now)
                  && p.response.user == Summary(u))
            && (p.response.Rejected? ==> p.users == users)
  {
    var p := Create(users, id, req, hash, now);
    if p.response.Created? {
      assert p.users[..|users|] == users;
    }
  }

  /** Creating a user keeps usernames unique and email addresses unique. */
  lemma CreateKeepsUniqueLogins(users: seq<User>, id: nat, req: CreateRequest, hash: string -> string, now: int)
    requires UniqueLogins(users)
    ensures UniqueLogins(Create(users, id, req, hash, now).users)
  {
    var p := Create(users, id, req, hash, now);
    if p.response.Created? {
      var u := p.users[|users|];
      forall i, j | 0 <= i < j < |p.users|
        ensures p.users[i].username != p.users[j].username && p.users[i].email != p.users[j].email
      {
        if j == |users| {
          assert p.users[i] == users[i];
        } else {
          assert p.users[i] == users[i] && p.users[j] == users[j];
        }
      }
    }
  }

  method Get(db: Database) returns (listing: seq<UserSummary>)
    ensures listing == List(db.users)
  {
    listing := List(db.users);
  }

  method Post(db: Database, req: CreateRequest, hash: string -> string, now: int) returns (response: CreateResponse)
    requires db.Valid()
    modifies db
    ensures db.Valid()
    ensures Posted(response, db.users) == Create(old(db.users), old(db.nextId), req, hash, now)
    ensures db.subscribers == old(db.subscribers) && db.orders == old(db.orders)
  {
    if !Truthy(req.username) || !Truthy(req.email) || !Truthy(req.password) {
      return MissingFields;
    }
    var clash := exists k :: 0 <= k < |db.users| && (db.users[k].username == req.username.value || db.users[k].email == req.email.value);
    if clash {
      return AlreadyExists;
    }
    var stored := db.InsertUser(NewUser(req, 0, hash, now));
    response := Created(Summary(stored));
  }
}
