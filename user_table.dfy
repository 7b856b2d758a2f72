/** The admin user table: the listed users, the set of subscribed emails, the add/edit/delete
    dialogs with their form, the error line and the saving flag. Each fetch-driven handler is split
    into the part before the request (returning what is sent) and the part after it (taking the
    reply). */
module UserTable {
  import opened Wrappers
  import opened UsersRoute

  /** The dialog's form fields. */
  datatype Form = Form(username: string, email: string, password: string, role: string, forcePasswordChange: bool)

  const EmptyForm := Form("", "", "", "user", false)

  /** A `PUT /api/admin/users/{id}` as the table sends it. */
  datatype UpdateRequest = EditUser(id: nat, form: Form) | ForceChange(id: nat)

  /** A reply carrying a user row, or the error field of a failed one. */
  datatype UserReply = UserOk(user: UserSummary) | UserError(error: Option<string>)

  /** `prev.map((u) => (u.id === updated.id ? updated : u))`. */
  function ReplaceById(users: seq<UserSummary>, updated: UserSummary): (r: seq<UserSummary>)
    ensures |r| == |users|
  {
    seq(|users|, k requires 0 <= k < |users| => if users[k].id == updated.id then updated else users[k])
  }

  /** `prev.filter((u) => u.id !== id)`. */
  function RemoveById(users: seq<UserSummary>, id: nat): (r: seq<UserSummary>)
    ensures |r| <= |users|
    ensures forall u :: u in r <==> u in users && u.id != id
  {
    if users == [] then []
    else
      assert forall u :: u in users <==> u == users[0] || u in users[1..];
      if users[0].id != id then [users[0]] + RemoveById(users[1..], id) else RemoveById(users[1..], id)
  }

  function Ids(users: seq<UserSummary>): seq<nat> {
    seq(|users|, k requires 0 <= k < |users| => users[k].id)
  }

  predicate UniqueIds(users: seq<UserSummary>) {
    forall i, j :: 0 <= i < j < |users| ==> users[i].id != users[j].id
  }

  /** Replacing keeps the ids in their places: every row whose id differs is untouched, and every
      row with the returned id now shows the returned user. */
  lemma ReplaceKeepsOthers(users: seq<UserSummary>, updated: UserSummary)
    ensures Ids(ReplaceById(users, updated)) == Ids(users)
    ensures forall k :: 0 <= k < |users| && users[k].id != updated.id ==> ReplaceById(users, updated)[k] == users[k]
    ensures forall k :: 0 <= k < |users| && users[k].id == updated.id ==> ReplaceById(users, updated)[k] == updated
    ensures (forall k :: 0 <= k < |users| ==> users[k].id != updated.id) ==> ReplaceById(users, updated) == users
  {
  }

  /** An id that is not listed leaves the list as it was. */
  lemma {:induction false} RemoveAbsent(users: seq<UserSummary>, id: nat)
    requires forall k :: 0 <= k < |users| ==> users[k].id != id
    ensures RemoveById(users, id) == users
  {
    if users != [] {
      assert forall k :: 0 <= k < |users[1..]| ==> users[1..][k].id != id by {
        forall k | 0 <= k < |users[1..]| ensures users[1..][k].id != id { assert users[1..][k] == users[k + 1]; }
      }
      RemoveAbsent(users[1..], id);
    }
  }

  /** Removing works row by row, so it keeps the order of the remaining rows. */
  lemma {:induction false} RemoveAppend(a: seq<UserSummary>, b: seq<UserSummary>, id: nat)
    ensures RemoveById(a + b, id) == RemoveById(a, id) + RemoveById(b, id)
  {
    if a == [] {
      assert a + b == b;
    } else {
      assert (a + b)[1..] == a[1..] + b;
      RemoveAppend(a[1..], b, id);
    }
  }

  lemma TailUnique(users: seq<UserSummary>)
    requires users != [] && UniqueIds(users)
    ensures UniqueIds(users[1..])
    ensures forall k :: 0 <= k < |users[1..]| ==> users[1..][k].id != users[0].id
  {
    var tail := users[1..];
    forall i, j | 0 <= i < j < |tail| ensures tail[i].id != tail[j].id { assert tail[i] == users[i + 1] && tail[j] == users[j + 1]; }
    forall k | 0 <= k < |tail| ensures tail[k].id != users[0].id { assert tail[k] == users[k + 1]; }
  }

  /** With unique ids, removing a listed id drops exactly one row. */
  lemma {:induction false} RemoveOne(users: seq<UserSummary>, id: nat)
    requires UniqueIds(users)
    requires exists k :: 0 <= k < |users| && users[k].id == id
    ensures |RemoveById(users, id)| == |users| - 1
  {
    TailUnique(users);
    var tail := users[1..];
    if users[0].id == id {
      RemoveAbsent(tail, id);
    } else {
      var k :| 0 <= k < |users| && users[k].id == id;
      assert tail[k - 1].id == id;
      RemoveOne(tail, id);
    }
  }

  /** Removing keeps ids unique. */
  lemma {:induction false} RemoveUnique(users: seq<UserSummary>, id: nat)
    requires UniqueIds(users)
    ensures UniqueIds(RemoveById(users, id))
  {
    if users != [] {
      TailUnique(users);
      var tail := users[1..];
      RemoveUnique(tail, id);
      var rest := RemoveById(tail, id);
      if users[0].id != id {
        var r := [users[0]] + rest;
        assert RemoveById(users, id) == r;
        assert forall u :: u in tail ==> u.id != users[0].id;
        forall i, j | 0 <= i < j < |r| ensures r[i].id != r[j].id {
          assert r[j] == rest[j - 1] && rest[j - 1] in rest;
          if i > 0 { assert r[i] == rest[i - 1]; }
        }
      }
    }
  }

  /** Replacing by id keeps ids unique. */
  lemma ReplaceKeepsUniqueIds(users: seq<UserSummary>, updated: UserSummary)
    requires UniqueIds(users)
    ensures UniqueIds(ReplaceById(users, updated))
  {
    ReplaceKeepsOthers(users, updated);
    var r := ReplaceById(users, updated);
    forall i, j | 0 <= i < j < |r| ensures r[i].id != r[j].id {
      assert Ids(r)[i] == Ids(users)[i] && Ids(r)[j] == Ids(users)[j];
    }
  }

  /** The toggle's new subscribed set: `email` is in it exactly when the reply says subscribed,
      and every other email keeps its state. */
  function Toggled(subscribed: set<string>, email: string, nowSubscribed: bool): (r: set<string>)
    ensures email in r <==> nowSubscribed
    ensures forall e :: e != email ==> (e in r <==> e in subscribed)
  {
    if nowSubscribed then subscribed + {email} else subscribed - {email}
  }

  /** The force-password button is shown only for users not already flagged. */
  predicate ForceOffered(u: UserSummary) {
    !u.forcePasswordChange
  }

  /** The request the force-password button sends. */
  function ForceRequest(u: UserSummary): (r: UpdateRequest)
    ensures r.id == u.id
  {
    ForceChange(u.id)
  }

  /** The JSON body of a `PUT`: a field is `None` when the body does not carry it. */
  datatype PutBody = PutBody(username: Option<string>, email: Option<string>, password: Option<string>,
                             role: Option<string>, forcePasswordChange: Option<bool>)

  /** The body each request sends: `JSON.stringify(form)` for an edit, which carries every form
      field, and `{ forcePasswordChange: true }` for the force-password button. */
  function BodyOf(r: UpdateRequest): PutBody {
    match r
    case EditUser(_, f) => PutBody(Some(f.username), Some(f.email), Some(f.password), Some(f.role), Some(f.forcePasswordChange))
    case ForceChange(_) => PutBody(None, None, None, None, Some(true))
  }

  /** The row the `users/[id]` endpoint answers after applying a body to `u`: the truthy text
      fields and a boolean flag replace the stored ones, and a password changes only the hash,
      which the row does not show. */
  function Merged(u: UserSummary, b: PutBody): UserSummary {
    u.(username := OrElse(b.username, u.username),
       email := OrElse(b.email, u.email),
       role := OrElse(b.role, u.role),
       forcePasswordChange := b.forcePasswordChange.GetOr(u.forcePasswordChange))
  }

  /** The force-password button addresses the user it is shown for, sends no password, and
      changes nothing of that user but setting the flag. */
  lemma ForceRequestChangesOnlyFlag(u: UserSummary)
    ensures ForceRequest(u).id == u.id
    ensures BodyOf(ForceRequest(u)).password.None?
    ensures Merged(u, BodyOf(ForceRequest(u))) == u.(forcePasswordChange := true)
  {
  }

  /** An edit always sends the form's flag, so saving the dialog can also clear it; blank text
      fields and a blank password leave the stored values alone. */
  lemma EditRequestMerge(u: UserSummary, f: Form)
    ensures Merged(u, BodyOf(EditUser(u.id, f))).forcePasswordChange == f.forcePasswordChange
    ensures f.username == "" ==> Merged(u, BodyOf(EditUser(u.id, f))).username == u.username
    ensures f.username != "" ==> Merged(u, BodyOf(EditUser(u.id, f))).username == f.username
    ensures f.email == "" ==> Merged(u, BodyOf(EditUser(u.id, f))).email == u.email
    ensures f.email != "" ==> Merged(u, BodyOf(EditUser(u.id, f))).email == f.email
    ensures f.role == "" ==> Merged(u, BodyOf(EditUser(u.id, f))).role == u.role
    ensures f.role != "" ==> Merged(u, BodyOf(EditUser(u.id, f))).role == f.role
    ensures f.username == "" && f.email == "" && f.role == "" ==>
              Merged(u, BodyOf(EditUser(u.id, f))) == u.(forcePasswordChange := f.forcePasswordChange)
    ensures Merged(u, BodyOf(EditUser(u.id, f))).id == u.id
    ensures Merged(u, BodyOf(EditUser(u.id, f))).createdAt == u.createdAt
  {
  }

  class Table {
    var users: seq<UserSummary>
    var subscribed: set<string>
    var showAdd: bool
    var editUser: Option<UserSummary>
    var deleteUser: Option<UserSummary>
    var form: Form
    var error: string
    var saving: bool

    constructor (initialUsers: seq<UserSummary>, subscribedEmails: seq<string>)
      ensures users == initialUsers && subscribed == set e | e in subscribedEmails
      ensures !showAdd && editUser.None? && deleteUser.None? && form == EmptyForm && error == "" && !saving
    {
      users := initialUsers;
      subscribed := set e | e in subscribedEmails;
      showAdd, editUser, deleteUser := false, None, None;
      form, error, saving := EmptyForm, "", false;
    }

    method OpenAdd()
      modifies this
      ensures form == EmptyForm && error == "" && showAdd
      ensures users == old(users) && subscribed == old(subscribed) && editUser == old(editUser)
      ensures deleteUser == old(deleteUser) && saving == old(saving)
    {
      form := EmptyForm;
      error := "";
      showAdd := true;
    }

    /** The form starts from the user's fields, with an empty password. */
    method OpenEdit(u: UserSummary)
      modifies this
      ensures form == Form(u.username, u.email, "", u.role, u.forcePasswordChange)
      ensures error == "" && editUser == Some(u)
      ensures users == old(users) && subscribed == old(subscribed) && showAdd == old(showAdd)
      ensures deleteUser == old(deleteUser) && saving == old(saving)
    {
      form := Form(u.username, u.email, "", u.role, u.forcePasswordChange);
      error := "";
      editUser := Some(u);
    }

    method OpenDelete(u: UserSummary)
      modifies this
      ensures deleteUser == Some(u)
      ensures users == old(users) && subscribed == old(subscribed) && showAdd == old(showAdd)
      ensures editUser == old(editUser) && form == old(form) && error == old(error) && saving == old(saving)
    {
      deleteUser := Some(u);
    }

    method CloseModals()
      modifies this
      ensures !showAdd && editUser.None? && deleteUser.None? && error == ""
      ensures users == old(users) && subscribed == old(subscribed) && form == old(form) && saving == old(saving)
    {
      showAdd, editUser, deleteUser := false, None, None;
      error := "";
    }

    /** A field's `onChange`. */
    method EditForm(f: Form)
      modifies this
      ensures form == f
      ensures users == old(users) && subscribed == old(subscribed) && showAdd == old(showAdd)
      ensures editUser == old(editUser) && deleteUser == old(deleteUser) && error == old(error) && saving == old(saving)
    {
      form := f;
    }

    /** `handleSaveAdd` up to the request: the form is the body sent. */
    method BeginSaveAdd() returns (body: Form)
      modifies this
      ensures body == form && saving && error == ""
      ensures users == old(users) && subscribed == old(subscribed) && showAdd == old(showAdd)
      ensures editUser == old(editUser) && deleteUser == old(deleteUser) && form == old(form)
    {
      saving := true;
      error := "";
      body := form;
    }

    /** `handleSaveAdd` after the reply: a created user goes to the end of the list and the dialogs
        close; a failure keeps the list and shows the server's error or a fallback. */
    method FinishSaveAdd(reply: UserReply)
      modifies this
      ensures !saving && subscribed == old(subscribed) && form == old(form)
      ensures reply.UserOk? ==> users == old(users) + [reply.user] && !showAdd && editUser.None? && deleteUser.None? && error == ""
      ensures reply.UserError? ==> users == old(users) && error == OrElse(reply.error, "Failed to create user.")
      ensures reply.UserError? ==> showAdd == old(showAdd) && editUser == old(editUser) && deleteUser == old(deleteUser)
    {
      saving := false;
      if reply.UserOk? {
        users := users + [reply.user];
        CloseModals();
      } else {
        error := OrElse(reply.error, "Failed to create user.");
      }
    }

    /** `handleSaveEdit` up to the request: nothing happens without a user being edited. */
    method BeginSaveEdit() returns (request: Option<UpdateRequest>)
      modifies this
      ensures old(editUser).None? ==> request.None? && saving == old(saving) && error == old(error)
      ensures old(editUser).Some? ==> request == Some(EditUser(old(editUser).value.id, form)) && saving && error == ""
      ensures users == old(users) && subscribed == old(subscribed) && showAdd == old(showAdd)
      ensures editUser == old(editUser) && deleteUser == old(deleteUser) && form == old(form)
    {
      if editUser.None? {
        return None;
      }
      saving := true;
      error := "";
      request := Some(EditUser(editUser.value.id, form));
    }

    /** `handleSaveEdit` after the reply: the row with the returned id is replaced and the dialogs
        close; a failure keeps the list and shows the server's error or a fallback. */
    method FinishSaveEdit(reply: UserReply)
      modifies this
      ensures !saving && subscribed == old(subscribed) && form == old(form)
      ensures reply.UserOk? ==> users == ReplaceById(old(users), reply.user) && !showAdd && editUser.None? && deleteUser.None? && error == ""
      ensures reply.UserError? ==> users == old(users) && error == OrElse(reply.error, "Failed to update user.")
      ensures reply.UserError? ==> showAdd == old(showAdd) && editUser == old(editUser) && deleteUser == old(deleteUser)
    {
      saving := false;
      if reply.UserOk? {
        users := ReplaceById(users, reply.user);
        CloseModals();
      } else {
        error := OrElse(reply.error, "Failed to update user.");
      }
    }

    /** `handleDelete` up to the request: the id to delete, if a user was chosen. */
    method BeginDelete() returns (id: Option<nat>)
      modifies this
      ensures old(deleteUser).None? ==> id.None? && saving == old(saving)
      ensures old(deleteUser).Some? ==> id == Some(old(deleteUser).value.id) && saving
      ensures users == old(users) && subscribed == old(subscribed) && showAdd == old(showAdd)
      ensures editUser == old(editUser) && deleteUser == old(deleteUser) && form == old(form) && error == old(error)
    {
      if deleteUser.None? {
        return None;
      }
      saving := true;
      id := Some(deleteUser.value.id);
    }

    /** `handleDelete` after the reply for `id`: success drops that row and closes the dialogs; a
        failure changes nothing but the saving flag, so the dialog stays open. */
    method FinishDelete(id: nat, ok: bool)
      modifies this
      ensures !saving && subscribed == old(subscribed) && form == old(form)
      ensures ok ==> users == RemoveById(old(users), id) && !showAdd && editUser.None? && deleteUser.None? && error == ""
      ensures !ok ==> users == old(users) && showAdd == old(showAdd) && editUser == old(editUser)
      ensures !ok ==> deleteUser == old(deleteUser) && error == old(error)
    {
      saving := false;
      if ok {
        users := RemoveById(users, id);
        CloseModals();
      }
    }

    /** `handleToggleNewsletter` after the reply: `reply` is the `subscribed` field of an ok reply,
        or none for a failed request, which changes nothing. */
    method ToggleNewsletter(u: UserSummary, reply: Option<bool>)
      modifies this
      ensures reply.None? ==> subscribed == old(subscribed)
      ensures reply.Some? ==> subscribed == Toggled(old(subscribed), u.email, reply.value)
      ensures users == old(users) && showAdd == old(showAdd) && editUser == old(editUser)
      ensures deleteUser == old(deleteUser) && form == old(form) && error == old(error) && saving == old(saving)
    {
      if reply.Some? {
        subscribed := Toggled(subscribed, u.email, reply.value);
      }
    }

    /** `handleForcePassword` after the reply: the returned row replaces the one with its id. */
    method FinishForcePassword(reply: UserReply)
      modifies this
      ensures reply.UserOk? ==> users == ReplaceById(old(users), reply.user)
      ensures reply.UserError? ==> users == old(users)
      ensures subscribed == old(subscribed) && showAdd == old(showAdd) && editUser == old(editUser)
      ensures deleteUser == old(deleteUser) && form == old(form) && error == old(error) && saving == old(saving)
    {
      if reply.UserOk? {
        users := ReplaceById(users, reply.user);
      }
    }
  }
}
