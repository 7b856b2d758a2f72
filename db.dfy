/** The persistent store as an in-memory object: users, newsletter subscribers and orders. Record ids
    come from a counter, standing in for the ids the database generates. */
module Db {
  import opened Wrappers

  datatype User = User(
    id: nat,
    username: string,
    email: string,
    passwordHash: string,
    role: string,
    forcePasswordChange: bool,
    createdAt: int)

  datatype Order = Order(
    id: nat,
    firstName: string,
    lastName: string,
    email: string,
    phone: Option<string>,
    address1: string,
    address2: Option<string>,
    city: string,
    state: string,
    zip: string,
    country: string,
    items: string,      // the submitted items as JSON text
    subtotal: int,
    status: string)

  /** `findUnique({ where: { username } })` over a user list. */
  function FindByUsername(users: seq<User>, username: string): (r: Option<User>)
    ensures r.None? <==> forall k :: 0 <= k < |users| ==> users[k].username != username
    ensures r.Some? ==> r.value in users && r.value.username == username
  {
    if users == [] then None
    else if users[0].username == username then Some(users[0])
    else
      assert forall k :: 1 <= k < |users| ==> users[k] == users[1..][k - 1];
      FindByUsername(users[1..], username)
  }

  /** No two users share a username, and no two share an email address. */
  predicate UniqueLogins(users: seq<User>) {
    forall i, j :: 0 <= i < j < |users| ==>
      users[i].username != users[j].username && users[i].email != users[j].email
  }

  predicate NoDuplicates(s: seq<string>) {
    forall i, j :: 0 <= i < j < |s| ==> s[i] != s[j]
  }

  class Database {
    var users: seq<User>
    var subscribers: seq<string>
    var orders: seq<Order>
    var nextId: nat

    /** Every record id was handed out by the counter, so ids are distinct; a subscriber email is
        stored once (the email column is unique). */
    ghost predicate Valid()
      reads this
    {
      && (forall k :: 0 <= k < |users| ==> users[k].id < nextId)
      && (forall i, j :: 0 <= i < j < |users| ==> users[i].id != users[j].id)
      && (forall k :: 0 <= k < |orders| ==> orders[k].id < nextId)
      && (forall i, j :: 0 <= i < j < |orders| ==> orders[i].id != orders[j].id)
      && NoDuplicates(subscribers)
    }

    constructor ()
      ensures Valid()
      ensures users == [] && subscribers == [] && orders == [] && nextId == 0
    {
      users, subscribers, orders, nextId := [], [], [], 0;
    }

    /** Appends a user under a fresh id. */
    method InsertUser(u: User) returns (stored: User)
      requires Valid()
      modifies this
      ensures Valid()
      ensures stored == u.(id := old(nextId))
      ensures users == old(users) + [stored] && nextId == old(nextId) + 1
      ensures subscribers == old(subscribers) && orders == old(orders)
    {
      stored := u.(id := nextId);
      users := users + [stored];
      nextId := nextId + 1;
    }

    /** Appends an order under a fresh id. */
    method InsertOrder(o: Order) returns (stored: Order)
      requires Valid()
      modifies this
      ensures Valid()
      ensures stored == o.(id := old(nextId))
      ensures orders == old(orders) + [stored] && nextId == old(nextId) + 1
      ensures users == old(users) && subscribers == old(subscribers)
    {
      stored := o.(id := nextId);
      orders := orders + [stored];
      nextId := nextId + 1;
    }
  }
}
