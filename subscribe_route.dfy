/** The public newsletter signup endpoint: a valid email address is added to the subscriber list
    unless it is already there. */
module SubscribeRoute {
  import opened Wrappers
  import opened Email
  import opened Db

  datatype SubscribeResponse = SubscribeResponse(status: int, error: Option<string>)

  const Subscribed := SubscribeResponse(200, None)
  const InvalidEmail := SubscribeResponse(400, Some("Valid email required."))

  datatype Outcome = Outcome(response: SubscribeResponse, subscribers: seq<string>)

  /** `upsert({ where: { email }, create: { email }, update: {} })` on the subscriber list. */
  function Upserted(subscribers: seq<string>, email: string): seq<string> {
    if email in subscribers then subscribers else subscribers + [email]
  }

  /** `POST /api/newsletter/subscribe`. */
  function Subscribe(subscribers: seq<string>, email: Option<string>): Outcome {
    if !Truthy(email) || !IsValidEmail(email.value) then Outcome(InvalidEmail, subscribers)
    else Outcome(Subscribed, Upserted(subscribers, email.value))
  }

  /** The request succeeds exactly when the email is present and matches the address pattern;
      a rejected request leaves the list alone, an accepted one leaves the address on the list,
      keeps every earlier entry in place and adds at most that one entry. */
  lemma SubscribeOutcomes(subscribers: seq<string>, email: Option<string>)
    ensures var o := Subscribe(subscribers, email);
            && (o.response == Subscribed <==> email.Some? && MatchesPattern(email.value))
            && (o.response != Subscribed ==> o == Outcome(InvalidEmail, subscribers))
            && (o.response == Subscribed ==>
                  && email.value in o.subscribers
                  && |subscribers| <= |o.subscribers| <= |subscribers| + 1
                  && o.subscribers[..|subscribers|] == subscribers
                  && (email.value in subscribers ==> o.subscribers == subscribers)
                  && (forall e :: e in o.subscribers <==> e in subscribers || e == email.value))
  {
    if email.Some? {
      ValidEmailIffPattern(email.value);
      if email.value == "" && MatchesPattern(email.value) { assert false; }
    }
    var o := Subscribe(subscribers, email);
    assert o.subscribers[..|subscribers|] == subscribers;
  }

  /** Subscribing the same address twice leaves the list as subscribing it once. */
  lemma SubscribeIdempotent(subscribers: seq<string>, email: Option<string>)
    ensures Subscribe(Subscribe(subscribers, email).subscribers, email) == Subscribe(subscribers, email)
  {
  }

  /** The list never holds an address twice and only ever holds valid addresses. */
  lemma SubscribeKeepsInvariant(subscribers: seq<string>, email: Option<string>)
    requires NoDuplicates(subscribers)
    requires forall k :: 0 <= k < |subscribers| ==> IsValidEmail(subscribers[k])
    ensures var s := Subscribe(subscribers, email).subscribers;
            && NoDuplicates(s)
            && forall k :: 0 <= k < |s| ==> IsValidEmail(s[k])
  {
  }

  method Post(db: Database, email: Option<string>) returns (response: SubscribeResponse)
    requires db.Valid()
    modifies db
    ensures db.Valid()
    ensures Outcome(response, db.subscribers) == Subscribe(old(db.subscribers), email)
    ensures db.users == old(db.users) && db.orders == old(db.orders) && db.nextId == old(db.nextId)
  {
    if !Truthy(email) || !IsValidEmail(email.value) {
      return InvalidEmail;
    }
    if email.value !in db.subscribers {
      db.subscribers := db.subscribers + [email.value];
    }
    response := Subscribed;
  }
}
