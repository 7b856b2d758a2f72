/** The checkout endpoint: required shipping fields, then the email pattern, then an order stored
    as `pending`. The submitted line items stay opaque (type `Items`); `stringify` stands for
    `JSON.stringify`. */
module CheckoutRoute {
  import opened Wrappers
  import opened Email
  import opened Db

  datatype CheckoutRequest<Items> = CheckoutRequest(
    firstName: Option<string>,
    lastName: Option<string>,
    email: Option<string>,
    phone: Option<string>,
    address1: Option<string>,
    address2: Option<string>,
    city: Option<string>,
    state: Option<string>,
    zip: Option<string>,
    country: Option<string>,
    items: Items,
    subtotal: int)

  datatype CheckoutResponse = Placed(orderId: nat) | Refused(status: int, error: string)

  const MissingFields := Refused(400, "Please fill in all required fields.")
  const InvalidEmail := Refused(400, "Please enter a valid email address.")

  datatype Outcome = Outcome(response: CheckoutResponse, orders: seq<Order>)

  predicate HasRequiredFields<Items>(req: CheckoutRequest<Items>) {
    && Truthy(req.firstName) && Truthy(req.lastName) && Truthy(req.email) && Truthy(req.address1)
    && Truthy(req.city) && Truthy(req.state) && Truthy(req.zip)
  }

  /** The row written for an accepted request. */
  function OrderOf<Items>(req: CheckoutRequest<Items>, id: nat, stringify: Items -> string): Order
    requires HasRequiredFields(req)
  {
    Order(id, req.firstName.value, req.lastName.value, req.email.value, OrNull(req.phone),
          req.address1.value, OrNull(req.address2), req.city.value, req.state.value, req.zip.value,
          OrElse(req.country, "US"), stringify(req.items), req.subtotal, "pending")
  }

  /** `POST /api/checkout` against the order list, with `id` the next free id. */
  function Checkout<Items>(orders: seq<Order>, id: nat, req: CheckoutRequest<Items>, stringify: Items -> string): Outcome {
    if !HasRequiredFields(req) then Outcome(MissingFields, orders)
    else if !IsValidEmail(req.email.value) then Outcome(InvalidEmail, orders)
    else Outcome(Placed(id), orders + [OrderOf(req, id, stringify)])
  }

  /** A missing required field is reported before a malformed email; an order is stored exactly
      when every required field is present and the email matches the address pattern, and then it
      is the one new row: the name, email and address fields are stored as given, empty optional
      fields are null, the country defaults to "US", the status is "pending", and the subtotal
      and items are stored as the client sent them. */
  lemma CheckoutOutcomes<Items>(orders: seq<Order>, id: nat, req: CheckoutRequest<Items>, stringify: Items -> string)
    ensures var o := Checkout(orders, id, req, stringify);
            && (!HasRequiredFields(req) ==> o == Outcome(MissingFields, orders))
            && (HasRequiredFields(req) && !MatchesPattern(req.email.value) ==> o == Outcome(InvalidEmail, orders))
            && (o.response.Placed? <==> HasRequiredFields(req) && MatchesPattern(req.email.value))
            && (o.response.Refused? ==> o.orders == orders && o.response.status == 400)
            && (o.response.Placed? ==>
                  && o.response.orderId == id
                  && |o.orders| == |orders| + 1 && o.orders[..|orders|] == orders
                  && var row := o.orders[|orders|];
                  && row.id == id
                  && row.firstName == req.firstName.value && row.lastName == req.lastName.value
                  && row.email == req.email.value && MatchesPattern(row.email)
                  && row.address1 == req.address1.value && row.city == req.city.value
                  && row.state == req.state.value && row.zip == req.zip.value
                  && (row.phone.Some? <==> Truthy(req.phone)) && (row.phone.Some? ==> row.phone == req.phone)
                  && (row.address2.Some? <==> Truthy(req.address2)) && (row.address2.Some? ==> row.address2 == req.address2)
                  && row.country == (if Truthy(req.country) then req.country.value else "US")
                  && row.status == "pending"
                  && row.subtotal == req.subtotal
                  && row.items == stringify(req.items))
  {
    if HasRequiredFields(req) {
      ValidEmailIffPattern(req.email.value);
    }
    var o := Checkout(orders, id, req, stringify);
    assert o.orders[..|orders|] == orders;
  }

  /** The stored subtotal is whatever the client sent: two requests that differ only in it store
      orders that differ only in it. */
  lemma SubtotalIsTrusted<Items>(orders: seq<Order>, id: nat, req: CheckoutRequest<Items>, stringify: Items -> string, claimed: int)
    requires Checkout(orders, id, req, stringify).response.Placed?
    ensures var o := Checkout(orders, id, req.(subtotal := claimed), stringify);
            && o.response.Placed?
            && o.orders == orders + [Checkout(orders, id, req, stringify).orders[|orders|].(subtotal := claimed)]
  {
  }

  method Post<Items>(db: Database, req: CheckoutRequest<Items>, stringify: Items -> string) returns (response: CheckoutResponse)
    requires db.Valid()
    modifies db
    ensures db.Valid()
    ensures Outcome(response, db.orders) == Checkout(old(db.orders), old(db.nextId), req, stringify)
    ensures db.users == old(db.users) && db.subscribers == old(db.subscribers)
  {
    if !HasRequiredFields(req) {
      return MissingFields;
    }
    if !IsValidEmail(req.email.value) {
      return InvalidEmail;
    }
    var stored := db.InsertOrder(OrderOf(req, 0, stringify));
    response := Placed(stored.id);
  }
}
