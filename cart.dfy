/** The cart engine: the reducer over the six cart actions and the two derived totals. */
module Cart {
  import opened Wrappers
  import opened Catalog

  datatype CartItem = CartItem(product: Product, quantity: int)

  datatype CartState = CartState(items: seq<CartItem>, isOpen: bool)

  datatype CartAction =
    | AddItem(product: Product, quantity: Option<int>)
    | RemoveItem(productId: string)
    | UpdateQuantity(productId: string, newQuantity: int)
    | ClearCart
    | OpenCart
    | CloseCart

  /** The state `useReducer` starts from. */
  const InitialState := CartState([], false)

  /** `state.items.find((i) => i.product.id === id)` finds something. */
  predicate HasLine(items: seq<CartItem>, id: string) {
    exists k :: 0 <= k < |items| && items[k].product.id == id
  }

  /** No two lines share a product id. */
  predicate UniqueIds(items: seq<CartItem>) {
    forall i, j :: 0 <= i < j < |items| ==> items[i].product.id != items[j].product.id
  }

  /** Every line holds at least one unit. */
  predicate AllPositive(items: seq<CartItem>) {
    forall k :: 0 <= k < |items| ==> items[k].quantity >= 1
  }

  /** The quantity ADD_ITEM uses: `quantity ?? 1`. */
  function AddedQuantity(quantity: Option<int>): int {
    quantity.GetOr(1)
  }

  /** The `map` of ADD_ITEM: lines with that id gain `q` units. */
  function AddToLine(items: seq<CartItem>, id: string, q: int): seq<CartItem> {
    seq(|items|, k requires 0 <= k < |items| =>
      if items[k].product.id == id then items[k].(quantity := items[k].quantity + q) else items[k])
  }

  /** The `map` of UPDATE_QUANTITY: lines with that id get exactly `q` units. */
  function SetLineQuantity(items: seq<CartItem>, id: string, q: int): seq<CartItem> {
    seq(|items|, k requires 0 <= k < |items| =>
      if items[k].product.id == id then items[k].(quantity := q) else items[k])
  }

  /** The `filter` of REMOVE_ITEM: the lines with another id, in order. */
  function WithoutLine(items: seq<CartItem>, id: string): (r: seq<CartItem>)
    ensures |r| <= |items|
    ensures forall it :: it in r <==> it in items && it.product.id != id
  {
    if items == [] then []
    else if items[0].product.id != id then [items[0]] + WithoutLine(items[1..], id)
    else WithoutLine(items[1..], id)
  }

  /** `cartReducer`. */
  function Reduce(state: CartState, action: CartAction): CartState {
    match action
    case AddItem(product, quantity) =>
      var q := AddedQuantity(quantity);
      if HasLine(state.items, product.id) then
        state.(isOpen := true, items := AddToLine(state.items, product.id, q))
      else
        state.(isOpen := true, items := state.items + [CartItem(product, q)])
    case RemoveItem(id) =>
      state.(items := WithoutLine(state.items, id))
    case UpdateQuantity(id, q) =>
      if q <= 0 then state.(items := WithoutLine(state.items, id))
      else state.(items := SetLineQuantity(state.items, id, q))
    case ClearCart => state.(items := [])
    case OpenCart => state.(isOpen := true)
    case CloseCart => state.(isOpen := false)
  }

  /** Dispatching a sequence of actions in order. */
  function Run(state: CartState, actions: seq<CartAction>): CartState
    decreases |actions|
  {
    if actions == [] then state else Run(Reduce(state, actions[0]), actions[1..])
  }

  /** `totalItems`: the sum of the line quantities. */
  function TotalItems(items: seq<CartItem>): int {
    if items == [] then 0 else items[0].quantity + TotalItems(items[1..])
  }

  /** `subtotal`: the sum of price x quantity over the lines, in cents. */
  function Subtotal(items: seq<CartItem>): int {
    if items == [] then 0 else items[0].product.price * items[0].quantity + Subtotal(items[1..])
  }

  /** An action the callers may dispatch without breaking "quantity >= 1": ADD_ITEM with a
      positive or omitted quantity; the reducer itself accepts any number. */
  predicate KeepsPositive(action: CartAction) {
    action.AddItem? ==> AddedQuantity(action.quantity) >= 1
  }

  // ---------------------------------------------------------------------------------------------
  // ADD_ITEM

  /** Adding a product already in the cart adds `quantity ?? 1` to its line and to nothing else. */
  lemma AddExisting(state: CartState, product: Product, quantity: Option<int>, k: nat)
    requires UniqueIds(state.items) && k < |state.items| && state.items[k].product.id == product.id
    ensures var r := Reduce(state, AddItem(product, quantity));
            && r.isOpen
            && r.items == state.items[k := state.items[k].(quantity := state.items[k].quantity + AddedQuantity(quantity))]
  {
  }

  /** Adding an absent product appends exactly one line, at the end. */
  lemma AddAbsent(state: CartState, product: Product, quantity: Option<int>)
    requires !HasLine(state.items, product.id)
    ensures var r := Reduce(state, AddItem(product, quantity));
            r.isOpen && r.items == state.items + [CartItem(product, AddedQuantity(quantity))]
  {
  }

  // ---------------------------------------------------------------------------------------------
  // REMOVE_ITEM and UPDATE_QUANTITY

  lemma {:induction false} WithoutAbsent(items: seq<CartItem>, id: string)
    requires !HasLine(items, id)
    ensures WithoutLine(items, id) == items
  {
    if items != [] {
      assert !HasLine(items[1..], id) by {
        forall k | 0 <= k < |items[1..]| ensures items[1..][k].product.id != id {
          assert items[1..][k] == items[k + 1];
        }
      }
      WithoutAbsent(items[1..], id);
    }
  }

  lemma {:induction false} WithoutPresent(items: seq<CartItem>, id: string, k: nat)
    requires UniqueIds(items) && k < |items| && items[k].product.id == id
    ensures WithoutLine(items, id) == items[..k] + items[k + 1..]
  {
    var tail := items[1..];
    assert UniqueIds(tail) by {
      forall i, j | 0 <= i < j < |tail| ensures tail[i].product.id != tail[j].product.id {
        assert tail[i] == items[i + 1] && tail[j] == items[j + 1];
      }
    }
    if k == 0 {
      assert !HasLine(tail, id) by {
        forall j | 0 <= j < |tail| ensures tail[j].product.id != id {
          assert tail[j] == items[j + 1];
        }
      }
      WithoutAbsent(tail, id);
    } else {
      WithoutPresent(tail, id, k - 1);
      assert items[..k] == [items[0]] + tail[..k - 1];
      assert tail[k - 1 + 1..] == items[k + 1..];
    }
  }

  /** REMOVE_ITEM drops the one line with that id and keeps the others in order; an absent id
      leaves the items as they were. The open flag never changes. */
  lemma RemoveLine(state: CartState, id: string)
    requires UniqueIds(state.items)
    ensures var r := Reduce(state, RemoveItem(id));
            && r.isOpen == state.isOpen
            && (!HasLine(state.items, id) ==> r == state)
            && forall k :: 0 <= k < |state.items| && state.items[k].product.id == id ==>
                 r.items == state.items[..k] + state.items[k + 1..]
  {
    if !HasLine(state.items, id) { WithoutAbsent(state.items, id); }
    forall k | 0 <= k < |state.items| && state.items[k].product.id == id
      ensures WithoutLine(state.items, id) == state.items[..k] + state.items[k + 1..]
    {
      WithoutPresent(state.items, id, k);
    }
  }

  /** UPDATE_QUANTITY with a quantity of zero or less is exactly REMOVE_ITEM. */
  lemma UpdateNonPositiveIsRemove(state: CartState, id: string, q: int)
    requires q <= 0
    ensures Reduce(state, UpdateQuantity(id, q)) == Reduce(state, RemoveItem(id))
  {
  }

  /** UPDATE_QUANTITY with a positive quantity sets that line to exactly that value, and is a no-op
      for an absent id. */
  lemma UpdatePositive(state: CartState, id: string, q: int)
    requires q > 0 && UniqueIds(state.items)
    ensures var r := Reduce(state, UpdateQuantity(id, q));
            && (!HasLine(state.items, id) ==> r == state)
            && forall k :: 0 <= k < |state.items| && state.items[k].product.id == id ==>
                 r == state.(items := state.items[k := state.items[k].(quantity := q)])
  {
    if !HasLine(state.items, id) {
      assert SetLineQuantity(state.items, id, q) == state.items;
    }
  }

  // ---------------------------------------------------------------------------------------------
  // Invariants kept by every action

  /** Which actions touch the open flag, and how. */
  lemma OpenFlag(state: CartState, action: CartAction)
    ensures action.AddItem? || action.OpenCart? ==> Reduce(state, action).isOpen
    ensures action.CloseCart? ==> !Reduce(state, action).isOpen
    ensures action.RemoveItem? || action.UpdateQuantity? || action.ClearCart? ==>
              Reduce(state, action).isOpen == state.isOpen
    ensures action.OpenCart? || action.CloseCart? ==> Reduce(state, action).items == state.items
  {
  }

  lemma {:induction false} WithoutKeepsUnique(items: seq<CartItem>, id: string)
    requires UniqueIds(items)
    ensures UniqueIds(WithoutLine(items, id))
  {
    if items != [] {
      var tail := items[1..];
      assert UniqueIds(tail) by {
        forall i, j | 0 <= i < j < |tail| ensures tail[i].product.id != tail[j].product.id {
          assert tail[i] == items[i + 1] && tail[j] == items[j + 1];
        }
      }
      WithoutKeepsUnique(tail, id);
      var rest := WithoutLine(tail, id);
      forall it | it in rest ensures it.product.id != items[0].product.id {
        assert it in tail;
        var j :| 0 <= j < |tail| && tail[j] == it;
        assert items[j + 1] == it;
      }
    }
  }

  lemma {:induction false} WithoutKeepsPositive(items: seq<CartItem>, id: string)
    requires AllPositive(items)
    ensures AllPositive(WithoutLine(items, id))
  {
    var r := WithoutLine(items, id);
    forall k | 0 <= k < |r| ensures r[k].quantity >= 1 {
      assert r[k] in items;
    }
  }

  /** No action ever creates two lines for one product. */
  lemma ReduceKeepsUnique(state: CartState, action: CartAction)
    requires UniqueIds(state.items)
    ensures UniqueIds(Reduce(state, action).items)
  {
    match action
    case RemoveItem(id) => WithoutKeepsUnique(state.items, id);
    case UpdateQuantity(id, q) => if q <= 0 { WithoutKeepsUnique(state.items, id); }
    case _ =>
  }

  /** Every line keeps at least one unit, provided ADD_ITEM is never given a quantity below one. */
  lemma ReduceKeepsPositive(state: CartState, action: CartAction)
    requires AllPositive(state.items) && KeepsPositive(action)
    ensures AllPositive(Reduce(state, action).items)
  {
    match action
    case RemoveItem(id) => WithoutKeepsPositive(state.items, id);
    case UpdateQuantity(id, q) => if q <= 0 { WithoutKeepsPositive(state.items, id); }
    case _ =>
  }

  /** From the initial state, any sequence of such actions keeps ids unique and quantities positive,
      so `totalItems` is never below the number of lines. */
  lemma {:induction false} RunKeepsInvariant(state: CartState, actions: seq<CartAction>)
    requires UniqueIds(state.items) && AllPositive(state.items)
    requires forall k :: 0 <= k < |actions| ==> KeepsPositive(actions[k])
    ensures var r := Run(state, actions);
            UniqueIds(r.items) && AllPositive(r.items) && TotalItems(r.items) >= |r.items|
    decreases |actions|
  {
    if actions == [] {
      TotalAtLeastLines(state.items);
    } else {
      ReduceKeepsUnique(state, actions[0]);
      ReduceKeepsPositive(state, actions[0]);
      assert forall k :: 0 <= k < |actions[1..]| ==> actions[1..][k] == actions[k + 1];
      RunKeepsInvariant(Reduce(state, actions[0]), actions[1..]);
    }
  }

  // ---------------------------------------------------------------------------------------------
  // Totals

  lemma {:induction false} TotalAtLeastLines(items: seq<CartItem>)
    requires AllPositive(items)
    ensures TotalItems(items) >= |items|
  {
    if items != [] {
      assert AllPositive(items[1..]) by {
        forall k | 0 <= k < |items[1..]| ensures items[1..][k].quantity >= 1 {
          assert items[1..][k] == items[k + 1];
        }
      }
      TotalAtLeastLines(items[1..]);
    }
  }

  lemma {:induction false} TotalsAppend(a: seq<CartItem>, b: seq<CartItem>)
    ensures TotalItems(a + b) == TotalItems(a) + TotalItems(b)
    ensures Subtotal(a + b) == Subtotal(a) + Subtotal(b)
  {
    if a == [] {
      assert a + b == b;
    } else {
      assert (a + b)[1..] == a[1..] + b;
      TotalsAppend(a[1..], b);
    }
  }

  /** Replacing one line changes the totals by the difference of that line. */
  lemma TotalsUpdateAt(items: seq<CartItem>, k: nat, it: CartItem)
    requires k < |items|
    ensures TotalItems(items[k := it]) == TotalItems(items) - items[k].quantity + it.quantity
    ensures Subtotal(items[k := it]) ==
              Subtotal(items) - items[k].product.price * items[k].quantity + it.product.price * it.quantity
  {
    assert items == items[..k] + ([items[k]] + items[k + 1..]);
    assert items[k := it] == items[..k] + ([it] + items[k + 1..]);
    TotalsAppend(items[..k], [items[k]] + items[k + 1..]);
    TotalsAppend(items[..k], [it] + items[k + 1..]);
    TotalsAppend([items[k]], items[k + 1..]);
    TotalsAppend([it], items[k + 1..]);
  }

  /** ADD_ITEM for a product already in the cart (at line `k`) raises `totalItems` by the added
      quantity and `subtotal` by that line's price times it. */
  lemma AddExistingTotals(state: CartState, product: Product, quantity: Option<int>, k: nat)
    requires UniqueIds(state.items) && k < |state.items| && state.items[k].product.id == product.id
    ensures var r := Reduce(state, AddItem(product, quantity));
            && TotalItems(r.items) == TotalItems(state.items) + AddedQuantity(quantity)
            && Subtotal(r.items) == Subtotal(state.items) + state.items[k].product.price * AddedQuantity(quantity)
  {
    var q := AddedQuantity(quantity);
    var it := state.items[k];
    AddExisting(state, product, quantity, k);
    TotalsUpdateAt(state.items, k, it.(quantity := it.quantity + q));
    assert it.product.price * (it.quantity + q) == it.product.price * it.quantity + it.product.price * q;
  }

  /** ADD_ITEM for an absent product raises `totalItems` by the quantity and `subtotal` by the
      product's price times it. */
  lemma AddAbsentTotals(state: CartState, product: Product, quantity: Option<int>)
    requires !HasLine(state.items, product.id)
    ensures var r := Reduce(state, AddItem(product, quantity));
            && TotalItems(r.items) == TotalItems(state.items) + AddedQuantity(quantity)
            && Subtotal(r.items) == Subtotal(state.items) + product.price * AddedQuantity(quantity)
  {
    TotalsAppend(state.items, [CartItem(product, AddedQuantity(quantity))]);
  }

  /** CLEAR_CART empties both totals; OPEN_CART and CLOSE_CART change only the open flag. */
  lemma ClearAndToggle(state: CartState)
    ensures var r := Reduce(state, ClearCart);
            TotalItems(r.items) == 0 && Subtotal(r.items) == 0 && r.isOpen == state.isOpen
    ensures Reduce(state, OpenCart) == state.(isOpen := true)
    ensures Reduce(state, CloseCart) == state.(isOpen := false)
  {
  }

  lemma TotalsRemoveAt(b: seq<CartItem>, k: nat)
    requires k < |b|
    ensures TotalItems(b) == b[k].quantity + TotalItems(b[..k] + b[k + 1..])
    ensures Subtotal(b) == b[k].product.price * b[k].quantity + Subtotal(b[..k] + b[k + 1..])
  {
    var pre, x, post := b[..k], b[k], b[k + 1..];
    var mid := [x] + post;
    assert b == pre + mid;
    assert mid[0] == x && mid[1..] == post;
    TotalsAppend(pre, mid);
    TotalsAppend(pre, post);
  }

  lemma MultisetRemoveAt(b: seq<CartItem>, k: nat)
    requires k < |b|
    ensures multiset(b[..k] + b[k + 1..]) == multiset(b) - multiset{b[k]}
  {
    assert b == b[..k] + [b[k]] + b[k + 1..];
  }

  /** The totals do not depend on the order of the lines. */
  lemma {:induction false} TotalsPermutation(a: seq<CartItem>, b: seq<CartItem>)
    requires multiset(a) == multiset(b)
    ensures TotalItems(a) == TotalItems(b) && Subtotal(a) == Subtotal(b)
    decreases |a|
  {
    if a == [] {
      assert |b| == |multiset(b)| == 0;
    } else {
      assert a[0] in multiset(b);
      var k :| 0 <= k < |b| && b[k] == a[0];
      MultisetRemoveAt(b, k);
      assert a == [a[0]] + a[1..];
      assert multiset(a[1..]) == multiset(a) - multiset{a[0]};
      TotalsPermutation(a[1..], b[..k] + b[k + 1..]);
      TotalsRemoveAt(b, k);
    }
  }
}
