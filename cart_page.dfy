/** The cart page's arithmetic: line amounts, shipping, total and the free-shipping hint, in cents. */
module CartPage {
  import opened Wrappers
  import opened Catalog
  import opened Cart

  /** $50.00: the subtotal from which shipping is free. */
  const FreeShippingThreshold: int := 5000
  /** $7.99: the flat shipping charge below the threshold. */
  const ShippingFee: int := 799

  function Shipping(subtotal: int): int {
    if subtotal >= FreeShippingThreshold then 0 else ShippingFee
  }

  function Total(subtotal: int): int {
    subtotal + Shipping(subtotal)
  }

  /** "Add $X more for free shipping!", shown only while shipping is charged. */
  function FreeShippingHint(subtotal: int): Option<int> {
    if Shipping(subtotal) > 0 then Some(FreeShippingThreshold - subtotal) else None
  }

  /** `price * quantity` of every line, in display order. */
  function LineAmounts(items: seq<CartItem>): seq<int> {
    seq(|items|, k requires 0 <= k < |items| => items[k].product.price * items[k].quantity)
  }

  function Sum(s: seq<int>): int {
    if s == [] then 0 else s[0] + Sum(s[1..])
  }

  /** What the page shows: the empty view, or the line amounts and the order summary. */
  datatype CartView =
    | EmptyView
    | SummaryView(lineCount: nat, lineAmounts: seq<int>, subtotal: int, shipping: int, total: int, hint: Option<int>)

  /** The page for the cart's items, with `subtotal` as the cart context derives it. */
  function View(items: seq<CartItem>): CartView {
    if |items| == 0 then EmptyView
    else
      var subtotal := Subtotal(items);
      SummaryView(|items|, LineAmounts(items), subtotal, Shipping(subtotal), Total(subtotal), FreeShippingHint(subtotal))
  }

  /** Shipping is free exactly from $50.00 up and $7.99 below; $50.00 itself ships free. */
  lemma ShippingRule(subtotal: int)
    ensures Shipping(subtotal) == 0 <==> subtotal >= FreeShippingThreshold
    ensures Shipping(subtotal) != 0 ==> Shipping(subtotal) == ShippingFee
    ensures Shipping(5000) == 0 && Shipping(4999) == 799
  {
  }

  /** The total exceeds the subtotal by nothing or by $7.99. */
  lemma TotalOverSubtotal(subtotal: int)
    ensures Total(subtotal) - subtotal in {0, ShippingFee}
  {
  }

  /** The hint appears exactly when shipping is charged, and then asks for a positive amount
      that brings the subtotal to the threshold. */
  lemma HintWhenCharged(subtotal: int)
    ensures FreeShippingHint(subtotal).Some? <==> Shipping(subtotal) > 0
    ensures FreeShippingHint(subtotal).Some? ==>
              FreeShippingHint(subtotal).value > 0 &&
              subtotal + FreeShippingHint(subtotal).value == FreeShippingThreshold
  {
  }

  lemma {:induction false} LineAmountsSum(items: seq<CartItem>)
    ensures Sum(LineAmounts(items)) == Subtotal(items)
  {
    if items != [] {
      assert LineAmounts(items)[1..] == LineAmounts(items[1..]);
      LineAmountsSum(items[1..]);
    }
  }

  /** An empty cart shows the empty view and nothing else; otherwise the header counts lines (not
      units), each line shows price x quantity, the line amounts add up to the subtotal, and the
      total is subtotal plus shipping. */
  lemma ViewContents(items: seq<CartItem>)
    ensures View(items).EmptyView? <==> items == []
    ensures View(items).SummaryView? ==>
              var v := View(items);
              && v.lineCount == |items|
              && |v.lineAmounts| == |items|
              && (forall k :: 0 <= k < |items| ==> v.lineAmounts[k] == items[k].product.price * items[k].quantity)
              && Sum(v.lineAmounts) == v.subtotal == Subtotal(items)
              && v.total == v.subtotal + v.shipping
  {
    LineAmountsSum(items);
  }

  /** The worked example: three Classic Butters and one Herb Butter come to $37.96, which ships for
      $7.99, for a total of $45.95; the header says two items although four units are in the cart. */
  lemma WorkedExample()
    ensures var s := Run(InitialState, [AddItem(Products[0], Some(3)), AddItem(Products[2], Some(1))]);
            && s.items == [CartItem(Products[0], 3), CartItem(Products[2], 1)]
            && s.isOpen
            && View(s.items) == SummaryView(2, [2697, 1099], 3796, 799, 4595, Some(1204))
            && TotalItems(s.items) == 4
  {
    var s1 := Reduce(InitialState, AddItem(Products[0], Some(3)));
    assert s1.items == [CartItem(Products[0], 3)];
    assert !HasLine(s1.items, Products[2].id);
    var s2 := Reduce(s1, AddItem(Products[2], Some(1)));
    assert s2.items == [CartItem(Products[0], 3), CartItem(Products[2], 1)];
    var actions := [AddItem(Products[0], Some(3)), AddItem(Products[2], Some(1))];
    assert actions[1..] == [actions[1]] && [actions[1]][1..] == [];
    assert Run(InitialState, actions) == Run(s1, [actions[1]]) == Run(s2, []) == s2;
    assert LineAmounts(s2.items) == [2697, 1099];
    var tail := s2.items[1..];
    assert tail == [CartItem(Products[2], 1)] && tail[1..] == [];
    assert Subtotal(tail) == 1099 && TotalItems(tail) == 1;
    assert Subtotal(s2.items) == 3796;
    assert TotalItems(s2.items) == 4;
  }
}
