/**
 * The cart page of app/cart/page.tsx: the minus, plus and trash buttons of
 * each line as store transitions, and the order summary.  A button belongs
 * to a rendered line, so an action names the line by its position; a
 * position past the end (a button no longer on screen) does nothing.
 */
module CartPage {
  import opened Types
  import Store

  datatype CartPageAction = Decrement(line: nat) | Increment(line: nat) | Remove(line: nat)

  function Max(a: int, b: int): int {
    if a >= b then a else b
  }

  /** The quantity the minus button asks for: one less, but never below 1. */
  function Decremented(quantity: int): (r: int)
    ensures r >= 1
    ensures quantity > 1 ==> r == quantity - 1
    ensures quantity <= 1 ==> r == 1
  {
    Max(1, quantity - 1)
  }

  /** The clicks of the line buttons, each one a single store action on that line's product id. */
  function ApplyCartPage(s: Store.StoreState, a: CartPageAction): (r: Store.StoreState)
    ensures r.user == s.user && r.isAuthenticated == s.isAuthenticated
    ensures a.line >= |s.cartItems| ==> r == s
    ensures a.line < |s.cartItems| && !a.Remove? ==> |r.cartItems| == |s.cartItems|
    ensures |r.cartItems| <= |s.cartItems|
    ensures a.line < |s.cartItems| && a.Remove? ==>
      forall i :: 0 <= i < |r.cartItems| ==> r.cartItems[i].productId != s.cartItems[a.line].productId
  {
    if a.line >= |s.cartItems| then s
    else
      var item := s.cartItems[a.line];
      match a
      case Decrement(_) => Store.UpdateCartQuantity(s, item.productId, Decremented(item.quantity))
      case Increment(_) => Store.UpdateCartQuantity(s, item.productId, item.quantity + 1)
      case Remove(_) => Store.RemoveFromCart(s, item.productId)
  }

  /** With one line per product, a quantity button changes its own line's quantity and nothing else. */
  lemma QuantityButtonTouchesOneLine(s: Store.StoreState, a: CartPageAction)
    requires Store.UniqueProducts(s.cartItems) && a.line < |s.cartItems| && !a.Remove?
    ensures var q := s.cartItems[a.line].quantity;
      ApplyCartPage(s, a).cartItems ==
        s.cartItems[a.line := s.cartItems[a.line].(quantity := if a.Decrement? then Decremented(q) else q + 1)]
  {
    var r := ApplyCartPage(s, a);
    var q := s.cartItems[a.line].quantity;
    var want := s.cartItems[a.line := s.cartItems[a.line].(quantity := if a.Decrement? then Decremented(q) else q + 1)];
    assert forall i :: 0 <= i < |r.cartItems| ==> r.cartItems[i] == want[i];
  }

  /** With one line per product, the trash button drops exactly its line and keeps the others in order. */
  lemma RemoveButtonDropsOneLine(s: Store.StoreState, k: nat)
    requires Store.UniqueProducts(s.cartItems) && k < |s.cartItems|
    ensures ApplyCartPage(s, Remove(k)).cartItems == s.cartItems[..k] + s.cartItems[k + 1..]
  {
    Store.UniqueMatchIsFound(s.cartItems, s.cartItems[k].productId, k);
    Store.RemoveLinesSplit(s.cartItems, s.cartItems[k].productId);
  }

  /** Plus then minus on a line gives back the cart as it was. */
  lemma IncrementThenDecrement(s: Store.StoreState, k: nat)
    requires Store.UniqueProducts(s.cartItems) && k < |s.cartItems| && s.cartItems[k].quantity >= 1
    ensures ApplyCartPage(ApplyCartPage(s, Increment(k)), Decrement(k)) == s
  {
    var s1 := ApplyCartPage(s, Increment(k));
    QuantityButtonTouchesOneLine(s, Increment(k));
    Store.UpdateCartQuantityKeepsUnique(s, s.cartItems[k].productId, s.cartItems[k].quantity + 1);
    QuantityButtonTouchesOneLine(s1, Decrement(k));
    assert ApplyCartPage(s1, Decrement(k)).cartItems == s.cartItems;
  }

  /** Every line holds at least one unit. */
  ghost predicate PositiveQuantities(items: seq<CartItem>) {
    forall i :: 0 <= i < |items| ==> items[i].quantity >= 1
  }

  /** The buttons never take a quantity below 1 (the store itself would accept any quantity). */
  lemma ApplyCartPageKeepsPositive(s: Store.StoreState, a: CartPageAction)
    requires PositiveQuantities(s.cartItems)
    ensures PositiveQuantities(ApplyCartPage(s, a).cartItems)
  {
    if a.line < |s.cartItems| && a.Remove? {
      var r := ApplyCartPage(s, a);
      Store.RemoveLinesMembers(s.cartItems, s.cartItems[a.line].productId);
      forall i | 0 <= i < |r.cartItems|
        ensures r.cartItems[i].quantity >= 1
      {
        assert r.cartItems[i] in s.cartItems;
      }
    }
  }

  /** A sequence of clicks on the cart page: the session is never touched and the cart never grows. */
  function RunCartPage(s: Store.StoreState, actions: seq<CartPageAction>): (r: Store.StoreState)
    ensures r.user == s.user && r.isAuthenticated == s.isAuthenticated
    ensures |r.cartItems| <= |s.cartItems|
    decreases |actions|
  {
    if |actions| == 0 then s else RunCartPage(ApplyCartPage(s, actions[0]), actions[1..])
  }

  /** Any sequence of clicks keeps one line per product and every quantity at least 1. */
  lemma {:induction false} RunCartPageKeepsInvariant(s: Store.StoreState, actions: seq<CartPageAction>)
    requires Store.UniqueProducts(s.cartItems) && PositiveQuantities(s.cartItems)
    ensures var r := RunCartPage(s, actions);
      Store.UniqueProducts(r.cartItems) && PositiveQuantities(r.cartItems)
    decreases |actions|
  {
    if |actions| > 0 {
      var a := actions[0];
      ApplyCartPageKeepsPositive(s, a);
      if a.line < |s.cartItems| {
        var id := s.cartItems[a.line].productId;
        match a
        case Decrement(_) => Store.UpdateCartQuantityKeepsUnique(s, id, Decremented(s.cartItems[a.line].quantity));
        case Increment(_) => Store.UpdateCartQuantityKeepsUnique(s, id, s.cartItems[a.line].quantity + 1);
        case Remove(_) => Store.RemoveFromCartKeepsUnique(s, id);
      }
      RunCartPageKeepsInvariant(ApplyCartPage(s, a), actions[1..]);
    }
  }

  // ---------------------------------------------------------------------------
  // What the page shows

  /** The empty-cart message, or the lines with the summary's subtotal and total (shipping is free). */
  datatype CartView = EmptyCartView | CartSummary(lines: seq<CartItem>, subtotal: real, total: real)

  function ViewCart(s: Store.StoreState): (v: CartView)
    ensures v.EmptyCartView? <==> |s.cartItems| == 0
    ensures v.CartSummary? ==>
      v.lines == s.cartItems && v.subtotal == v.total == Store.SumLines(s.cartItems)
  {
    if |s.cartItems| == 0 then EmptyCartView
    else
      var total := Store.GetCartTotal(s);
      CartSummary(s.cartItems, total, total)
  }
}
