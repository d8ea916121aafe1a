/**
 * A shopping session: the store driven only through the ways the pages use
 * it.  Product cards add one unit (components/features/ProductCard.tsx), the
 * cart page's buttons adjust lines, checkout empties the cart, the auth pages
 * sign in and out, and seller registration changes the role.  The store
 * alone accepts any quantity; through these callers every line keeps at
 * least one unit.
 */
module Session {
  import opened Wrappers
  import opened Types
  import Store
  import CartPage

  datatype ShopAction =
    | AddFromProductCard(product: Product, now: int)
    | CartButton(button: CartPage.CartPageAction)
    | PlaceOrder
    | SignIn(user: User)
    | SignOut
    | BecomeSeller

  /** The actions that change the cart: product cards, cart buttons and placing an order. */
  predicate TouchesCart(a: ShopAction) {
    a.AddFromProductCard? || a.CartButton? || a.PlaceOrder?
  }

  /** One page-level store call. */
  function Step(s: Store.StoreState, a: ShopAction): (r: Store.StoreState)
    ensures a.PlaceOrder? ==> r.cartItems == []
    ensures TouchesCart(a) ==> r.user == s.user && r.isAuthenticated == s.isAuthenticated
    ensures !TouchesCart(a) ==> r.cartItems == s.cartItems
  {
    match a
    case AddFromProductCard(p, now) => Store.AddToCart(s, p, 1, now)
    case CartButton(b) => CartPage.ApplyCartPage(s, b)
    case PlaceOrder => Store.ClearCart(s)
    case SignIn(u) => Store.SetUser(s, Some(u))
    case SignOut => Store.Logout(s)
    case BecomeSeller => Store.UpdateUserRole(s, Seller)
  }

  /** A session: the page-level calls one after the other. */
  function Play(s: Store.StoreState, actions: seq<ShopAction>): (r: Store.StoreState)
    ensures (forall i :: 0 <= i < |actions| ==> !TouchesCart(actions[i])) ==> r.cartItems == s.cartItems
    ensures (forall i :: 0 <= i < |actions| ==> TouchesCart(actions[i])) ==>
      r.user == s.user && r.isAuthenticated == s.isAuthenticated
    decreases |actions|
  {
    if |actions| == 0 then s else Play(Step(s, actions[0]), actions[1..])
  }

  /** What every reachable session satisfies. */
  ghost predicate Healthy(s: Store.StoreState) {
    Store.Valid(s) && CartPage.PositiveQuantities(s.cartItems)
  }

  /** Adding one unit keeps every quantity at least 1, whether the line is new or not. */
  lemma AddOneKeepsPositive(s: Store.StoreState, p: Product, now: int)
    requires CartPage.PositiveQuantities(s.cartItems)
    ensures CartPage.PositiveQuantities(Store.AddToCart(s, p, 1, now).cartItems)
  {
    var r := Store.AddToCart(s, p, 1, now);
    if Store.FindLine(s.cartItems, p.id).None? {
      assert forall i :: 0 <= i < |s.cartItems| ==> r.cartItems[i] == s.cartItems[i];
    }
  }

  lemma StepKeepsHealthy(s: Store.StoreState, a: ShopAction)
    requires Healthy(s)
    ensures Healthy(Step(s, a))
  {
    match a
    case AddFromProductCard(p, now) =>
      Store.AddToCartKeepsUnique(s, p, 1, now);
      AddOneKeepsPositive(s, p, now);
    case CartButton(b) =>
      CartPage.RunCartPageKeepsInvariant(s, [b]);
      assert CartPage.RunCartPage(s, [b]) == CartPage.ApplyCartPage(s, b);
    case _ =>
  }

  /**
   * From the empty session (or any healthy one), whatever the user does, the
   * flag matches the user, each product has one line, and every line holds
   * at least one unit.
   */
  lemma {:induction false} PlayKeepsHealthy(s: Store.StoreState, actions: seq<ShopAction>)
    requires Healthy(s)
    ensures Healthy(Play(s, actions))
    decreases |actions|
  {
    if |actions| > 0 {
      StepKeepsHealthy(s, actions[0]);
      PlayKeepsHealthy(Step(s, actions[0]), actions[1..]);
    }
  }

  lemma InitialIsHealthy()
    ensures Healthy(Store.Initial)
  {
  }

  /** Placing the order always leaves an empty cart with total 0, whatever came before. */
  lemma OrderEmptiesCart(s: Store.StoreState, actions: seq<ShopAction>)
    ensures var r := Play(s, actions + [PlaceOrder]);
      r.cartItems == [] && Store.GetCartTotal(r) == 0.0
  {
    PlayAppend(s, actions, [PlaceOrder]);
  }

  lemma {:induction false} PlayAppend(s: Store.StoreState, a: seq<ShopAction>, b: seq<ShopAction>)
    ensures Play(s, a + b) == Play(Play(s, a), b)
    decreases |a|
  {
    if |a| == 0 {
      assert a + b == b;
    } else {
      assert (a + b)[1..] == a[1..] + b;
      PlayAppend(Step(s, a[0]), a[1..], b);
    }
  }
}
