/**
 * The session store of lib/store/useStore.ts: the signed-in user, the
 * authenticated flag and the cart.  Every store action is a pure function
 * from the current state to the next one; the time stamp that `addToCart`
 * uses as a new line's id is a parameter.
 */
module Store {
  import opened Wrappers
  import opened Types

  datatype StoreState = StoreState(user: Option<User>, isAuthenticated: bool, cartItems: seq<CartItem>)

  /** The state before anything has been done: nobody signed in, empty cart. */
  const Initial := StoreState(None, false, [])

  // ---------------------------------------------------------------------------
  // Invariants

  /** At most one cart line per product id. */
  ghost predicate UniqueProducts(items: seq<CartItem>) {
    forall i, j :: 0 <= i < j < |items| ==> items[i].productId != items[j].productId
  }

  /** The authenticated flag says exactly whether a user is present. */
  ghost predicate AuthConsistent(s: StoreState) {
    s.isAuthenticated <==> s.user.Some?
  }

  ghost predicate Valid(s: StoreState) {
    AuthConsistent(s) && UniqueProducts(s.cartItems)
  }

  // ---------------------------------------------------------------------------
  // Queries on the cart

  /** Index of the first line for `productId` (the `find` of `addToCart`). */
  function FindLine(items: seq<CartItem>, productId: int): (r: Option<nat>)
    ensures r.Some? ==> r.value < |items| && items[r.value].productId == productId
    ensures r.Some? ==> forall j :: 0 <= j < r.value ==> items[j].productId != productId
    ensures r.None? <==> forall j :: 0 <= j < |items| ==> items[j].productId != productId
  {
    if |items| == 0 then None
    else if items[0].productId == productId then Some(0)
    else match FindLine(items[1..], productId)
      case None => None
      case Some(k) => Some(k + 1)
  }

  /** Price of the embedded product, 0 when the snapshot is missing. */
  function LinePrice(item: CartItem): real {
    if item.product.Some? then item.product.value.price else 0.0
  }

  /** What one line contributes to the total: price (or 0) times quantity. */
  function LineAmount(item: CartItem): real {
    LinePrice(item) * item.quantity as real
  }

  /** Reference sum of the line amounts. */
  ghost function SumLines(items: seq<CartItem>): real {
    if |items| == 0 then 0.0 else LineAmount(items[0]) + SumLines(items[1..])
  }

  /** The left fold that `getCartTotal` performs with `reduce`, starting from `acc`. */
  function FoldTotal(acc: real, items: seq<CartItem>): real
    decreases |items|
  {
    if |items| == 0 then acc else FoldTotal(acc + LineAmount(items[0]), items[1..])
  }

  // ---------------------------------------------------------------------------
  // Auth actions

  function SetUser(s: StoreState, user: Option<User>): (r: StoreState)
    ensures r.user == user
    ensures r.isAuthenticated <==> user.Some?
    ensures r.cartItems == s.cartItems
  {
    s.(user := user, isAuthenticated := user.Some?)
  }

  function Logout(s: StoreState): (r: StoreState)
    ensures r.user.None? && !r.isAuthenticated
    ensures r.cartItems == s.cartItems
  {
    s.(user := None, isAuthenticated := false)
  }

  function UpdateUserRole(s: StoreState, role: Role): (r: StoreState)
    ensures r.user.Some? <==> s.user.Some?
    ensures r.user.Some? ==>
      && r.user.value.role == role
      && r.user.value == s.user.value.(role := role)
    ensures r.isAuthenticated == s.isAuthenticated
    ensures r.cartItems == s.cartItems
  {
    match s.user
    case None => s.(user := None)
    case Some(u) => s.(user := Some(u.(role := role)))
  }

  // ---------------------------------------------------------------------------
  // Cart actions

  /** The owner recorded on a new line: the user's id, or 0 when nobody is signed in. */
  function OwnerId(user: Option<User>): int {
    match user
    case Some(u) => u.id
    case None => 0
  }

  /** Every line for `productId` gets quantity `newQuantity(old quantity)`; the others are kept. */
  function MapQuantity(items: seq<CartItem>, productId: int, newQuantity: int -> int): (r: seq<CartItem>)
    ensures |r| == |items|
    ensures forall i :: 0 <= i < |r| ==>
      r[i] == if items[i].productId == productId
              then items[i].(quantity := newQuantity(items[i].quantity))
              else items[i]
  {
    seq(|items|, i requires 0 <= i < |items| =>
      if items[i].productId == productId
      then items[i].(quantity := newQuantity(items[i].quantity))
      else items[i])
  }

  /**
   * Adds `quantity` of `product`.  If a line for the product exists its
   * quantity rises and its embedded snapshot is kept; otherwise a new line is
   * appended, its id being the clock reading `now`.
   */
  function AddToCart(s: StoreState, product: Product, quantity: int, now: int): (r: StoreState)
    ensures r.user == s.user && r.isAuthenticated == s.isAuthenticated
    ensures FindLine(s.cartItems, product.id).Some? ==>
      && |r.cartItems| == |s.cartItems|
      && forall i :: 0 <= i < |s.cartItems| ==>
           && r.cartItems[i].id == s.cartItems[i].id
           && r.cartItems[i].userId == s.cartItems[i].userId
           && r.cartItems[i].productId == s.cartItems[i].productId
           && r.cartItems[i].product == s.cartItems[i].product
           && r.cartItems[i].quantity ==
                s.cartItems[i].quantity + (if s.cartItems[i].productId == product.id then quantity else 0)
    ensures FindLine(s.cartItems, product.id).None? ==>
      r.cartItems == s.cartItems + [CartItem(now, OwnerId(s.user), product.id, quantity, Some(product))]
  {
    if FindLine(s.cartItems, product.id).Some? then
      s.(cartItems := MapQuantity(s.cartItems, product.id, q => q + quantity))
    else
      s.(cartItems := s.cartItems + [CartItem(now, OwnerId(s.user), product.id, quantity, Some(product))])
  }

  /** The lines whose product id differs from `productId`, in their original order. */
  function RemoveLines(items: seq<CartItem>, productId: int): (r: seq<CartItem>)
    ensures |r| <= |items|
  {
    if |items| == 0 then []
    else if items[0].productId == productId then RemoveLines(items[1..], productId)
    else [items[0]] + RemoveLines(items[1..], productId)
  }

  /** Removal keeps exactly the lines of other products. */
  lemma {:induction false} RemoveLinesMembers(items: seq<CartItem>, productId: int)
    ensures forall x :: x in RemoveLines(items, productId) ==> x in items && x.productId != productId
    ensures forall x :: x in items && x.productId != productId ==> x in RemoveLines(items, productId)
  {
    if |items| > 0 {
      RemoveLinesMembers(items[1..], productId);
      assert items == [items[0]] + items[1..];
    }
  }

  function RemoveFromCart(s: StoreState, productId: int): (r: StoreState)
    ensures r.user == s.user && r.isAuthenticated == s.isAuthenticated
    ensures forall i :: 0 <= i < |r.cartItems| ==> r.cartItems[i].productId != productId
    ensures FindLine(s.cartItems, productId).None? ==> r == s
  {
    RemoveAbsentIsIdentity(s.cartItems, productId);
    RemoveLinesMembers(s.cartItems, productId);
    s.(cartItems := RemoveLines(s.cartItems, productId))
  }

  /** Sets the quantity of the line for `productId` to exactly `quantity`; no clamping. */
  function UpdateCartQuantity(s: StoreState, productId: int, quantity: int): (r: StoreState)
    ensures r.user == s.user && r.isAuthenticated == s.isAuthenticated
    ensures |r.cartItems| == |s.cartItems|
    ensures forall i :: 0 <= i < |s.cartItems| ==>
      if s.cartItems[i].productId == productId
      then r.cartItems[i].quantity == quantity
           && r.cartItems[i] == s.cartItems[i].(quantity := r.cartItems[i].quantity)
      else r.cartItems[i] == s.cartItems[i]
    ensures FindLine(s.cartItems, productId).None? ==> r == s
  {
    var items := MapQuantity(s.cartItems, productId, _ => quantity);
    assert FindLine(s.cartItems, productId).None? ==> items == s.cartItems;
    s.(cartItems := items)
  }

  function ClearCart(s: StoreState): (r: StoreState)
    ensures r.cartItems == []
    ensures r.user == s.user && r.isAuthenticated == s.isAuthenticated
  {
    s.(cartItems := [])
  }

  /** `getCartTotal`: the `reduce` over the lines, starting from 0. */
  function GetCartTotal(s: StoreState): (r: real)
    ensures r == SumLines(s.cartItems)
  {
    FoldTotal0IsSum(s.cartItems);
    FoldTotal(0.0, s.cartItems)
  }

  // ---------------------------------------------------------------------------
  // Lemmas

  lemma {:induction false} RemoveAbsentIsIdentity(items: seq<CartItem>, productId: int)
    ensures FindLine(items, productId).None? ==> RemoveLines(items, productId) == items
  {
    if |items| > 0 && FindLine(items, productId).None? {
      assert FindLine(items[1..], productId).None?;
      RemoveAbsentIsIdentity(items[1..], productId);
      assert items == [items[0]] + items[1..];
    }
  }

  lemma {:induction false} FoldTotalIsSum(acc: real, items: seq<CartItem>)
    ensures FoldTotal(acc, items) == acc + SumLines(items)
    decreases |items|
  {
    if |items| > 0 {
      FoldTotalIsSum(acc + LineAmount(items[0]), items[1..]);
    }
  }

  lemma FoldTotal0IsSum(items: seq<CartItem>)
    ensures FoldTotal(0.0, items) == SumLines(items)
  {
    FoldTotalIsSum(0.0, items);
  }

  lemma {:induction false} SumLinesAppend(a: seq<CartItem>, b: seq<CartItem>)
    ensures SumLines(a + b) == SumLines(a) + SumLines(b)
  {
    if |a| == 0 {
      assert a + b == b;
    } else {
      assert (a + b)[1..] == a[1..] + b;
      SumLinesAppend(a[1..], b);
    }
  }

  /** Two carts that differ in line `k` only differ in total by that line's amounts. */
  lemma SumLinesChangeOne(a: seq<CartItem>, b: seq<CartItem>, k: nat)
    requires |a| == |b| && k < |a|
    requires forall i :: 0 <= i < |a| && i != k ==> b[i] == a[i]
    ensures SumLines(b) == SumLines(a) - LineAmount(a[k]) + LineAmount(b[k])
  {
    assert a[..k] == b[..k];
    assert a[k+1..] == b[k+1..];
    assert a == a[..k] + [a[k]] + a[k+1..];
    assert b == b[..k] + [b[k]] + b[k+1..];
    SumLinesAppend(a[..k] + [a[k]], a[k+1..]);
    SumLinesAppend(a[..k], [a[k]]);
    SumLinesAppend(b[..k] + [b[k]], b[k+1..]);
    SumLinesAppend(b[..k], [b[k]]);
  }

  /** With one line per product, the line `FindLine` returns is the only match. */
  lemma UniqueMatchIsFound(items: seq<CartItem>, productId: int, i: nat)
    requires UniqueProducts(items)
    requires FindLine(items, productId).Some?
    requires i < |items| && items[i].productId == productId
    ensures i == FindLine(items, productId).value
  {
  }

  // --- Uniqueness of product lines ------------------------------------------

  lemma AddToCartKeepsUnique(s: StoreState, product: Product, quantity: int, now: int)
    requires UniqueProducts(s.cartItems)
    ensures UniqueProducts(AddToCart(s, product, quantity, now).cartItems)
  {
  }

  lemma RemoveFromCartKeepsUnique(s: StoreState, productId: int)
    requires UniqueProducts(s.cartItems)
    ensures UniqueProducts(RemoveFromCart(s, productId).cartItems)
  {
    RemoveLinesKeepsUnique(s.cartItems, productId);
  }

  lemma UpdateCartQuantityKeepsUnique(s: StoreState, productId: int, quantity: int)
    requires UniqueProducts(s.cartItems)
    ensures UniqueProducts(UpdateCartQuantity(s, productId, quantity).cartItems)
  {
  }

  /** Removal never creates a second line for a product. */
  lemma {:induction false} RemoveLinesKeepsUnique(items: seq<CartItem>, productId: int)
    requires UniqueProducts(items)
    ensures UniqueProducts(RemoveLines(items, productId))
  {
    if |items| > 0 {
      var rest := items[1..];
      RemoveLinesKeepsUnique(rest, productId);
      RemoveLinesMembers(rest, productId);
      if items[0].productId != productId {
        var tail := RemoveLines(rest, productId);
        var r := [items[0]] + tail;
        assert RemoveLines(items, productId) == r;
        forall j | 0 < j < |r| ensures r[0].productId != r[j].productId {
          assert r[j] == tail[j-1];
          assert r[j] in rest;
          var m :| 0 <= m < |rest| && rest[m] == r[j];
          assert items[m+1] == r[j];
        }
      }
    }
  }

  /**
   * With one line per product, removing a present product deletes exactly
   * its line and keeps the others in order.
   */
  lemma {:induction false} RemoveLinesSplit(items: seq<CartItem>, productId: int)
    requires UniqueProducts(items)
    requires FindLine(items, productId).Some?
    ensures var k := FindLine(items, productId).value;
      RemoveLines(items, productId) == items[..k] + items[k+1..]
  {
    var rest := items[1..];
    var k := FindLine(items, productId).value;
    UniqueTail(items);
    if items[0].productId == productId {
      FirstMatchLeavesNoOther(items, productId);
      RemoveAbsentIsIdentity(rest, productId);
      assert items[k+1..] == rest;
    } else {
      var tail := RemoveLines(rest, productId);
      assert RemoveLines(items, productId) == [items[0]] + tail;
      RemoveLinesSplit(rest, productId);
      ConsSplit(items, k);
    }
  }

  lemma UniqueTail(items: seq<CartItem>)
    requires UniqueProducts(items) && |items| > 0
    ensures UniqueProducts(items[1..])
  {
    forall i, j | 0 <= i < j < |items| - 1 ensures items[1..][i].productId != items[1..][j].productId {
      assert items[1..][i] == items[i + 1] && items[1..][j] == items[j + 1];
    }
  }

  lemma FirstMatchLeavesNoOther(items: seq<CartItem>, productId: int)
    requires UniqueProducts(items) && |items| > 0 && items[0].productId == productId
    ensures FindLine(items[1..], productId).None?
  {
    forall j | 0 <= j < |items| - 1 ensures items[1..][j].productId != productId {
      assert items[1..][j] == items[j + 1];
    }
  }

  /** Deleting index `k > 0` of `items` is keeping its head and deleting `k - 1` of its tail. */
  lemma ConsSplit(items: seq<CartItem>, k: nat)
    requires 0 < k < |items|
    ensures [items[0]] + (items[1..][..k-1] + items[1..][k..]) == items[..k] + items[k+1..]
  {
    assert items[..k] == [items[0]] + items[1..][..k-1];
    assert items[k+1..] == items[1..][k..];
  }

  /** Removal is a filter: it distributes over concatenation, so order is kept. */
  lemma {:induction false} RemoveLinesAppend(a: seq<CartItem>, b: seq<CartItem>, productId: int)
    ensures RemoveLines(a + b, productId) == RemoveLines(a, productId) + RemoveLines(b, productId)
  {
    if |a| == 0 {
      assert a + b == b;
    } else {
      assert (a + b)[1..] == a[1..] + b;
      RemoveLinesAppend(a[1..], b, productId);
    }
  }

  // --- Two adds of the same product ------------------------------------------

  /** Adding `q1` then `q2` of one product is adding `q1 + q2` once: one line, never two. */
  lemma AddTwiceIsAddSum(s: StoreState, product: Product, q1: int, q2: int, t1: int, t2: int)
    ensures AddToCart(AddToCart(s, product, q1, t1), product, q2, t2) == AddToCart(s, product, q1 + q2, t1)
  {
    if FindLine(s.cartItems, product.id).None? {
      AddTwiceNewLine(s, product, q1, q2, t1, t2);
    } else {
      AddTwiceExistingLine(s, product, q1, q2, t1, t2);
    }
  }

  lemma AddTwiceNewLine(s: StoreState, product: Product, q1: int, q2: int, t1: int, t2: int)
    requires FindLine(s.cartItems, product.id).None?
    ensures AddToCart(AddToCart(s, product, q1, t1), product, q2, t2).cartItems
         == AddToCart(s, product, q1 + q2, t1).cartItems
  {
    var n := |s.cartItems|;
    var once := AddToCart(s, product, q1, t1).cartItems;
    assert FindLine(once, product.id).Some? by {
      assert once[n].productId == product.id;
    }
    var twice := AddToCart(AddToCart(s, product, q1, t1), product, q2, t2).cartItems;
    var merged := AddToCart(s, product, q1 + q2, t1).cartItems;
    forall i | 0 <= i < |twice| ensures twice[i] == merged[i] {
      if i < n {
        assert once[i] == s.cartItems[i];
      }
    }
  }

  lemma AddTwiceExistingLine(s: StoreState, product: Product, q1: int, q2: int, t1: int, t2: int)
    requires FindLine(s.cartItems, product.id).Some?
    ensures AddToCart(AddToCart(s, product, q1, t1), product, q2, t2).cartItems
         == AddToCart(s, product, q1 + q2, t1).cartItems
  {
    var k := FindLine(s.cartItems, product.id).value;
    var once := AddToCart(s, product, q1, t1).cartItems;
    assert FindLine(once, product.id).Some? by {
      assert once[k].productId == product.id;
    }
    var twice := AddToCart(AddToCart(s, product, q1, t1), product, q2, t2).cartItems;
    var merged := AddToCart(s, product, q1 + q2, t1).cartItems;
    forall i | 0 <= i < |twice| ensures twice[i] == merged[i] {
    }
  }

  // --- Totals -----------------------------------------------------------------

  lemma ClearCartTotalIsZero(s: StoreState)
    ensures GetCartTotal(ClearCart(s)) == 0.0
  {
  }

  /** A new line adds its price times quantity to the total. */
  lemma AddNewLineTotal(s: StoreState, product: Product, quantity: int, now: int)
    requires FindLine(s.cartItems, product.id).None?
    ensures GetCartTotal(AddToCart(s, product, quantity, now))
         == GetCartTotal(s) + product.price * quantity as real
  {
    var line := CartItem(now, OwnerId(s.user), product.id, quantity, Some(product));
    SumLinesAppend(s.cartItems, [line]);
  }

  /**
   * Adding to an existing line adds the EMBEDDED snapshot's price times the
   * quantity, whatever the price of the product passed in.
   */
  lemma AddExistingLineTotal(s: StoreState, product: Product, quantity: int, now: int)
    requires UniqueProducts(s.cartItems)
    requires FindLine(s.cartItems, product.id).Some?
    ensures var k := FindLine(s.cartItems, product.id).value;
      GetCartTotal(AddToCart(s, product, quantity, now))
      == GetCartTotal(s) + LinePrice(s.cartItems[k]) * quantity as real
  {
    var k := FindLine(s.cartItems, product.id).value;
    var r := AddToCart(s, product, quantity, now);
    AddExistingLineShape(s, product, quantity, now);
    RaiseOneLineTotal(s.cartItems, r.cartItems, k, quantity);
    assert GetCartTotal(r) == SumLines(r.cartItems);
    assert GetCartTotal(s) == SumLines(s.cartItems);
  }

  /** Adding to an existing line raises that line alone. */
  lemma AddExistingLineShape(s: StoreState, product: Product, quantity: int, now: int)
    requires UniqueProducts(s.cartItems)
    requires FindLine(s.cartItems, product.id).Some?
    ensures var k := FindLine(s.cartItems, product.id).value;
      var a := s.cartItems;
      var b := AddToCart(s, product, quantity, now).cartItems;
      && |a| == |b| && k < |a|
      && (forall i :: 0 <= i < |a| && i != k ==> b[i] == a[i])
      && b[k] == a[k].(quantity := a[k].quantity + quantity)
  {
    var k := FindLine(s.cartItems, product.id).value;
    var a := s.cartItems;
    var b := AddToCart(s, product, quantity, now).cartItems;
    forall i | 0 <= i < |a| && i != k ensures b[i] == a[i] {
      assert a[i].productId != a[k].productId;
    }
  }

  /** Raising the quantity of line `k` by `d`, all else equal, adds that line's price times `d`. */
  lemma RaiseOneLineTotal(a: seq<CartItem>, b: seq<CartItem>, k: nat, d: int)
    requires |a| == |b| && k < |a|
    requires forall i :: 0 <= i < |a| && i != k ==> b[i] == a[i]
    requires b[k] == a[k].(quantity := a[k].quantity + d)
    ensures SumLines(b) == SumLines(a) + LinePrice(a[k]) * d as real
  {
    SumLinesChangeOne(a, b, k);
    LineAmountRaise(a[k], d);
  }

  lemma LineAmountRaise(x: CartItem, d: int)
    ensures LineAmount(x.(quantity := x.quantity + d)) == LineAmount(x) + LinePrice(x) * d as real
  {
    AmountSplits(LinePrice(x), x.quantity, d);
  }

  lemma AmountSplits(p: real, q: int, d: int)
    ensures p * (q + d) as real == p * q as real + p * d as real
  {
  }

  lemma RemoveFromCartTotal(s: StoreState, productId: int)
    requires UniqueProducts(s.cartItems)
    ensures var r := GetCartTotal(RemoveFromCart(s, productId));
      match FindLine(s.cartItems, productId)
      case None => r == GetCartTotal(s)
      case Some(k) => r == GetCartTotal(s) - LineAmount(s.cartItems[k])
  {
    if FindLine(s.cartItems, productId).Some? {
      RemoveLinesSplit(s.cartItems, productId);
      var k := FindLine(s.cartItems, productId).value;
      var a := s.cartItems;
      assert a == a[..k] + [a[k]] + a[k+1..];
      SumLinesAppend(a[..k] + [a[k]], a[k+1..]);
      SumLinesAppend(a[..k], [a[k]]);
      SumLinesAppend(a[..k], a[k+1..]);
    }
  }

  lemma UpdateCartQuantityTotal(s: StoreState, productId: int, quantity: int)
    requires UniqueProducts(s.cartItems)
    ensures var r := GetCartTotal(UpdateCartQuantity(s, productId, quantity));
      match FindLine(s.cartItems, productId)
      case None => r == GetCartTotal(s)
      case Some(k) => r == GetCartTotal(s) - LineAmount(s.cartItems[k]) + LinePrice(s.cartItems[k]) * quantity as real
  {
    if FindLine(s.cartItems, productId).Some? {
      var k := FindLine(s.cartItems, productId).value;
      var a := s.cartItems;
      var b := UpdateCartQuantity(s, productId, quantity).cartItems;
      forall i | 0 <= i < |a| && i != k ensures b[i] == a[i] {
        assert a[i].productId != a[k].productId;
      }
      SumLinesChangeOne(a, b, k);
      assert LinePrice(b[k]) == LinePrice(a[k]);
    }
  }

  // --- The store as a state machine -------------------------------------------

  datatype StoreAction =
    | SetUserAction(user: Option<User>)
    | LogoutAction
    | UpdateUserRoleAction(role: Role)
    | AddToCartAction(product: Product, quantity: int, now: int)
    | RemoveFromCartAction(productId: int)
    | UpdateCartQuantityAction(productId: int, quantity: int)
    | ClearCartAction

  /** The actions on the session (who is signed in) rather than on the cart. */
  predicate IsUserAction(a: StoreAction) {
    a.SetUserAction? || a.LogoutAction? || a.UpdateUserRoleAction?
  }

  /** One store call: the session actions never touch the cart, the cart actions never touch the session. */
  function Apply(s: StoreState, a: StoreAction): (r: StoreState)
    ensures IsUserAction(a) ==> r.cartItems == s.cartItems
    ensures !IsUserAction(a) ==> r.user == s.user && r.isAuthenticated == s.isAuthenticated
  {
    match a
    case SetUserAction(u) => SetUser(s, u)
    case LogoutAction => Logout(s)
    case UpdateUserRoleAction(role) => UpdateUserRole(s, role)
    case AddToCartAction(p, q, now) => AddToCart(s, p, q, now)
    case RemoveFromCartAction(id) => RemoveFromCart(s, id)
    case UpdateCartQuantityAction(id, q) => UpdateCartQuantity(s, id, q)
    case ClearCartAction => ClearCart(s)
  }

  /** A sequence of store calls, first to last. */
  function Run(s: StoreState, actions: seq<StoreAction>): (r: StoreState)
    ensures (forall i :: 0 <= i < |actions| ==> IsUserAction(actions[i])) ==> r.cartItems == s.cartItems
    ensures (forall i :: 0 <= i < |actions| ==> !IsUserAction(actions[i])) ==>
      r.user == s.user && r.isAuthenticated == s.isAuthenticated
    decreases |actions|
  {
    if |actions| == 0 then s else Run(Apply(s, actions[0]), actions[1..])
  }

  lemma ApplyKeepsValid(s: StoreState, a: StoreAction)
    requires Valid(s)
    ensures Valid(Apply(s, a))
  {
    match a
    case RemoveFromCartAction(id) => RemoveFromCartKeepsUnique(s, id);
    case _ =>
  }

  /**
   * Whatever the actions, the flag matches the user and there is at most one
   * line per product, starting from any valid state (the initial one included).
   */
  lemma {:induction false} RunKeepsValid(s: StoreState, actions: seq<StoreAction>)
    requires Valid(s)
    ensures Valid(Run(s, actions))
    decreases |actions|
  {
    if |actions| > 0 {
      ApplyKeepsValid(s, actions[0]);
      RunKeepsValid(Apply(s, actions[0]), actions[1..]);
    }
  }

  lemma InitialIsValid()
    ensures Valid(Initial)
    ensures GetCartTotal(Initial) == 0.0
  {
  }

  lemma LogoutIsSetUserNone(s: StoreState)
    ensures Logout(s) == SetUser(s, None)
  {
  }
}
