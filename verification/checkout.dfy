/**
 * The checkout page of app/checkout/page.tsx: the form prefilled from the
 * signed-in user, the order summary with 15% tax, the order-placed
 * transition and the choice between the empty, confirmation and form views.
 * The two-second payment delay is left out: `CompleteOrder` is what its
 * callback does.
 */
module Checkout {
  import opened Wrappers
  import opened Types
  import Text
  import Store

  // ---------------------------------------------------------------------------
  // Prefill

  /** `parts[i] || ''`: the i-th part, or empty when there is none. */
  function PartOrEmpty(parts: seq<string>, i: nat): string {
    if i < |parts| then parts[i] else ""
  }

  /**
   * First and last name: the first two pieces of the full name split on
   * single spaces.  The first runs up to the first space; the last runs from
   * just after it up to the next space or the end, and is "" when there is no
   * space at all.
   */
  function SplitName(fullName: string): (r: (string, string))
    ensures r.0 <= fullName && ' ' !in r.0 && ' ' !in r.1
    ensures (|r.0| == |fullName| || fullName[|r.0|] == ' ')
    ensures |r.0| < |fullName| ==>
      && r.1 <= fullName[|r.0| + 1..]
      && (|r.0| + 1 + |r.1| == |fullName| || fullName[|r.0| + 1 + |r.1|] == ' ')
    ensures |r.0| == |fullName| ==> r.1 == ""
    ensures ' ' !in fullName ==> r == (fullName, "")
  {
    var parts := Text.Split(fullName, ' ');
    Text.SplitJoinsBack(fullName, ' ');
    Text.SplitHead(fullName, ' ');
    Text.SplitTail(fullName, ' ');
    var after := if |parts[0]| < |fullName| then fullName[|parts[0]| + 1..] else "";
    Text.SplitHead(after, ' ');
    assert ' ' !in fullName ==> parts == [fullName] by {
      if ' ' !in fullName { Text.SplitJoin([fullName], ' '); }
    }
    (parts[0], PartOrEmpty(parts, 1))
  }

  /** A name written as first, one space, last, with no other spaces, splits back into the two. */
  lemma SplitNameOfJoined(first: string, last: string)
    requires ' ' !in first && ' ' !in last
    ensures SplitName(first + " " + last) == (first, last)
  {
    assert Text.Join([first, last], ' ') == first + " " + last;
    Text.SplitJoin([first, last], ' ');
  }

  /** Space-free pieces joined by single spaces: the first two pieces are the first and last name. */
  lemma SplitNameOfPieces(pieces: seq<string>)
    requires |pieces| >= 2 && forall i :: 0 <= i < |pieces| ==> ' ' !in pieces[i]
    ensures SplitName(Text.Join(pieces, ' ')) == (pieces[0], pieces[1])
  {
    Text.SplitJoin(pieces, ' ');
  }

  datatype CheckoutForm = CheckoutForm(
    firstName: string,
    lastName: string,
    email: string,
    phone: string,
    address: string,
    city: string,
    postalCode: string,
    cardNumber: string,
    expiryDate: string,
    cvv: string)

  /** The form's first state: names and e-mail from the user when there is one, everything else blank. */
  function InitialForm(user: Option<User>): (r: CheckoutForm)
    ensures user.None? ==> r == CheckoutForm("", "", "", "", "", "", "", "", "", "")
    ensures user.Some? ==> r.email == user.value.email && (r.firstName, r.lastName) == SplitName(user.value.fullName)
    ensures r.phone == r.address == r.city == r.postalCode == r.cardNumber == r.expiryDate == r.cvv == ""
  {
    match user
    case None => CheckoutForm("", "", "", "", "", "", "", "", "", "")
    case Some(u) =>
      var (first, last) := SplitName(u.fullName);
      CheckoutForm(first, last, u.email, "", "", "", "", "", "", "")
  }

  // ---------------------------------------------------------------------------
  // Order summary

  const TaxRate: real := 0.15

  datatype OrderSummary = OrderSummary(lineAmounts: seq<real>, subtotal: real, tax: real, total: real)

  /** The per-line amounts, the subtotal `getCartTotal()`, the tax and the grand total the page shows. */
  function Summary(s: Store.StoreState): (r: OrderSummary)
    ensures |r.lineAmounts| == |s.cartItems|
    ensures forall i :: 0 <= i < |s.cartItems| ==>
      r.lineAmounts[i] == Store.LinePrice(s.cartItems[i]) * s.cartItems[i].quantity as real
    ensures r.subtotal == Store.SumLines(s.cartItems)
    ensures r.tax == TaxRate * r.subtotal
    ensures r.total == r.subtotal + r.tax
  {
    var subtotal := Store.GetCartTotal(s);
    OrderSummary(
      seq(|s.cartItems|, i requires 0 <= i < |s.cartItems| => Store.LineAmount(s.cartItems[i])),
      subtotal, subtotal * TaxRate, subtotal * 1.15)
  }

  /** Reference sum of a list of amounts. */
  ghost function Sum(xs: seq<real>): real {
    if |xs| == 0 then 0.0 else xs[0] + Sum(xs[1..])
  }

  /** The line amounts on screen add up to the subtotal on screen. */
  lemma LineAmountsAddUp(s: Store.StoreState)
    ensures Sum(Summary(s).lineAmounts) == Summary(s).subtotal
  {
    LineAmountsSum(s.cartItems, Summary(s).lineAmounts);
  }

  lemma {:induction false} LineAmountsSum(items: seq<CartItem>, amounts: seq<real>)
    requires |amounts| == |items|
    requires forall i :: 0 <= i < |items| ==> amounts[i] == Store.LineAmount(items[i])
    ensures Sum(amounts) == Store.SumLines(items)
  {
    if |items| > 0 {
      LineAmountsSum(items[1..], amounts[1..]);
    }
  }

  /** With no negative prices or quantities, tax and total are non-negative and the total is the largest. */
  lemma SummaryOrdered(s: Store.StoreState)
    requires forall i :: 0 <= i < |s.cartItems| ==>
      Store.LinePrice(s.cartItems[i]) >= 0.0 && s.cartItems[i].quantity >= 0
    ensures 0.0 <= Summary(s).tax && Summary(s).subtotal <= Summary(s).total
  {
    NonNegativeSum(s.cartItems);
  }

  lemma {:induction false} NonNegativeSum(items: seq<CartItem>)
    requires forall i :: 0 <= i < |items| ==> Store.LinePrice(items[i]) >= 0.0 && items[i].quantity >= 0
    ensures Store.SumLines(items) >= 0.0
  {
    if |items| > 0 {
      NonNegativeSum(items[1..]);
      var p, q := Store.LinePrice(items[0]), items[0].quantity as real;
      assert p * q >= 0.0;
    }
  }

  // ---------------------------------------------------------------------------
  // The page

  datatype CheckoutPage = CheckoutPage(form: CheckoutForm, isProcessing: bool, orderPlaced: bool)

  function OpenCheckout(s: Store.StoreState): (r: CheckoutPage)
    ensures !r.isProcessing && !r.orderPlaced
    ensures r.form.email == if s.user.Some? then s.user.value.email else ""
  {
    CheckoutPage(InitialForm(s.user), false, false)
  }

  /** `handleSubmit`: payment starts processing; nothing else changes yet. */
  function SubmitOrder(page: CheckoutPage): (r: CheckoutPage)
    ensures r.isProcessing && r.form == page.form && r.orderPlaced == page.orderPlaced
  {
    page.(isProcessing := true)
  }

  /** The payment callback: processing ends, the order is placed and the cart is emptied. */
  function CompleteOrder(page: CheckoutPage, s: Store.StoreState): (r: (CheckoutPage, Store.StoreState))
    ensures r.0.orderPlaced && !r.0.isProcessing && r.0.form == page.form
    ensures r.1.cartItems == [] && r.1.user == s.user && r.1.isAuthenticated == s.isAuthenticated
    ensures Store.GetCartTotal(r.1) == 0.0
  {
    (page.(isProcessing := false, orderPlaced := true), Store.ClearCart(s))
  }

  datatype CheckoutView = EmptyCheckoutView | OrderConfirmation(email: string) | CheckoutFormView(summary: OrderSummary)

  /** Which screen renders: empty cart (no order yet), the confirmation, or the form with its summary. */
  function ViewCheckout(page: CheckoutPage, s: Store.StoreState): (v: CheckoutView)
    ensures v.EmptyCheckoutView? <==> |s.cartItems| == 0 && !page.orderPlaced
    ensures v.OrderConfirmation? <==> page.orderPlaced
    ensures v.OrderConfirmation? ==> v.email == page.form.email
    ensures v.CheckoutFormView? ==> |s.cartItems| > 0 && v.summary == Summary(s)
  {
    if |s.cartItems| == 0 && !page.orderPlaced then EmptyCheckoutView
    else if page.orderPlaced then OrderConfirmation(page.form.email)
    else CheckoutFormView(Summary(s))
  }

  /** Once the order is placed the confirmation shows, even though the cart is now empty. */
  lemma PlacedOrderIsConfirmed(page: CheckoutPage, s: Store.StoreState)
    ensures var (p, t) := CompleteOrder(SubmitOrder(page), s);
      ViewCheckout(p, t) == OrderConfirmation(page.form.email)
  {
  }
}
