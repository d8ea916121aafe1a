# LocalConnectSA session store, chart helpers and page rules in Dafny

This project models the logic of the LocalConnectSA marketplace front end. It covers three parts:

- the session and cart store (`useStore`): the signed-in user, the authenticated flag and the cart lines, with `addToCart`, `removeFromCart`, `updateCartQuantity`, `clearCart` and `getCartTotal`;
- the chart helpers: the K/M number formatters, the period dates and the clamped random walk behind the demo series;
- the small decision rules inside the pages: the seller search, seller registration, sign-up and sign-in, the cart page buttons and summary, and the checkout prefill, totals and order placement.

Every store action is a pure function from one state to the next. A sequence of actions is folded over the state, and the invariants are proved for every sequence:

- one cart line per product;
- the authenticated flag set exactly when there is a user;
- through the pages' own calls, at least one unit per line.

The JavaScript number-to-text conversions the formatters rely on are modelled on exact decimals (`units × 10^-scale`):

- `Number.prototype.toFixed`, `Number::toString` and `Math.round` (sections 21.1.3.3 and 6.1.6.1.20 of ECMA-262);
- each is paired with a parser for decimal literals, so every formatter's output is stated as the number it reads back as.

Module layout:

| module | file | models |
|---|---|---|
| `Wrappers` | wrappers.dfy | `Option` |
| `Types` | types.dfy | `User`, `SellerProfile`, `Product`, `CartItem` (types/index.ts) |
| `Store` | store.dfy | lib/store/useStore.ts |
| `Text` | text.dfy | `toLowerCase`, `includes`, `split`, `trim` |
| `Digits` | digits.dfy | decimal digit strings and powers of ten |
| `JsNumber` | js_number.dfy | `toFixed`, `String(number)`, `Math.round` |
| `ChartUtils` | chart_utils.dfy | lib/chart-utils.ts |
| `ChartExamples` | chart_examples.dfy | the worked examples of lib/chart-utils.test.ts |
| `Sellers` | sellers.dfy | app/sellers/page.tsx |
| `BecomeSeller` | become_seller.dfy | app/become-seller/page.tsx |
| `Auth` | auth.dfy | app/auth/signup/page.tsx, app/auth/login/page.tsx |
| `CartPage` | cart_page.dfy | app/cart/page.tsx |
| `Checkout` | checkout.dfy | app/checkout/page.tsx |
| `Session` | session.dfy | the store driven by the pages and the product card |

## Model

| member | source | states |
|---|---|---|
| Store.FindLine | lib/store/useStore.ts:42-44 | The result is the index of the first line for the product. It is absent exactly when no line has that product id. |
| Store.SetUser | lib/store/useStore.ts:29 | The user becomes the given one. The flag is true exactly when a user is given. The cart is untouched. |
| Store.Logout | lib/store/useStore.ts:30 | Afterwards there is no user and the flag is false. The cart is untouched. |
| Store.LogoutIsSetUserNone | lib/store/useStore.ts:29-30 | Logging out is the same transition as setting no user. |
| Store.UpdateUserRole | lib/store/useStore.ts:31-36 | A present user keeps id, e-mail, name, avatar and creation time, and only the role changes. An absent user stays absent. The flag and the cart are untouched. |
| Store.MapQuantity | lib/store/useStore.ts:47-51 | The length is kept. Lines of the product get the new quantity and every other field of theirs. All other lines are identical. |
| Store.AddToCart | lib/store/useStore.ts:40-66 | Existing product: the line count is kept, and each line keeps its id, owner, product id and embedded snapshot. Only lines of that product gain `quantity`. New product: exactly one line is appended at the end, holding the clock id, the user's id (0 when signed out), the product id, the quantity and the snapshot. The user and the flag are untouched. |
| Store.AddTwiceIsAddSum | lib/store/useStore.ts:40-66 | Adding q1 then q2 of one product gives the same state as adding q1 + q2 once. Repeated adds never create a second line. |
| Store.RemoveLinesMembers | lib/store/useStore.ts:70-72 | A line is kept exactly when it was in the cart and belongs to another product. |
| Store.RemoveFromCart | lib/store/useStore.ts:67-74 | No line of the product remains. An absent product leaves the state unchanged. The user and the flag are untouched. |
| Store.RemoveAbsentIsIdentity | lib/store/useStore.ts:67-74 | Removing a product with no line returns the same lines. |
| Store.RaiseOneLineTotal | lib/store/useStore.ts:45-53 | Raising one line's quantity by d, all else equal, raises the total by that line's price × d. |
| Store.RemoveLinesSplit | lib/store/useStore.ts:67-74 | With one line per product, removing a present product deletes exactly its line and keeps the others in their order. |
| Store.RemoveLinesAppend | lib/store/useStore.ts:70-72 | Removal distributes over concatenation, so the relative order of the kept lines never changes. |
| Store.UpdateCartQuantity | lib/store/useStore.ts:75-82 | Matching lines take exactly the given quantity, with no clamping, and keep every other field. Other lines, the order and the length are unchanged. An absent product changes nothing. |
| Store.ClearCart | lib/store/useStore.ts:83 | The cart becomes empty and the user and the flag are untouched. |
| Store.GetCartTotal | lib/store/useStore.ts:84-91 | The `reduce` equals the reference sum over lines of (snapshot price, or 0 when missing) × quantity. |
| Store.FoldTotalIsSum | lib/store/useStore.ts:86-90 | A left fold from any start value equals that start value plus the reference sum. |
| Store.SumLinesAppend | lib/store/useStore.ts:84-91 | The total of two concatenated carts is the sum of their totals. |
| Store.SumLinesChangeOne | lib/store/useStore.ts:84-91 | Two carts that differ in one line differ in total by exactly that line's amounts. |
| Store.ClearCartTotalIsZero | lib/store/useStore.ts:83-91 | After `clearCart` the total is 0. |
| Store.AddNewLineTotal | lib/store/useStore.ts:54-65 | Adding a new product raises the total by its price × quantity. |
| Store.AddExistingLineTotal | lib/store/useStore.ts:45-53 | Adding to an existing line raises the total by the price of the snapshot already in the cart × quantity. The price of the product passed in plays no part. |
| Store.RemoveFromCartTotal | lib/store/useStore.ts:67-74 | Removal lowers the total by the removed line's amount, or by nothing when the product is absent. |
| Store.UpdateCartQuantityTotal | lib/store/useStore.ts:75-82 | A quantity change alters the total by the line's price × (new − old quantity). An absent product changes nothing. |
| Store.UniqueMatchIsFound | lib/store/useStore.ts:42-44 | With one line per product, any line of the product is the one `find` returns. |
| Store.AddToCartKeepsUnique | lib/store/useStore.ts:40-66 | `addToCart` keeps at most one line per product. |
| Store.RemoveFromCartKeepsUnique | lib/store/useStore.ts:67-74 | `removeFromCart` keeps at most one line per product. |
| Store.RemoveLinesKeepsUnique | lib/store/useStore.ts:70-72 | The filter never makes two lines share a product. |
| Store.UpdateCartQuantityKeepsUnique | lib/store/useStore.ts:75-82 | `updateCartQuantity` keeps at most one line per product. |
| Store.ApplyKeepsValid | lib/store/useStore.ts:24-92 | Every store action keeps the flag consistent with the user and keeps one line per product. |
| Store.RunKeepsValid | lib/store/useStore.ts:24-92 | From a valid state, any sequence of store actions ends in a valid state. |
| Store.InitialIsValid | lib/store/useStore.ts:27-39 | The initial state has no user, an unset flag and an empty cart. It is valid and totals 0. |
| Store.Apply | lib/store/useStore.ts:24-92 | One store call: `setUser`, `logout` and `updateUserRole` never touch the cart, and the cart actions never touch the user or the flag. Validity is kept (ApplyKeepsValid). |
| Store.Run | lib/store/useStore.ts:24-92 | A sequence of store calls: one made only of user calls keeps the cart, and one made only of cart calls keeps the user and the flag. Validity is kept (RunKeepsValid). |
| Text.ToLower | app/sellers/page.tsx:17-18 | The length is kept and each character is lower-cased in place. |
| Text.ToLowerSameUpToCase | app/sellers/page.tsx:17-18 | Two strings lower-case to the same string exactly when they differ only in letter case. |
| Text.UpperIsSameUpToCase | app/sellers/page.tsx:17-18 | Upper-casing changes nothing but letter case. |
| Text.Includes | app/sellers/page.tsx:17-18 | True exactly when the pattern occurs at some position of the string. |
| Text.EmptyIsIncluded | app/sellers/page.tsx:17-18 | The empty query occurs in every string. |
| Text.SplitJoinsBack | app/auth/login/page.tsx:29 | There is at least one part and no part contains the separator. Joining the parts with the separator gives back the input. |
| Text.SplitJoin | app/checkout/page.tsx:15-16 | Splitting a join of separator-free parts gives back those parts. |
| Text.SplitHead | app/auth/login/page.tsx:29 | The first part is a separator-free prefix. It is the whole string or is followed by the separator, and it is the whole string when the separator is absent. |
| Text.SplitTail | app/checkout/page.tsx:16 | When a separator follows the first part, the later parts are the split of the text after it; otherwise there is only one part. |
| Text.TrimStartDropsSpace | app/become-seller/page.tsx:40 | `trimStart` gives a suffix, everything it drops is white space, and the suffix starts with a non-space. |
| Text.TrimEndDropsSpace | app/become-seller/page.tsx:40 | `trimEnd` gives a prefix, everything it drops is white space, and the prefix ends with a non-space. |
| Text.TrimIsInfix | app/become-seller/page.tsx:40 | `trim` gives an infix with only white space around it. When non-empty it starts and ends with a non-space. |
| Text.TrimEmptyIffAllSpace | app/become-seller/page.tsx:40-68 | Trimming gives "" exactly when the value is all ECMAScript white space. |
| Digits.NatToDigits | lib/chart-utils.ts:30 | The digits are non-empty, with no leading zero, and their count matches the number's magnitude. |
| Digits.DigitsRoundTrip | lib/chart-utils.ts:30 | Reading back the digits of n gives n. |
| Digits.DigitsValueAppend | lib/chart-utils.ts:33 | The digits of a concatenation read as the left part × 10^(length of the right part) + the right part. |
| JsNumber.RoundDiv | lib/chart-utils.ts:36 | Rounding a non-negative quotient gives a non-negative integer. |
| JsNumber.MathRound | lib/chart-utils.ts:36 | `Math.round` on an exact decimal. What it computes is stated by MathRoundIsNearest: the nearest integer, ties going up. |
| JsNumber.RoundDivIsNearest | lib/chart-utils.ts:36 | The result is the integer nearest num/den, the larger one on a tie. |
| JsNumber.MathRoundIsNearest | lib/chart-utils.ts:36 | `Math.round` gives the nearest integer, ties going up. |
| JsNumber.ScaledRoundIsNearest | lib/chart-utils.ts:30 | The digits `toFixed(f)` prints are the magnitude × 10^f rounded half up. |
| JsNumber.PadStart | lib/chart-utils.ts:52 | Leading zeros widen the digits to the width without changing their value. |
| JsNumber.ToFixed | lib/chart-utils.ts:30 | `toFixed(f)` on an exact decimal. What its text means is stated by ToFixedParses, FixedOfNonNegative and OneDecimalParts. |
| JsNumber.ToFixedParses | lib/chart-utils.ts:30 | Below 10^21 in magnitude the text reads back as the sign times the half-up rounded value, with exactly f decimals. |
| JsNumber.FixedTextParses | lib/chart-utils.ts:52 | Fixed notation of n with f decimals reads back as n × 10^-f and starts with a digit. |
| JsNumber.FixedOfNonNegative | lib/chart-utils.ts:30 | Below 10^21, `toFixed` of a non-negative number is its fixed notation with no sign. |
| JsNumber.SignedParse | lib/chart-utils.ts:52 | A leading minus sign negates what the rest reads as. |
| JsNumber.StripZeros | lib/chart-utils.ts:47 | Dropping trailing zeros keeps the value: s × 10^e' equals u × 10^e. |
| JsNumber.ToString | lib/chart-utils.ts:47 | `String(value)` on an exact decimal. ToStringRoundTrip states that in the plain range it reads back as the value, and ToStringExponential that outside it the text has an exponent. |
| JsNumber.ToStringRoundTrip | lib/chart-utils.ts:47 | Between 10^-6 and 10^21 in magnitude, and at zero, `String(value)` reads back as exactly the value. |
| JsNumber.ToStringExponential | lib/chart-utils.ts:47 | Outside that range `String(value)` contains an exponent marker 'e'. |
| ChartUtils.ReplaceFirst | lib/chart-utils.ts:33 | The length is kept, and the text is unchanged when the pattern does not occur. |
| ChartUtils.ReplaceFirstAt | lib/chart-utils.ts:33 | Only the first occurrence is replaced, whatever follows it. |
| ChartUtils.FormatChartCurrency | lib/chart-utils.ts:28-37 | The three bands. From a million: CurrencyMillions. From 1000: CurrencyThousands. Below: CurrencyWhole. |
| ChartUtils.FormatChartValue | lib/chart-utils.ts:40-48 | The three bands. From a million: ValueMillions. From 1000: ValueThousands. Below: ValuePlain. |
| ChartUtils.FormatChartPercentage | lib/chart-utils.ts:51-53 | `toFixed(1)` and "%". What it writes is stated by PercentageParts. |
| ChartUtils.BelowFixedLimit | lib/chart-utils.ts:32-33 | A non-negative value below a million, scaled down by any power of ten, stays under the 10^21 limit of `toFixed`. |
| ChartUtils.OneDecimalParts | lib/chart-utils.ts:33 | `toFixed(1)` of a non-negative number is whole digits, '.', one digit, and these read back as the rounded tenths. |
| ChartUtils.CommaDecimalParts | lib/chart-utils.ts:33 | After the replacement the separator is a comma in the second-to-last place, with the same digits around it. |
| ChartUtils.CurrencyMillions | lib/chart-utils.ts:29-30 | From a million up the text is "R ", the millions rounded half up to a whole number, then "M". |
| ChartUtils.CurrencyThousands | lib/chart-utils.ts:32-34 | From 1000 below a million the text is "R ", the whole thousands, a comma, one decimal digit, then "K". Together they read as the thousands rounded half up to tenths. |
| ChartUtils.SmallRoundBounds | lib/chart-utils.ts:36 | Rounding a value in (-10^21, 1000) stays within (-10^21, 1000]. |
| ChartUtils.CurrencyWhole | lib/chart-utils.ts:36 | Below 1000 the text is "R " followed by a literal that reads back as exactly `Math.round(value)`. |
| ChartUtils.ValueMillions | lib/chart-utils.ts:41-43 | From a million up the text is the millions to one decimal, then "M". |
| ChartUtils.ValueThousands | lib/chart-utils.ts:44-46 | From 1000 below a million the text is the thousands to one decimal with a '.', then "K". |
| ChartUtils.ValuePlain | lib/chart-utils.ts:47 | Below 1000, in the plain range, the text reads back as exactly the value: nothing is rounded. |
| ChartUtils.PercentageParts | lib/chart-utils.ts:51-53 | The text is the value rounded half away from zero to exactly one decimal, then "%". |
| ChartUtils.GetChartPeriods | lib/chart-utils.ts:64-88 | There are exactly `count` dates (none when count ≤ 0), oldest first, and date k lies count−1−k periods before now. For days and weeks the last date is now, consecutive dates are 1 or 7 days apart, and the time of day is kept. |
| ChartUtils.DatePatternInjective | lib/chart-utils.ts:91-104 | Each period has its own label pattern. |
| ChartUtils.FormatChartDate | lib/chart-utils.ts:91-104 | The label is the date formatter applied to the period's pattern. The formatter is a parameter, and DatePatternInjective states that the patterns differ per period. |
| ChartUtils.VariationBound | lib/chart-utils.ts:124 | For any draw in [0, 1) the jitter is within ±10% of max − min. |
| ChartUtils.Clamp | lib/chart-utils.ts:125 | The result lies in [min, max] and equals x exactly when x is already there. Below min it is min, above max it is max. When min > max the result is max. |
| ChartUtils.RoundReal | lib/chart-utils.ts:129 | The result is the integer within half a unit of x, ties going up. |
| ChartUtils.RoundRealWhole | lib/chart-utils.ts:129 | A whole number rounds to itself. |
| ChartUtils.RoundRealMonotone | lib/chart-utils.ts:129 | Rounding keeps order. |
| ChartUtils.Walk | lib/chart-utils.ts:119-129 | There is one value per draw, and every value lies in [min, max] (equals max when min > max), whatever the draws. |
| ChartUtils.WalkRecurrence | lib/chart-utils.ts:122-126 | The first value is one step from the start. Each later value is the previous one × the trend factor plus the jitter, clamped. |
| ChartUtils.StableMidWalk | lib/chart-utils.ts:120-125 | With the stable factor and draws of exactly one half, the walk never moves. |
| ChartUtils.GenerateMockChartData | lib/chart-utils.ts:107-131 | There are `count` points (7 by default), point k labelled with the date count−1−k periods back (period 'day' by default). Values are the rounded walk from (min+max)/2 with defaults 0, 1000 and stable, and lie between round(min) and round(max). For whole-number bounds they lie in [min, max]. |
| ChartExamples.Currency1234 | lib/chart-utils.test.ts:14-15 | 1234 is written "R 1,2K". |
| ChartExamples.CurrencyMillion | lib/chart-utils.test.ts:18-19 | 1000000 is written "R 1M". |
| ChartExamples.Currency12345 | lib/chart-utils.test.ts:22-23 | 123.45 is written "R 123". |
| ChartExamples.Value1234 | lib/chart-utils.test.ts:29 | 1234 is written "1.2K". |
| ChartExamples.ValueMillion | lib/chart-utils.test.ts:30 | 1000000 is written "1.0M". |
| ChartExamples.Value123 | lib/chart-utils.test.ts:31 | 123 is written "123". |
| ChartExamples.Percentage12345 | lib/chart-utils.test.ts:37 | 12.345 is written "12.3%". |
| ChartExamples.Percentage100 | lib/chart-utils.test.ts:38 | 100 is written "100.0%". |
| ChartExamples.PercentageHalf | lib/chart-utils.test.ts:39 | 0.5 is written "0.5%". |
| Sellers.FilterSellers | app/sellers/page.tsx:14-23 | A seller is in the result exactly when it is in the directory and matches both the case-insensitive search of name or description and the category. |
| Sellers.FilterAppend | app/sellers/page.tsx:14-15 | Filtering distributes over concatenation, so the result is an order-preserving sublist. |
| Sellers.FilterIdempotent | app/sellers/page.tsx:14-22 | Filtering the result again changes nothing. |
| Sellers.ClearedFiltersKeepAll | app/sellers/page.tsx:104-107 | With the query cleared and no category, every seller is listed in order. |
| Sellers.SearchIgnoresCase | app/sellers/page.tsx:17-18 | Queries that differ only in letter case select the same sellers. |
| Sellers.CategoryNarrows | app/sellers/page.tsx:19-21 | Selecting a category keeps exactly the uncategorised matches of that category. |
| Sellers.ViewSellers | app/sellers/page.tsx:57-100 | The count shown is the length of the filtered list. The empty-state message shows exactly when no seller matches. |
| BecomeSeller.Set | app/become-seller/page.tsx:30-36 | The edited field reads the new value and every other field keeps its own. |
| BecomeSeller.SetUnchanged | app/become-seller/page.tsx:32-35 | Writing a field's own value back leaves the form as it was. |
| BecomeSeller.FirstBlank | app/become-seller/page.tsx:39-72 | The result is the position of the first blank field of the list, with all earlier ones filled. It is absent exactly when none is blank. |
| BecomeSeller.ValidateForm | app/become-seller/page.tsx:39-73 | The form passes exactly when all eight required fields are non-blank after trimming. Otherwise the error names the first blank field in the order name, e-mail, phone, address, city, account name, account number, bank code. |
| BecomeSeller.RequiredMessagesDistinct | app/become-seller/page.tsx:40-71 | No two required fields share an error message. |
| BecomeSeller.OptionalFieldsIgnored | app/become-seller/page.tsx:39-73 | Category, description and postal code never change the outcome. |
| BecomeSeller.WhiteSpaceIsMissing | app/become-seller/page.tsx:40-69 | A required field holding only white space fails validation. |
| BecomeSeller.FilledFormPasses | app/become-seller/page.tsx:39-72 | A form whose required fields each hold a non-space character passes. |
| BecomeSeller.HandleInputChange | app/become-seller/page.tsx:30-37 | Any edit clears the error and changes only the edited field. |
| BecomeSeller.HandleSubmit | app/become-seller/page.tsx:75-99 | An invalid form only shows its error and leaves the store as it was. A valid form marks success and makes a signed-in user a seller, changing nothing else. Without a user the store is untouched. |
| BecomeSeller.HandleSubmitKeepsValid | app/become-seller/page.tsx:88-91 | A submission keeps the store valid. |
| Auth.Commit | app/auth/signup/page.tsx:48 | A failed submission leaves the store alone. A sign-in sets the user, sets the flag and keeps the cart. |
| Auth.CommitKeepsValid | app/auth/login/page.tsx:33 | Signing in keeps the store valid. |
| Auth.MockId | app/auth/signup/page.tsx:42 | For a draw in [0, 1) the id is the floor of draw × 10000, a whole number in [0, 9999]. |
| Auth.Signup | app/auth/signup/page.tsx:28-59 | A password mismatch fails with "Passwords do not match". Otherwise an empty name, e-mail or password fails with "Please fill in all fields". Sign-up succeeds exactly when neither applies, and the user carries the e-mail, name and role verbatim with an id in [0, 9999]. |
| Auth.MismatchReportedFirst | app/auth/signup/page.tsx:34-38 | The mismatch message wins even when other fields are empty. |
| Auth.SignupAuthenticates | app/auth/signup/page.tsx:40-48 | A successful sign-up leaves the session authenticated as the new user with the cart unchanged. |
| Auth.DefaultRoleIsCustomer | app/auth/signup/page.tsx:13-19 | The form starts with the role select on 'customer', so filling in only the text fields signs up a customer. |
| Auth.LocalPart | app/auth/login/page.tsx:29 | The result is the longest '@'-free prefix of the e-mail, and the whole e-mail when it has no '@'. |
| Auth.Login | app/auth/login/page.tsx:18-44 | Sign-in fails, with "Please fill in all fields", exactly when the e-mail or password is empty. Otherwise the user is id 1, a customer, with the e-mail verbatim and the name `LocalPart(email)`, the text before the first '@'. |
| Auth.LoginIgnoresPassword | app/auth/login/page.tsx:25 | Any two non-empty passwords give the same outcome. |
| Auth.LoginName | app/auth/login/page.tsx:29 | The name of "local@domain" is "local", and an address without '@' is its own name. |
| CartPage.Decremented | app/cart/page.tsx:83-87 | The minus button asks for one less, but never less than 1. |
| CartPage.ApplyCartPage | app/cart/page.tsx:75-98 | The user is never touched. Quantity buttons keep the line count. The trash button leaves no line of that product. A button past the end does nothing. |
| CartPage.RunCartPage | app/cart/page.tsx:75-98 | Any click sequence keeps the user and the flag and never adds a line. Uniqueness and positive quantities are kept (RunCartPageKeepsInvariant). |
| CartPage.QuantityButtonTouchesOneLine | app/cart/page.tsx:83-98 | With one line per product, minus and plus change only their own line's quantity, to max(1, q−1) or q+1. |
| CartPage.RemoveButtonDropsOneLine | app/cart/page.tsx:75 | With one line per product, the trash button deletes exactly its line and keeps the others in order. |
| CartPage.IncrementThenDecrement | app/cart/page.tsx:83-98 | Plus then minus on a line with at least one unit restores the cart. |
| CartPage.ApplyCartPageKeepsPositive | app/cart/page.tsx:75-98 | No button takes a quantity below 1. |
| CartPage.RunCartPageKeepsInvariant | app/cart/page.tsx:75-98 | From a cart with one line per product and positive quantities, any click sequence keeps both. |
| CartPage.ViewCart | app/cart/page.tsx:11-128 | The empty view shows exactly when there are no lines. Otherwise subtotal and total are the same cart total. |
| Checkout.SplitName | app/checkout/page.tsx:15-16 | The first name is the space-free prefix up to the first space, or the whole name when there is none. The last name starts just after that space and runs, space-free, to the next space or the end (so "a  b" gives ""). With no space at all it is "". |
| Checkout.SplitNameOfJoined | app/checkout/page.tsx:15-16 | "first last" with no other spaces splits back into first and last. |
| Checkout.SplitNameOfPieces | app/checkout/page.tsx:15-16 | Two or more space-free pieces joined by single spaces give the first two pieces, so "Mary Jane Smith" gives "Mary" and "Jane". |
| Checkout.InitialForm | app/checkout/page.tsx:14-25 | Without a user every field is blank. With one, the names come from splitting the full name and the e-mail is the user's. All other fields are blank. |
| Checkout.Summary | app/checkout/page.tsx:239-267 | Each line shows (price or 0) × quantity, and the subtotal is the reference cart sum. The tax is 15% of it and the total is subtotal + tax. |
| Checkout.LineAmountsAddUp | app/checkout/page.tsx:247-255 | The line amounts shown add up to the subtotal shown. |
| Checkout.LineAmountsSum | app/checkout/page.tsx:247-255 | A list of line amounts sums to the reference cart total. |
| Checkout.SummaryOrdered | app/checkout/page.tsx:255-267 | With no negative prices or quantities, the tax is non-negative and the total is at least the subtotal. |
| Checkout.OpenCheckout | app/checkout/page.tsx:14-25 | The page opens neither processing nor placed, with the user's e-mail, or "" when signed out. |
| Checkout.SubmitOrder | app/checkout/page.tsx:35-37 | Submitting starts processing and changes nothing else. |
| Checkout.CompleteOrder | app/checkout/page.tsx:40-44 | After payment the order is placed, processing ends, and the cart is empty with total 0. User and flag are untouched. |
| Checkout.ViewCheckout | app/checkout/page.tsx:47-96 | The empty view shows exactly for an empty cart with no order placed, and the confirmation exactly once an order is placed, addressed to the form's e-mail. Otherwise the form shows with its summary. |
| Checkout.PlacedOrderIsConfirmed | app/checkout/page.tsx:40-94 | After placing an order the confirmation shows, although the cart is now empty. |
| Session.AddOneKeepsPositive | components/features/ProductCard.tsx:19 | Adding one unit from a product card keeps every quantity at least 1. |
| Session.StepKeepsHealthy | app/cart/page.tsx:75-98 | Every page action keeps the store valid and all quantities positive. |
| Session.PlayKeepsHealthy | lib/store/useStore.ts:40-83 | From the empty session, any sequence of card adds, cart buttons, orders, sign-ins, sign-outs and seller promotions keeps one line per product, the flag consistent and every quantity at least 1. |
| Session.InitialIsHealthy | lib/store/useStore.ts:27-39 | The empty session satisfies that invariant. |
| Session.Step | lib/store/useStore.ts:24-92 | One page-level call: placing an order empties the cart, the cart actions keep the user and the flag, and the sign-in, sign-out and seller calls keep the cart. |
| Session.Play | lib/store/useStore.ts:24-92 | A session with no cart action keeps the cart, and one with only cart actions keeps the user and the flag. From the empty session it stays healthy (PlayKeepsHealthy). |
| Session.OrderEmptiesCart | app/checkout/page.tsx:40-44 | Whatever came before, placing an order leaves an empty cart with total 0. |
| Session.PlayAppend | lib/store/useStore.ts:24-92 | Playing two action lists one after the other is playing their concatenation. |

## Left out

- Persistence. The zustand `persist` wrapper and `localStorage` are I/O. The code persists the whole store state under one key (lib/store/useStore.ts:94-96), not just the user and the cart, but neither is modelled.
- Clock and randomness. `Date.now()`, `new Date()` and `Math.random()` are parameters: a clock reading `now`, a date `now`, and a list of draws. The model never claims that line ids are unique.
- Navigation, the `auth_token` in `localStorage`, React state plumbing, the loading and processing flags' timing, and the two-second `setTimeout` delays. Each submission is modelled as the state after its delay.
- The `catch` branches of the sign-up, sign-in and seller-registration handlers. Nothing in their `try` bodies can throw in the model.
- `getChartGradient`, the colour palette, `chartThemeOptions` and `commonChartOptions`: canvas calls and configuration.
- `theme` and `toggleTheme`, which the navigation bar reads but the store does not define.
- The presentational pages and components, apart from the single `addToCart(product, 1)` call of the product card.
- The trend tests of lib/chart-utils.test.ts:78-92. They compare averages of random runs, which is not a per-run guarantee.
- ChartUtils.GetChartPeriods: month and year stepping (`setMonth`, `setFullYear`, with JavaScript's day overflow) is a `Calendar` parameter, so only day and week dates are stated exactly. The defaults of `getChartPeriods` itself are not modelled; those of `generateMockChartData` are.
- ChartUtils.FormatChartDate: the date-fns `format` is a parameter. Only the choice of pattern per period is modelled, so the label strings of lib/chart-utils.test.ts:55-58 are not proved.
- JsNumber.ToFixedParses: inputs are exact decimals, not IEEE doubles. Division by 1000 or 10^6 is exact, and the rounding is exact half-up (half away from zero for negatives), so the binary rounding of a double at a half-way point is not modelled.
- JsNumber.ToStringRoundTrip: only the plain-notation range (10^-6 to 10^21) is proved to round-trip. Outside it the model only shows that an exponent is written, not its digits.
- ChartUtils.CurrencyMillions: stated below 10^27, where `toFixed` still writes plain digits.
- ChartUtils.ValueMillions: stated below 10^27 for the same reason.
- ChartUtils.CurrencyWhole: stated above −10^21, where `String` of the rounded value is still plain.
- ChartUtils.ValuePlain: stated in the plain range of `String`. Above −1000 but below 10^-6 in magnitude, the text is exponential.
- ChartUtils.PercentageParts: stated below 10^21 in magnitude.
- Store.GetCartTotal: prices and totals are exact reals. The `reduce` adds IEEE doubles, so its total can differ from the exact sum in the last bits: prices 0.1, 0.2 and 0.3 give 0.6000000000000001, not 0.6. The same holds for FoldTotalIsSum, SumLinesAppend, AddNewLineTotal, AddExistingLineTotal, RemoveFromCartTotal and UpdateCartQuantityTotal.
- ChartUtils.Walk: the walk's `* 1.1`, `* 0.9` and `* 0.2` are exact real products, not the rounded products of doubles.
- Checkout.Summary: the amounts are exact reals. The `toFixed(2)` text of each amount is not modelled.
- CartPage.ViewCart: the amounts are exact reals. The `toFixed(2)` text of each amount is not modelled.
- Auth.Signup: the role is a `Role` value. The cast of the select's string to a role is not modelled.
- Text.ToLower: case mapping is ASCII only. The full Unicode mapping of `toLowerCase` is not modelled.
- Checkout form fields other than the prefilled ones are edited by a generic handler that sets one field, the same as seller registration. That handler is modelled only for the seller form.
