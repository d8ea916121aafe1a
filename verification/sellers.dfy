/**
 * The seller directory of app/sellers/page.tsx: a case-insensitive substring
 * search over the business name and description, combined with an optional
 * category filter.  The list keeps the order of the seller data.
 */
module Sellers {
  import opened Wrappers
  import opened Types
  import Text

  /** The search box: the lower-cased query occurs in the lower-cased name or description. */
  predicate MatchesSearch(seller: SellerProfile, query: string) {
    var q := Text.ToLower(query);
    Text.Includes(Text.ToLower(seller.businessName), q) || Text.Includes(Text.ToLower(seller.description), q)
  }

  /** The category chips: no selection (or an empty one) lets every seller through. */
  predicate MatchesCategory(seller: SellerProfile, selected: Option<string>) {
    selected.None? || selected.value == "" || seller.category == selected.value
  }

  predicate Keeps(seller: SellerProfile, query: string, selected: Option<string>) {
    MatchesSearch(seller, query) && MatchesCategory(seller, selected)
  }

  /** `filteredSellers`: the sellers that match both filters, in their original order. */
  function FilterSellers(sellers: seq<SellerProfile>, query: string, selected: Option<string>): (r: seq<SellerProfile>)
    ensures |r| <= |sellers|
    ensures forall x :: x in r <==> x in sellers && Keeps(x, query, selected)
  {
    if |sellers| == 0 then []
    else
      var rest := FilterSellers(sellers[1..], query, selected);
      assert sellers == [sellers[0]] + sellers[1..];
      if Keeps(sellers[0], query, selected) then [sellers[0]] + rest else rest
  }

  /** Filtering a concatenation filters each part: the filter never reorders sellers. */
  lemma {:induction false} FilterAppend(a: seq<SellerProfile>, b: seq<SellerProfile>, query: string, selected: Option<string>)
    ensures FilterSellers(a + b, query, selected) == FilterSellers(a, query, selected) + FilterSellers(b, query, selected)
  {
    if |a| > 0 {
      assert (a + b)[1..] == a[1..] + b;
      FilterAppend(a[1..], b, query, selected);
    } else {
      assert a + b == b;
    }
  }

  /** Filtering again with the same filters changes nothing. */
  lemma {:induction false} FilterIdempotent(sellers: seq<SellerProfile>, query: string, selected: Option<string>)
    ensures var r := FilterSellers(sellers, query, selected);
      FilterSellers(r, query, selected) == r
  {
    if |sellers| > 0 {
      FilterIdempotent(sellers[1..], query, selected);
      var rest := FilterSellers(sellers[1..], query, selected);
      if Keeps(sellers[0], query, selected) {
        assert ([sellers[0]] + rest)[1..] == rest;
      }
    }
  }

  /** With every filter cleared ("Clear Filters") the whole directory is listed. */
  lemma {:induction false} ClearedFiltersKeepAll(sellers: seq<SellerProfile>)
    ensures FilterSellers(sellers, "", None) == sellers
  {
    if |sellers| > 0 {
      Text.EmptyIsIncluded(Text.ToLower(sellers[0].businessName));
      ClearedFiltersKeepAll(sellers[1..]);
      assert sellers == [sellers[0]] + sellers[1..];
    }
  }

  /** Two queries that differ only in letter case select the same sellers. */
  lemma {:induction false} SearchIgnoresCase(sellers: seq<SellerProfile>, q1: string, q2: string, selected: Option<string>)
    requires Text.SameUpToCase(q1, q2)
    ensures FilterSellers(sellers, q1, selected) == FilterSellers(sellers, q2, selected)
  {
    Text.ToLowerSameUpToCase(q1, q2);
    if |sellers| > 0 {
      SearchIgnoresCase(sellers[1..], q1, q2, selected);
    }
  }

  /** Choosing a category narrows the uncategorised result to the sellers of that category. */
  lemma {:induction false} CategoryNarrows(sellers: seq<SellerProfile>, query: string, category: string)
    requires category != ""
    ensures forall x :: x in FilterSellers(sellers, query, Some(category)) <==>
      x in FilterSellers(sellers, query, None) && x.category == category
  {
  }

  /** What the page shows below the filters. */
  datatype SellersView = SellerGrid(count: nat, shown: seq<SellerProfile>) | NoSellersFound

  function ViewSellers(sellers: seq<SellerProfile>, query: string, selected: Option<string>): (v: SellersView)
    ensures v.SellerGrid? ==> v.count == |v.shown| > 0
    ensures v.NoSellersFound? <==> forall x :: x in sellers ==> !Keeps(x, query, selected)
    ensures v.SellerGrid? ==> v.shown == FilterSellers(sellers, query, selected)
  {
    var r := FilterSellers(sellers, query, selected);
    if |r| > 0 then
      assert r[0] in r;
      SellerGrid(|r|, r)
    else
      assert forall x :: x in sellers ==> !Keeps(x, query, selected);
      NoSellersFound
  }
}
