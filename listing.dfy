/**
 * `scrape_hbl_deals` of APIs/deals_scratch_citywise_v2.py,
 * deal_scratch_citywise.py and deals_scratch_api.py (the same code in all
 * three): expand the listing, zip the product titles with the discount
 * holders, and keep one record per product name, the first one met.
 */
module Listing {
  import opened Wrappers
  import opened Text
  import opened Dom
  import opened Expansion

  /**
   * The parsed listing page: the text of every product title and the text
   * fragments of every discount holder, in page order.
   */
  datatype ListingPage = ListingPage(products: seq<string>, discounts: seq<seq<string>>)

  /** One record `{'city', 'product', 'discount'}`. */
  datatype ProductDeal = ProductDeal(city: string, product: string, discount: string)

  /** A (product name, discount text) pair of the zip. */
  type Pair = (string, string)

  /** The shorter of two lengths: what `zip` walks. */
  function Min(a: nat, b: nat): nat {
    if a <= b then a else b
  }

  /**
   * `zip(product_elements, discount_elements)` with each product's text
   * stripped and each holder's fragments joined by a space and stripped.
   */
  function Pairs(page: ListingPage): (r: seq<Pair>)
    ensures |r| == Min(|page.products|, |page.discounts|)
    ensures forall k :: 0 <= k < |r| ==> r[k] == (Strip(page.products[k]), Strip(Join(" ", page.discounts[k])))
  {
    seq(Min(|page.products|, |page.discounts|), k requires 0 <= k < Min(|page.products|, |page.discounts|) =>
      (Strip(page.products[k]), Strip(Join(" ", page.discounts[k]))))
  }

  /** The product names of a list of records, in order. */
  function Products(ds: seq<ProductDeal>): (r: seq<string>)
    ensures |r| == |ds| && forall i :: 0 <= i < |ds| ==> r[i] == ds[i].product
  {
    seq(|ds|, i requires 0 <= i < |ds| => ds[i].product)
  }

  /** Whether some pair carries the product name `x`. */
  predicate Occurs(pairs: seq<Pair>, x: string) {
    exists k :: 0 <= k < |pairs| && pairs[k].0 == x
  }

  /** The position of the first pair with product name `x`. */
  function FirstIndex(pairs: seq<Pair>, x: string): (r: nat)
    requires Occurs(pairs, x)
    ensures r < |pairs| && pairs[r].0 == x
    ensures forall j :: 0 <= j < r ==> pairs[j].0 != x
  {
    if pairs[0].0 == x then 0
    else
      assert Occurs(pairs[1..], x) by {
        var k :| 0 <= k < |pairs| && pairs[k].0 == x;
        assert pairs[1..][k - 1] == pairs[k];
      }
      1 + FirstIndex(pairs[1..], x)
  }

  /** The dedup loop as a function: a pair whose name was kept already is dropped. */
  function FirstWins(city: string, pairs: seq<Pair>): (r: seq<ProductDeal>)
    ensures |r| <= |pairs|
  {
    if |pairs| == 0 then []
    else
      var acc := FirstWins(city, pairs[..|pairs| - 1]);
      var p := pairs[|pairs| - 1];
      if p.0 in Products(acc) then acc else acc + [ProductDeal(city, p.0, p.1)]
  }

  /** The kept names are distinct, and every record carries the city argument. */
  lemma {:induction false} FirstWinsUnique(city: string, pairs: seq<Pair>)
    ensures NoDup(Products(FirstWins(city, pairs)))
    ensures forall d :: d in FirstWins(city, pairs) ==> d.city == city
  {
    if |pairs| > 0 {
      var acc := FirstWins(city, pairs[..|pairs| - 1]);
      FirstWinsUnique(city, pairs[..|pairs| - 1]);
      var p := pairs[|pairs| - 1];
      if p.0 !in Products(acc) {
        var r := acc + [ProductDeal(city, p.0, p.1)];
        forall i, j | 0 <= i < j < |r| ensures Products(r)[i] != Products(r)[j] {
          if j == |acc| {
            assert Products(r)[i] == Products(acc)[i];
          } else {
            assert Products(r)[i] == Products(acc)[i] && Products(r)[j] == Products(acc)[j];
          }
        }
      }
    }
  }

  /** A name is kept exactly when some pair carries it: nothing is invented, nothing is lost. */
  lemma {:induction false} FirstWinsMembers(city: string, pairs: seq<Pair>)
    ensures forall x :: x in Products(FirstWins(city, pairs)) <==> Occurs(pairs, x)
  {
    if |pairs| > 0 {
      var init := pairs[..|pairs| - 1];
      var acc := FirstWins(city, init);
      FirstWinsMembers(city, init);
      var p := pairs[|pairs| - 1];
      var r := FirstWins(city, pairs);
      forall x ensures x in Products(r) <==> Occurs(pairs, x) {
        if x in Products(r) {
          if x in Products(acc) {
            var k :| 0 <= k < |init| && init[k].0 == x;
            assert pairs[k] == init[k];
          } else {
            assert x == p.0;
          }
        }
        if Occurs(pairs, x) {
          var k :| 0 <= k < |pairs| && pairs[k].0 == x;
          if k < |init| {
            assert init[k] == pairs[k];
            assert x in Products(acc);
            if p.0 !in Products(acc) {
              var i :| 0 <= i < |acc| && Products(acc)[i] == x;
              assert Products(r)[i] == x;
            }
          } else if p.0 !in Products(acc) {
            assert Products(r)[|acc|] == x;
          }
        }
      }
    }
  }

  /** A name's first pair is found at the same place after more pairs are added. */
  lemma FirstIndexPrefix(pairs: seq<Pair>, n: nat, x: string)
    requires n <= |pairs| && Occurs(pairs[..n], x)
    ensures Occurs(pairs, x) && FirstIndex(pairs, x) == FirstIndex(pairs[..n], x)
  {
    var i := FirstIndex(pairs[..n], x);
    assert pairs[i] == pairs[..n][i];
  }

  /** `d` is the pair at the first occurrence of its name. */
  predicate FromFirst(pairs: seq<Pair>, d: ProductDeal) {
    Occurs(pairs, d.product) && pairs[FirstIndex(pairs, d.product)] == (d.product, d.discount)
  }

  /** The name of `a` first occurs before the name of `b`. */
  predicate FirstBefore(pairs: seq<Pair>, a: ProductDeal, b: ProductDeal) {
    Occurs(pairs, a.product) && Occurs(pairs, b.product) && FirstIndex(pairs, a.product) < FirstIndex(pairs, b.product)
  }

  /** Adding pairs at the end keeps what is known about names that already occurred. */
  lemma FirstFactsPrefix(pairs: seq<Pair>, n: nat, a: ProductDeal, b: ProductDeal)
    requires n <= |pairs|
    ensures FromFirst(pairs[..n], a) ==> FromFirst(pairs, a)
    ensures FirstBefore(pairs[..n], a, b) ==> FirstBefore(pairs, a, b)
  {
    if Occurs(pairs[..n], a.product) {
      FirstIndexPrefix(pairs, n, a.product);
      assert pairs[FirstIndex(pairs[..n], a.product)] == pairs[..n][FirstIndex(pairs[..n], a.product)];
    }
    if Occurs(pairs[..n], b.product) {
      FirstIndexPrefix(pairs, n, b.product);
    }
  }

  /** What holds of records against a prefix of the pairs holds against all of them. */
  lemma FirstFactsLift(pairs: seq<Pair>, n: nat, acc: seq<ProductDeal>)
    requires n <= |pairs|
    requires forall i :: 0 <= i < |acc| ==> FromFirst(pairs[..n], acc[i])
    requires forall i, j :: 0 <= i < j < |acc| ==> FirstBefore(pairs[..n], acc[i], acc[j])
    ensures forall i :: 0 <= i < |acc| ==> FromFirst(pairs, acc[i])
    ensures forall i, j :: 0 <= i < j < |acc| ==> FirstBefore(pairs, acc[i], acc[j])
  {
    forall i, j | 0 <= i < |acc| && 0 <= j < |acc|
      ensures FromFirst(pairs, acc[i]) && (i < j ==> FirstBefore(pairs, acc[i], acc[j]))
    {
      FirstFactsPrefix(pairs, n, acc[i], acc[j]);
    }
  }

  /**
   * First occurrence wins: every record is the pair where its name first
   * occurs, and the records appear in the order of those first occurrences.
   */
  lemma {:induction false} FirstWinsFirst(city: string, pairs: seq<Pair>)
    ensures forall i :: 0 <= i < |FirstWins(city, pairs)| ==> FromFirst(pairs, FirstWins(city, pairs)[i])
    ensures forall i, j :: 0 <= i < j < |FirstWins(city, pairs)| ==>
              FirstBefore(pairs, FirstWins(city, pairs)[i], FirstWins(city, pairs)[j])
  {
    if |pairs| > 0 {
      var n := |pairs| - 1;
      var init := pairs[..n];
      var acc := FirstWins(city, init);
      var r := FirstWins(city, pairs);
      var p := pairs[n];
      FirstWinsFirst(city, init);
      FirstWinsMembers(city, init);
      FirstFactsLift(pairs, n, acc);
      if p.0 !in Products(acc) {
        assert !Occurs(init, p.0);
        var d := ProductDeal(city, p.0, p.1);
        assert r == acc + [d];
        assert FromFirst(pairs, d);
        forall i | 0 <= i < |acc| ensures FirstBefore(pairs, acc[i], d) {
          FirstFactsPrefix(pairs, n, acc[i], acc[i]);
        }
        assert forall i :: 0 <= i < |r| ==> r[i] == if i < |acc| then acc[i] else d;
      }
    }
  }

  /** The (product, discount) pairs of a list of records. */
  function PairsOf(ds: seq<ProductDeal>): (r: seq<Pair>)
    ensures |r| == |ds| && forall i :: 0 <= i < |ds| ==> r[i] == (ds[i].product, ds[i].discount)
  {
    seq(|ds|, i requires 0 <= i < |ds| => (ds[i].product, ds[i].discount))
  }

  /** Pairs whose names are already distinct are all kept, in order. */
  lemma {:induction false} FirstWinsDistinct(city: string, pairs: seq<Pair>)
    requires forall i, j :: 0 <= i < j < |pairs| ==> pairs[i].0 != pairs[j].0
    ensures FirstWins(city, pairs) == seq(|pairs|, i requires 0 <= i < |pairs| => ProductDeal(city, pairs[i].0, pairs[i].1))
  {
    if |pairs| > 0 {
      var n := |pairs| - 1;
      var init := pairs[..n];
      FirstWinsDistinct(city, init);
      var acc := FirstWins(city, init);
      assert pairs[n].0 !in Products(acc);
    }
  }

  /** Deduplicating the output again changes nothing. */
  lemma FirstWinsIdempotent(city: string, pairs: seq<Pair>)
    ensures FirstWins(city, PairsOf(FirstWins(city, pairs))) == FirstWins(city, pairs)
  {
    var r := FirstWins(city, pairs);
    FirstWinsUnique(city, pairs);
    var ps := PairsOf(r);
    forall i, j | 0 <= i < j < |ps| ensures ps[i].0 != ps[j].0 {
      assert Products(r)[i] != Products(r)[j];
    }
    FirstWinsDistinct(city, ps);
    forall i | 0 <= i < |r| ensures r[i] == ProductDeal(city, ps[i].0, ps[i].1) {
      assert r[i] in r;
    }
  }

  /** One step of the dedup loop on a prefix of the pairs. */
  lemma FirstWinsStep(city: string, pairs: seq<Pair>, i: nat)
    requires i < |pairs|
    ensures FirstWins(city, pairs[..i + 1]) ==
            if pairs[i].0 in Products(FirstWins(city, pairs[..i])) then FirstWins(city, pairs[..i])
            else FirstWins(city, pairs[..i]) + [ProductDeal(city, pairs[i].0, pairs[i].1)]
  {
    assert pairs[..i + 1][..i] == pairs[..i];
  }

  /** The names of a list with one more record. */
  lemma ProductsSnoc(ds: seq<ProductDeal>, d: ProductDeal)
    ensures Products(ds + [d]) == Products(ds) + [d.product]
  {
  }

  /** The names kept so far, as the loop's set. */
  function NameSet(ds: seq<ProductDeal>): set<string>
  {
    set i | 0 <= i < |ds| :: ds[i].product
  }

  /** A name is in the set exactly when some kept record carries it. */
  lemma NameSetMember(ds: seq<ProductDeal>, x: string)
    ensures x in NameSet(ds) <==> x in Products(ds)
  {
    if x in Products(ds) {
      var i :| 0 <= i < |ds| && Products(ds)[i] == x;
      assert ds[i].product in NameSet(ds);
    }
  }

  /** Keeping one more record adds its name to the set. */
  lemma NameSetSnoc(ds: seq<ProductDeal>, d: ProductDeal)
    ensures NameSet(ds + [d]) == NameSet(ds) + {d.product}
  {
    forall x ensures x in NameSet(ds + [d]) <==> x in NameSet(ds) + {d.product} {
      NameSetMember(ds + [d], x);
      NameSetMember(ds, x);
      ProductsSnoc(ds, d);
    }
  }

  /** The zip loop with its `collected_product_names` set. */
  method CollectDeals(page: ListingPage, city: string) returns (deals: seq<ProductDeal>)
    ensures deals == FirstWins(city, Pairs(page))
  {
    var pairs := Pairs(page);
    deals := [];
    var seen: set<string> := {};
    var i := 0;
    while i < |pairs|
      invariant 0 <= i <= |pairs|
      invariant deals == FirstWins(city, pairs[..i])
      invariant seen == NameSet(deals)
    {
      var name := Strip(page.products[i]);
      var discount := Strip(Join(" ", page.discounts[i]));
      assert pairs[i] == (name, discount);
      FirstWinsStep(city, pairs, i);
      NameSetMember(deals, name);
      if name !in seen {
        var d := ProductDeal(city, name, discount);
        NameSetSnoc(deals, d);
        deals := deals + [d];
        seen := seen + {name};
      }
      i := i + 1;
    }
    assert pairs[..i] == pairs;
  }

  /**
   * What the whole function returns: `None` when a "See More" click raises
   * or the page does not load; otherwise the deduplicated records, possibly
   * none.
   */
  function Scraped(triggers: seq<Trigger>, page: Option<ListingPage>, city: string): (r: Option<seq<ProductDeal>>)
    ensures r.None? <==> page.None? || Broken in triggers
    ensures r.Some? ==> r.value == FirstWins(city, Pairs(page.value))
  {
    if page.None? || Broken in triggers then None else Some(FirstWins(city, Pairs(page.value)))
  }

  /** `scrape_hbl_deals`: load, expand, parse and run the dedup loop. */
  method ScrapeHblDeals(triggers: seq<Trigger>, page: Option<ListingPage>, city: string) returns (deals: Option<seq<ProductDeal>>)
    ensures deals == Scraped(triggers, page, city)
  {
    if page.None? {
      return None;
    }
    var _, raised := ClickWhilePresent(triggers);
    if raised {
      return None;
    }
    var ds := CollectDeals(page.value, city);
    return Some(ds);
  }
}
