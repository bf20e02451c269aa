/**
 * `scrape_hbl_deals` of bs4_scrapper.py: fetch the listing with `requests`,
 * zip the product titles with the discount holders and keep one
 * `{'product', 'discount'}` record per pair, without deduplication.
 */
module ZipDeals {
  import opened Wrappers
  import opened Text
  import opened Http
  import opened Listing
  import opened Csv

  /** One record `{'product': …, 'discount': …}`. */
  datatype Deal = Deal(product: string, discount: string)

  /**
   * The result for a fetch: `None` when the request raises, the status is an
   * error, or the page has no product title or no discount holder; otherwise
   * one record per zipped pair, both texts stripped, the holder's fragments
   * joined by a space.
   */
  function Zipped(fetch: Fetch<ListingPage>): (r: Option<seq<Deal>>)
    ensures r.None? <==> (fetch.Unreachable? || ErrorStatus(fetch.status)
                          || |fetch.body.products| == 0 || |fetch.body.discounts| == 0)
    ensures r.Some? ==> |r.value| == Min(|fetch.body.products|, |fetch.body.discounts|)
    ensures r.Some? ==> forall k :: 0 <= k < |r.value| ==>
              r.value[k] == Deal(Strip(fetch.body.products[k]), Strip(Join(" ", fetch.body.discounts[k])))
  {
    if fetch.Unreachable? || ErrorStatus(fetch.status) then None
    else
      var page := fetch.body;
      if |page.products| == 0 || |page.discounts| == 0 then None
      else
        var ps := Pairs(page);
        Some(seq(|ps|, k requires 0 <= k < |ps| => Deal(ps[k].0, ps[k].1)))
  }

  /** The zip loop: one record appended per pair. */
  method ZipLoop(page: ListingPage) returns (deals: seq<Deal>)
    ensures |deals| == Min(|page.products|, |page.discounts|)
    ensures forall k :: 0 <= k < |deals| ==>
              deals[k] == Deal(Strip(page.products[k]), Strip(Join(" ", page.discounts[k])))
  {
    var n := Min(|page.products|, |page.discounts|);
    deals := [];
    for i := 0 to n
      invariant |deals| == i
      invariant forall k :: 0 <= k < i ==> deals[k] == Deal(Strip(page.products[k]), Strip(Join(" ", page.discounts[k])))
    {
      var name := Strip(page.products[i]);
      var discount := Strip(Join(" ", page.discounts[i]));
      deals := deals + [Deal(name, discount)];
    }
  }

  /** `scrape_hbl_deals(url)` on the fetch its request gets. */
  method ScrapeHblDeals(fetch: Fetch<ListingPage>) returns (deals: Option<seq<Deal>>)
    ensures deals == Zipped(fetch)
  {
    if fetch.Unreachable? || ErrorStatus(fetch.status) {
      return None;
    }
    var page := fetch.body;
    if |page.products| == 0 || |page.discounts| == 0 {
      return None;
    }
    var ds := ZipLoop(page);
    assert ds == Zipped(fetch).value;
    return Some(ds);
  }

  /**
   * With no name repeated, the deduplicating scraper and this one agree:
   * the same pairs in the same order, the former with the city added.
   */
  lemma ZipAgreesWithDedup(fetch: Fetch<ListingPage>, city: string)
    requires Zipped(fetch).Some?
    requires forall i, j :: 0 <= i < j < |Pairs(fetch.body)| ==> Pairs(fetch.body)[i].0 != Pairs(fetch.body)[j].0
    ensures |FirstWins(city, Pairs(fetch.body))| == |Zipped(fetch).value|
    ensures forall k :: 0 <= k < |Zipped(fetch).value| ==>
              FirstWins(city, Pairs(fetch.body))[k] == ProductDeal(city, Zipped(fetch).value[k].product, Zipped(fetch).value[k].discount)
  {
    FirstWinsDistinct(city, Pairs(fetch.body));
  }

  /** The dict of one record, keys in insertion order. */
  function RecordOf(d: Deal): (r: Record)
    ensures IsDict(r) && Keys(r) == ["product", "discount"] && Values(r) == [d.product, d.discount]
  {
    [("product", d.product), ("discount", d.discount)]
  }

  /** `save_to_csv` (header `deals[0].keys()`) writes `product,discount` and then every record's two fields. */
  lemma SaveRecords(ds: seq<Deal>)
    requires |ds| > 0
    ensures Save(FirstKeys, MapRecords(ds, RecordOf)).Written?
    ensures Save(FirstKeys, MapRecords(ds, RecordOf)).lines ==
            [["product", "discount"]] + seq(|ds|, i requires 0 <= i < |ds| => [ds[i].product, ds[i].discount])
  {
    var rs := MapRecords(ds, RecordOf);
    SaveSameKeys(FirstKeys, rs);
    var lines := Save(FirstKeys, rs).lines;
    forall i | 0 <= i < |ds| ensures lines[i + 1] == [ds[i].product, ds[i].discount] {
      RowOfOwnKeys(rs[i]);
    }
  }
}
