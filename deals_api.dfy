/**
 * deals_scratch_api.py: the `/api/scrape_deals` route runs the listing
 * scraper for the requested city, saves a non-empty result to CSV and
 * returns it; no result, or an empty one, is answered with status 500.
 */
module DealsApi {
  import opened Wrappers
  import opened Dom
  import opened Listing
  import opened Csv
  import opened Site
  import opened Http

  /** The dict `{'city': …, 'product': …, 'discount': …}` of one record, keys in that order. */
  function RecordOf(d: ProductDeal): (r: Record)
    ensures IsDict(r) && Keys(r) == ["city", "product", "discount"]
    ensures Values(r) == [d.city, d.product, d.discount]
  {
    [("city", d.city), ("product", d.product), ("discount", d.discount)]
  }

  /**
   * `save_to_csv` on the scraped records writes the header
   * `city,product,discount` and then each record's three fields, in order.
   */
  lemma SaveRecords(ds: seq<ProductDeal>)
    requires |ds| > 0
    ensures Save(CityFirst, MapRecords(ds, RecordOf)).Written?
    ensures Save(CityFirst, MapRecords(ds, RecordOf)).lines ==
            [["city", "product", "discount"]] + seq(|ds|, i requires 0 <= i < |ds| => [ds[i].city, ds[i].product, ds[i].discount])
  {
    var rs := MapRecords(ds, RecordOf);
    var header := ["city", "product", "discount"];
    CityFirstWhenCityLeads(rs[0]);
    assert HeaderOf(CityFirst, rs[0]) == header;
    SaveSameKeys(CityFirst, rs);
    var lines := Save(CityFirst, rs).lines;
    forall i | 0 <= i < |ds| ensures lines[i + 1] == [ds[i].city, ds[i].product, ds[i].discount] {
      RowOfOwnKeys(rs[i]);
    }
  }

  /** The route's reply: the list itself, or status 500 with "Failed to scrape deals" when it is `None` or empty. */
  function Reply(deals: Option<seq<ProductDeal>>): (r: Response<seq<ProductDeal>>)
    ensures Status(r) == 500 <==> deals.None? || |deals.value| == 0
    ensures Status(r) != 500 ==> r == Success(deals.value)
  {
    if deals.Some? && |deals.value| > 0 then Success(deals.value) else Failure(500, "Failed to scrape deals")
  }

  /** What the route saves: the records of a non-empty result, and nothing otherwise. */
  function SavedBy(deals: Option<seq<ProductDeal>>): (out: SaveOutcome)
    ensures out.NothingToSave? <==> deals.None? || |deals.value| == 0
  {
    if deals.Some? && |deals.value| > 0 then Save(CityFirst, MapRecords(deals.value, RecordOf)) else NothingToSave
  }

  /** A reply with data always comes with a CSV holding every record of it. */
  lemma RepliedIsSaved(deals: Option<seq<ProductDeal>>)
    requires Reply(deals).Success?
    ensures SavedBy(deals).Written? && |SavedBy(deals).lines| == 1 + |Reply(deals).payload|
  {
    SaveRecords(deals.value);
  }

  /**
   * `api_scrape_deals`: read the city (default "karachi"), build its listing
   * URL, scrape, save when there is something, and reply.
   */
  method ApiScrapeDeals(triggers: seq<Trigger>, page: Option<ListingPage>, arg: Option<string>)
    returns (url: string, saved: SaveOutcome, reply: Response<seq<ProductDeal>>)
    ensures CityOfUrl(url) == Some(CityArg(arg))
    ensures saved == SavedBy(Scraped(triggers, page, CityArg(arg)))
    ensures reply == Reply(Scraped(triggers, page, CityArg(arg)))
  {
    var city := CityArg(arg);
    url := ListingUrl(city);
    UrlRoundTrip(city);
    var deals := ScrapeHblDeals(triggers, page, city);
    if deals.Some? && |deals.value| > 0 {
      saved := Save(CityFirst, MapRecords(deals.value, RecordOf));
      reply := Success(deals.value);
    } else {
      saved := NothingToSave;
      reply := Failure(500, "Failed to scrape deals");
    }
  }
}
