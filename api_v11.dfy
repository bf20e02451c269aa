/**
 * APIs/deals_scratch_api_v1.1.py: `each_deal_details` runs the same
 * expansion and in-place traversal as deal_scratch_citywise.py but returns
 * the dict (`None` on any exception), and the `/scrape_deals` route turns
 * that result into its JSON reply.
 */
module ApiV11 {
  import opened Wrappers
  import opened Dom
  import opened Expansion
  import opened Sink
  import opened Browsing
  import opened InPlace
  import opened Site
  import opened Http

  /** The dict the run returns, starting at listing query `q`; `None` when a click or the traversal raises. */
  function DetailsOf(triggers: seq<Trigger>, feed: nat -> seq<Card>, q: nat): (r: Option<Deals>)
    ensures r.None? <==> Broken in triggers || Result(feed, q + 1, |feed(q)|).None?
    ensures r.Some? ==> r == Result(feed, q + 1, |feed(q)|)
  {
    if Broken in triggers then None else Result(feed, q + 1, |feed(q)|)
  }

  /** `each_deal_details`: expand, count the cards, traverse in place, return the dict. */
  method EachDealDetails(b: Browser<Card>, triggers: seq<Trigger>) returns (deals: Option<Deals>)
    modifies b`queries, b`loads
    ensures deals == DetailsOf(triggers, b.feed, old(b.queries))
  {
    var _, raised := ClickWhilePresent(triggers);
    if raised {
      return None;
    }
    var blocks := b.Requery();
    deals := Traverse(b, |blocks|);
  }

  /**
   * The route's reply: status 500 with "Failed to retrieve deals" exactly
   * when the run returned `None`; any dict, an empty one included, is sent
   * back with the city.
   */
  function Reply(city: string, deals: Option<Deals>): (r: Response<(string, Deals)>)
    ensures Status(r) == 500 <==> deals.None?
    ensures deals.Some? ==> r == Success((city, deals.value))
  {
    match deals
    case None => Failure(500, "Failed to retrieve deals")
    case Some(d) => Success((city, d))
  }

  /**
   * `/scrape_deals`: read the city (default "karachi"), build its listing
   * URL, run the scraper and reply.
   */
  method ScrapeDeals(b: Browser<Card>, triggers: seq<Trigger>, arg: Option<string>) returns (url: string, reply: Response<(string, Deals)>)
    modifies b`queries, b`loads
    ensures CityOfUrl(url) == Some(CityArg(arg))
    ensures reply == Reply(CityArg(arg), DetailsOf(triggers, b.feed, old(b.queries)))
  {
    var city := CityArg(arg);
    url := ListingUrl(city);
    UrlRoundTrip(city);
    var deals := EachDealDetails(b, triggers);
    reply := Reply(city, deals);
  }
}
