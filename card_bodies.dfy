/**
 * `scrape_hbl_deals` of deal_scrapping.py: fetch the page with `requests`,
 * find every `div.card-body` container, and map each to a record of six
 * fields, each the stripped text of its element or "N/A" when the
 * container has no such element.
 */
module CardBodies {
  import opened Wrappers
  import opened Text
  import opened Http
  import opened Csv

  /**
   * A container as the lookups see it: the text of each element searched
   * for (`h2.title`, `div.discount`, `span.category`, `div.validity`,
   * `p.description`, `div.location`), `None` when there is no such element.
   */
  datatype Container = Container(
    title: Option<string>, discount: Option<string>, category: Option<string>,
    validity: Option<string>, description: Option<string>, location: Option<string>)

  /** `el.text.strip() if el else "N/A"` (a found element is always truthy). */
  function Field(el: Option<string>): (f: string)
    ensures el.Some? ==> f == Strip(el.value)
    ensures el.None? ==> f == "N/A"
  {
    match el
    case None => "N/A"
    case Some(t) => Strip(t)
  }

  /** The field names, in the order the record dict is built. */
  const FieldNames: seq<string> := ["merchant_name", "discount", "category", "valid_until", "description", "location"]

  /** The record of one container. */
  function RecordOf(c: Container): (r: Record)
    ensures IsDict(r) && Keys(r) == FieldNames
    ensures Values(r) == [Field(c.title), Field(c.discount), Field(c.category),
                          Field(c.validity), Field(c.description), Field(c.location)]
  {
    [("merchant_name", Field(c.title)), ("discount", Field(c.discount)), ("category", Field(c.category)),
     ("valid_until", Field(c.validity)), ("description", Field(c.description)), ("location", Field(c.location))]
  }

  /**
   * The result for a fetch: `None` when the request raises, the status is
   * an error or no container is found; otherwise one record per container,
   * in container order.
   */
  function Mapped(fetch: Fetch<seq<Container>>): (r: Option<seq<Record>>)
    ensures r.None? <==> (fetch.Unreachable? || ErrorStatus(fetch.status) || |fetch.body| == 0)
    ensures r.Some? ==> |r.value| == |fetch.body| && forall i :: 0 <= i < |fetch.body| ==> r.value[i] == RecordOf(fetch.body[i])
  {
    if fetch.Unreachable? || ErrorStatus(fetch.status) || |fetch.body| == 0 then None
    else Some(seq(|fetch.body|, i requires 0 <= i < |fetch.body| => RecordOf(fetch.body[i])))
  }

  /** `scrape_hbl_deals(url)` on the fetch its request gets: one record appended per container. */
  method ScrapeHblDeals(fetch: Fetch<seq<Container>>) returns (deals: Option<seq<Record>>)
    ensures deals == Mapped(fetch)
  {
    if fetch.Unreachable? || ErrorStatus(fetch.status) {
      return None;
    }
    var containers := fetch.body;
    if |containers| == 0 {
      return None;
    }
    var ds: seq<Record> := [];
    for i := 0 to |containers|
      invariant |ds| == i
      invariant forall k :: 0 <= k < i ==> ds[k] == RecordOf(containers[k])
    {
      ds := ds + [RecordOf(containers[i])];
    }
    assert ds == Mapped(fetch).value;
    return Some(ds);
  }

  /** All records have the six keys, so `save_to_csv` (header `deals[0].keys()`) writes the header and every record's values. */
  lemma SaveMapped(fetch: Fetch<seq<Container>>)
    requires Mapped(fetch).Some?
    ensures Save(FirstKeys, Mapped(fetch).value).Written?
    ensures Save(FirstKeys, Mapped(fetch).value).lines[0] == FieldNames
    ensures |Save(FirstKeys, Mapped(fetch).value).lines| == 1 + |fetch.body|
    ensures forall i :: 0 <= i < |fetch.body| ==>
              Save(FirstKeys, Mapped(fetch).value).lines[i + 1] == Values(RecordOf(fetch.body[i]))
  {
    var rs := Mapped(fetch).value;
    SaveSameKeys(FirstKeys, rs);
    var lines := Save(FirstKeys, rs).lines;
    forall i | 0 <= i < |fetch.body| ensures lines[i + 1] == Values(RecordOf(fetch.body[i])) {
      RowOfOwnKeys(rs[i]);
    }
  }
}
