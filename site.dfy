/**
 * The listing URL the entry points build from the `city` request argument
 * of APIs/deals_scratch_api_v1.1.py and deals_scratch_api.py.
 */
module Site {
  import opened Wrappers
  import opened Text

  /** The part before the city. */
  const Prefix: string := "https://hbl-web.peekaboo.guru/"

  /** The part after the city. */
  const Suffix: string := "/places/_all/all"

  /** `request.args.get('city', default="karachi", type=str)`: the argument, or "karachi" when absent. */
  function CityArg(arg: Option<string>): (r: string)
    ensures arg.Some? ==> r == arg.value
    ensures arg.None? ==> r == "karachi"
  {
    match arg
    case None => "karachi"
    case Some(c) => c
  }

  /** The deals listing of one city. */
  function ListingUrl(city: string): (r: string)
    ensures StartsWith(r, Prefix) && |r| == |Prefix| + |city| + |Suffix|
  {
    Prefix + city + Suffix
  }

  /** The city a listing URL names, or `None` for any other string. */
  function CityOfUrl(url: string): (r: Option<string>)
    ensures r.Some? ==> |url| == |Prefix| + |r.value| + |Suffix|
  {
    if |url| >= |Prefix| + |Suffix| && url[..|Prefix|] == Prefix && url[|url| - |Suffix|..] == Suffix
    then Some(url[|Prefix|..|url| - |Suffix|])
    else None
  }

  /** The city is recovered from its URL: distinct cities give distinct URLs. */
  lemma UrlRoundTrip(city: string)
    ensures CityOfUrl(ListingUrl(city)) == Some(city)
  {
    var url := ListingUrl(city);
    assert url[..|Prefix|] == Prefix;
    assert url[|url| - |Suffix|..] == Suffix;
    assert url[|Prefix|..|url| - |Suffix|] == city;
  }

  /** Every string `CityOfUrl` accepts is the URL of the city it yields. */
  lemma UrlOfCity(url: string)
    requires CityOfUrl(url).Some?
    ensures ListingUrl(CityOfUrl(url).value) == url
  {
    var city := CityOfUrl(url).value;
    assert url == url[..|Prefix|] + url[|Prefix|..|url| - |Suffix|] + url[|url| - |Suffix|..];
  }
}
