/**
 * `get_windows_proxy_settings` and `get_proxy_settings` of
 * deal_scrapping_with_proxy.py: where the proxy comes from (the
 * environment, then the Windows registry, then the operator's answers) and
 * how its string is formed. The environment, the registry and the answers
 * to the prompts are parameters.
 */
module ProxySettings {
  import opened Wrappers
  import opened Text

  /** Python truthiness of an optional string: present and non-empty. */
  predicate Truthy(s: Option<string>) {
    s.Some? && |s.value| > 0
  }

  /** The two environment variables, `None` when unset. */
  datatype Env = Env(upper: Option<string>, lower: Option<string>)   // HTTP_PROXY, http_proxy

  /**
   * The Internet Settings key as the registry calls see it: `Unreadable`
   * when opening it or reading `ProxyEnable` raises; otherwise the
   * `ProxyEnable` number and the `ProxyServer` value (`None`: reading it raises).
   */
  datatype Registry = Unreadable | Registry(proxyEnable: int, proxyServer: Option<string>)

  /** The operator's answers to the prompts, in the order they are asked. */
  datatype Answers = Answers(useProxy: string, host: string, port: string, useAuth: string, user: string, password: string)

  /** Both keys of `{'http': s, 'https': s}`. */
  datatype Proxies = Proxies(http: string, https: string)

  /** `answer.lower() == 'y'`. */
  predicate Yes(answer: string) {
    answer == "y" || answer == "Y"
  }

  /** `get_windows_proxy_settings()`: the server when the proxy is enabled, `None` when it is not or a read fails. */
  function WindowsProxy(reg: Registry): (r: Option<string>)
    ensures r.Some? <==> reg.Registry? && reg.proxyEnable != 0 && reg.proxyServer.Some?
    ensures r.Some? ==> r == reg.proxyServer
  {
    match reg
    case Unreadable => None
    case Registry(enable, server) => if enable != 0 then server else None
  }

  /** `os.environ.get('HTTP_PROXY') or os.environ.get('http_proxy')`: the first truthy value, else the second. */
  function EnvProxy(env: Env): (r: Option<string>)
    ensures Truthy(r) <==> Truthy(env.upper) || Truthy(env.lower)
    ensures Truthy(env.upper) ==> r == env.upper
    ensures !Truthy(env.upper) ==> r == env.lower
  {
    if Truthy(env.upper) then env.upper else env.lower
  }

  /** A registry value gets the scheme `http://` unless it starts with "http". */
  function Normalize(s: string): (r: string)
    ensures StartsWith(r, "http")
    ensures StartsWith(s, "http") ==> r == s
    ensures !StartsWith(s, "http") ==> r == "http://" + s
  {
    if StartsWith(s, "http") then s
    else
      assert ("http://" + s)[..4] == "http";
      "http://" + s
  }

  /** Normalizing twice is normalizing once. */
  lemma NormalizeIdempotent(s: string)
    ensures Normalize(Normalize(s)) == Normalize(s)
  {
  }

  /** The manually configured proxy string, or `None` when the operator declines. */
  function ManualProxy(a: Answers): (r: Option<string>)
    ensures r.None? <==> !Yes(a.useProxy)
    ensures r.Some? && Yes(a.useAuth) ==> r.value == "http://" + a.user + ":" + a.password + "@" + a.host + ":" + a.port
    ensures r.Some? && !Yes(a.useAuth) ==> r.value == "http://" + a.host + ":" + a.port
  {
    if !Yes(a.useProxy) then None
    else if Yes(a.useAuth) then Some("http://" + a.user + ":" + a.password + "@" + a.host + ":" + a.port)
    else Some("http://" + a.host + ":" + a.port)
  }

  /** `get_proxy_settings()`. */
  function GetProxySettings(env: Env, reg: Registry, a: Answers): (r: Option<Proxies>)
    ensures r.Some? ==> r.value.http == r.value.https
  {
    var e := EnvProxy(env);
    if Truthy(e) then Some(Proxies(e.value, e.value))
    else
      var w := WindowsProxy(reg);
      if Truthy(w) then Some(Proxies(Normalize(w.value), Normalize(w.value)))
      else
        match ManualProxy(a)
        case None => None
        case Some(s) => Some(Proxies(s, s))
  }

  /**
   * Precedence: a truthy `HTTP_PROXY`, then a truthy `http_proxy`, is used
   * as it is, whatever the registry and the answers say.
   */
  lemma EnvironmentWins(env: Env, reg: Registry, a: Answers)
    requires Truthy(env.upper) || Truthy(env.lower)
    ensures GetProxySettings(env, reg, a) ==
            if Truthy(env.upper) then Some(Proxies(env.upper.value, env.upper.value))
            else Some(Proxies(env.lower.value, env.lower.value))
  {
  }

  /** With no proxy in the environment, an enabled registry proxy is used, normalized; the prompts are not reached. */
  lemma RegistryNext(env: Env, reg: Registry, a: Answers)
    requires !Truthy(env.upper) && !Truthy(env.lower)
    requires reg.Registry? && reg.proxyEnable != 0 && Truthy(reg.proxyServer)
    ensures GetProxySettings(env, reg, a) == Some(Proxies(Normalize(reg.proxyServer.value), Normalize(reg.proxyServer.value)))
  {
  }

  /**
   * With neither source, the answers decide; there is no proxy exactly when
   * no source has one and the operator declines.
   */
  lemma ManualLast(env: Env, reg: Registry, a: Answers)
    ensures GetProxySettings(env, reg, a).None? <==>
            !Truthy(env.upper) && !Truthy(env.lower) && !Truthy(WindowsProxy(reg)) && !Yes(a.useProxy)
    ensures !Truthy(env.upper) && !Truthy(env.lower) && !Truthy(WindowsProxy(reg)) && Yes(a.useProxy) ==>
            GetProxySettings(env, reg, a) == Some(Proxies(ManualProxy(a).value, ManualProxy(a).value))
  {
  }

  /** A proxy string found is never empty, and one that does not come from the environment starts with "http". */
  lemma ProxyStringShape(env: Env, reg: Registry, a: Answers)
    requires GetProxySettings(env, reg, a).Some?
    ensures |GetProxySettings(env, reg, a).value.http| > 0
    ensures !Truthy(EnvProxy(env)) ==> StartsWith(GetProxySettings(env, reg, a).value.http, "http")
  {
    if !Truthy(EnvProxy(env)) && !Truthy(WindowsProxy(reg)) {
      var s := ManualProxy(a).value;
      assert s[..4] == "http";
    }
  }
}

/**
 * `scrape_hbl_deals` of deal_scrapping_with_proxy.py: fetch the page
 * through the proxied session, take the `card-body` containers or, when
 * there are none, the alternative containers, and map each to a record;
 * a container that raises while being mapped is skipped.
 */
module ProxyDeals {
  import opened Wrappers
  import opened Text
  import opened Http
  import opened Csv
  import CardBodies

  /**
   * The merchant heading of a container: no `h2`/`h3`/`h4` at all, some
   * heading but none of class `title` or `merchant` (reading its text then
   * raises), or the text of the first such heading.
   */
  datatype Heading = NoHeading | Untitled | Titled(text: string)

  /** A container: its heading and the texts of its discount and description elements (`None`: not found). */
  datatype ProxyContainer = ProxyContainer(heading: Heading, discount: Option<string>, description: Option<string>)

  /** The two container searches of the parsed page. */
  datatype ProxyPage = ProxyPage(cardBodies: seq<ProxyContainer>, alternatives: seq<ProxyContainer>)

  /** The field names of a record, in order. */
  const FieldNames: seq<string> := ["merchant_name", "discount", "description"]

  /** The record of a container, or `None` when building it raises. */
  function RecordOf(c: ProxyContainer): (r: Option<Record>)
    ensures r.None? <==> c.heading.Untitled?
    ensures r.Some? ==> IsDict(r.value) && Keys(r.value) == FieldNames
    ensures r.Some? ==>
              Values(r.value) == [if c.heading.Titled? then Strip(c.heading.text) else "N/A", CardBodies.Field(c.discount), CardBodies.Field(c.description)]
  {
    match c.heading
    case Untitled => None
    case NoHeading => Some([("merchant_name", "N/A"), ("discount", CardBodies.Field(c.discount)), ("description", CardBodies.Field(c.description))])
    case Titled(t) => Some([("merchant_name", Strip(t)), ("discount", CardBodies.Field(c.discount)), ("description", CardBodies.Field(c.description))])
  }

  /** The records of the containers that do not raise, in container order. */
  function Kept(cs: seq<ProxyContainer>): (r: seq<Record>)
    ensures |r| <= |cs|
  {
    if |cs| == 0 then []
    else
      var init := Kept(cs[..|cs| - 1]);
      match RecordOf(cs[|cs| - 1])
      case None => init
      case Some(rec) => init + [rec]
  }

  /** Skipping is per container: the records of two runs of containers are the two runs' records. */
  lemma {:induction false} KeptConcat(a: seq<ProxyContainer>, b: seq<ProxyContainer>)
    ensures Kept(a + b) == Kept(a) + Kept(b)
  {
    if |b| == 0 {
      assert a + b == a;
    } else {
      var n := |b| - 1;
      assert (a + b)[..|a + b| - 1] == a + b[..n];
      KeptConcat(a, b[..n]);
    }
  }

  /** One container contributes its record, or nothing when it raises. */
  lemma KeptOne(c: ProxyContainer)
    ensures Kept([c]) == match RecordOf(c) case None => [] case Some(rec) => [rec]
  {
    assert [c][..0] == [];
  }

  /** Every kept record has the three keys; with no untitled heading, every container gives one. */
  lemma {:induction false} KeptShape(cs: seq<ProxyContainer>)
    ensures forall k :: 0 <= k < |Kept(cs)| ==> IsDict(Kept(cs)[k]) && Keys(Kept(cs)[k]) == FieldNames
    ensures (forall i :: 0 <= i < |cs| ==> !cs[i].heading.Untitled?) ==> |Kept(cs)| == |cs|
  {
    if |cs| > 0 {
      KeptShape(cs[..|cs| - 1]);
    }
  }

  /** The containers used: the `card-body` ones, or the alternatives only when there are none. */
  function Containers(page: ProxyPage): seq<ProxyContainer> {
    if |page.cardBodies| > 0 then page.cardBodies else page.alternatives
  }

  /**
   * The result for a fetch: `None` when the request raises, the status is
   * not 200, or neither search finds a container; otherwise the records of
   * the containers used, possibly none.
   */
  function Scraped(fetch: Fetch<ProxyPage>): (r: Option<seq<Record>>)
    ensures r.None? <==> (fetch.Unreachable? || fetch.status != 200
                          || (|fetch.body.cardBodies| == 0 && |fetch.body.alternatives| == 0))
    ensures r.Some? && |fetch.body.cardBodies| > 0 ==> r.value == Kept(fetch.body.cardBodies)
    ensures r.Some? && |fetch.body.cardBodies| == 0 ==> r.value == Kept(fetch.body.alternatives)
  {
    if fetch.Unreachable? || fetch.status != 200 then None
    else
      var cs := Containers(fetch.body);
      if |cs| == 0 then None else Some(Kept(cs))
  }

  /** `scrape_hbl_deals(url, session)` on the fetch the session gets: the per-container `try` loop. */
  method ScrapeHblDeals(fetch: Fetch<ProxyPage>) returns (deals: Option<seq<Record>>)
    ensures deals == Scraped(fetch)
  {
    if fetch.Unreachable? || fetch.status != 200 {
      return None;
    }
    var cs := fetch.body.cardBodies;
    if |cs| == 0 {
      cs := fetch.body.alternatives;
    }
    if |cs| == 0 {
      return None;
    }
    var ds: seq<Record> := [];
    for i := 0 to |cs|
      invariant ds == Kept(cs[..i])
    {
      assert cs[..i + 1][..i] == cs[..i];
      var rec := RecordOf(cs[i]);
      if rec.Some? {
        ds := ds + [rec.value];
      }
    }
    assert cs[..|cs|] == cs;
    return Some(ds);
  }

  /** `save_to_csv` (header `deals[0].keys()`) writes the three-key header and then every kept record's values. */
  lemma SaveScraped(ds: seq<Record>, cs: seq<ProxyContainer>)
    requires ds == Kept(cs) && |ds| > 0
    ensures Save(FirstKeys, ds).Written?
    ensures Save(FirstKeys, ds).lines[0] == FieldNames
    ensures |Save(FirstKeys, ds).lines| == 1 + |ds|
    ensures forall i :: 0 <= i < |ds| ==> Save(FirstKeys, ds).lines[i + 1] == Values(ds[i])
  {
    KeptShape(cs);
    SaveSameKeys(FirstKeys, ds);
    var lines := Save(FirstKeys, ds).lines;
    forall i | 0 <= i < |ds| ensures lines[i + 1] == Values(ds[i]) {
      RowOfOwnKeys(ds[i]);
    }
  }
}
