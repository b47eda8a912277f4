/**
 * The sitemap built by app/sitemap.xml/route.ts: three routes under the base
 * URL taken from `SITE_URL`, the home entry dated with the build date and the
 * two legal pages with a fixed date; each element is written after a line
 * break and the elements are concatenated. The environment values and the
 * current timestamp are inputs.
 */
module BuildSitemap {
  import opened Wrappers
  import opened JsText
  import opened SitemapXml

  datatype Route = Route(path: string, priority: string, changefreq: string, lastmod: string)

  const DefaultBaseUrl: string := "https://www.alphabinet.com"

  /** The last-modified date of both legal pages. */
  const LegalDate: string := "2024-01-01"

  /** `process.env.X || fallback`: an unset or empty variable gives the fallback. */
  function EnvOr(env: Option<string>, fallback: string): (r: string)
    ensures env.Some? && env.value != "" ==> r == env.value
    ensures env.None? || env.value == "" ==> r == fallback
  {
    match env
    case Some(v) => if v != "" then v else fallback
    case None => fallback
  }

  /** `NEXT_PUBLIC_BUILD_DATE`, else the current ISO timestamp, used whole. */
  function BuildDate(buildDateEnv: Option<string>, now: string): string {
    EnvOr(buildDateEnv, now)
  }

  /** `SITE_URL`, else the default base URL. */
  function BaseUrl(siteUrlEnv: Option<string>): string {
    EnvOr(siteUrlEnv, DefaultBaseUrl)
  }

  function Routes(buildDate: string): seq<Route> {
    [
      Route("", "1.0", "daily", buildDate),
      Route("/privacy-policy", "0.3", "yearly", LegalDate),
      Route("/terms-of-service", "0.3", "yearly", LegalDate)
    ]
  }

  function Entry(base: string, r: Route): Url {
    Url(base + r.path, r.lastmod, r.changefreq, r.priority)
  }

  function Entries(base: string, routes: seq<Route>): (r: seq<Url>)
    ensures |r| == |routes|
    ensures forall i :: 0 <= i < |routes| ==> r[i] == Entry(base, routes[i])
  {
    seq(|routes|, i requires 0 <= i < |routes| => Entry(base, routes[i]))
  }

  /**
   * The prolog, a line break and two spaces, the items, the closing line. It
   * always opens with the declaration and `urlset` and closes with
   * `</urlset>`.
   */
  function Document(base: string, routes: seq<Route>): (doc: string)
    ensures |doc| >= |Prolog| + 3 + |Epilog|
    ensures doc[..|Prolog| + 3] == Prolog + "\n  " && doc[|doc| - |Epilog|..] == Epilog
    ensures routes == [] ==> doc == Prolog + "\n  " + Epilog
  {
    var items := Concat(Items(Entries(base, routes)));
    FrontAndBack(Prolog + "\n  ", items, Epilog);
    Prolog + "\n  " + items + Epilog
  }

  /**
   * The response body of `GET`. Unless the base URL or the build date holds a
   * `<`, it reads back as the entries of the three routes.
   */
  function Sitemap(siteUrlEnv: Option<string>, buildDate: string): (doc: string)
    ensures '<' !in BaseUrl(siteUrlEnv) && '<' !in buildDate ==>
              Read(doc) == Some(Entries(BaseUrl(siteUrlEnv), Routes(buildDate)))
  {
    var doc := Document(BaseUrl(siteUrlEnv), Routes(buildDate));
    assert '<' !in BaseUrl(siteUrlEnv) && '<' !in buildDate ==>
             Read(doc) == Some(Entries(BaseUrl(siteUrlEnv), Routes(buildDate))) by {
      if '<' !in BaseUrl(siteUrlEnv) && '<' !in buildDate {
        RoutesReadable(buildDate);
        DocumentRoundTrip(BaseUrl(siteUrlEnv), Routes(buildDate));
      }
    }
    doc
  }

  /** Reads a document of this layout back into its entries. */
  function Read(doc: string): Option<seq<Url>> {
    var rest :- Expect(doc, Prolog + "\n  ");
    ReadItems(rest)
  }

  predicate RouteReadable(r: Route) {
    '<' !in r.path && '<' !in r.priority && '<' !in r.changefreq && '<' !in r.lastmod
  }

  /** Reading the document back yields one entry per route, in table order. */
  lemma DocumentRoundTrip(base: string, routes: seq<Route>)
    requires '<' !in base
    requires forall i :: 0 <= i < |routes| ==> RouteReadable(routes[i])
    ensures Read(Document(base, routes)) == Some(Entries(base, routes))
  {
    var es := Entries(base, routes);
    forall i | 0 <= i < |es|
      ensures Readable(es[i])
    {
      assert '<' !in base + routes[i].path;
    }
    ItemsReadBack(es, Document(base, routes));
  }

  /** A document whose body concatenates the items of a list reads back as that list. */
  lemma ItemsReadBack(es: seq<Url>, doc: string)
    requires forall i :: 0 <= i < |es| ==> Readable(es[i])
    requires doc == Prolog + "\n  " + Concat(Items(es)) + Epilog
    ensures Read(doc) == Some(es)
  {
    var body := Concat(Items(es)) + Epilog;
    assert doc == (Prolog + "\n  ") + body;
    ExpectPrefix(Prolog + "\n  ", body);
    ReadItemsWritten(es);
  }

  /**
   * The sitemap served: the home page under the base URL dated with the whole
   * build date, then the privacy policy and the terms dated 2024-01-01.
   */
  lemma SitemapContents(siteUrlEnv: Option<string>, buildDate: string)
    requires '<' !in BaseUrl(siteUrlEnv) && '<' !in buildDate
    ensures Read(Sitemap(siteUrlEnv, buildDate)) == Some([
              Url(BaseUrl(siteUrlEnv), buildDate, "daily", "1.0"),
              Url(BaseUrl(siteUrlEnv) + "/privacy-policy", LegalDate, "yearly", "0.3"),
              Url(BaseUrl(siteUrlEnv) + "/terms-of-service", LegalDate, "yearly", "0.3")
            ])
  {
    EntriesOfRoutes(BaseUrl(siteUrlEnv), buildDate);
  }

  lemma RoutesReadable(buildDate: string)
    requires '<' !in buildDate
    ensures forall i :: 0 <= i < |Routes(buildDate)| ==> RouteReadable(Routes(buildDate)[i])
  {
    LegalRouteReadable("/privacy-policy");
    LegalRouteReadable("/terms-of-service");
  }

  lemma LegalRouteReadable(path: string)
    requires '<' !in path
    ensures RouteReadable(Route(path, "0.3", "yearly", LegalDate))
  {
  }

  lemma EntriesOfRoutes(base: string, buildDate: string)
    ensures Entries(base, Routes(buildDate)) == [
              Url(base, buildDate, "daily", "1.0"),
              Url(base + "/privacy-policy", LegalDate, "yearly", "0.3"),
              Url(base + "/terms-of-service", LegalDate, "yearly", "0.3")
            ]
  {
    assert base + "" == base;
  }

  /** Without `SITE_URL` the entries are under https://www.alphabinet.com. */
  lemma DefaultBase(buildDate: string)
    requires '<' !in buildDate
    ensures var es := Read(Sitemap(None, buildDate));
            es.Some? && |es.value| == 3 && es.value[0].loc == "https://www.alphabinet.com"
  {
    SitemapContents(None, buildDate);
  }

  /**
   * The home entry's date is the build-date variable whole, time part included,
   * when it is set; otherwise the current timestamp, also whole.
   */
  lemma HomeDateUntruncated(siteUrlEnv: Option<string>, buildDateEnv: Option<string>, now: string)
    requires '<' !in BaseUrl(siteUrlEnv) && '<' !in now
    requires buildDateEnv.Some? ==> '<' !in buildDateEnv.value
    ensures var es := Read(Sitemap(siteUrlEnv, BuildDate(buildDateEnv, now)));
            && es.Some? && |es.value| == 3
            && (buildDateEnv.Some? && buildDateEnv.value != "" ==> es.value[0].lastmod == buildDateEnv.value)
            && (buildDateEnv.None? || buildDateEnv.value == "" ==> es.value[0].lastmod == now)
            && es.value[1].lastmod == "2024-01-01" && es.value[2].lastmod == "2024-01-01"
  {
    SitemapContents(siteUrlEnv, BuildDate(buildDateEnv, now));
  }
}
