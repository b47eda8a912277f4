/**
 * The sitemap built by app/sitemap/route.ts: thirteen fixed routes under one
 * base URL, every entry dated with the day part of the current timestamp,
 * elements joined by single line breaks. The timestamp is an input.
 */
module StaticSitemap {
  import opened Wrappers
  import opened JsText
  import opened SitemapXml

  datatype Route = Route(path: string, priority: string, changefreq: string)

  const BaseUrl: string := "https://alphabinet.com"

  const Routes: seq<Route> := [
    Route("", "1.0", "weekly"),
    Route("/about", "0.8", "monthly"),
    Route("/contact", "0.8", "monthly"),
    Route("/services", "0.8", "monthly"),
    Route("/portfolio", "0.7", "monthly"),
    Route("/blog", "0.7", "weekly"),
    Route("/services/web-development", "0.6", "monthly"),
    Route("/services/ui-ux-design", "0.6", "monthly"),
    Route("/services/ecommerce", "0.6", "monthly"),
    Route("/services/mobile-apps", "0.6", "monthly"),
    Route("/services/digital-marketing", "0.6", "monthly"),
    Route("/privacy-policy", "0.3", "yearly"),
    Route("/terms-of-service", "0.3", "yearly")
  ]

  /**
   * `toISOString().split("T")[0]`: the date part of an ISO timestamp, that is
   * everything before the first `T`.
   */
  function Today(timestamp: string): (d: string)
    ensures |d| <= |timestamp| && d == timestamp[..|d|]
    ensures 'T' !in d
    ensures |d| < |timestamp| ==> timestamp[|d|] == 'T'
  {
    BeforeFirst(timestamp, 'T')
  }

  /** The entry a route contributes. */
  function Entry(base: string, today: string, r: Route): Url {
    Url(base + r.path, today, r.changefreq, r.priority)
  }

  function Entries(base: string, today: string, routes: seq<Route>): (r: seq<Url>)
    ensures |r| == |routes|
    ensures forall i :: 0 <= i < |routes| ==> r[i] == Entry(base, today, routes[i])
  {
    seq(|routes|, i requires 0 <= i < |routes| => Entry(base, today, routes[i]))
  }

  /**
   * The document: prolog, a line break, the elements joined by line breaks,
   * the closing line. It always opens with the declaration and `urlset` and
   * closes with `</urlset>`; with no routes nothing stands between them but
   * two line breaks.
   */
  function Document(base: string, today: string, routes: seq<Route>): (doc: string)
    ensures |doc| > |Prolog| + |Epilog|
    ensures doc[..|Prolog| + 1] == Prolog + "\n" && doc[|doc| - |Epilog|..] == Epilog
    ensures routes == [] ==> doc == Prolog + "\n" + Epilog
  {
    var joined := Join(Elements(Entries(base, today, routes)), "\n");
    FrontAndBack(Prolog + "\n", joined, Epilog);
    Prolog + "\n" + joined + Epilog
  }

  /**
   * The response body of `GET` for a given current timestamp. Unless the
   * timestamp holds a `<`, it reads back as one entry per route of the table.
   */
  function Sitemap(timestamp: string): (doc: string)
    ensures '<' !in timestamp ==> Read(doc) == Some(Entries(BaseUrl, Today(timestamp), Routes))
  {
    var doc := Document(BaseUrl, Today(timestamp), Routes);
    assert '<' !in timestamp ==> Read(doc) == Some(Entries(BaseUrl, Today(timestamp), Routes)) by {
      if '<' !in timestamp {
        RoutesReadable();
        TodayReadable(timestamp);
        DocumentRoundTrip(BaseUrl, Today(timestamp), Routes);
      }
    }
    doc
  }

  /** The date part holds no `<` when the timestamp holds none. */
  lemma TodayReadable(timestamp: string)
    requires '<' !in timestamp
    ensures '<' !in Today(timestamp)
  {
    var d := Today(timestamp);
    assert forall k :: 0 <= k < |d| ==> d[k] == timestamp[k];
  }

  /** Reads a document of this layout back into its entries. */
  function Read(doc: string): Option<seq<Url>> {
    var rest :- Expect(doc, Prolog);
    if rest == "\n" + Epilog then Some([]) else ReadItems(rest)
  }

  predicate RouteReadable(r: Route) {
    '<' !in r.path && '<' !in r.priority && '<' !in r.changefreq
  }

  lemma RoutesReadable()
    ensures forall i :: 0 <= i < |Routes| ==> RouteReadable(Routes[i])
    ensures '<' !in BaseUrl
  {
    forall i | 0 <= i < |Routes|
      ensures RouteReadable(Routes[i])
    {
      RouteReadableAt(i);
    }
  }

  /*
   * The table is checked a few rows per lemma. Each lemma is a separate proof
   * obligation, and one obligation over all thirteen literals costs the solver
   * several times more than these five together.
   */

  lemma RouteReadableAt(i: nat)
    requires i < |Routes|
    ensures RouteReadable(Routes[i])
  {
    if i < 3 { SectionRoutesReadable(); }
    else if i < 6 { PageRoutesReadable(); }
    else if i < 9 { FirstServiceRoutesReadable(); }
    else if i < 11 { LastServiceRoutesReadable(); }
    else { LegalRoutesReadable(); }
  }

  /** Home, about, contact. */
  lemma SectionRoutesReadable()
    ensures RouteReadable(Routes[0]) && RouteReadable(Routes[1]) && RouteReadable(Routes[2])
  {
  }

  /** Services, portfolio, blog. */
  lemma PageRoutesReadable()
    ensures RouteReadable(Routes[3]) && RouteReadable(Routes[4]) && RouteReadable(Routes[5])
  {
  }

  /** Web development, UI/UX design, e-commerce. */
  lemma FirstServiceRoutesReadable()
    ensures RouteReadable(Routes[6]) && RouteReadable(Routes[7]) && RouteReadable(Routes[8])
  {
  }

  /** Mobile apps, digital marketing. */
  lemma LastServiceRoutesReadable()
    ensures RouteReadable(Routes[9]) && RouteReadable(Routes[10])
  {
  }

  /** Privacy policy, terms of service. */
  lemma LegalRoutesReadable()
    ensures RouteReadable(Routes[11]) && RouteReadable(Routes[12])
  {
  }

  /**
   * Reading the document back yields one entry per route, in table order, each
   * with the route's location, the shared date and the route's frequency and
   * priority.
   */
  lemma DocumentRoundTrip(base: string, today: string, routes: seq<Route>)
    requires '<' !in base && '<' !in today
    requires forall i :: 0 <= i < |routes| ==> RouteReadable(routes[i])
    ensures Read(Document(base, today, routes)) == Some(Entries(base, today, routes))
  {
    if routes == [] {
      EmptyDocumentReadsBack(base, today);
    } else {
      EntriesReadable(base, today, routes);
      ItemsReadBack(Entries(base, today, routes), Document(base, today, routes));
    }
  }

  lemma EmptyDocumentReadsBack(base: string, today: string)
    ensures Read(Document(base, today, [])) == Some([])
  {
    ExpectPrefix(Prolog, "\n" + Epilog);
    assert Prolog + "\n" + Epilog == Prolog + ("\n" + Epilog);
  }

  /** A document whose body joins the elements of a non-empty list reads back as that list. */
  lemma ItemsReadBack(es: seq<Url>, doc: string)
    requires |es| > 0 && forall i :: 0 <= i < |es| ==> Readable(es[i])
    requires doc == Prolog + "\n" + Join(Elements(es), "\n") + Epilog
    ensures Read(doc) == Some(es)
  {
    var body := Concat(Items(es)) + Epilog;
    DocumentBody(es, Join(Elements(es), "\n"));
    ExpectPrefix(Prolog, body);
    BodyIsNotEmptyList(es);
    ReadItemsWritten(es);
  }

  lemma EntriesReadable(base: string, today: string, routes: seq<Route>)
    requires '<' !in base && '<' !in today
    requires forall i :: 0 <= i < |routes| ==> RouteReadable(routes[i])
    ensures forall i :: 0 <= i < |routes| ==> Readable(Entries(base, today, routes)[i])
  {
    forall i | 0 <= i < |routes|
      ensures Readable(Entries(base, today, routes)[i])
    {
      assert '<' !in base + routes[i].path;
    }
  }

  /** Joining with line breaks after the prolog's line break is writing each element after one. */
  lemma DocumentBody(es: seq<Url>, joined: string)
    requires |es| > 0 && joined == Join(Elements(es), "\n")
    ensures Prolog + "\n" + joined + Epilog == Prolog + (Concat(Items(es)) + Epilog)
  {
    JoinPrefixed(Elements(es), "\n", Items(es));
    assert Prolog + "\n" + joined == Prolog + ("\n" + joined);
  }

  lemma BodyIsNotEmptyList(es: seq<Url>)
    requires |es| > 0
    ensures Concat(Items(es)) + Epilog != "\n" + Epilog
  {
    var rest := Concat(Items(es)[1..]) + Epilog;
    assert Concat(Items(es)) + Epilog == Item(es[0]) + rest;
    assert (Item(es[0]) + rest)[1] == ' ';
  }

  /**
   * The sitemap served: thirteen entries in table order; the home entry's
   * location is the bare base URL; every entry carries the same date.
   */
  lemma SitemapContents(timestamp: string)
    requires '<' !in timestamp
    ensures var es := Read(Sitemap(timestamp));
            && es.Some? && |es.value| == 13
            && es.value[0].loc == "https://alphabinet.com"
            && forall i :: 0 <= i < 13 ==>
                 && es.value[i].loc == BaseUrl + Routes[i].path
                 && es.value[i].lastmod == Today(timestamp)
                 && es.value[i].changefreq == Routes[i].changefreq
                 && es.value[i].priority == Routes[i].priority
  {
    assert BaseUrl + "" == BaseUrl;
  }
}
