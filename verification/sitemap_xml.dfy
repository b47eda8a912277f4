/**
 * The `<url>` element both sitemap routes write (Sitemaps protocol 0.9:
 * `urlset` / `url` / `loc` / `lastmod` / `changefreq` / `priority`), the
 * document frame around the elements, and a reader for that exact layout. The
 * reader is the partner of both serialisers: reading back what they wrote
 * yields the entries they were given, one per route and in order.
 *
 * Neither route escapes its text, so the round trip holds when no field
 * contains `<`.
 */
module SitemapXml {
  import opened Wrappers
  import opened JsText

  datatype Url = Url(loc: string, lastmod: string, changefreq: string, priority: string)

  /** The XML declaration and the opening `urlset` tag with the 0.9 namespace. */
  const Prolog: string :=
    "<?xml version=\"1.0\" encoding=\"UTF-8\"?>\n<urlset xmlns=\"http://www.sitemaps.org/schemas/sitemap/0.9\">"

  /** The closing tag, on its own line. */
  const Epilog: string := "\n</urlset>"

  const UrlOpen: string := "  <url>\n    <loc>"
  const LocClose: string := "</loc>\n    <lastmod>"
  const LastmodClose: string := "</lastmod>\n    <changefreq>"
  const ChangefreqClose: string := "</changefreq>\n    <priority>"
  const UrlClose: string := "</priority>\n  </url>"

  /**
   * The text a route writes for one entry, indented as in the source template:
   * it opens with `<url>` and the location, and closes with the priority and
   * `</url>`.
   */
  function UrlElement(u: Url): (e: string)
    ensures |e| == |UrlOpen| + |u.loc| + |LocClose| + |u.lastmod| + |LastmodClose|
                   + |u.changefreq| + |ChangefreqClose| + |u.priority| + |UrlClose|
    ensures e[..|UrlOpen| + |u.loc|] == UrlOpen + u.loc
    ensures e[|e| - |u.priority| - |UrlClose|..] == u.priority + UrlClose
  {
    Framed(UrlOpen, u.loc, LocClose, u.lastmod, LastmodClose, u.changefreq, ChangefreqClose, u.priority, UrlClose);
    UrlOpen + u.loc + LocClose + u.lastmod + LastmodClose + u.changefreq + ChangefreqClose + u.priority + UrlClose
  }

  /** A text made of three pieces starts with the first and ends with the last. */
  lemma FrontAndBack(a: string, m: string, b: string)
    ensures |a + m + b| == |a| + |m| + |b|
    ensures (a + m + b)[..|a|] == a && (a + m + b)[|a| + |m|..] == b
  {
  }

  /** A text made of nine pieces starts with its first two and ends with its last two. */
  lemma Framed(a: string, b: string, c: string, d: string, e: string, f: string, g: string, h: string, i: string)
    ensures var t := a + b + c + d + e + f + g + h + i;
            && |t| == |a| + |b| + |c| + |d| + |e| + |f| + |g| + |h| + |i|
            && t[..|a| + |b|] == a + b
            && t[|t| - |h| - |i|..] == h + i
  {
    var t := a + b + c + d + e + f + g + h + i;
    assert t == (a + b) + (c + d + e + f + g) + (h + i);
  }

  /** An element preceded by the line break both layouts put before every element. */
  function Item(u: Url): string {
    "\n" + UrlElement(u)
  }

  function Items(us: seq<Url>): (r: seq<string>)
    ensures |r| == |us|
    ensures forall i :: 0 <= i < |us| ==> r[i] == Item(us[i])
  {
    seq(|us|, i requires 0 <= i < |us| => Item(us[i]))
  }

  function Elements(us: seq<Url>): (r: seq<string>)
    ensures |r| == |us|
    ensures forall i :: 0 <= i < |us| ==> r[i] == UrlElement(us[i])
  {
    seq(|us|, i requires 0 <= i < |us| => UrlElement(us[i]))
  }

  /** No field would end early when read back. */
  predicate Readable(u: Url) {
    '<' !in u.loc && '<' !in u.lastmod && '<' !in u.changefreq && '<' !in u.priority
  }

  // ---------------------------------------------------------------- reader

  /** The rest of `s` after the literal `lit`, if `s` starts with it. */
  function Expect(s: string, lit: string): (r: Option<string>)
    ensures r.Some? ==> s == lit + r.value
  {
    if |lit| <= |s| && s[..|lit|] == lit then
      assert s == s[..|lit|] + s[|lit|..];
      Some(s[|lit|..])
    else None
  }

  /** A text field: everything up to the next `<`, and what follows it. */
  function Text(s: string): (r: (string, string))
    ensures s == r.0 + r.1 && '<' !in r.0
  {
    var t := BeforeFirst(s, '<');
    assert s == t + s[|t|..];
    (t, s[|t|..])
  }

  /** A text field followed by the literal `close`; returns the text and what follows `close`. */
  function Field(s: string, close: string): (r: Option<(string, string)>)
    ensures r.Some? ==> |r.value.1| <= |s| - |close|
  {
    var (text, s1) := Text(s);
    var s2 :- Expect(s1, close);
    Some((text, s2))
  }

  /** Reads one `Item` from the front of `s`. */
  function ReadItem(s: string): (r: Option<(Url, string)>)
    ensures r.Some? ==> |r.value.1| < |s|
  {
    var s0 :- Expect(s, "\n" + UrlOpen);
    var (loc, s1) :- Field(s0, LocClose);
    var (lastmod, s2) :- Field(s1, LastmodClose);
    var (changefreq, s3) :- Field(s2, ChangefreqClose);
    var (priority, s4) :- Field(s3, UrlClose);
    Some((Url(loc, lastmod, changefreq, priority), s4))
  }

  /** Reads items up to and including the closing tag, which must end the text. */
  function ReadItems(s: string): Option<seq<Url>>
    decreases |s|
  {
    if s == Epilog then Some([])
    else
      var p :- ReadItem(s);
      var us :- ReadItems(p.1);
      Some([p.0] + us)
  }

  // ---------------------------------------------------------------- round trip

  lemma TextStopsAtTag(x: string, rest: string)
    requires '<' !in x && |rest| > 0 && rest[0] == '<'
    ensures Text(x + rest) == (x, rest)
  {
    BeforeFirstStops(x, rest, '<');
    assert (x + rest)[|x|..] == rest;
  }

  lemma ExpectPrefix(lit: string, rest: string)
    ensures Expect(lit + rest, lit) == Some(rest)
  {
    assert (lit + rest)[..|lit|] == lit;
    assert (lit + rest)[|lit|..] == rest;
  }

  lemma FieldWritten(x: string, close: string, rest: string)
    requires '<' !in x && |close| > 0 && close[0] == '<'
    ensures Field(x + (close + rest), close) == Some((x, rest))
  {
    TextStopsAtTag(x, close + rest);
    ExpectPrefix(close, rest);
  }

  /** Reading an item back from the front of a text returns the entry and the text after it. */
  lemma ReadItemWritten(u: Url, rest: string)
    requires Readable(u)
    ensures ReadItem(Item(u) + rest) == Some((u, rest))
  {
    var t4 := u.priority + (UrlClose + rest);
    var t3 := u.changefreq + (ChangefreqClose + t4);
    var t2 := u.lastmod + (LastmodClose + t3);
    var t1 := u.loc + (LocClose + t2);
    ItemShape(u, rest);
    ExpectPrefix("\n" + UrlOpen, t1);
    FieldWritten(u.loc, LocClose, t2);
    FieldWritten(u.lastmod, LastmodClose, t3);
    FieldWritten(u.changefreq, ChangefreqClose, t4);
    FieldWritten(u.priority, UrlClose, rest);
  }

  lemma ItemShape(u: Url, rest: string)
    ensures Item(u) + rest ==
      ("\n" + UrlOpen) + (u.loc + (LocClose + (u.lastmod + (LastmodClose + (u.changefreq
        + (ChangefreqClose + (u.priority + (UrlClose + rest))))))))
  {
    Reassociate("\n", UrlOpen, u.loc, LocClose, u.lastmod, LastmodClose, u.changefreq,
                ChangefreqClose, u.priority, UrlClose, rest);
  }

  /** Moves the text after an element into its innermost position, piece by piece. */
  lemma Reassociate(a: string, b: string, c: string, d: string, e: string, f: string,
                    g: string, h: string, i: string, j: string, rest: string)
    ensures (a + (b + c + d + e + f + g + h + i + j)) + rest
         == (a + b) + (c + (d + (e + (f + (g + (h + (i + (j + rest))))))))
  {
  }

  /** Reading back a run of items and the closing tag returns the entries, in order. */
  lemma {:induction false} ReadItemsWritten(us: seq<Url>)
    requires forall i :: 0 <= i < |us| ==> Readable(us[i])
    ensures ReadItems(Concat(Items(us)) + Epilog) == Some(us)
    decreases |us|
  {
    if us == [] {
      assert Concat(Items(us)) + Epilog == Epilog;
    } else {
      var tail := Concat(Items(us[1..])) + Epilog;
      ItemsUnfold(us);
      ReadItemWritten(us[0], tail);
      ReadItemsWritten(us[1..]);
      ReadItemsStep(Item(us[0]) + tail, us[0], tail, us[1..]);
      assert [us[0]] + us[1..] == us;
    }
  }

  lemma ItemsUnfold(us: seq<Url>)
    requires |us| > 0
    ensures Concat(Items(us)) + Epilog == Item(us[0]) + (Concat(Items(us[1..])) + Epilog)
  {
    assert Items(us)[1..] == Items(us[1..]);
    assert Concat(Items(us)) == Item(us[0]) + Concat(Items(us[1..]));
  }

  lemma ReadItemsStep(s: string, u: Url, tail: string, us: seq<Url>)
    requires ReadItem(s) == Some((u, tail))
    requires ReadItems(tail) == Some(us)
    ensures ReadItems(s) == Some([u] + us)
  {
    assert s != Epilog by {
      assert s[..2] == "\n ";
    }
  }
}
