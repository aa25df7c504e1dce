/** The page loop of the two HTML card scrapers: pages 1 to `pages` are fetched
    in turn, a page whose response is not 200 is skipped, and the cards of every
    other page are turned into records in card order.

    The HTTP request is not modelled: `fetch` maps a URL to the status code and
    the cards the selectors found on the response. */
module Scraper {
  import opened Common
  import opened Listings
  import opened Cards

  /** A fetched page: the status code and the cards found on it. */
  datatype Page = Page(status: int, cards: seq<Card>)

  // ------------------------------------------------------------------ pages

  /** What one page contributes: nothing unless the status is 200. */
  function PageRecords(site: Site, p: Page): (rs: seq<Listing>)
    ensures p.status != 200 ==> rs == []
  {
    if p.status != 200 then [] else CardRecords(site, p.cards)
  }

  /** The records of pages 1 to n one after the other, page k contributing recs(k). */
  function Concat(n: int, recs: nat -> seq<Listing>): seq<Listing>
    decreases n
  {
    if n <= 0 then [] else Concat(n - 1, recs) + recs(n)
  }

  /** What each page contributes when page k is the response to its URL. */
  function PageContributions(site: Site, url: string, fetch: string -> Page): nat -> seq<Listing>
  {
    (k: nat) => PageRecords(site, fetch(PageUrl(site, url, k)))
  }

  /** The records of pages 1 to n, fetched through `fetch`. */
  function ScrapeSpec(site: Site, url: string, n: int, fetch: string -> Page): seq<Listing>
  {
    Concat(n, PageContributions(site, url, fetch))
  }

  /** The card loop of one page: each card's record, if any, appended in order. */
  method CollectCards(site: Site, cards: seq<Card>, results: seq<Listing>) returns (results': seq<Listing>)
    ensures results' == results + CardRecords(site, cards)
  {
    ghost var rs := CardOutcomes(site, cards);
    results' := results;
    var i := 0;
    while i < |cards|
      invariant 0 <= i <= |cards|
      invariant results' == results + Kept(rs[..i])
    {
      var rec := CardRecord(site, cards[i]);
      KeptStep(rs, i, results, results', rec);
      if rec.Some? {
        results' := results' + [rec.value];
      }
      i := i + 1;
    }
    assert rs[..i] == rs;
  }

  /** One pass of the page loop: fetch page k, skip it unless the status is
      200, otherwise run the card loop over its cards. */
  method ScrapePage(site: Site, url: string, k: nat, fetch: string -> Page, results: seq<Listing>)
    returns (results': seq<Listing>)
    ensures results' == results + PageRecords(site, fetch(PageUrl(site, url, k)))
  {
    var r := fetch(PageUrl(site, url, k));
    if r.status != 200 {
      return results;
    }
    results' := CollectCards(site, r.cards, results);
  }

  /** `scrape_immoweb_listings(url, pages)` and `scrape_zimmo_listings(url, pages)`,
      with the network behind `fetch`. */
  method Scrape(site: Site, url: string, pages: int, fetch: string -> Page) returns (results: seq<Listing>)
    ensures results == ScrapeSpec(site, url, pages, fetch)
  {
    ghost var recs := PageContributions(site, url, fetch);
    results := [];
    var page := 1;
    while page <= pages
      invariant 1 <= page <= if pages >= 1 then pages + 1 else 1
      invariant results == Concat(page - 1, recs)
    {
      results := ScrapePage(site, url, page, fetch, results);
      page := page + 1;
    }
  }

  // ------------------------------------------------------------ properties

  lemma PrefixAppend(a: seq<Listing>, b: seq<Listing>, c: seq<Listing>)
    requires a <= b
    ensures a <= b + c
  {
    assert (b + c)[..|a|] == b[..|a|];
  }

  /** Later pages only append: the records of the first m pages are a prefix of
      those of the first n. */
  lemma {:induction false} ConcatPrefix(m: int, n: int, recs: nat -> seq<Listing>)
    requires m <= n
    ensures Concat(m, recs) <= Concat(n, recs)
    decreases n - m
  {
    if m < n && n > 0 {
      ConcatPrefix(m, n - 1, recs);
      PrefixAppend(Concat(m, recs), Concat(n - 1, recs), recs(n));
    }
  }

  /** Every record of the first n pages is a record of one of them. */
  lemma {:induction false} ConcatSound(n: int, recs: nat -> seq<Listing>, l: Listing)
    requires l in Concat(n, recs)
    ensures exists k: nat :: 1 <= k <= n && l in recs(k)
    decreases n
  {
    if l !in recs(n) {
      ConcatSound(n - 1, recs, l);
    }
  }

  /** Every record of each of the first n pages is kept. */
  lemma ConcatComplete(n: int, recs: nat -> seq<Listing>, k: nat, l: Listing)
    requires 1 <= k <= n && l in recs(k)
    ensures l in Concat(n, recs)
  {
    var a := Concat(k, recs);
    assert a == Concat(k - 1, recs) + recs(k);
    assert l in a;
    ConcatPrefix(k, n, recs);
    var i :| 0 <= i < |a| && a[i] == l;
    assert Concat(n, recs)[i] == l;
  }

  /** A page that is not 200 contributes nothing, and the loop goes on: the next
      page's records still follow. */
  lemma SkippedPageContinues(site: Site, url: string, k: nat, fetch: string -> Page)
    requires k >= 1 && fetch(PageUrl(site, url, k)).status != 200
    ensures ScrapeSpec(site, url, k, fetch) == ScrapeSpec(site, url, k - 1, fetch)
    ensures ScrapeSpec(site, url, k + 1, fetch) ==
      ScrapeSpec(site, url, k - 1, fetch) + PageRecords(site, fetch(PageUrl(site, url, k + 1)))
  {
  }

  /** Every record has a positive price and is the record of a card of a page
      among the first n that answered 200. */
  lemma ScrapeSound(site: Site, url: string, n: int, fetch: string -> Page, l: Listing)
    requires l in ScrapeSpec(site, url, n, fetch)
    ensures l.price > 0.0
    ensures exists k: nat, q: nat :: (1 <= k <= n && fetch(PageUrl(site, url, k)).status == 200 &&
      q < |fetch(PageUrl(site, url, k)).cards| && CardRecord(site, fetch(PageUrl(site, url, k)).cards[q]) == Some(l))
  {
    var recs := PageContributions(site, url, fetch);
    ConcatSound(n, recs, l);
    var k: nat :| 1 <= k <= n && l in recs(k);
    var p := fetch(PageUrl(site, url, k));
    assert l in PageRecords(site, p);
    CardRecordsSound(site, p.cards, l);
  }

  /** The record of every card of every 200 page among the first n is collected. */
  lemma ScrapeComplete(site: Site, url: string, n: int, fetch: string -> Page, k: nat, q: nat)
    requires 1 <= k <= n && fetch(PageUrl(site, url, k)).status == 200
    requires q < |fetch(PageUrl(site, url, k)).cards|
    requires CardRecord(site, fetch(PageUrl(site, url, k)).cards[q]).Some?
    ensures CardRecord(site, fetch(PageUrl(site, url, k)).cards[q]).value in ScrapeSpec(site, url, n, fetch)
  {
    var p := fetch(PageUrl(site, url, k));
    CardRecordsComplete(site, p.cards, q);
    ConcatComplete(n, PageContributions(site, url, fetch), k, CardRecord(site, p.cards[q]).value);
  }
}
