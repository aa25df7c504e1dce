/** The per-card logic of the two HTML card scrapers, `scrape_immoweb_listings`
    (immoweb.py) and `scrape_zimmo_listings` (zimmo.py): the URL of each result
    page, the resolution of a card's link, and the record a card yields when its
    parsed price is truthy. The two differ only in how page k's URL is built and
    in the origin a relative link is resolved against.

    The HTML selection is not modelled: a card is already reduced to its link,
    price text, detail text and city text. */
module Cards {
  import opened Common
  import opened JsonModel
  import opened CardText
  import opened Listings

  datatype Site = Immoweb | Zimmo

  /** The fixed origin relative links are resolved against. */
  function Origin(site: Site): string
  {
    match site
    case Immoweb => "https://www.immoweb.be"
    case Zimmo => "https://www.zimmo.be"
  }

  // --------------------------------------------------------------- page URLs

  /** Everything of page k's URL before the page number, for k > 1. */
  function PageBase(site: Site, url: string): string
  {
    match site
    case Immoweb => url + "&page="
    case Zimmo => RStripSlash(url) + "/?page="
  }

  /** The URL fetched for page k: the search URL itself for page 1, else the
      page base followed by k in decimal. */
  function PageUrl(site: Site, url: string, k: nat): (u: string)
    ensures k == 1 ==> u == url
  {
    if k == 1 then url else PageBase(site, url) + IntToString(k)
  }

  /** Page k > 1 is the page base followed by the decimal digits of k, and those
      digits read back as k. For Zimmo the base is the URL without its trailing
      slashes, so no "//?page=" can appear. */
  lemma PageUrlReadsBack(site: Site, url: string, k: nat)
    requires k > 1
    ensures var u := PageUrl(site, url, k);
      var b := PageBase(site, url);
      StartsWith(u, b) && AllDigits(u[|b|..]) && DigitsValue(u[|b|..]) == k
    ensures site == Immoweb ==> StartsWith(PageUrl(site, url, k), url + "&page=")
    ensures site == Zimmo ==>
      var r := RStripSlash(url);
      StartsWith(PageUrl(site, url, k), r + "/?page=") && (r == [] || r[|r| - 1] != '/')
  {
    var u := PageUrl(site, url, k);
    var b := PageBase(site, url);
    assert u == b + NatToString(k);
    assert u[..|b|] == b;
    assert u[|b|..] == NatToString(k);
    NatToStringRoundTrip(k);
  }

  /** Distinct page numbers give distinct URLs: no page is fetched twice. */
  lemma PageUrlsDistinct(site: Site, url: string, k: nat, k': nat)
    requires 1 <= k < k'
    ensures PageUrl(site, url, k) != PageUrl(site, url, k')
  {
    var b := PageBase(site, url);
    var u' := PageUrl(site, url, k');
    PageUrlReadsBack(site, url, k');
    if k == 1 {
    } else {
      PageUrlReadsBack(site, url, k);
    }
  }

  // ------------------------------------------------------------------ links

  /** The card's link: none without an href; a link starting with '/' is
      joined to the origin; any other link, the empty one included, is kept. */
  function ResolveLink(site: Site, href: Option<string>): (r: Option<string>)
    ensures r.None? <==> href.None?
  {
    if href.None? then None
    else if href.value != "" && href.value[0] == '/' then Some(Origin(site) + href.value)
    else href
  }

  /** A path starting with '/' lands under the origin; nothing else changes, and
      no result is left starting with '/'. */
  lemma ResolveLinkRule(site: Site, link: string)
    ensures StartsWith(link, "/") ==>
      ResolveLink(site, Some(link)) == Some(Origin(site) + link) &&
      StartsWith(ResolveLink(site, Some(link)).value, Origin(site) + "/")
    ensures !StartsWith(link, "/") ==> ResolveLink(site, Some(link)) == Some(link)
    ensures !StartsWith(ResolveLink(site, Some(link)).value, "/")
  {
    if StartsWith(link, "/") {
      var r := Origin(site) + link;
      assert r[..|Origin(site)| + 1] == Origin(site) + "/";
      assert r[0] == 'h';
    }
  }

  /** Resolving twice is resolving once. */
  lemma ResolveLinkIdempotent(site: Site, href: Option<string>)
    ensures ResolveLink(site, ResolveLink(site, href)) == ResolveLink(site, href)
  {
    if href.Some? && href.value != "" && href.value[0] == '/' {
      assert (Origin(site) + href.value)[0] == 'h';
    }
  }

  // ------------------------------------------------------------------ cards

  /** A card as the selectors leave it: the href of its first link (if any), the
      text of its price element (if any), the joined text of its detail
      elements, and the text of its location element ("" when there is none). */
  datatype Card = Card(href: Option<string>, priceText: Option<string>, detailText: string, cityText: string)

  /** One pass of the card loop: the record appended, if any. */
  function CardRecord(site: Site, c: Card): (r: Option<Listing>)
    ensures r.Some? ==> r.value.price > 0.0 && r.value.price == r.value.price.Floor as real
  {
    var price := ParsePrice(c.priceText);
    if price.Some? && price.value != 0.0 then
      Some(Listing(price.value, ParseArea(c.detailText), ParseBedrooms(c.detailText),
                   Str(c.cityText), ResolveLink(site, c.href)))
    else None
  }

  /** A card yields a record exactly when its price text holds a non-zero
      number; the record's fields are that price, the area and bedroom count of
      the detail text, the city text and the resolved link. */
  lemma CardRecordRule(site: Site, c: Card)
    ensures CardRecord(site, c).Some? <==> ParsePrice(c.priceText).Some? && ParsePrice(c.priceText).value != 0.0
    ensures CardRecord(site, c).Some? <==>
      c.priceText.Some? && exists q :: 0 <= q < |c.priceText.value| && IsDigit(c.priceText.value[q]) && c.priceText.value[q] != '0'
    ensures CardRecord(site, c).Some? ==>
      var l := CardRecord(site, c).value;
      l.price == ParsePrice(c.priceText).value && l.areaM2 == ParseArea(c.detailText) &&
      l.bedrooms == ParseBedrooms(c.detailText) && l.city == Str(c.cityText) &&
      l.url == ResolveLink(site, c.href)
  {
    if c.priceText.Some? {
      NonZeroDigit(c.priceText.value);
    }
  }

  /** The digits of a text read as zero exactly when every digit is '0'. */
  lemma NonZeroDigit(s: string)
    ensures ParsePrice(Some(s)).Some? && ParsePrice(Some(s)).value != 0.0 <==>
      exists q :: 0 <= q < |s| && IsDigit(s[q]) && s[q] != '0'
  {
    DigitsOfDigits(s);
    if s != "" {
      var d := DigitsOf(s);
      if exists q :: 0 <= q < |s| && IsDigit(s[q]) && s[q] != '0' {
        var q :| 0 <= q < |s| && IsDigit(s[q]) && s[q] != '0';
        NonZeroDigitKept(s, q);
        var p :| 0 <= p < |d| && d[p] != '0';
        DigitsValueNonZero(d, p);
      } else {
        AllZeroKept(s);
        DigitsValueZero(d);
      }
    }
  }

  /** A non-zero digit of the text survives the filtering. */
  lemma {:induction false} NonZeroDigitKept(s: string, q: nat)
    requires q < |s| && IsDigit(s[q]) && s[q] != '0'
    ensures exists p :: 0 <= p < |DigitsOf(s)| && DigitsOf(s)[p] != '0'
    decreases |s|
  {
    DigitsOfCons(s[0], s[1..]);
    assert s == [s[0]] + s[1..];
    if q == 0 {
      assert DigitsOf(s)[0] == s[0];
    } else {
      NonZeroDigitKept(s[1..], q - 1);
      var p :| 0 <= p < |DigitsOf(s[1..])| && DigitsOf(s[1..])[p] != '0';
      if IsDigit(s[0]) {
        assert DigitsOf(s)[p + 1] == DigitsOf(s[1..])[p];
      } else {
        assert DigitsOf(s)[p] == DigitsOf(s[1..])[p];
      }
    }
  }

  /** A text whose digits are all '0' keeps only zeros. */
  lemma {:induction false} AllZeroKept(s: string)
    requires forall q :: 0 <= q < |s| && IsDigit(s[q]) ==> s[q] == '0'
    ensures forall p :: 0 <= p < |DigitsOf(s)| ==> DigitsOf(s)[p] == '0'
    decreases |s|
  {
    if s != [] {
      DigitsOfCons(s[0], s[1..]);
      assert s == [s[0]] + s[1..];
      AllZeroKept(s[1..]);
    }
  }

  lemma {:induction false} DigitsValueZero(d: string)
    requires forall p :: 0 <= p < |d| ==> d[p] == '0'
    ensures DigitsValue(d) == 0
    decreases |d|
  {
    if d != [] {
      DigitsValueZero(d[..|d| - 1]);
    }
  }

  lemma {:induction false} DigitsValueNonZero(d: string, p: nat)
    requires AllDigits(d) && p < |d| && d[p] != '0'
    ensures DigitsValue(d) > 0
    decreases |d|
  {
    if p < |d| - 1 {
      DigitsValueNonZero(d[..|d| - 1], p);
    }
  }

  /** The records present in a sequence of per-card outcomes, in order. */
  function Kept(rs: seq<Option<Listing>>): (ls: seq<Listing>)
    ensures |ls| <= |rs|
  {
    if rs == [] then []
    else
      var n := |rs| - 1;
      Kept(rs[..n]) + (if rs[n].Some? then [rs[n].value] else [])
  }

  /** One step of a loop that appends the kept records of rs in order. */
  lemma KeptStep(rs: seq<Option<Listing>>, i: nat, before: seq<Listing>, acc: seq<Listing>, rec: Option<Listing>)
    requires i < |rs| && rec == rs[i] && acc == before + Kept(rs[..i])
    ensures (if rec.Some? then acc + [rec.value] else acc) == before + Kept(rs[..i + 1])
  {
    assert rs[..i + 1][..i] == rs[..i];
  }

  lemma {:induction false} KeptAppend(a: seq<Option<Listing>>, b: seq<Option<Listing>>)
    ensures Kept(a + b) == Kept(a) + Kept(b)
    decreases |b|
  {
    if b == [] {
      assert a + b == a;
    } else {
      var n := |b| - 1;
      assert (a + b)[..|a| + n] == a + b[..n];
      assert (a + b)[|a| + n] == b[n];
      KeptAppend(a, b[..n]);
    }
  }

  lemma {:induction false} KeptSound(rs: seq<Option<Listing>>, l: Listing)
    requires l in Kept(rs)
    ensures exists q :: 0 <= q < |rs| && rs[q] == Some(l)
    decreases |rs|
  {
    var n := |rs| - 1;
    if rs[n] != Some(l) {
      assert l in Kept(rs[..n]);
      KeptSound(rs[..n], l);
      var q :| 0 <= q < n && rs[..n][q] == Some(l);
      assert rs[q] == rs[..n][q];
    }
  }

  lemma {:induction false} KeptComplete(rs: seq<Option<Listing>>, q: nat)
    requires q < |rs| && rs[q].Some?
    ensures rs[q].value in Kept(rs)
    decreases |rs|
  {
    var n := |rs| - 1;
    if q < n {
      assert rs[..n][q] == rs[q];
      KeptComplete(rs[..n], q);
    }
  }

  /** What the card loop body does with each card, in card order. */
  function CardOutcomes(site: Site, cards: seq<Card>): (rs: seq<Option<Listing>>)
    ensures |rs| == |cards| && forall i :: 0 <= i < |cards| ==> rs[i] == CardRecord(site, cards[i])
  {
    seq(|cards|, i requires 0 <= i < |cards| => CardRecord(site, cards[i]))
  }

  /** The records of a page's cards, in card order. */
  function CardRecords(site: Site, cards: seq<Card>): (rs: seq<Listing>)
    ensures |rs| <= |cards|
  {
    Kept(CardOutcomes(site, cards))
  }

  /** Every record comes from a card of the page and has a positive price. */
  lemma CardRecordsSound(site: Site, cards: seq<Card>, l: Listing)
    requires l in CardRecords(site, cards)
    ensures l.price > 0.0
    ensures exists q :: 0 <= q < |cards| && CardRecord(site, cards[q]) == Some(l)
  {
    KeptSound(CardOutcomes(site, cards), l);
  }

  /** Every card with a record contributes it. */
  lemma CardRecordsComplete(site: Site, cards: seq<Card>, q: nat)
    requires q < |cards| && CardRecord(site, cards[q]).Some?
    ensures CardRecord(site, cards[q]).value in CardRecords(site, cards)
  {
    KeptComplete(CardOutcomes(site, cards), q);
  }

  // ---------------------------------------------------------------- example

  /** A card with price "€ 250.000", details "3 bdr. · 120 m²" and the link
      "/en/x" yields price 250000.0, area 120.0, no bedroom count (the "bdr"
      abbreviation is not a keyword) and the absolute link. */
  lemma CardExample(city: string)
    ensures CardRecord(Immoweb, Card(Some("/en/x"), Some("€ 250.000"), "3 bdr. · 120 m²", city)) ==
      Some(Listing(250000.0, Some(120.0), None, Str(city), Some("https://www.immoweb.be/en/x")))
  {
    ParsePriceEuroExample();
    DetailAreaExample();
    DetailBedroomsExample();
    ExampleLink();
    CardRecordOf(Immoweb, Card(Some("/en/x"), Some("€ 250.000"), "3 bdr. · 120 m²", city), 250000.0);
  }

  lemma ExampleLink()
    ensures ResolveLink(Immoweb, Some("/en/x")) == Some("https://www.immoweb.be/en/x")
  {
    assert "/en/x"[0] == '/';
    assert "https://www.immoweb.be" + "/en/x" == "https://www.immoweb.be/en/x";
  }

  /** The record of a card whose price reads as a non-zero p. */
  lemma CardRecordOf(site: Site, c: Card, p: real)
    requires ParsePrice(c.priceText) == Some(p) && p != 0.0
    ensures CardRecord(site, c) ==
      Some(Listing(p, ParseArea(c.detailText), ParseBedrooms(c.detailText), Str(c.cityText), ResolveLink(site, c.href)))
  {
  }
}
