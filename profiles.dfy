/** The three marketplace scrapers (src/scrapers/ticketmaster.py, stubhub.py,
    viagogo.py) as data: each `scrape` is `_scrape_price_page` called with a
    constant argument set, here a `SourceProfile`. `get_scraper` of
    src/alert_manager.py picks one by source name. */
module Profiles {
  import opened Common
  import opened Currency
  import opened Extraction
  import opened Retry

  datatype Marketplace = Ticketmaster | StubHub | Viagogo

  const TicketmasterProfile := SourceProfile(
    15000, true, PageBottom, ["USD", "GBP"],
    Some(["sold out", "no tickets available", "event has passed", "unavailable"]))

  const StubHubProfile := SourceProfile(
    10000, true, Offset(800), ["USD", "GBP"],
    Some(["sold out", "no tickets available", "event has ended", "no longer available"]))

  const ViagogoProfile := SourceProfile(
    12000, true, PageBottom, ["USD", "GBP", "EUR"],
    Some(["sold out", "no tickets available", "event has ended", "no longer on sale",
          "view 0 listings", "showing 0 of 0"]))

  /** The arguments each marketplace's `scrape` passes: its own render wait,
      dollars before pounds everywhere, euros only on Viagogo, StubHub alone
      scrolling to a fixed offset, and every list of phrases its own and
      non-empty (the phrases themselves are the constants above). */
  function ProfileOf(m: Marketplace): (r: SourceProfile)
    ensures |r.currencies| >= 2 && r.currencies[0] == "USD" && r.currencies[1] == "GBP"
    ensures "EUR" in r.currencies <==> m == Viagogo
    ensures r.waitMs == (if m == Ticketmaster then 15000 else if m == StubHub then 10000 else 12000)
    ensures r.scrollToTriggerLoading
    ensures r.scrollTo == if m == StubHub then Offset(800) else PageBottom
    ensures r.soldOutIndicators.Some? && r.soldOutIndicators.value != []
    ensures "sold out" in r.soldOutIndicators.value && "no tickets available" in r.soldOutIndicators.value
    ensures |r.soldOutIndicators.value| == if m == Viagogo then 6 else 4
  {
    match m
    case Ticketmaster => TicketmasterProfile
    case StubHub => StubHubProfile
    case Viagogo => ViagogoProfile
  }

  /** The `scrape` method of each marketplace's scraper, on a rendered page. */
  function Scrape(m: Marketplace, page: PageView, url: string): ScrapeResult
  {
    ScrapePricePage(page, url, ProfileOf(m))
  }

  /** One call of the marketplace's `scrape` as the retry loop sees it: a
      rendered page becomes that page's scrape result, and an exception stays
      as it is. */
  function ScrapeCall(m: Marketplace, url: string, o: AttemptOutcome<PageView>): AttemptOutcome<ScrapeResult>
  {
    match o
    case Completed(page) => Completed(Scrape(m, page, url))
    case Raised(e, s, h) => Raised(e, s, h)
  }

  /** The calls of `scrape` that the retry loop makes, one per rendering. */
  function ScrapeCalls(m: Marketplace, url: string, pages: seq<AttemptOutcome<PageView>>): (r: seq<AttemptOutcome<ScrapeResult>>)
    ensures |r| == |pages|
  {
    seq(|pages|, k requires 0 <= k < |pages| => ScrapeCall(m, url, pages[k]))
  }

  /** The key of `scraper_map` for each marketplace. */
  function SourceName(m: Marketplace): string
  {
    match m
    case Ticketmaster => "ticketmaster"
    case StubHub => "stubhub"
    case Viagogo => "viagogo"
  }

  /** `get_scraper`: the lower-cased source name picks the marketplace; any
      other name raises `ValueError("Unknown source: <source>")`. */
  function GetScraper(source: string): (r: Result<Marketplace, string>)
    ensures r.Ok? <==> Lower(source) in {"ticketmaster", "stubhub", "viagogo"}
    ensures r.Ok? ==> SourceName(r.value) == Lower(source)
    ensures r.Err? ==> r.error == "Unknown source: " + source
  {
    var key := Lower(source);
    if key == "ticketmaster" then Ok(Ticketmaster)
    else if key == "stubhub" then Ok(StubHub)
    else if key == "viagogo" then Ok(Viagogo)
    else Err("Unknown source: " + source)
  }

  /** Every profile passes its own non-empty phrase list, so the defaults of
      the base scraper are never used: a phrase that only the defaults hold
      does not mark a page sold out. */
  lemma ProfilesReplaceDefaults(m: Marketplace)
    ensures ProfileOf(m).soldOutIndicators.Some?
    ensures EffectiveIndicators(ProfileOf(m).soldOutIndicators) == ProfileOf(m).soldOutIndicators.value
  {
  }

  /** Ticketmaster and StubHub only try dollars and pounds: a page whose text
      shows neither symbol yields no price, however many euro prices it shows. */
  lemma EuroOnlyPageHasNoPrice(m: Marketplace, page: PageView, url: string)
    requires m != Viagogo
    requires Usd.symbol !in PageText(page) && Gbp.symbol !in PageText(page)
    ensures Scrape(m, page, url).price.None?
    ensures Scrape(m, page, url).availability != Available
  {
    NoSymbolNoAmount(PageText(page), Usd.symbol);
    NoSymbolNoAmount(PageText(page), Gbp.symbol);
    var codes := ProfileOf(m).currencies;
    assert codes == ["USD", "GBP"];
    assert forall k :: 0 <= k < |codes| ==> Unmatched(PageText(page), codes[k]);
  }

  /** Viagogo reports a euro price only when the page text has no dollar and
      no pound amount, and then it reports the first euro amount. */
  lemma ViagogoEuroIsLastResort(page: PageView, url: string)
    ensures var text := PageText(page);
      Scrape(Viagogo, page, url).rawData.currency == Some("EUR") <==>
        FindAll(text, Usd.symbol) == [] && FindAll(text, Gbp.symbol) == [] && FindAll(text, Eur.symbol) != []
    ensures var text := PageText(page);
      Scrape(Viagogo, page, url).rawData.currency == Some("EUR") ==>
        Scrape(Viagogo, page, url).price == Some(AmountCents(FindAll(text, Eur.symbol)[0]))
  {
    var text := PageText(page);
    var codes := ViagogoProfile.currencies;
    var e := ExtractPrice(text, codes);
    assert codes[0] == "USD" && codes[1] == "GBP" && codes[2] == "EUR";
    assert Unmatched(text, "USD") <==> FindAll(text, Usd.symbol) == [];
    assert Unmatched(text, "GBP") <==> FindAll(text, Gbp.symbol) == [];
    assert Unmatched(text, "EUR") <==> FindAll(text, Eur.symbol) == [];
    if e.currency.Some? {
      var k :| 0 <= k < |codes| && codes[k] == e.currency.value && FirstMatched(text, codes, k);
      assert e.currency == Some("EUR") <==> k == 2;
    }
  }

  const UnavailablePage := PageView("", "unavailable", "")

  /** A page with an empty body and an HTML of lower-case letters and spaces
      is read from its HTML, which shows no currency symbol and which
      lower-casing leaves as it is. */
  lemma PlainHtmlPageText(text: string)
    requires forall k :: 0 <= k < |text| ==> 'a' <= text[k] <= 'z' || text[k] == ' '
    ensures PageText(PageView("", text, "")) == text
    ensures Lower(text) == text
    ensures !ShowsCurrencySymbol(text)
  {
    assert !ShowsCurrencySymbol("");
    assert forall k :: 0 <= k < |text| ==> Lower(text)[k] == text[k];
  }

  /** A page whose text shows no currency symbol yields no price, on any
      marketplace. */
  lemma SymbolFreePageHasNoPrice(m: Marketplace, page: PageView, url: string)
    requires !ShowsCurrencySymbol(PageText(page))
    ensures Scrape(m, page, url).price.None?
  {
    var text := PageText(page);
    NoSymbolNoAmount(text, Usd.symbol);
    NoSymbolNoAmount(text, Gbp.symbol);
    NoSymbolNoAmount(text, Eur.symbol);
    var codes := ProfileOf(m).currencies;
    assert forall k :: 0 <= k < |codes| ==> Unmatched(text, codes[k]);
  }

  /** The phrase lists differ: a page reading "unavailable" (and no currency
      symbol) is sold out on Ticketmaster, whose list holds that phrase... */
  lemma UnavailableSoldOutOnTicketmaster(url: string)
    ensures Scrape(Ticketmaster, UnavailablePage, url).availability == SoldOut
  {
    PlainHtmlPageText(UnavailablePage.html);
    assert OccursAt(Lower(PageText(UnavailablePage)), "unavailable", 0);
    SoldOutWinsOverPrice(UnavailablePage, url, TicketmasterProfile, "unavailable");
  }

  /** Viagogo marks a page sold out only through one of its own six
      phrases. */
  lemma ViagogoNeedsOwnPhrase(page: PageView, url: string)
    requires var t := Lower(PageText(page));
      && !Contains(t, "sold out") && !Contains(t, "no tickets available")
      && !Contains(t, "event has ended") && !Contains(t, "no longer on sale")
      && !Contains(t, "view 0 listings") && !Contains(t, "showing 0 of 0")
    ensures Scrape(Viagogo, page, url).availability != SoldOut
  {
    var ind := ViagogoProfile.soldOutIndicators.value;
    assert ind == ["sold out", "no tickets available", "event has ended", "no longer on sale",
                   "view 0 listings", "showing 0 of 0"];
  }

  /** None of Viagogo's phrases occurs in "unavailable". */
  lemma NoViagogoPhraseInUnavailable(text: string)
    requires text == "unavailable"
    ensures !Contains(text, "sold out")
    ensures !Contains(text, "no tickets available")
    ensures !Contains(text, "event has ended")
    ensures !Contains(text, "no longer on sale")
    ensures !Contains(text, "view 0 listings")
    ensures !Contains(text, "showing 0 of 0")
  {
    assert 'o' !in text && 's' !in text;
    MissingCharNotContained(text, "sold out", 0);
    MissingCharNotContained(text, "no tickets available", 1);
    MissingCharNotContained(text, "event has ended", 8);
    MissingCharNotContained(text, "no longer on sale", 1);
    MissingCharNotContained(text, "view 0 listings", 9);
    MissingCharNotContained(text, "showing 0 of 0", 0);
  }

  /** ... but of unknown availability on Viagogo, whose list lacks it. */
  lemma UnavailableUnknownOnViagogo(url: string)
    ensures Scrape(Viagogo, UnavailablePage, url).availability == Unknown
  {
    PlainHtmlPageText(UnavailablePage.html);
    SymbolFreePageHasNoPrice(Viagogo, UnavailablePage, url);
    NoViagogoPhraseInUnavailable(UnavailablePage.html);
    ViagogoNeedsOwnPhrase(UnavailablePage, url);
  }

  /** A Ticketmaster page reading "This event is sold out $50" is sold out
      although it shows a price. */
  lemma SoldOutDespitePrice(url: string)
    ensures Scrape(Ticketmaster, PageView("This event is sold out $50", "", ""), url).availability == SoldOut
  {
    var body := "This event is sold out $50";
    assert body[23] == '$';
    assert body == "This event is " + "sold out" + " $50";
    assert Lower("sold out") == "sold out";
    PhraseSurvivesLower("This event is ", "sold out", " $50");
    assert TicketmasterProfile.soldOutIndicators.value[0] == "sold out";
    SoldOutWinsOverPrice(PageView(body, "", ""), url, TicketmasterProfile, "sold out");
  }

  /** A StubHub page whose HTML reads "no tickets available" (and whose
      body text is empty) is sold out. */
  lemma NoTicketsSoldOutOnStubHub(url: string)
    ensures Scrape(StubHub, PageView("", "no tickets available", ""), url).availability == SoldOut
  {
    var text := "no tickets available";
    assert !ShowsCurrencySymbol("");
    assert Lower(text) == text by {
      assert forall k :: 0 <= k < |text| ==> !('A' <= text[k] <= 'Z');
    }
    assert OccursAt(Lower(text), text, 0);
    assert StubHubProfile.soldOutIndicators.value[1] == text;
    SoldOutWinsOverPrice(PageView("", text, ""), url, StubHubProfile, text);
  }

  /** A body text that shows no currency symbol is thrown away whole: the
      scrape reads only the HTML, whatever sold-out phrase the body holds. */
  lemma SymbolFreeBodyIgnored(m: Marketplace, body: string, html: string, title: string, url: string)
    requires !ShowsCurrencySymbol(body)
    ensures Scrape(m, PageView(body, html, title), url) == Scrape(m, PageView("", html, title), url)
    ensures Scrape(m, PageView(body, html, title), url).availability == SoldOut <==>
      exists k :: 0 <= k < |ProfileOf(m).soldOutIndicators.value| &&
        Contains(Lower(html), ProfileOf(m).soldOutIndicators.value[k])
  {
    assert !ShowsCurrencySymbol("");
    ProfilesReplaceDefaults(m);
  }

  /** The StubHub page of the "no tickets available" test, with the phrase
      in the body text: since the body shows no price, it is the HTML that
      decides, and the page is sold out only when the HTML holds one of
      StubHub's phrases. */
  lemma StubHubPhraseInBodyOnly(body: string, html: string, title: string, url: string)
    requires body == "no tickets available"
    ensures Scrape(StubHub, PageView(body, html, title), url).availability == SoldOut <==>
      exists k :: 0 <= k < 4 && Contains(Lower(html), StubHubProfile.soldOutIndicators.value[k])
  {
    assert '$' !in body && '\U{00A3}' !in body && '\U{20AC}' !in body;
    SymbolFreeBodyIgnored(StubHub, body, html, title, url);
  }

  /** "event has ended" does not occur in "event has passed": the two
      possible positions both disagree somewhere. */
  lemma EndedNotInPassed()
    ensures !Contains("event has passed", "event has ended")
  {
    var hay := "event has passed";
    var needle := "event has ended";
    forall k: nat ensures !OccursAt(hay, needle, k) {
      if k + |needle| <= |hay| {
        if k == 0 {
          assert hay[k..k + |needle|][10] == 'p' != needle[10];
        } else {
          assert hay[k..k + |needle|][0] == 'v' != needle[0];
        }
      }
    }
  }

  /** None of Viagogo's phrases occurs in "event has passed". The text is a
      parameter so that the solver does not unfold the substring search on
      two literals. */
  lemma NoViagogoPhraseInPassed(text: string)
    requires text == "event has passed"
    ensures !Contains(text, "sold out")
    ensures !Contains(text, "no tickets available")
    ensures !Contains(text, "event has ended")
    ensures !Contains(text, "no longer on sale")
    ensures !Contains(text, "view 0 listings")
    ensures !Contains(text, "showing 0 of 0")
  {
    assert 'o' !in text && 'i' !in text;
    MissingCharNotContained(text, "sold out", 1);
    MissingCharNotContained(text, "no tickets available", 1);
    EndedNotInPassed();
    MissingCharNotContained(text, "no longer on sale", 1);
    MissingCharNotContained(text, "view 0 listings", 1);
    MissingCharNotContained(text, "showing 0 of 0", 2);
  }

  const PassedPage := PageView("", "event has passed", "")

  /** A Viagogo page reading "event has passed" is not sold out: the phrase
      is a default one, and Viagogo's own list replaces the defaults. */
  lemma PassedUnknownOnViagogo(url: string)
    ensures Scrape(Viagogo, PassedPage, url).availability == Unknown
  {
    PlainHtmlPageText(PassedPage.html);
    SymbolFreePageHasNoPrice(Viagogo, PassedPage, url);
    NoViagogoPhraseInPassed(PassedPage.html);
    ViagogoNeedsOwnPhrase(PassedPage, url);
  }
}
