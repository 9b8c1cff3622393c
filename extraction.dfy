/** The pure part of a page scrape in src/scrapers/base.py: choosing the text to
    read, extracting a price in the first currency (in priority order) that has
    one, classifying availability, and building the debugging record. The page
    itself (body text, HTML and title after rendering) is an input. */
module Extraction {
  import opened Common
  import opened Currency

  datatype Availability = Available | SoldOut | Unknown

  /** The rendered page as the browser would report it. */
  datatype PageView = PageView(bodyText: string, html: string, title: string)

  /** Where `_scroll_page` scrolls to: the page bottom or a pixel offset. */
  datatype ScrollTarget = PageBottom | Offset(pixels: nat)

  /** The arguments a marketplace passes to `_scrape_price_page`. */
  datatype SourceProfile = SourceProfile(
    waitMs: nat,
    scrollToTriggerLoading: bool,
    scrollTo: ScrollTarget,
    currencies: seq<string>,
    soldOutIndicators: Option<seq<string>>)

  /** `(price, currency_code, all_price_matches)`; the price is in cents. */
  datatype Extraction = Extraction(price: Option<nat>, currency: Option<string>, matches: seq<string>)

  datatype RawScrapeData = RawScrapeData(
    url: string,
    pageTitle: string,
    priceText: Option<string>,
    currency: Option<string>,
    allPricesFound: Option<seq<string>>,
    error: Option<string>)

  datatype ScrapeResult = ScrapeResult(price: Option<nat>, availability: Availability, rawData: RawScrapeData)

  const DefaultSoldOutIndicators: seq<string> := [
    "sold out",
    "no tickets available",
    "event has passed",
    "event has ended",
    "unavailable",
    "no longer available",
    "no longer on sale"
  ]

  // ----- Price extraction -----

  /** The code gives no price: it is not in the currency table, or its pattern
      matches nowhere in the text. */
  predicate Unmatched(text: string, code: string)
  {
    Lookup(code).None? || FindAll(text, Lookup(code).value.symbol) == []
  }

  /** `codes[k]` is the first code of the list that gives a price. */
  predicate FirstMatched(text: string, codes: seq<string>, k: nat)
  {
    k < |codes| && !Unmatched(text, codes[k]) && forall j :: 0 <= j < k ==> Unmatched(text, codes[j])
  }

  /** `_extract_price`: try the codes in order, skip the ones the table lacks,
      and stop at the first whose pattern matches; its first match, without
      commas, is the price. */
  function ExtractPrice(text: string, codes: seq<string>): (r: Extraction)
    ensures r.currency.None? <==> forall k :: 0 <= k < |codes| ==> Unmatched(text, codes[k])
    ensures r.currency.None? ==> r == Extraction(None, None, [])
    ensures r.currency.Some? ==>
      exists k :: 0 <= k < |codes| && codes[k] == r.currency.value && FirstMatched(text, codes, k)
    ensures r.currency.Some? ==>
      && Lookup(r.currency.value).Some?
      && r.matches == FindAll(text, Lookup(r.currency.value).value.symbol)
      && r.matches != []
      && r.price == Some(AmountCents(r.matches[0]))
    decreases |codes|
  {
    if codes == [] then Extraction(None, None, [])
    else
      var here := Lookup(codes[0]);
      if here.Some? && FindAll(text, here.value.symbol) != [] then
        var ms := FindAll(text, here.value.symbol);
        assert FirstMatched(text, codes, 0);
        Extraction(Some(AmountCents(ms[0])), Some(codes[0]), ms)
      else
        var r := ExtractPrice(text, codes[1..]);
        assert Unmatched(text, codes[0]);
        assert forall k :: 0 <= k < |codes| - 1 ==> codes[1..][k] == codes[k + 1];
        assert forall k :: 0 <= k < |codes| - 1 && FirstMatched(text, codes[1..], k) ==>
          FirstMatched(text, codes, k + 1);
        r
  }

  /** The text `_get_page_text` reads: the body text, unless it shows none of
      the symbols `$`, `£`, `€`, in which case the full HTML. */
  predicate ShowsCurrencySymbol(text: string)
  {
    '$' in text || '\U{00A3}' in text || '\U{20AC}' in text
  }

  function PageText(page: PageView): string
  {
    if ShowsCurrencySymbol(page.bodyText) then page.bodyText else page.html
  }

  /** Falling back to the HTML never throws a price away: a body text that
      shows no currency symbol gives no price in any of the three currencies. */
  lemma FallbackLosesNoPrice(page: PageView, codes: seq<string>)
    requires !ShowsCurrencySymbol(page.bodyText)
    ensures ExtractPrice(page.bodyText, codes) == Extraction(None, None, [])
  {
    NoSymbolNoAmount(page.bodyText, Usd.symbol);
    NoSymbolNoAmount(page.bodyText, Gbp.symbol);
    NoSymbolNoAmount(page.bodyText, Eur.symbol);
  }

  /** A code missing from the currency table is skipped as if it were not
      in the list. */
  lemma UnknownCodeSkipped(text: string, code: string, rest: seq<string>)
    requires Lookup(code).None?
    ensures ExtractPrice(text, [code] + rest) == ExtractPrice(text, rest)
  {
    assert ([code] + rest)[1..] == rest;
  }

  /** A page whose text is one price `<symbol><amount>`, in the currency tried
      first, yields exactly that amount in that currency. */
  lemma {:induction false} SinglePriceExtracted(code: string, rest: seq<string>, c: nat)
    requires Lookup(code).Some?
    ensures var text := [Lookup(code).value.symbol] + FormatCents(c);
      ExtractPrice(text, [code] + rest) == Extraction(Some(c), Some(code), [FormatCents(c)])
  {
    var sym := Lookup(code).value.symbol;
    FindAllOfFormatted(sym, c);
    assert ([code] + rest)[0] == code;
  }

  // ----- Availability -----

  /** The loop of `_check_availability`: does any indicator occur in the text? */
  function AnyIndicatorIn(lowered: string, indicators: seq<string>): (r: bool)
    ensures r <==> exists k :: 0 <= k < |indicators| && Contains(lowered, indicators[k])
    decreases |indicators|
  {
    if indicators == [] then false
    else
      var rest := AnyIndicatorIn(lowered, indicators[1..]);
      assert forall k :: 0 <= k < |indicators| - 1 ==> indicators[1..][k] == indicators[k + 1];
      Contains(lowered, indicators[0]) || rest
  }

  /** `_check_availability`: a sold-out phrase anywhere in the lower-cased text
      wins over a price; otherwise the page is available exactly when a price
      was found. */
  function CheckAvailability(text: string, price: Option<nat>, indicators: seq<string>): (r: Availability)
    ensures r == SoldOut <==> exists k :: 0 <= k < |indicators| && Contains(Lower(text), indicators[k])
    ensures r == Available <==> r != SoldOut && price.Some?
    ensures r == Unknown <==> r != SoldOut && price.None?
  {
    if AnyIndicatorIn(Lower(text), indicators) then SoldOut
    else if price.Some? then Available
    else Unknown
  }

  /** `sold_out_indicators or DEFAULT_SOLD_OUT_INDICATORS`: a missing or empty
      list falls back to the defaults. */
  function EffectiveIndicators(given: Option<seq<string>>): (r: seq<string>)
    ensures r != []
    ensures given.Some? && given.value != [] ==> r == given.value
    ensures given.None? || given.value == [] ==> r == DefaultSoldOutIndicators
  {
    if given.Some? && given.value != [] then given.value else DefaultSoldOutIndicators
  }

  // ----- Debugging record -----

  function Min(a: nat, b: nat): nat
  {
    if a < b then a else b
  }

  /** `_build_raw_data`: the first match with its symbol, and at most the first
      ten matches, each with its symbol; both only when something matched. */
  function BuildRawData(url: string, title: string, matches: seq<string>, code: Option<string>): (r: RawScrapeData)
    requires matches != [] && code.Some? && code.value != "" ==> Lookup(code.value).Some?
    ensures r.url == url && r.pageTitle == title && r.currency == code && r.error.None?
    ensures r.priceText.Some? <==> matches != [] && code.Some? && code.value != ""
    ensures r.allPricesFound.Some? <==> r.priceText.Some?
    ensures r.priceText.Some? ==>
      var sym := Lookup(code.value).value.symbol;
      var all := r.allPricesFound.value;
      && r.priceText.value == [sym] + matches[0]
      && |all| == Min(10, |matches|)
      && (forall k :: 0 <= k < |all| ==> all[k] == [sym] + matches[k])
      && all[0] == r.priceText.value
  {
    if matches != [] && code.Some? && code.value != "" then
      var sym := Lookup(code.value).value.symbol;
      var firstTen := matches[..Min(10, |matches|)];
      var all := seq(|firstTen|, k requires 0 <= k < |firstTen| => [sym] + firstTen[k]);
      RawScrapeData(url, title, Some([sym] + matches[0]), code, Some(all), None)
    else
      RawScrapeData(url, title, None, code, None, None)
  }

  // ----- The composed scrape -----

  /** `_scrape_price_page` once the page has rendered: the price, the
      availability and the debugging record agree with each other. Waiting
      and scrolling only shape the page, which is an input here. */
  function ScrapePricePage(page: PageView, url: string, profile: SourceProfile): (r: ScrapeResult)
    ensures r.price.Some? <==> r.rawData.currency.Some?
    ensures r.rawData.currency.Some? ==> r.rawData.currency.value in profile.currencies
    ensures r.rawData.priceText.Some? <==> r.price.Some?
    ensures r.price.None? ==> r.availability != Available
    ensures r.availability == Available ==> r.price.Some?
    ensures r.rawData.url == url && r.rawData.pageTitle == page.title
  {
    var text := PageText(page);
    var e := ExtractPrice(text, profile.currencies);
    var availability := CheckAvailability(text, e.price, EffectiveIndicators(profile.soldOutIndicators));
    ScrapeResult(e.price, availability, BuildRawData(url, page.title, e.matches, e.currency))
  }

  /** A sold-out phrase decides the availability even when a price was found. */
  lemma SoldOutWinsOverPrice(page: PageView, url: string, profile: SourceProfile, phrase: string)
    requires phrase in EffectiveIndicators(profile.soldOutIndicators)
    requires Contains(Lower(PageText(page)), phrase)
    ensures ScrapePricePage(page, url, profile).availability == SoldOut
  {
    var ind := EffectiveIndicators(profile.soldOutIndicators);
    var k :| 0 <= k < |ind| && ind[k] == phrase;
  }

}
