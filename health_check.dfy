/** src/health_check.py: each marketplace's scraper is run once (no retry)
    on a known event page, and the results are summarised. What the browser
    did is a `CheckRun` input; timestamps and response times are left out. */
module HealthCheck {
  import opened Common
  import opened Extraction
  import opened Profiles

  datatype HealthCheckResult = HealthCheckResult(
    scraperName: string,
    url: string,
    success: bool,
    priceExtracted: bool,
    priceValue: Option<nat>,
    currency: Option<string>,
    availability: Option<Availability>,
    errorMessage: Option<string>)

  /** One call of `scrape`: the page it rendered, or the message of what it raised. */
  datatype ScrapeAttempt = Rendered(page: PageView) | ScrapeRaised(message: string)

  /** The browser during one check: starting may raise, then the scrape,
      then stopping may raise. */
  datatype CheckRun = CheckRun(startError: Option<string>, scrape: ScrapeAttempt, stopError: Option<string>)

  const NoValidPrice := "Price is None or zero"

  /** The scrape of the check returned a positive price. */
  predicate Passes(m: Marketplace, url: string, run: CheckRun)
  {
    && run.startError.None? && run.scrape.Rendered?
    && Scrape(m, run.scrape.page, url).price.Some? && Scrape(m, run.scrape.page, url).price.value > 0
  }

  /** The result `check_scraper` reports: the check passes when the scrape
      returned a positive price. Fields read from the result keep their values
      when stopping the browser raises afterwards; the message is then the
      stop error. */
  function CheckResult(name: string, m: Marketplace, url: string, run: CheckRun): (r: HealthCheckResult)
    ensures r.scraperName == name && r.url == url
    ensures r.priceExtracted == r.success
    ensures r.success <==> Passes(m, url, run)
    ensures run.startError.Some? ==>
      r == HealthCheckResult(name, url, false, false, None, None, None, run.startError)
    ensures run.startError.None? && run.scrape.Rendered? ==>
      var res := Scrape(m, run.scrape.page, url);
      && r.priceValue == res.price
      && r.currency == res.rawData.currency
      && r.availability == Some(res.availability)
    ensures run.startError.None? && run.scrape.ScrapeRaised? ==>
      r.priceValue.None? && r.currency.None? && r.availability.None?
    ensures run.startError.None? && run.stopError.Some? ==> r.errorMessage == run.stopError
    ensures run.startError.None? && run.stopError.None? ==>
      r.errorMessage == (if r.success then None
                         else if run.scrape.ScrapeRaised? then Some(run.scrape.message)
                         else Some(NoValidPrice))
  {
    if run.startError.Some? then HealthCheckResult(name, url, false, false, None, None, None, run.startError)
    else
      match run.scrape
      case Rendered(page) =>
        var res := Scrape(m, page, url);
        var ok := res.price.Some? && res.price.value > 0;
        var message := if run.stopError.Some? then run.stopError else if ok then None else Some(NoValidPrice);
        HealthCheckResult(name, url, ok, ok, res.price, res.rawData.currency, Some(res.availability), message)
      case ScrapeRaised(msg) =>
        var message := if run.stopError.Some? then run.stopError else Some(msg);
        HealthCheckResult(name, url, false, false, None, None, None, message)
  }

  /** `check_scraper`, step by step: start the browser, scrape, then stop
      the browser whatever happened. */
  method CheckScraper(name: string, m: Marketplace, url: string, run: CheckRun) returns (r: HealthCheckResult)
    ensures r == CheckResult(name, m, url, run)
  {
    var errorMessage: Option<string> := None;
    var priceExtracted := false;
    var priceValue: Option<nat> := None;
    var currency: Option<string> := None;
    var availability: Option<Availability> := None;
    var success := false;
    if run.startError.Some? {
      errorMessage := run.startError;
    } else {
      match run.scrape {
        case Rendered(page) =>
          var result := Scrape(m, page, url);
          priceValue := result.price;
          availability := Some(result.availability);
          currency := result.rawData.currency;
          if priceValue.Some? && priceValue.value > 0 {
            priceExtracted := true;
            success := true;
          } else {
            errorMessage := Some(NoValidPrice);
          }
        case ScrapeRaised(message) =>
          errorMessage := Some(message);
      }
      if run.stopError.Some? {
        errorMessage := run.stopError;
      }
    }
    r := HealthCheckResult(name, url, success, priceExtracted, priceValue, currency, availability, errorMessage);
  }

  /** `TEST_URLS`. */
  const TicketmasterTestUrl := "https://www.ticketmaster.com/los-angeles-lakers-vs-milwaukee-bucks-los-angeles-california-01-09-2026/event/2C00630818590ACB"
  const StubHubTestUrl := "https://www.stubhub.com/los-angeles-lakers-los-angeles-tickets-3-8-2026/event/159098523/"
  const ViagogoTestUrl := "https://www.viagogo.com/Sports-Tickets/Basketball/NBA/Los-Angeles-Lakers-Tickets/E-159128540"

  /** `check_all_scrapers`: Ticketmaster, StubHub and Viagogo, in that order,
      each on its test page. */
  method CheckAllScrapers(runs: seq<CheckRun>) returns (results: seq<HealthCheckResult>)
    requires |runs| == 3
    ensures |results| == 3
    ensures results[0].scraperName == "Ticketmaster" && results[0].url == TicketmasterTestUrl
    ensures results[1].scraperName == "StubHub" && results[1].url == StubHubTestUrl
    ensures results[2].scraperName == "Viagogo" && results[2].url == ViagogoTestUrl
    ensures results[0].success <==> Passes(Ticketmaster, TicketmasterTestUrl, runs[0])
    ensures results[1].success <==> Passes(StubHub, StubHubTestUrl, runs[1])
    ensures results[2].success <==> Passes(Viagogo, ViagogoTestUrl, runs[2])
    ensures results == [CheckResult("Ticketmaster", Ticketmaster, TicketmasterTestUrl, runs[0]),
                        CheckResult("StubHub", StubHub, StubHubTestUrl, runs[1]),
                        CheckResult("Viagogo", Viagogo, ViagogoTestUrl, runs[2])]
  {
    var tm := CheckScraper("Ticketmaster", Ticketmaster, TicketmasterTestUrl, runs[0]);
    var sh := CheckScraper("StubHub", StubHub, StubHubTestUrl, runs[1]);
    var vg := CheckScraper("Viagogo", Viagogo, ViagogoTestUrl, runs[2]);
    results := [tm, sh, vg];
  }

  // ----- generate_report -----

  /** `sum(1 for r in results if r.success)`. */
  function CountPassed(results: seq<HealthCheckResult>): (n: nat)
    ensures n <= |results|
    decreases |results|
  {
    if results == [] then 0
    else CountPassed(results[..|results| - 1]) + (if results[|results| - 1].success then 1 else 0)
  }

  /** Counting splits over concatenation. */
  lemma {:induction false} CountPassedAppend(a: seq<HealthCheckResult>, b: seq<HealthCheckResult>)
    ensures CountPassed(a + b) == CountPassed(a) + CountPassed(b)
    decreases |b|
  {
    if b == [] {
      assert a + b == a;
    } else {
      var n := |b| - 1;
      assert (a + b)[..|a + b| - 1] == a + b[..n];
      assert (a + b)[|a + b| - 1] == b[n];
      CountPassedAppend(a, b[..n]);
    }
  }

  /** Every result passed exactly when the count is the total; none did
      exactly when it is zero. */
  lemma {:induction false} CountPassedExtremes(results: seq<HealthCheckResult>)
    ensures CountPassed(results) == |results| <==> forall k :: 0 <= k < |results| ==> results[k].success
    ensures CountPassed(results) == 0 <==> forall k :: 0 <= k < |results| ==> !results[k].success
    decreases |results|
  {
    if results != [] {
      var n := |results| - 1;
      CountPassedExtremes(results[..n]);
      assert forall k :: 0 <= k < n ==> results[..n][k] == results[k];
    }
  }

  datatype Summary = Summary(total: nat, passed: nat, failed: nat, successRate: real)

  datatype Report = Report(summary: Summary, results: seq<HealthCheckResult>)

  /** The percentage of passed checks lies between 0 and 100 and reaches
      either end only when none or all of the checks passed. */
  lemma RateBounds(passed: nat, total: nat)
    requires 0 < total && passed <= total
    ensures var rate := passed as real / total as real * 100.0;
      && 0.0 <= rate <= 100.0
      && (rate == 100.0 <==> passed == total)
      && (rate == 0.0 <==> passed == 0)
  {
    var q := passed as real / total as real;
    assert q * total as real == passed as real;
    assert 0.0 <= q <= 1.0;
    assert q == 1.0 <==> passed == total;
  }

  /** `generate_report`: the counts and the pass rate as a percentage, zero
      when nothing was checked. */
  function GenerateReport(results: seq<HealthCheckResult>): (r: Report)
    ensures r.results == results
    ensures r.summary.total == |results|
    ensures r.summary.passed == CountPassed(results)
    ensures r.summary.passed + r.summary.failed == r.summary.total
    ensures results != [] ==> r.summary.successRate == CountPassed(results) as real / |results| as real * 100.0
    ensures results == [] ==> r.summary.successRate == 0.0
    ensures 0.0 <= r.summary.successRate <= 100.0
    ensures r.summary.successRate == 100.0 <==> results != [] && forall k :: 0 <= k < |results| ==> results[k].success
    ensures r.summary.successRate == 0.0 <==> forall k :: 0 <= k < |results| ==> !results[k].success
  {
    var total := |results|;
    var passed := CountPassed(results);
    CountPassedExtremes(results);
    var rate := if total > 0 then RateBounds(passed, total); passed as real / total as real * 100.0 else 0.0;
    Report(Summary(total, passed, total - passed, rate), results)
  }
}
