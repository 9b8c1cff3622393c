# Ticket price tracker: the extraction-and-decision engine

This project models the core of a ticket-price tracker. The tracker watches
event pages on three resale marketplaces (Ticketmaster, StubHub, Viagogo) and
mails the user when a price falls below the target they set. The model covers
these parts:

- **Price extraction** (`Currency`, `Extraction`). The currency table
  (USD `$`, GBP `£`, EUR `€`) and the price pattern `<symbol>\s*(\d+(?:,\d{3})*(?:\.\d{2})?)`
  are written out as a left-to-right matcher with a `findall`. Prices are
  integer cents.
- **Page reading** (`Extraction`). The page text falls back from the body text
  to the HTML. Currencies are tried in priority order. Sold-out phrases are
  checked on the lower-cased text and win over a price. The debugging record
  is built from the matches.
- **Marketplace profiles** (`Profiles`). Each marketplace's argument set
  (waits, scroll target, currencies, sold-out phrases) is a value. The scraper
  is chosen by source name.
- **Retry loop** (`Retry`). `scrape_with_retry` is an imperative loop of up to
  three attempts. It has an exponential back-off and writes a screenshot and
  an HTML dump after every failed attempt.
- **Database session** (`Store`). The alert, price-record and
  notification-log tables sit behind a session with pending and committed
  states, `commit` and `rollback`.
- **Alert manager** (`AlertManager`). It covers the notify decision
  (first time below target, then only on further drops), sending a
  notification, `process_alert` (scrape, record, notify, commit, or roll back
  on any error) and `process_all_alerts`.
- **Configuration sync** (`ConfigSync`). Alerts from the configuration file
  are upserted by name and committed once.
- **Health check** (`HealthCheck`). One unretried scrape per marketplace on a
  known page, and the summary report.

Everything the outside world does is an input:

- what the browser renders, or the exception it raises, on each attempt;
- whether each diagnostic write succeeds;
- whether the mail server delivers;
- whether the database accepts a commit;
- the clock.

Three behaviours of the code that the model keeps as written:

- Diagnostics are written after every failed attempt, not only after the last
  one.
- `last_checked` is stamped only when the scrape returned. A scrape that fails
  rolls the stamp back with everything else.
- An exception from writing the screenshot or the HTML dump is not swallowed.
  It replaces the scrape's exception, and a failed screenshot skips the HTML
  dump.

## Model

| member | source | states |
|---|---|---|
| Common.LowerChar | src/scrapers/base.py:310 | an upper-case ASCII letter becomes its lower-case letter (code point plus 32); every other character is kept |
| Common.Lower | src/scrapers/base.py:310 | lower-casing keeps the length of the text |
| Common.LowerIdempotent | src/scrapers/base.py:310 | lower-casing an already lower-cased text changes nothing |
| Common.ContainsFrom | src/scrapers/base.py:312 | Python's substring test from a position holds exactly when the needle occurs at or after it |
| Common.Contains | src/scrapers/base.py:312 | `phrase in text` holds exactly when the phrase occurs somewhere in the text |
| Common.MissingCharNotContained | src/scrapers/base.py:312 | a phrase holding a character the text lacks is not in the text |
| Common.PhraseSurvivesLower | src/scrapers/base.py:310-312 | a lower-case phrase inside any text is still found after the text is lower-cased |
| Currency.Lookup | src/scrapers/base.py:51-67 | exactly USD, GBP and EUR are known, each mapped to its own symbol |
| Currency.SpanSpaces | src/scrapers/base.py:55 | `\s*` consumes the longest run of whitespace |
| Currency.SpanDigits | src/scrapers/base.py:55 | `\d+` consumes the longest run of digits |
| Currency.SpanGroups | src/scrapers/base.py:55 | `(?:,\d{3})*` consumes comma groups greedily and stops where no further group fits |
| Currency.MatchAt | src/scrapers/base.py:55 | a match at a position starts with the symbol, and its captured text lies inside the string |
| Currency.MatchAtCharacterized | src/scrapers/base.py:55 | the pattern matches at a position exactly when the symbol is there followed by optional whitespace and a digit |
| Currency.MatchIsAmount | src/scrapers/base.py:55 | the text a match captures has the shape digits, comma groups, optional two-digit fraction |
| Currency.FoundAreAmounts | src/scrapers/base.py:292 | every string `findall` returns has that amount shape |
| Currency.FoundNothingIff | src/scrapers/base.py:292 | `findall` returns nothing exactly when the pattern matches at no position |
| Currency.FindAllCharacterized | src/scrapers/base.py:292 | over the whole page text, every amount `findall` returns has the captured shape, and it returns nothing exactly when the pattern matches at no position |
| Currency.FirstFoundIsLeftmost | src/scrapers/base.py:292-296 | the first amount found is the one captured by the leftmost match |
| Currency.NoSymbolNoAmount | src/scrapers/base.py:292 | a text without the currency's symbol yields no amount for it |
| Currency.RemoveCommas | src/scrapers/base.py:295 | `replace(",", "")` leaves no comma, never lengthens the text and keeps a comma-free text as it is |
| Currency.RemoveCommasKeepsOthers | src/scrapers/base.py:295 | every character but the comma is kept exactly as often as it occurs |
| Currency.RemoveCommasOfConcat | src/scrapers/base.py:295 | removing commas works piece by piece, so the order of what remains is kept |
| Currency.GroupsWithoutCommas | src/scrapers/base.py:55 | thousands groups without their commas are digits only |
| Currency.GroupedCents | src/scrapers/base.py:295-296 | an amount with thousands groups is read as all its integer digits in order, without the commas, times 100, plus the two fraction digits when present |
| Currency.GroupedExample | src/scrapers/base.py:295-296 | "1,234.56" is read as 123456 cents |
| Currency.FormatCents | src/scrapers/base.py:295-296 | every price in cents has a written form that the pattern accepts and that reads back as that price |
| Currency.PointedCents | src/scrapers/base.py:295-296 | an amount with a point and two digits is read as integer part times 100 plus the fraction |
| Currency.FindAllOfPointed | src/scrapers/base.py:292 | a symbol followed by digits, a point and two digits is found as exactly that one amount |
| Currency.FindAllOfFormatted | src/scrapers/base.py:292-296 | a text that is a symbol and one written price yields exactly that one amount |
| Extraction.ExtractPrice | src/scrapers/base.py:279-304 | no currency exactly when every code is unknown or unmatched; otherwise the first code (in order) that matches, with all its matches and the first match, without commas, as the price |
| Extraction.FallbackLosesNoPrice | src/scrapers/base.py:267-277 | falling back to the HTML loses no price: a body text without `$`, `£`, `€` yields none |
| Extraction.UnknownCodeSkipped | src/scrapers/base.py:288-290 | a code missing from the table is skipped as if it were absent |
| Extraction.SinglePriceExtracted | src/scrapers/base.py:279-304 | a text showing one price in the first code yields exactly that price, that code and that one match |
| Extraction.AnyIndicatorIn | src/scrapers/base.py:311-314 | true exactly when some phrase occurs in the text |
| Extraction.CheckAvailability | src/scrapers/base.py:306-316 | sold out exactly when a phrase occurs in the lower-cased text, whatever the price; otherwise available exactly when a price was found, else unknown |
| Extraction.EffectiveIndicators | src/scrapers/base.py:242 | a missing or empty phrase list falls back to the seven defaults; a non-empty one is used as given |
| Extraction.BuildRawData | src/scrapers/base.py:318-343 | price text and the price list exist exactly when something matched in a known currency; the price text is the symbol plus the first match; the list is at most the first ten matches, each with its symbol |
| Extraction.ScrapePricePage | src/scrapers/base.py:199-248 | a price comes with its currency and price text and never without them; the currency is one the profile asked for; without a price the page is never available |
| Extraction.SoldOutWinsOverPrice | src/scrapers/base.py:306-316 | a sold-out phrase in the page text makes the page sold out even when it shows a price |
| Retry.Backoff | src/scrapers/base.py:357-361 | the wait after failed attempt n is 2 seconds while 2^(n-1) is below 2, exactly 2^(n-1) seconds while it lies in [2, 10], and 10 seconds once it is above 10 |
| Retry.BackoffGrows | src/scrapers/base.py:357-361 | the back-off never shrinks from one attempt to the next |
| Retry.WaitsWithinThreeAttempts | src/scrapers/base.py:357-361 | the first two waits are both 2 seconds |
| Retry.RetryFrom | src/scrapers/base.py:357-385 | the loop run from attempt n on makes at least n and at most all attempts |
| Retry.RaisedError | src/scrapers/base.py:379-385 | a failing screenshot replaces the scrape's exception; otherwise a failing HTML dump does; otherwise the scrape's exception is re-raised |
| Retry.FailureArtifacts | src/scrapers/base.py:175-197 | a failed attempt leaves its screenshot and then its HTML dump when both writes succeed, and never more than those two |
| Retry.ScrapeWithRetry | src/scrapers/base.py:357-385 | the loop returns what `RetryRunOf` gives for the same attempts: outcome, attempts made and waits; the diagnostics directory gains exactly that run's files |
| Retry.RunStopsAtFirstReturn | src/scrapers/base.py:357-385 | every attempt before the last one made failed; the loop returns exactly when that last attempt returned, and fails only after all attempts |
| Retry.RunWaits | src/scrapers/base.py:357-361 | one wait between consecutive attempts, each the back-off of the attempt that just failed |
| Retry.FirstReturnEndsRun | src/scrapers/base.py:374-377 | the first attempt that returns ends the loop with its value |
| Retry.AllFailReraisesLast | src/scrapers/base.py:357-361 | when every attempt fails, the last attempt's exception is re-raised after all three attempts |
| Retry.DumpPairsInOrder | src/scrapers/base.py:383-384 | diagnostic files come in attempt order, screenshot before HTML dump |
| Retry.DiagnosticsOnEveryFailure | src/scrapers/base.py:379-385 | with working writes, every failed attempt (not only the last) leaves a screenshot and an HTML dump, in order |
| Retry.ThreeAttemptsTwoSecondWaits | src/scrapers/base.py:357-361 | at most three calls, with a two-second wait before each retry |
| Profiles.ProfileOf | src/scrapers/ticketmaster.py:21-33 | every marketplace tries USD then GBP, and only Viagogo also EUR; all scroll to trigger loading, StubHub to 800 pixels and the others to the page bottom; the render wait is 15000 ms on Ticketmaster, 10000 ms on StubHub and 12000 ms on Viagogo; each passes its own non-empty phrase list (four phrases, six on Viagogo) holding "sold out" and "no tickets available"; the phrases themselves are carried by the constants `TicketmasterProfile`, `StubHubProfile` and `ViagogoProfile` |
| Profiles.ScrapeCalls | src/scrapers/base.py:374-376 | the retry loop makes one call of `scrape` per rendering attempt |
| Profiles.GetScraper | src/alert_manager.py:36-55 | the lower-cased source picks the marketplace; any other name is the error `Unknown source: <source>` |
| Profiles.ProfilesReplaceDefaults | src/scrapers/ticketmaster.py:21-33 | each marketplace passes its own non-empty phrase list, so the defaults are never used |
| Profiles.EuroOnlyPageHasNoPrice | src/scrapers/stubhub.py:26 | Ticketmaster and StubHub find no price on a page without `$` or `£`, and never call it available |
| Profiles.ViagogoEuroIsLastResort | src/scrapers/viagogo.py:26 | Viagogo reports euros exactly when there is no dollar and no pound amount but a euro amount, and then the first euro amount is the price |
| Profiles.PlainHtmlPageText | src/scrapers/base.py:267-277 | an empty body sends the reader to the HTML; a letters-and-spaces HTML is unchanged by lower-casing |
| Profiles.SymbolFreePageHasNoPrice | src/scrapers/base.py:279-304 | a page text without any currency symbol yields no price on any marketplace |
| Profiles.UnavailableSoldOutOnTicketmaster | src/scrapers/ticketmaster.py:27-32 | a page reading "unavailable" is sold out on Ticketmaster |
| Profiles.ViagogoNeedsOwnPhrase | src/scrapers/viagogo.py:27-34 | Viagogo marks a page sold out only through one of its own six phrases |
| Profiles.NoViagogoPhraseInUnavailable | src/scrapers/viagogo.py:27-34 | none of Viagogo's six phrases occurs in "unavailable" |
| Profiles.UnavailableUnknownOnViagogo | src/scrapers/viagogo.py:27-34 | the same "unavailable" page is of unknown availability on Viagogo |
| Profiles.SoldOutDespitePrice | tests/test_scrapers.py:53-66 | the Ticketmaster page "This event is sold out $50" is sold out |
| Profiles.NoTicketsSoldOutOnStubHub | src/scrapers/stubhub.py:27-32 | a StubHub page whose HTML reads "no tickets available" and whose body text is empty is sold out |
| Profiles.SymbolFreeBodyIgnored | src/scrapers/base.py:267-277 | a body text without `$`, `£`, `€` has no effect on the result, and the page is sold out exactly when one of the marketplace's phrases occurs in the lower-cased HTML |
| Profiles.StubHubPhraseInBodyOnly | tests/test_scrapers.py:89-99 | with "no tickets available" in the body text only, the StubHub page is sold out exactly when the HTML holds one of StubHub's four phrases: the test's expectation rests on what the mocked page returns as its HTML, not on the body text it sets |
| Profiles.EndedNotInPassed | src/scrapers/viagogo.py:30 | "event has ended" does not occur in "event has passed" |
| Profiles.NoViagogoPhraseInPassed | src/scrapers/viagogo.py:27-34 | none of Viagogo's six phrases occurs in "event has passed" |
| Profiles.PassedUnknownOnViagogo | src/scrapers/base.py:70-78 | "event has passed", a default phrase only, does not make a Viagogo page sold out |
| Store.Session.constructor | src/models.py:21-79 | a new session holds the stored tables, with nothing pending |
| Store.Session.Commit | src/alert_manager.py:142-143 | a commit makes the pending tables durable, or raises and keeps the old ones |
| Store.Session.Rollback | src/alert_manager.py:145-148 | a rollback throws away every change since the last commit |
| Store.Session.AddPriceRecord | src/alert_manager.py:111-118 | adding a price record appends it to the pending records only |
| Store.Session.AddNotificationLog | src/alert_manager.py:218-228 | adding a log appends it to the pending logs only |
| Store.Session.AddAlert | src/config.py:83-93 | adding an alert appends it to the pending alerts only |
| Store.Session.SetAlert | src/config.py:76-82 | assigning an alert's attributes replaces that pending row only |
| Store.LastLoggedIsLogged | src/models.py:67-79 | an alert has a latest logged price only if some log names it |
| Store.LastLoggedAfterAppend | src/alert_manager.py:218-228 | after a log is appended, its alert's latest logged price is that log's price; other alerts keep theirs |
| AlertManager.RawDataToDict | src/alert_manager.py:57-82 | url and title always; price text, currency and error exactly when present and non-empty; the price list exactly when non-empty |
| AlertManager.PricedScrapeKeepsEvidence | src/alert_manager.py:66-82 | a scrape with a price stores its price text, currency and price list, and no error |
| AlertManager.ShouldNotify | src/alert_manager.py:150-195 | notify exactly when the price is below target and either nothing was notified or it is below the last notified price; "first_time" and "price_drop" say which |
| AlertManager.NotifiedPricesStrictlyFall | src/alert_manager.py:169-195 | along any sequence of observed prices, the notified ones are below target, below the last notified price, strictly falling and among the observed |
| AlertManager.NotificationExample | tests/test_alert_manager.py:60-105 | observations 95, 95, 90, 92, 80 against target 100 notify at 95, 90 and 80 only |
| AlertManager.Notified | src/alert_manager.py:197-238 | only a delivered mail sets the alert's last notified price and appends a log with reason and price; a failure or exception changes nothing |
| AlertManager.SendNotification | src/alert_manager.py:197-238 | the session's pending tables become those of `Notified`; nothing is committed |
| AlertManager.ScrapedFor | src/alert_manager.py:96-106 | a scrape result is used only when the source is known and the browser started and stopped cleanly |
| AlertManager.ProcessAlert | src/alert_manager.py:84-148 | the session ends holding exactly the specified committed tables, with nothing pending; the diagnostics directory gains the retry loop's files |
| AlertManager.FailureRollsBack | src/alert_manager.py:145-148 | success exactly when the scrape was usable and the commit went through; any failure leaves the last committed tables |
| AlertManager.UnknownSourceFails | src/alert_manager.py:51-53 | an alert with an unknown source fails, rolls back and writes no diagnostics |
| AlertManager.SuccessStampsOnlyThisAlert | src/alert_manager.py:108 | success stamps the alert with the clock and changes nothing else about it but its last notified price; other alerts are untouched |
| AlertManager.PriceRecordIffPrice | src/alert_manager.py:111-118 | success stores one price record exactly when a price was found, with the price, availability and debugging record |
| AlertManager.NotificationLogged | src/alert_manager.py:121-128 | success logs a notification exactly when the price calls for one and the mail was delivered; that price becomes the last notified one |
| AlertManager.NoRenotifyAtSamePrice | src/alert_manager.py:176-195 | after a delivered, committed notification, the same price again logs nothing |
| AlertManager.ProcessAlertKeepsLogsAgree | src/alert_manager.py:121-128 | every alert's last notified price stays the price of its latest log |
| AlertManager.ActiveIds | src/alert_manager.py:248 | exactly the active alerts, in table order, without repeats |
| AlertManager.BatchFrom | src/alert_manager.py:250-256 | the successes and failures add up to the number of alerts processed |
| AlertManager.ProcessAllAlerts | src/alert_manager.py:240-263 | every active alert is processed once in order; a failure does not stop the rest; the tallies count successes and failures and add up to the total |
| AlertManager.StepKeepsAlertCount | src/alert_manager.py:84-148 | processing one alert keeps every alert row and its configuration, and only appends records and logs |
| AlertManager.BatchKeepsHistory | src/alert_manager.py:240-263 | a batch keeps every alert row and its configuration, and only appends records and logs |
| AlertManager.BatchKeepsLogsAgree | src/alert_manager.py:240-263 | a batch keeps every last notified price equal to its latest logged price |
| ConfigSync.GetOr | src/config.py:76-93 | `dict.get` gives the value when present and the default otherwise |
| ConfigSync.FindByName | src/config.py:74 | the first alert of that name, or none exactly when no alert has it |
| ConfigSync.Created | src/config.py:83-93 | a new alert exists exactly when source, url and target price are given; it is active unless told otherwise and never notified or checked |
| ConfigSync.Updated | src/config.py:76-82 | an existing alert takes each of source, url, target price and active that the entry gives and keeps each it omits; its name, last notified price and last check are untouched |
| ConfigSync.ApplyEntry | src/config.py:67-93 | a nameless entry is skipped; an entry fails exactly when it would create an alert lacking a required column; an entry naming an existing alert replaces only the first alert of that name by its update and keeps the count and every other alert; an entry with a new name and every required column appends the created alert after the old ones |
| ConfigSync.SyncAlertsToDb | src/config.py:54-96 | the pending alerts follow the entries; everything is committed once, and only when every entry went through |
| ConfigSync.SyncKeepsNotificationState | src/config.py:76-82 | the sync never deletes or renames an alert and never touches its last notified price or last check; new alerts have neither |
| ConfigSync.UnmentionedAlertUnchanged | src/config.py:67-93 | an alert no entry names comes out unchanged |
| ConfigSync.EntryTakesEffect | src/config.py:76-93 | after an entry, the first alert of its name carries every key the entry gives |
| ConfigSync.EntryIdempotent | src/config.py:67-93 | applying the same entry twice equals applying it once |
| ConfigSync.IncompleteNewAlertFails | src/config.py:83-95 | an entry creating an alert without a required column stops the sync, so nothing is committed |
| ConfigSync.SyncKeepsLogsAgree | src/config.py:76-82 | the sync keeps every last notified price equal to its latest logged price |
| HealthCheck.CheckResult | src/health_check.py:51-113 | the check passes exactly when the scrape returned a positive price; it reports the price, currency and availability read; the error message is the start error, the stop error, the scrape's exception or "Price is None or zero" |
| HealthCheck.CheckScraper | src/health_check.py:51-113 | the step-by-step check returns exactly the result `CheckResult` describes |
| HealthCheck.CheckAllScrapers | src/health_check.py:115-136 | Ticketmaster, StubHub and Viagogo in that order, each on its test page; each result is exactly that of its own check, with its price, currency, availability and error message |
| HealthCheck.CountPassed | src/health_check.py:148 | the passed count never exceeds the total |
| HealthCheck.CountPassedAppend | src/health_check.py:148 | counting splits over concatenation |
| HealthCheck.CountPassedExtremes | src/health_check.py:148 | the count is the total exactly when all passed, and zero exactly when none did |
| HealthCheck.RateBounds | src/health_check.py:157 | the rate lies in [0, 100], and is 100 or 0 exactly when all or none passed |
| HealthCheck.GenerateReport | src/health_check.py:138-162 | the results are kept; the total is their number, passed is the number that succeeded and failed the rest; the rate is passed / total * 100 when there are results and 0 otherwise, lies in [0, 100], and is 100 exactly when there were checks and all passed, 0 exactly when none passed |

## Left out

- Browser automation (launching, navigation, waiting, scrolling, user-agent and viewport) is not modelled. Each rendered page (body text, HTML, title) or the exception raised instead is an input. The scroll target and wait time are only recorded in each profile.
- Sleeps, `random_delay` and the real back-off waits are left out. The waits are returned as numbers of seconds.
- The retry library's internals are not modelled. The loop is its documented behaviour with `stop_after_attempt(3)`, and each run is given as exactly three attempt outcomes, of which only those used are read.
- Retry.FailureArtifacts: files are named by attempt number. In the source they are named by timestamp, so two failures in the same second overwrite each other. The case where no page is open, so `save_screenshot` writes nothing without raising, is not modelled. When the HTML dump raises, the source has already opened its file for writing, so an empty `page_*.html` is left behind; the model records no file for it.
- Currency.IsDigit: `\d` is the ASCII digits only. Python's `\d` also accepts other Unicode decimal digits, which `float` would then read.
- Common.Lower: lower-casing changes only ASCII `A`-`Z`. Python's `str.lower` also folds non-ASCII letters, and can change a text's length.
- Common.LowerChar: the same gap for one character: a non-ASCII letter is kept as it is.
- Prices are integer cents instead of floats. The matched decimal is a whole number of cents, because the pattern allows at most two fraction digits. The model compares exact cents and does not capture float rounding: most decimal fractions have no exact binary value, and amounts above about 2^53/100 lose their cents, so two different amounts can compare equal in the notify decision.
- HealthCheck.GenerateReport: the pass rate is an exact real; the source rounds it with `round(..., 2)`.
- Timestamps, response times, `created_at`, `sent_at` and `checked_at` are left out. `last_checked` is a clock reading passed in.
- The mail itself is not modelled: the SMTP notifier and its message text. Sending is an input outcome: delivered, not delivered, or raised.
- The scheduler, the dashboard, `main.py`, `run_health_check.py`, `verify_setup.py`, YAML loading, `save_report`, `print_summary` and logging are not part of this model.
- The SQLAlchemy session is modelled as pending and committed tables, with alerts identified by their position. Autoincrement ids, lazy loading and cascades are left out.
- ConfigSync.FindByName: the first alert of a name is taken in table order. The source's `first()` query has no ORDER BY, so which of several alerts of the same name it finds is up to the database.
- AlertManager.ActiveIds: the active alerts are taken in table order. The source's query has no ORDER BY, so the order is whatever the database returns.
- AlertManager.ProcessAllAlerts: requires a session with nothing pending. The alerts are read from that session; the source queries the same session that earlier alerts have committed to.
- ConfigSync.AlertEntry: each key is either absent or given a value. A key given with no value (`url:` or `target_price: null` in the YAML file) is present with the value `None`, and the model cannot express it.
- ConfigSync.Created: a new alert is refused only when source, url or target price is absent. In the source an entry giving one of them as null is refused too, by the NOT NULL column, and the sync then raises and commits nothing.
- ConfigSync.Updated: an explicit null is not modelled. In the source `.get` writes it over the existing field: a null source, url or target price makes the autoflush or the commit refuse the sync, and a null `active` stores NULL, which takes the alert out of the active ones.
- ConfigSync.ApplyEntry: entries with explicit nulls are not represented, so the refusals and the NULL `is_active` they cause in the source are not part of its contract.
- ConfigSync.SyncAlertsToDb: an entry the database refuses returns `false` at that entry, with the pending changes left in place. In the source the exception is raised by the autoflush of the next query or by the commit, and the caller sees it. In both cases nothing is committed.
