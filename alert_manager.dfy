/** src/alert_manager.py: one alert is scraped (with retries), its price is
    recorded, a notification is sent when the price first falls below the
    target or keeps falling, and everything is committed together or rolled
    back together. What the outside world does (the browser starting and
    stopping, each scrape attempt, the mail server, the database accepting
    the commit, the clock) is an `AlertRun` input. */
module AlertManager {
  import opened Common
  import opened Currency
  import opened Extraction
  import opened Profiles
  import opened Retry
  import opened Store

  // ----- _raw_data_to_dict -----

  /** Python truthiness of an optional string: present and non-empty. */
  predicate Truthy(s: Option<string>)
  {
    s.Some? && s.value != ""
  }

  /** `_raw_data_to_dict`: the url and title always; each optional field only
      when it is truthy. */
  function RawDataToDict(raw: RawScrapeData): (d: map<string, RawValue>)
    ensures d.Keys <= {"url", "page_title", "price_text", "currency", "all_prices_found", "error"}
    ensures "url" in d && d["url"] == Text(raw.url)
    ensures "page_title" in d && d["page_title"] == Text(raw.pageTitle)
    ensures "price_text" in d <==> Truthy(raw.priceText)
    ensures "price_text" in d ==> d["price_text"] == Text(raw.priceText.value)
    ensures "currency" in d <==> Truthy(raw.currency)
    ensures "currency" in d ==> d["currency"] == Text(raw.currency.value)
    ensures "all_prices_found" in d <==> raw.allPricesFound.Some? && raw.allPricesFound.value != []
    ensures "all_prices_found" in d ==> d["all_prices_found"] == Texts(raw.allPricesFound.value)
    ensures "error" in d <==> Truthy(raw.error)
    ensures "error" in d ==> d["error"] == Text(raw.error.value)
  {
    var base := map["url" := Text(raw.url), "page_title" := Text(raw.pageTitle)];
    var d1 := if Truthy(raw.priceText) then base["price_text" := Text(raw.priceText.value)] else base;
    var d2 := if Truthy(raw.currency) then d1["currency" := Text(raw.currency.value)] else d1;
    var d3 := if raw.allPricesFound.Some? && raw.allPricesFound.value != []
      then d2["all_prices_found" := Texts(raw.allPricesFound.value)] else d2;
    if Truthy(raw.error) then d3["error" := Text(raw.error.value)] else d3
  }

  /** A scrape that found a price keeps its evidence: the stored record holds
      the matched text, the currency and the list of prices seen, and no
      error. */
  lemma PricedScrapeKeepsEvidence(page: PageView, url: string, profile: SourceProfile)
    requires ScrapePricePage(page, url, profile).price.Some?
    ensures var r := ScrapePricePage(page, url, profile);
      var d := RawDataToDict(r.rawData);
      && "price_text" in d && "currency" in d && "all_prices_found" in d && "error" !in d
      && d["currency"] == Text(r.rawData.currency.value)
  {
    var text := PageText(page);
    var e := ExtractPrice(text, profile.currencies);
    assert Lookup(e.currency.value).Some?;
  }

  // ----- _should_notify -----

  datatype Reason = NoReason | FirstTime | PriceDrop

  /** The `trigger_reason` strings. */
  function ReasonText(r: Reason): string
  {
    match r
    case NoReason => ""
    case FirstTime => "first_time"
    case PriceDrop => "price_drop"
  }

  datatype Decision = Decision(notify: bool, reason: Reason)

  /** `_should_notify`: notify when the price is below the target and either
      nothing was notified yet or it is below the last notified price. */
  function ShouldNotify(target: int, lastNotified: Option<int>, price: int): (d: Decision)
    ensures d.notify <==> price < target && (lastNotified.None? || price < lastNotified.value)
    ensures d.notify <==> d.reason != NoReason
    ensures d.reason == FirstTime <==> price < target && lastNotified.None?
    ensures d.reason == PriceDrop <==> price < target && lastNotified.Some? && price < lastNotified.value
  {
    if price >= target then Decision(false, NoReason)
    else if lastNotified.None? then Decision(true, FirstTime)
    else if price < lastNotified.value then Decision(true, PriceDrop)
    else Decision(false, NoReason)
  }

  /** The prices notified along a run of observations when every notification
      is delivered: each notified price becomes the last notified price. */
  function NotifiedPrices(target: int, lastNotified: Option<int>, observed: seq<int>): seq<int>
    decreases |observed|
  {
    if observed == [] then []
    else
      var d := ShouldNotify(target, lastNotified, observed[0]);
      if d.notify then [observed[0]] + NotifiedPrices(target, Some(observed[0]), observed[1..])
      else NotifiedPrices(target, lastNotified, observed[1..])
  }

  /** `ns` falls strictly, stays below `target` and below `lastNotified`,
      and takes its prices from `observed`. */
  predicate FallingBelow(ns: seq<int>, target: int, lastNotified: Option<int>, observed: seq<int>)
  {
    && (forall k :: 0 <= k < |ns| ==> ns[k] < target && ns[k] in observed)
    && (lastNotified.Some? ==> forall k :: 0 <= k < |ns| ==> ns[k] < lastNotified.value)
    && (forall j, k :: 0 <= j < k < |ns| ==> ns[k] < ns[j])
  }

  /** Notifications never repeat a price and never go up: the notified prices
      are below the target, below the price notified before, and strictly
      decreasing. */
  lemma {:induction false} NotifiedPricesStrictlyFall(target: int, lastNotified: Option<int>, observed: seq<int>)
    ensures FallingBelow(NotifiedPrices(target, lastNotified, observed), target, lastNotified, observed)
    decreases |observed|
  {
    if observed != [] {
      var ns := NotifiedPrices(target, lastNotified, observed);
      var x := observed[0];
      assert forall y :: y in observed[1..] ==> y in observed;
      if ShouldNotify(target, lastNotified, x).notify {
        NotifiedPricesStrictlyFall(target, Some(x), observed[1..]);
        var rest := NotifiedPrices(target, Some(x), observed[1..]);
        assert FallingBelow(rest, target, Some(x), observed[1..]);
        assert ns == [x] + rest;
        assert x < target && (lastNotified.Some? ==> x < lastNotified.value);
        forall k | 0 <= k < |ns|
          ensures ns[k] < target && ns[k] in observed && ns[k] <= x
        {
          if k > 0 {
            assert ns[k] == rest[k - 1];
          }
        }
        forall j, k | 0 <= j < k < |ns|
          ensures ns[k] < ns[j]
        {
          assert ns[k] == rest[k - 1];
          if j > 0 {
            assert ns[j] == rest[j - 1];
          }
        }
      } else {
        NotifiedPricesStrictlyFall(target, lastNotified, observed[1..]);
        assert ns == NotifiedPrices(target, lastNotified, observed[1..]);
      }
    }
  }

  /** The sequence of observations 95, 95, 90, 92, 80 against a target of
      100 notifies at 95 (first time), 90 and 80 (drops) only. */
  lemma NotificationExample()
    ensures NotifiedPrices(10000, None, [9500, 9500, 9000, 9200, 8000]) == [9500, 9000, 8000]
  {
    var obs := [9500, 9500, 9000, 9200, 8000];
    assert obs[1..] == [9500, 9000, 9200, 8000];
    assert obs[2..] == [9000, 9200, 8000];
    assert obs[3..] == [9200, 8000];
    assert obs[4..] == [8000];
  }

  // ----- _send_notification -----

  /** What the notifier did: sent the mail, reported failure, or raised. */
  datatype SendOutcome = Delivered | NotDelivered | SendRaised

  /** The tables after `_send_notification`: only a delivered mail updates
      the alert's last notified price and logs the notification; a failure
      or an exception of the notifier changes nothing. */
  function Notified(t: Tables, id: nat, price: nat, reason: Reason, send: SendOutcome): (r: Tables)
    requires id < |t.alerts|
    ensures |r.alerts| == |t.alerts| && r.prices == t.prices
    ensures send != Delivered ==> r == t
    ensures send == Delivered ==>
      && r.alerts[id] == t.alerts[id].(lastNotifiedPrice := Some(price))
      && r.logs == t.logs + [NotificationLog(id, ReasonText(reason), price)]
      && forall j :: 0 <= j < |t.alerts| && j != id ==> r.alerts[j] == t.alerts[j]
  {
    if send == Delivered then
      t.(alerts := t.alerts[id := t.alerts[id].(lastNotifiedPrice := Some(price))],
         logs := t.logs + [NotificationLog(id, ReasonText(reason), price)])
    else t
  }

  method SendNotification(session: Session, id: nat, price: nat, reason: Reason, send: SendOutcome)
    requires id < |session.pending.alerts|
    modifies session
    ensures session.pending == Notified(old(session.pending), id, price, reason, send)
    ensures session.committed == old(session.committed)
  {
    if send == Delivered {
      var a := session.pending.alerts[id];
      session.SetAlert(id, a.(lastNotifiedPrice := Some(price)));
      session.AddNotificationLog(NotificationLog(id, ReasonText(reason), price));
    }
  }

  // ----- process_alert -----

  /** The outside world during one `process_alert`. */
  datatype AlertRun = AlertRun(
    now: nat,
    startFails: bool,
    attempts: seq<AttemptOutcome<PageView>>,
    stopFails: bool,
    send: SendOutcome,
    commitSucceeds: bool)

  predicate RunWellFormed(run: AlertRun)
  {
    |run.attempts| == MaxAttempts
  }

  /** The scrape result `process_alert` goes on with, if any: the source must
      name a marketplace, the browser must start, the retry loop must return
      and the browser must stop without raising. */
  function ScrapedFor(a: Alert, run: AlertRun): (r: Option<ScrapeResult>)
    requires RunWellFormed(run)
    ensures r.Some? ==> GetScraper(a.source).Ok? && !run.startFails && !run.stopFails
  {
    match GetScraper(a.source)
    case Err(_) => None
    case Ok(m) =>
      if run.startFails then None
      else
        var outcome := RetryRunOf(ScrapeCalls(m, a.sourceUrl, run.attempts)).outcome;
        if run.stopFails || outcome.Failed? then None else Some(outcome.result)
  }

  /** The diagnostic files written while processing the alert. */
  function AlertArtifacts(a: Alert, run: AlertRun): seq<Artifact>
    requires RunWellFormed(run)
  {
    match GetScraper(a.source)
    case Err(_) => []
    case Ok(m) => if run.startFails then [] else RetryRunOf(ScrapeCalls(m, a.sourceUrl, run.attempts)).artifacts
  }

  /** The pending tables once a scrape returned: the alert stamped as
      checked, and with a price, the price record and maybe a notification. */
  function Recorded(t: Tables, id: nat, r: ScrapeResult, now: nat, send: SendOutcome): (u: Tables)
    requires id < |t.alerts|
    ensures |u.alerts| == |t.alerts|
  {
    var a := t.alerts[id];
    var stamped := t.(alerts := t.alerts[id := a.(lastChecked := Some(now))]);
    match r.price
    case None => stamped
    case Some(p) =>
      var withPrice := stamped.(prices := stamped.prices + [PriceRecord(id, p, r.availability, RawDataToDict(r.rawData))]);
      var d := ShouldNotify(a.targetPrice, a.lastNotifiedPrice, p);
      if d.notify then Notified(withPrice, id, p, d.reason, send) else withPrice
  }

  datatype Step = Step(ok: bool, tables: Tables)

  /** `process_alert` on a session with `pending` and `committed` tables: the
      result, and the tables the session holds afterwards (committed and
      pending alike). An alert whose row is gone fails like any other error. */
  function ProcessAlertSpec(pending: Tables, committed: Tables, id: nat, run: AlertRun): Step
    requires RunWellFormed(run)
  {
    if id >= |pending.alerts| then Step(false, committed)
    else
      match ScrapedFor(pending.alerts[id], run)
      case None => Step(false, committed)
      case Some(r) =>
        if run.commitSucceeds then Step(true, Recorded(pending, id, r, run.now, run.send))
        else Step(false, committed)
  }

  method ProcessAlert(session: Session, dir: DiagnosticsDir, id: nat, run: AlertRun) returns (ok: bool)
    requires id < |session.pending.alerts|
    requires RunWellFormed(run)
    modifies session, dir
    ensures var s := ProcessAlertSpec(old(session.pending), old(session.committed), id, run);
      ok == s.ok && session.pending == s.tables && session.committed == s.tables
    ensures dir.artifacts == old(dir.artifacts) + AlertArtifacts(old(session.pending.alerts[id]), run)
  {
    var a := session.pending.alerts[id];
    var scraper := GetScraper(a.source);
    if scraper.Err? || run.startFails {
      session.Rollback();
      return false;
    }
    var outcome, _, _ := ScrapeWithRetry(dir, ScrapeCalls(scraper.value, a.sourceUrl, run.attempts));
    if run.stopFails || outcome.Failed? {
      session.Rollback();
      return false;
    }
    var result := outcome.result;
    session.SetAlert(id, a.(lastChecked := Some(run.now)));
    if result.price.Some? {
      var p := result.price.value;
      session.AddPriceRecord(PriceRecord(id, p, result.availability, RawDataToDict(result.rawData)));
      var d := ShouldNotify(a.targetPrice, a.lastNotifiedPrice, p);
      if d.notify {
        SendNotification(session, id, p, d.reason, run.send);
      }
    }
    ok := session.Commit(run.commitSucceeds);
    if !ok {
      session.Rollback();
    }
  }

  // ----- Properties of process_alert -----

  /** Any failure rolls the session back to what was committed: a missing
      row, an unknown source, a browser that does not start or stop, a scrape
      that fails every attempt, or a commit the database refuses. */
  lemma FailureRollsBack(pending: Tables, committed: Tables, id: nat, run: AlertRun)
    requires RunWellFormed(run)
    ensures var s := ProcessAlertSpec(pending, committed, id, run);
      && (s.ok <==> id < |pending.alerts| && ScrapedFor(pending.alerts[id], run).Some? && run.commitSucceeds)
      && (!s.ok ==> s.tables == committed)
  {
  }

  /** An alert whose source names no marketplace fails before any browser
      starts, so no diagnostics are written. */
  lemma UnknownSourceFails(pending: Tables, committed: Tables, id: nat, run: AlertRun)
    requires RunWellFormed(run)
    requires id < |pending.alerts|
    requires Lower(pending.alerts[id].source) !in {"ticketmaster", "stubhub", "viagogo"}
    ensures !ProcessAlertSpec(pending, committed, id, run).ok
    ensures ProcessAlertSpec(pending, committed, id, run).tables == committed
    ensures AlertArtifacts(pending.alerts[id], run) == []
  {
  }

  /** A successful run stamps the alert with the clock reading and changes
      nothing else about it but, after a delivered notification, its last
      notified price; no other alert changes. A failed run leaves the stamp
      as committed. */
  lemma {:induction false} SuccessStampsOnlyThisAlert(pending: Tables, committed: Tables, id: nat, run: AlertRun)
    requires RunWellFormed(run)
    ensures var s := ProcessAlertSpec(pending, committed, id, run);
      s.ok ==>
        && |s.tables.alerts| == |pending.alerts|
        && s.tables.alerts[id].lastChecked == Some(run.now)
        && s.tables.alerts[id] == pending.alerts[id].(lastChecked := Some(run.now),
             lastNotifiedPrice := s.tables.alerts[id].lastNotifiedPrice)
        && (forall j :: 0 <= j < |pending.alerts| && j != id ==> s.tables.alerts[j] == pending.alerts[j])
  {
    var s := ProcessAlertSpec(pending, committed, id, run);
    if s.ok {
      var r := ScrapedFor(pending.alerts[id], run).value;
      var a := pending.alerts[id];
      var stamped := pending.(alerts := pending.alerts[id := a.(lastChecked := Some(run.now))]);
      if r.price.Some? {
        var p := r.price.value;
        var withPrice := stamped.(prices := stamped.prices + [PriceRecord(id, p, r.availability, RawDataToDict(r.rawData))]);
        var d := ShouldNotify(a.targetPrice, a.lastNotifiedPrice, p);
        if d.notify {
          assert s.tables == Notified(withPrice, id, p, d.reason, run.send);
        }
      }
    }
  }

  /** A successful run stores a price record exactly when the scrape found a
      price, holding that price, the availability and the debugging record. */
  lemma {:induction false} PriceRecordIffPrice(pending: Tables, committed: Tables, id: nat, run: AlertRun)
    requires RunWellFormed(run)
    ensures var s := ProcessAlertSpec(pending, committed, id, run);
      s.ok ==>
        var r := ScrapedFor(pending.alerts[id], run).value;
        && (r.price.None? ==> s.tables.prices == pending.prices)
        && (r.price.Some? ==>
              s.tables.prices == pending.prices + [PriceRecord(id, r.price.value, r.availability, RawDataToDict(r.rawData))])
  {
    var s := ProcessAlertSpec(pending, committed, id, run);
    if s.ok {
      var r := ScrapedFor(pending.alerts[id], run).value;
      var a := pending.alerts[id];
      if r.price.Some? {
        var p := r.price.value;
        var d := ShouldNotify(a.targetPrice, a.lastNotifiedPrice, p);
        if d.notify {
          var stamped := pending.(alerts := pending.alerts[id := a.(lastChecked := Some(run.now))]);
          var withPrice := stamped.(prices := stamped.prices + [PriceRecord(id, p, r.availability, RawDataToDict(r.rawData))]);
          assert s.tables == Notified(withPrice, id, p, d.reason, run.send);
        }
      }
    }
  }

  /** A successful run logs a notification exactly when the price it found
      calls for one and the mail was delivered; the log carries the reason
      and the price, which becomes the alert's last notified price. */
  lemma {:induction false} NotificationLogged(pending: Tables, committed: Tables, id: nat, run: AlertRun)
    requires RunWellFormed(run)
    ensures var s := ProcessAlertSpec(pending, committed, id, run);
      s.ok ==>
        var a := pending.alerts[id];
        var r := ScrapedFor(a, run).value;
        if r.price.Some? && ShouldNotify(a.targetPrice, a.lastNotifiedPrice, r.price.value).notify && run.send == Delivered then
          var p := r.price.value;
          && s.tables.logs == pending.logs + [NotificationLog(id, ReasonText(ShouldNotify(a.targetPrice, a.lastNotifiedPrice, p).reason), p)]
          && s.tables.alerts[id].lastNotifiedPrice == Some(p)
        else
          && s.tables.logs == pending.logs
          && s.tables.alerts[id].lastNotifiedPrice == a.lastNotifiedPrice
  {
    var s := ProcessAlertSpec(pending, committed, id, run);
    if s.ok {
      var a := pending.alerts[id];
      var r := ScrapedFor(a, run).value;
      var stamped := pending.(alerts := pending.alerts[id := a.(lastChecked := Some(run.now))]);
      if r.price.Some? {
        var p := r.price.value;
        var withPrice := stamped.(prices := stamped.prices + [PriceRecord(id, p, r.availability, RawDataToDict(r.rawData))]);
        var d := ShouldNotify(a.targetPrice, a.lastNotifiedPrice, p);
        if d.notify {
          assert s.tables == Notified(withPrice, id, p, d.reason, run.send);
        }
      }
    }
  }

  /** Once a notification at some price has been delivered and committed,
      finding that same price again sends nothing: notifications never
      repeat a price. */
  lemma {:induction false} NoRenotifyAtSamePrice(t: Tables, id: nat, run1: AlertRun, run2: AlertRun)
    requires RunWellFormed(run1) && RunWellFormed(run2)
    requires id < |t.alerts|
    requires ProcessAlertSpec(t, t, id, run1).ok
    requires run1.send == Delivered
    requires ScrapedFor(t.alerts[id], run2).Some?
    requires ScrapedFor(t.alerts[id], run2).value.price == ScrapedFor(t.alerts[id], run1).value.price
    ensures var s1 := ProcessAlertSpec(t, t, id, run1);
      ProcessAlertSpec(s1.tables, s1.tables, id, run2).tables.logs == s1.tables.logs
  {
    var s1 := ProcessAlertSpec(t, t, id, run1);
    SuccessStampsOnlyThisAlert(t, t, id, run1);
    NotificationLogged(t, t, id, run1);
    var a := t.alerts[id];
    var b := s1.tables.alerts[id];
    assert b.source == a.source && b.sourceUrl == a.sourceUrl && b.targetPrice == a.targetPrice;
    assert ScrapedFor(b, run2) == ScrapedFor(a, run2);
    var s2 := ProcessAlertSpec(s1.tables, s1.tables, id, run2);
    NotificationLogged(s1.tables, s1.tables, id, run2);
    var r1 := ScrapedFor(a, run1).value;
    if r1.price.Some? && s2.ok {
      var p := r1.price.value;
      var d1 := ShouldNotify(a.targetPrice, a.lastNotifiedPrice, p);
      assert !ShouldNotify(b.targetPrice, b.lastNotifiedPrice, p).notify;
    }
  }

  /** `process_alert` keeps the log and the alerts in agreement: the price it
      logs is the price it stores as last notified. */
  lemma {:induction false} ProcessAlertKeepsLogsAgree(pending: Tables, committed: Tables, id: nat, run: AlertRun)
    requires RunWellFormed(run)
    requires LogsAgree(pending) && LogsAgree(committed)
    ensures LogsAgree(ProcessAlertSpec(pending, committed, id, run).tables)
  {
    var s := ProcessAlertSpec(pending, committed, id, run);
    if s.ok {
      SuccessStampsOnlyThisAlert(pending, committed, id, run);
      NotificationLogged(pending, committed, id, run);
      var u := s.tables;
      if |u.logs| != |pending.logs| {
        var l := u.logs[|u.logs| - 1];
        assert u.logs == pending.logs + [l];
        assert l.alertId == id < |u.alerts|;
        forall j | 0 <= j < |u.alerts| && LastLoggedPrice(u.logs, j).Some?
          ensures u.alerts[j].lastNotifiedPrice == Some(LastLoggedPrice(u.logs, j).value as int)
        {
          LastLoggedAfterAppend(pending.logs, l, j);
        }
      } else {
        assert u.logs == pending.logs;
      }
    }
  }

  // ----- process_all_alerts -----

  /** `query(Alert).filter(Alert.is_active).all()`: the active alerts, in
      table order. */
  function ActiveIds(alerts: seq<Alert>): (ids: seq<nat>)
    ensures forall k :: 0 <= k < |ids| ==> ids[k] < |alerts| && alerts[ids[k]].isActive
    ensures forall i :: 0 <= i < |alerts| && alerts[i].isActive ==> i in ids
    ensures forall j, k :: 0 <= j < k < |ids| ==> ids[j] < ids[k]
    decreases |alerts|
  {
    if alerts == [] then []
    else
      var n := |alerts| - 1;
      var front := ActiveIds(alerts[..n]);
      if alerts[n].isActive then front + [n] else front
  }

  datatype Stats = Stats(total: nat, success: nat, failed: nat)

  predicate RunsWellFormed(runs: seq<AlertRun>)
  {
    forall k :: 0 <= k < |runs| ==> RunWellFormed(runs[k])
  }

  /** The tables and tallies after processing `ids[k..]` one by one, starting
      from a session with nothing pending. */
  datatype Batch = Batch(tables: Tables, success: nat, failed: nat)

  function BatchFrom(t: Tables, ids: seq<nat>, runs: seq<AlertRun>, k: nat): (b: Batch)
    requires |runs| == |ids| && k <= |ids| && RunsWellFormed(runs)
    ensures b.success + b.failed == |ids| - k
    decreases |ids| - k
  {
    if k == |ids| then Batch(t, 0, 0)
    else
      var s := ProcessAlertSpec(t, t, ids[k], runs[k]);
      var rest := BatchFrom(s.tables, ids, runs, k + 1);
      if s.ok then rest.(success := rest.success + 1) else rest.(failed := rest.failed + 1)
  }

  /** `process_all_alerts`: every active alert is processed once, in order;
      one alert failing does not stop the others, and the tallies count the
      successes and the failures. */
  method ProcessAllAlerts(session: Session, dir: DiagnosticsDir, runs: seq<AlertRun>) returns (stats: Stats)
    requires session.pending == session.committed
    requires |runs| == |ActiveIds(session.pending.alerts)| && RunsWellFormed(runs)
    modifies session, dir
    ensures var ids := ActiveIds(old(session.pending.alerts));
      var b := BatchFrom(old(session.pending), ids, runs, 0);
      && stats == Stats(|ids|, b.success, b.failed)
      && session.pending == b.tables && session.committed == b.tables
    ensures stats.success + stats.failed == stats.total
  {
    var ids := ActiveIds(session.pending.alerts);
    ghost var whole := BatchFrom(session.pending, ids, runs, 0);
    ghost var alertCount := |session.pending.alerts|;
    stats := Stats(|ids|, 0, 0);
    var k := 0;
    while k < |ids|
      invariant 0 <= k <= |ids|
      invariant session.pending == session.committed
      invariant |session.pending.alerts| == alertCount
      invariant var rest := BatchFrom(session.pending, ids, runs, k);
        && rest.tables == whole.tables
        && stats.total == |ids|
        && stats.success + rest.success == whole.success
        && stats.failed + rest.failed == whole.failed
    {
      ghost var before := session.pending;
      ghost var step := ProcessAlertSpec(before, before, ids[k], runs[k]);
      ghost var rest := BatchFrom(step.tables, ids, runs, k + 1);
      assert BatchFrom(before, ids, runs, k)
        == if step.ok then rest.(success := rest.success + 1) else rest.(failed := rest.failed + 1);
      StepKeepsAlertCount(before, ids[k], runs[k]);
      var ok := ProcessAlert(session, dir, ids[k], runs[k]);
      assert ok == step.ok && session.pending == step.tables;
      if ok {
        stats := stats.(success := stats.success + 1);
      } else {
        stats := stats.(failed := stats.failed + 1);
      }
      k := k + 1;
    }
  }

  /** Processing an alert from a session with nothing pending neither adds
      nor removes alerts, and only appends price records and logs. */
  lemma {:induction false} StepKeepsAlertCount(t: Tables, id: nat, run: AlertRun)
    requires RunWellFormed(run)
    ensures var u := ProcessAlertSpec(t, t, id, run).tables;
      && |u.alerts| == |t.alerts|
      && Extends(t.prices, u.prices)
      && Extends(t.logs, u.logs)
      && (forall j :: 0 <= j < |t.alerts| ==>
            && u.alerts[j].name == t.alerts[j].name
            && u.alerts[j].source == t.alerts[j].source
            && u.alerts[j].sourceUrl == t.alerts[j].sourceUrl
            && u.alerts[j].targetPrice == t.alerts[j].targetPrice
            && u.alerts[j].isActive == t.alerts[j].isActive)
  {
    var s := ProcessAlertSpec(t, t, id, run);
    if s.ok {
      SuccessStampsOnlyThisAlert(t, t, id, run);
      PriceRecordIffPrice(t, t, id, run);
      NotificationLogged(t, t, id, run);
      var u := s.tables;
      assert u.prices[..|t.prices|] == t.prices;
      assert u.logs[..|t.logs|] == t.logs;
    }
  }

  /** A batch keeps the history: the alert table keeps its rows and their
      configuration, and price records and logs are only appended. */
  lemma {:induction false} BatchKeepsHistory(t: Tables, ids: seq<nat>, runs: seq<AlertRun>, k: nat)
    requires |runs| == |ids| && k <= |ids| && RunsWellFormed(runs)
    ensures var u := BatchFrom(t, ids, runs, k).tables;
      && |u.alerts| == |t.alerts|
      && Extends(t.prices, u.prices)
      && Extends(t.logs, u.logs)
      && (forall j :: 0 <= j < |t.alerts| ==>
            && u.alerts[j].name == t.alerts[j].name
            && u.alerts[j].source == t.alerts[j].source
            && u.alerts[j].sourceUrl == t.alerts[j].sourceUrl
            && u.alerts[j].targetPrice == t.alerts[j].targetPrice
            && u.alerts[j].isActive == t.alerts[j].isActive)
    decreases |ids| - k
  {
    if k < |ids| {
      var s := ProcessAlertSpec(t, t, ids[k], runs[k]);
      StepKeepsAlertCount(t, ids[k], runs[k]);
      BatchKeepsHistory(s.tables, ids, runs, k + 1);
      var u := BatchFrom(t, ids, runs, k).tables;
      assert u == BatchFrom(s.tables, ids, runs, k + 1).tables;
      assert u.prices[..|t.prices|] == s.tables.prices[..|t.prices|];
      assert u.logs[..|t.logs|] == s.tables.logs[..|t.logs|];
    }
  }

  /** A batch keeps every alert's last notified price equal to the price of
      its latest logged notification. */
  lemma {:induction false} BatchKeepsLogsAgree(t: Tables, ids: seq<nat>, runs: seq<AlertRun>, k: nat)
    requires |runs| == |ids| && k <= |ids| && RunsWellFormed(runs)
    requires LogsAgree(t)
    ensures LogsAgree(BatchFrom(t, ids, runs, k).tables)
    decreases |ids| - k
  {
    if k < |ids| {
      var s := ProcessAlertSpec(t, t, ids[k], runs[k]);
      ProcessAlertKeepsLogsAgree(t, t, ids[k], runs[k]);
      BatchKeepsLogsAgree(s.tables, ids, runs, k + 1);
    }
  }
}
