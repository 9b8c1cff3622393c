/** `sync_alerts_to_db` of src/config.py: each alert entry of the
    configuration file updates the first alert of the same name or creates a
    new one, and all of it is committed once at the end. An entry is the
    parsed YAML mapping: each key absent or given a value (a key given as
    null is not represented). */
module ConfigSync {
  import opened Common
  import opened Store

  datatype AlertEntry = AlertEntry(
    name: Option<string>,
    source: Option<string>,
    url: Option<string>,
    targetPrice: Option<int>,
    active: Option<bool>)

  /** `dict.get(key, default)`. */
  function GetOr<T>(v: Option<T>, default: T): (r: T)
    ensures v.Some? ==> r == v.value
    ensures v.None? ==> r == default
  {
    if v.Some? then v.value else default
  }

  /** `query(Alert).filter(Alert.name == name).first()`. */
  function FindByName(alerts: seq<Alert>, name: string): (r: Option<nat>)
    ensures r.None? <==> forall j :: 0 <= j < |alerts| ==> alerts[j].name != name
    ensures r.Some? ==> r.value < |alerts| && alerts[r.value].name == name
    ensures r.Some? ==> forall j :: 0 <= j < r.value ==> alerts[j].name != name
    decreases |alerts|
  {
    if alerts == [] then None
    else if alerts[0].name == name then Some(0)
    else
      var rest := FindByName(alerts[1..], name);
      assert forall j :: 1 <= j < |alerts| ==> alerts[j] == alerts[1..][j - 1];
      if rest.None? then None else Some(rest.value + 1)
  }

  /** The existing alert with the entry's keys written over it; its
      notification state and last check are not touched. */
  function Updated(a: Alert, e: AlertEntry): (r: Alert)
    ensures r.name == a.name
    ensures e.source.Some? ==> r.source == e.source.value
    ensures e.source.None? ==> r.source == a.source
    ensures e.url.Some? ==> r.sourceUrl == e.url.value
    ensures e.url.None? ==> r.sourceUrl == a.sourceUrl
    ensures e.targetPrice.Some? ==> r.targetPrice == e.targetPrice.value
    ensures e.targetPrice.None? ==> r.targetPrice == a.targetPrice
    ensures e.active.Some? ==> r.isActive == e.active.value
    ensures e.active.None? ==> r.isActive == a.isActive
    ensures r.lastNotifiedPrice == a.lastNotifiedPrice && r.lastChecked == a.lastChecked
  {
    a.(source := GetOr(e.source, a.source),
       sourceUrl := GetOr(e.url, a.sourceUrl),
       targetPrice := GetOr(e.targetPrice, a.targetPrice),
       isActive := GetOr(e.active, a.isActive))
  }

  /** The new alert, active unless the entry says otherwise; `None` when a
      column that may not be null (source, url, target price) is missing,
      which makes the database refuse it. */
  function Created(name: string, e: AlertEntry): (r: Option<Alert>)
    ensures r.Some? <==> e.source.Some? && e.url.Some? && e.targetPrice.Some?
    ensures r.Some? ==> r.value == Alert(name, e.source.value, e.url.value, e.targetPrice.value,
                                         None, GetOr(e.active, true), None)
  {
    if e.source.Some? && e.url.Some? && e.targetPrice.Some? then
      Some(Alert(name, e.source.value, e.url.value, e.targetPrice.value, None, GetOr(e.active, true), None))
    else None
  }

  /** One pass of the loop body: an entry without a name is skipped; `None`
      when the entry would create an alert the database refuses. */
  function ApplyEntry(alerts: seq<Alert>, e: AlertEntry): (r: Option<seq<Alert>>)
    ensures e.name.None? || e.name.value == "" ==> r == Some(alerts)
    ensures r.None? <==>
      && e.name.Some? && e.name.value != ""
      && (forall j :: 0 <= j < |alerts| ==> alerts[j].name != e.name.value)
      && (e.source.None? || e.url.None? || e.targetPrice.None?)
    ensures r.Some? ==> |alerts| <= |r.value| <= |alerts| + 1
    ensures e.name.Some? && e.name.value != "" && FindByName(alerts, e.name.value).Some? ==>
      var i := FindByName(alerts, e.name.value).value;
      && r.Some? && |r.value| == |alerts|
      && r.value[i] == Updated(alerts[i], e)
      && forall j :: 0 <= j < |alerts| && j != i ==> r.value[j] == alerts[j]
    ensures (&& e.name.Some? && e.name.value != ""
             && FindByName(alerts, e.name.value).None?
             && Created(e.name.value, e).Some?) ==>
      r == Some(alerts + [Created(e.name.value, e).value])
    ensures r.Some? && |r.value| == |alerts| + 1 ==>
      && e.name.Some?
      && Created(e.name.value, e) == Some(r.value[|alerts|])
      && r.value[..|alerts|] == alerts
  {
    if e.name.None? || e.name.value == "" then Some(alerts)
    else
      match FindByName(alerts, e.name.value)
      case Some(i) => Some(alerts[i := Updated(alerts[i], e)])
      case None =>
        match Created(e.name.value, e)
        case None => None
        case Some(a) => Some(alerts + [a])
  }

  /** The loop from entry `k` on: the alert table it leaves, and whether it
      got through every entry. */
  datatype SyncRun = SyncRun(alerts: seq<Alert>, complete: bool)

  function SyncFrom(alerts: seq<Alert>, entries: seq<AlertEntry>, k: nat): SyncRun
    requires k <= |entries|
    decreases |entries| - k
  {
    if k == |entries| then SyncRun(alerts, true)
    else
      match ApplyEntry(alerts, entries[k])
      case None => SyncRun(alerts, false)
      case Some(next) => SyncFrom(next, entries, k + 1)
  }

  /** `sync_alerts_to_db`: the pending alert table follows the entries; the
      commit happens only when every entry went through, and succeeds unless
      the database refuses it. */
  method SyncAlertsToDb(session: Session, entries: seq<AlertEntry>, commitSucceeds: bool) returns (ok: bool)
    modifies session
    ensures var run := SyncFrom(old(session.pending.alerts), entries, 0);
      && session.pending == old(session.pending).(alerts := run.alerts)
      && (ok <==> run.complete && commitSucceeds)
      && session.committed == if ok then session.pending else old(session.committed)
  {
    ghost var whole := SyncFrom(session.pending.alerts, entries, 0);
    var k := 0;
    while k < |entries|
      invariant 0 <= k <= |entries|
      invariant session.committed == old(session.committed)
      invariant session.pending == old(session.pending).(alerts := session.pending.alerts)
      invariant SyncFrom(session.pending.alerts, entries, k) == whole
    {
      var e := entries[k];
      if e.name.Some? && e.name.value != "" {
        var found := FindByName(session.pending.alerts, e.name.value);
        if found.Some? {
          var i := found.value;
          session.SetAlert(i, Updated(session.pending.alerts[i], e));
        } else {
          var created := Created(e.name.value, e);
          if created.None? {
            return false;
          }
          session.AddAlert(created.value);
        }
      }
      k := k + 1;
    }
    ok := session.Commit(commitSucceeds);
  }

  // ----- Properties -----

  /** The sync never deletes an alert, never renames one, and never touches
      what the alert manager owns: the last notified price and the last
      check. New alerts start with neither. */
  lemma {:induction false} SyncKeepsNotificationState(alerts: seq<Alert>, entries: seq<AlertEntry>, k: nat)
    requires k <= |entries|
    ensures var r := SyncFrom(alerts, entries, k).alerts;
      && |alerts| <= |r|
      && (forall i :: 0 <= i < |alerts| ==>
            && r[i].name == alerts[i].name
            && r[i].lastNotifiedPrice == alerts[i].lastNotifiedPrice
            && r[i].lastChecked == alerts[i].lastChecked)
      && (forall i :: |alerts| <= i < |r| ==> r[i].lastNotifiedPrice.None? && r[i].lastChecked.None?)
    decreases |entries| - k
  {
    if k < |entries| {
      var next := ApplyEntry(alerts, entries[k]);
      if next.Some? {
        SyncKeepsNotificationState(next.value, entries, k + 1);
      }
    }
  }

  /** An alert whose name no entry mentions comes out of the sync unchanged. */
  lemma {:induction false} UnmentionedAlertUnchanged(alerts: seq<Alert>, entries: seq<AlertEntry>, k: nat, i: nat)
    requires k <= |entries| && i < |alerts|
    requires forall j :: k <= j < |entries| ==> entries[j].name != Some(alerts[i].name)
    ensures i < |SyncFrom(alerts, entries, k).alerts|
    ensures SyncFrom(alerts, entries, k).alerts[i] == alerts[i]
    decreases |entries| - k
  {
    SyncKeepsNotificationState(alerts, entries, k);
    if k < |entries| {
      var next := ApplyEntry(alerts, entries[k]);
      if next.Some? {
        assert next.value[i] == alerts[i];
        UnmentionedAlertUnchanged(next.value, entries, k + 1, i);
      }
    }
  }

  /** After an entry with a name goes through, the first alert of that name
      carries every key the entry gives. */
  lemma EntryTakesEffect(alerts: seq<Alert>, e: AlertEntry)
    requires e.name.Some? && e.name.value != ""
    requires ApplyEntry(alerts, e).Some?
    ensures var r := ApplyEntry(alerts, e).value;
      var i := FindByName(r, e.name.value);
      && i.Some?
      && (e.source.Some? ==> r[i.value].source == e.source.value)
      && (e.url.Some? ==> r[i.value].sourceUrl == e.url.value)
      && (e.targetPrice.Some? ==> r[i.value].targetPrice == e.targetPrice.value)
      && (e.active.Some? ==> r[i.value].isActive == e.active.value)
  {
    var r := ApplyEntry(alerts, e).value;
    var found := FindByName(alerts, e.name.value);
    if found.Some? {
      assert r[found.value].name == e.name.value;
      assert FindByName(r, e.name.value) == found;
    } else {
      assert r[|alerts|].name == e.name.value;
      assert FindByName(r, e.name.value) == Some(|alerts|);
    }
  }

  /** Applying the same entry twice changes nothing more than applying it
      once. */
  lemma EntryIdempotent(alerts: seq<Alert>, e: AlertEntry)
    requires ApplyEntry(alerts, e).Some?
    ensures ApplyEntry(ApplyEntry(alerts, e).value, e) == ApplyEntry(alerts, e)
  {
    if e.name.Some? && e.name.value != "" {
      EntryTakesEffect(alerts, e);
      var r := ApplyEntry(alerts, e).value;
      var i := FindByName(r, e.name.value).value;
      assert Updated(r[i], e) == r[i];
      assert r[i := r[i]] == r;
    }
  }

  /** An entry that would create an alert lacking a column the database
      requires stops the sync there, so nothing of it is committed. */
  lemma IncompleteNewAlertFails(alerts: seq<Alert>, entries: seq<AlertEntry>, k: nat)
    requires k < |entries|
    requires entries[k].name.Some? && entries[k].name.value != ""
    requires forall j :: 0 <= j < |alerts| ==> alerts[j].name != entries[k].name.value
    requires entries[k].source.None? || entries[k].url.None? || entries[k].targetPrice.None?
    ensures !SyncFrom(alerts, entries, k).complete
    ensures SyncFrom(alerts, entries, k).alerts == alerts
  {
  }

  /** The sync keeps the notification log and the alerts in agreement, so
      the alert manager's invariant survives a reload of the configuration. */
  lemma SyncKeepsLogsAgree(t: Tables, entries: seq<AlertEntry>)
    requires LogsAgree(t)
    ensures LogsAgree(t.(alerts := SyncFrom(t.alerts, entries, 0).alerts))
  {
    var r := SyncFrom(t.alerts, entries, 0).alerts;
    SyncKeepsNotificationState(t.alerts, entries, 0);
    forall id | |t.alerts| <= id < |r|
      ensures LastLoggedPrice(t.logs, id).None?
    {
      if LastLoggedPrice(t.logs, id).Some? {
        LastLoggedIsLogged(t.logs, id);
      }
    }
  }
}
