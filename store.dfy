/** The three tables of src/models.py and the database session the core
    writes through. A session holds the committed tables and the pending
    ones (committed plus the changes made since); `commit` makes the pending
    tables durable and `rollback` throws them away. An alert is identified
    by its position in the alert table: rows are only ever appended. Prices
    are in cents; timestamps are clock readings passed in from outside. */
module Store {
  import opened Common
  import opened Extraction

  datatype Alert = Alert(
    name: string,
    source: string,
    sourceUrl: string,
    targetPrice: int,
    lastNotifiedPrice: Option<int>,
    isActive: bool,
    lastChecked: Option<nat>)

  /** A value of the JSON `raw_data` column: a string or a list of strings. */
  datatype RawValue = Text(text: string) | Texts(items: seq<string>)

  datatype PriceRecord = PriceRecord(alertId: nat, price: nat, availability: Availability, rawData: map<string, RawValue>)

  datatype NotificationLog = NotificationLog(alertId: nat, triggerReason: string, price: nat)

  datatype Tables = Tables(alerts: seq<Alert>, prices: seq<PriceRecord>, logs: seq<NotificationLog>)

  /** `before` is kept in `after`: no row was changed or removed, only appended. */
  predicate Extends<T(==)>(before: seq<T>, after: seq<T>)
  {
    |before| <= |after| && after[..|before|] == before
  }

  class Session {
    var pending: Tables
    var committed: Tables

    /** A session opened on the tables as stored. */
    constructor (stored: Tables)
      ensures pending == stored && committed == stored
    {
      pending := stored;
      committed := stored;
    }

    /** `commit`: the pending tables become durable, unless the database
        refuses them (a constraint or I/O failure), which raises. */
    method Commit(succeeds: bool) returns (ok: bool)
      modifies this
      ensures ok == succeeds
      ensures pending == old(pending)
      ensures committed == if succeeds then old(pending) else old(committed)
    {
      ok := succeeds;
      if succeeds {
        committed := pending;
      }
    }

    /** `rollback`: every change since the last commit is thrown away. */
    method Rollback()
      modifies this
      ensures pending == old(committed) && committed == old(committed)
    {
      pending := committed;
    }

    /** `add(PriceRecord(...))`. */
    method AddPriceRecord(r: PriceRecord)
      modifies this
      ensures pending == old(pending).(prices := old(pending).prices + [r])
      ensures committed == old(committed)
    {
      pending := pending.(prices := pending.prices + [r]);
    }

    /** `add(NotificationLog(...))`. */
    method AddNotificationLog(l: NotificationLog)
      modifies this
      ensures pending == old(pending).(logs := old(pending).logs + [l])
      ensures committed == old(committed)
    {
      pending := pending.(logs := pending.logs + [l]);
    }

    /** `add(Alert(...))`: a new alert row at the end of the table. */
    method AddAlert(a: Alert)
      modifies this
      ensures pending == old(pending).(alerts := old(pending).alerts + [a])
      ensures committed == old(committed)
    {
      pending := pending.(alerts := pending.alerts + [a]);
    }

    /** Assigning attributes of a loaded alert. */
    method SetAlert(id: nat, a: Alert)
      requires id < |pending.alerts|
      modifies this
      ensures pending == old(pending).(alerts := old(pending).alerts[id := a])
      ensures committed == old(committed)
    {
      pending := pending.(alerts := pending.alerts[id := a]);
    }
  }

  /** The price of the latest notification logged for alert `id`, if any. */
  function LastLoggedPrice(logs: seq<NotificationLog>, id: nat): Option<nat>
    decreases |logs|
  {
    if logs == [] then None
    else if logs[|logs| - 1].alertId == id then Some(logs[|logs| - 1].price)
    else LastLoggedPrice(logs[..|logs| - 1], id)
  }

  /** Every log names an existing alert, and every alert that has been
      notified remembers the price of its latest notification as its last
      notified price. */
  predicate LogsAgree(t: Tables)
  {
    && (forall k :: 0 <= k < |t.logs| ==> t.logs[k].alertId < |t.alerts|)
    && (forall id :: 0 <= id < |t.alerts| && LastLoggedPrice(t.logs, id).Some? ==>
          t.alerts[id].lastNotifiedPrice == Some(LastLoggedPrice(t.logs, id).value as int))
  }

  /** Only an alert that has a log has a latest logged price. */
  lemma {:induction false} LastLoggedIsLogged(logs: seq<NotificationLog>, id: nat)
    requires LastLoggedPrice(logs, id).Some?
    ensures exists k :: 0 <= k < |logs| && logs[k].alertId == id
    decreases |logs|
  {
    var n := |logs| - 1;
    if logs[n].alertId != id {
      LastLoggedIsLogged(logs[..n], id);
      var k :| 0 <= k < n && logs[..n][k].alertId == id;
      assert logs[k] == logs[..n][k];
    }
  }

  lemma LastLoggedAfterAppend(logs: seq<NotificationLog>, l: NotificationLog, id: nat)
    ensures LastLoggedPrice(logs + [l], id) == if l.alertId == id then Some(l.price) else LastLoggedPrice(logs, id)
  {
    assert (logs + [l])[..|logs|] == logs;
  }
}
