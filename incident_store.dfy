/**
 * `find_or_create_incident` and `save_alert_to_db`: the incident store's two writes during
 * ingestion. Both run inside the caller's transaction and never commit.
 */
module IncidentStore {
  import opened Wrappers
  import opened AlertInfo
  import opened Database

  /** `id` is an open incident with `key` and no open incident with `key` was seen later. */
  ghost predicate IsLatestOpen(t: IncidentTable, key: string, id: string)
  {
    && id in t && IsOpen(t[id]) && t[id].key == key
    && forall j :: j in t && IsOpen(t[j]) && t[j].key == key ==> t[j].lastSeenAt <= t[id].lastSeenAt
  }

  /** `SELECT ... WHERE incident_key = %s AND status IN ('active','acknowledged')
      ORDER BY last_seen_at DESC LIMIT 1`; ties are broken arbitrarily, as in SQL. */
  method SelectOpenIncident(conn: Connection, key: string) returns (found: Option<string>)
    ensures found.None? <==> !HasOpen(conn.incidents, key)
    ensures found.Some? ==> IsLatestOpen(conn.incidents, key, found.value)
  {
    var t := conn.incidents;
    var rest := t.Keys;
    found := None;
    while rest != {}
      invariant rest <= t.Keys
      invariant found.Some? ==> found.value in t && IsOpen(t[found.value]) && t[found.value].key == key
      invariant found.None? ==> forall j :: j in t.Keys - rest ==> !(IsOpen(t[j]) && t[j].key == key)
      invariant found.Some? ==> forall j :: j in t.Keys - rest && IsOpen(t[j]) && t[j].key == key
                                           ==> t[j].lastSeenAt <= t[found.value].lastSeenAt
      decreases rest
    {
      var id :| id in rest;
      if IsOpen(t[id]) && t[id].key == key {
        if found.None? || t[found.value].lastSeenAt < t[id].lastSeenAt {
          found := Some(id);
        }
      }
      rest := rest - {id};
    }
  }

  /** The UPDATE on a matched incident: last_seen_at and updated_at become `now`, severity the
      alert's, and the status is forced back to active. */
  function Touched(r: Incident, severity: string, now: nat): Incident
  {
    r.(lastSeenAt := now, severity := severity, status := Active, updatedAt := now)
  }

  /** The INSERT of a new episode. alert_count starts at 0 and is raised by the trigger when the
      alert row is saved; updated_at takes its column default, the insertion time. */
  function NewIncident(id: string, key: string, info: AlertInfo, now: nat): Incident
  {
    Incident(id, key, Active, info.severity, info.phase, info.cluster, info.namespace,
             info.service, info.serviceCategory, now, now, now, now, 0, None, None, None, None)
  }

  /** Every incident open in `t` is still open, with the same key, in `t'`. */
  ghost predicate OpensStayOpen(t: IncidentTable, t': IncidentTable)
  {
    forall j :: j in t && IsOpen(t[j]) ==> j in t' && IsOpen(t'[j]) && t'[j].key == t[j].key
  }

  /** No key other than `key` gains or loses its open incident between `t` and `t'`. */
  ghost predicate OtherKeysUnchanged(t: IncidentTable, t': IncidentTable, key: string)
  {
    forall k :: k != key ==> (HasOpen(t', k) <==> HasOpen(t, k))
  }

  /** Writing an open incident with `key` over row `id` (which, if present, was an open incident
      with `key`) changes no other key's open-incident status. */
  lemma {:induction false} OtherKeysUnaffected(t: IncidentTable, id: string, r: Incident, key: string)
    requires IsOpen(r) && r.key == key
    requires id in t ==> IsOpen(t[id]) && t[id].key == key
    ensures OtherKeysUnchanged(t, t[id := r], key)
  {
    var t' := t[id := r];
    forall k | k != key
      ensures HasOpen(t', k) <==> HasOpen(t, k)
    {
      if HasOpen(t', k) {
        var j :| j in t' && IsOpen(t'[j]) && t'[j].key == k;
        assert j != id && t'[j] == t[j];
      }
      if HasOpen(t, k) {
        var j :| j in t && IsOpen(t[j]) && t[j].key == k;
        assert j != id && t'[j] == t[j];
      }
    }
  }

  /** Touching the open incident for `key` keeps the invariant and the alert counts, keeps every
      open incident open, and leaves the other keys alone. */
  lemma TouchFacts(t: IncidentTable, log: AlertLog, id: string, key: string, severity: string, now: nat)
    requires id in t && IsOpen(t[id]) && t[id].key == key
    ensures var t' := t[id := Touched(t[id], severity, now)];
            && (AtMostOneOpen(t) ==> AtMostOneOpen(t'))
            && (Consistent(t, log) ==> Consistent(t', log))
            && OpensStayOpen(t, t')
            && OtherKeysUnchanged(t, t', key)
  {
    OtherKeysUnaffected(t, id, Touched(t[id], severity, now), key);
  }

  /** Inserting a fresh episode for a key with no open incident keeps the invariant and the alert
      counts, keeps every open incident open, and leaves the other keys alone. */
  lemma InsertFacts(t: IncidentTable, log: AlertLog, id: string, key: string, info: AlertInfo, now: nat)
    requires id !in t && !HasOpen(t, key)
    ensures var t' := t[id := NewIncident(id, key, info, now)];
            && (AtMostOneOpen(t) ==> AtMostOneOpen(t'))
            && (Consistent(t, log) ==> Consistent(t', log))
            && OpensStayOpen(t, t')
            && OtherKeysUnchanged(t, t', key)
  {
    var t' := t[id := NewIncident(id, key, info, now)];
    OtherKeysUnaffected(t, id, NewIncident(id, key, info, now), key);
    if Consistent(t, log) {
      CountLinkedUnreferenced(log, id);
    }
    if AtMostOneOpen(t) {
      forall i, j | i in t' && j in t' && IsOpen(t'[i]) && IsOpen(t'[j]) && t'[i].key == t'[j].key
        ensures i == j
      {
        if i != id && j != id {
          assert t'[i] == t[i] && t'[j] == t[j];
        }
      }
    }
  }

  /** What `find_or_create_incident` does to the incident table `t`, giving `t'`: it reports a new
      incident exactly when `key` has no open incident; otherwise it touches the latest open one,
      and when there is none it inserts `freshId` as a new episode. */
  ghost predicate FoundOrCreated(t: IncidentTable, t': IncidentTable, key: string, info: AlertInfo, now: nat,
                                 freshId: string, id: string, isNew: bool)
  {
    && (isNew <==> !HasOpen(t, key))
    && (!isNew ==> IsLatestOpen(t, key, id) && t' == t[id := Touched(t[id], info.severity, now)])
    && (isNew ==> id == freshId && t' == t[freshId := NewIncident(freshId, key, info, now)])
  }

  /** After `find_or_create_incident` the returned incident is the active one for `key`, last seen
      now; the table gained at most that row; every open incident stays open; no other key changes;
      and at most one incident per key stays open. */
  lemma FoundOrCreatedFacts(t: IncidentTable, t': IncidentTable, key: string, info: AlertInfo, now: nat,
                            freshId: string, id: string, isNew: bool)
    requires freshId !in t
    requires FoundOrCreated(t, t', key, info, now, freshId, id, isNew)
    ensures id in t' && t'[id].status == Active && t'[id].key == key && t'[id].lastSeenAt == now
    ensures t'.Keys == t.Keys + {id}
    ensures isNew <==> id !in t
    ensures OpensStayOpen(t, t') && OtherKeysUnchanged(t, t', key)
    ensures AtMostOneOpen(t) ==> AtMostOneOpen(t')
  {
    if isNew {
      InsertFacts(t, [], id, key, info, now);
    } else {
      TouchFacts(t, [], id, key, info.severity, now);
    }
  }

  /** Returns the open incident for `key` and false after forcing it back to active, or inserts
      `freshId` as a new active incident and returns true. `freshId` stands for
      `generate_incident_id()`, whose uniqueness is only probabilistic. */
  method FindOrCreateIncident(conn: Connection, key: string, info: AlertInfo, now: nat, freshId: string)
    returns (incidentId: string, isNew: bool)
    requires conn.Valid() && freshId !in conn.incidents
    modifies conn
    ensures conn.Valid()
    ensures conn.alerts == old(conn.alerts)
    ensures conn.committedIncidents == old(conn.committedIncidents)
    ensures conn.committedAlerts == old(conn.committedAlerts)
    ensures FoundOrCreated(old(conn.incidents), conn.incidents, key, info, now, freshId, incidentId, isNew)
  {
    var t := conn.incidents;
    var existing := SelectOpenIncident(conn, key);
    if existing.Some? {
      incidentId, isNew := existing.value, false;
      TouchFacts(t, conn.alerts, incidentId, key, info.severity, now);
      conn.incidents := t[incidentId := Touched(t[incidentId], info.severity, now)];
    } else {
      incidentId, isNew := freshId, true;
      InsertFacts(t, conn.alerts, freshId, key, info, now);
      conn.incidents := t[freshId := NewIncident(freshId, key, info, now)];
    }
  }

  /** The `grafana_alerts` row for one alert. */
  function AlertRecord(info: AlertInfo, raw: RawAlert, incidentId: string, key: string, now: nat): AlertRow
  {
    AlertRow(incidentId, key, now, info.state, info.ruleUid, info.alertname, info.message,
             info.labels, info.annotations, raw)
  }

  /** The table after the alert_count trigger fired for one alert row linked to `id`. */
  function CountBumped(t: IncidentTable, id: string): IncidentTable
    requires id in t
  {
    t[id := t[id].(alertCount := t[id].alertCount + 1)]
  }

  /** Inserts the alert row and returns its AUTO_INCREMENT id, here its 1-based position in the log.
      The alert_count trigger, not shown in the repository, raises the linked incident's count by one. */
  method SaveAlertToDb(conn: Connection, info: AlertInfo, raw: RawAlert, incidentId: string, key: string, now: nat)
    returns (alertId: nat)
    requires conn.Valid() && incidentId in conn.incidents
    modifies conn
    ensures conn.Valid()
    ensures conn.alerts == old(conn.alerts) + [AlertRecord(info, raw, incidentId, key, now)]
    ensures alertId == |conn.alerts|
    ensures conn.incidents == CountBumped(old(conn.incidents), incidentId)
    ensures conn.committedIncidents == old(conn.committedIncidents)
    ensures conn.committedAlerts == old(conn.committedAlerts)
  {
    var row := AlertRecord(info, raw, incidentId, key, now);
    var t := conn.incidents;
    var log := conn.alerts;
    conn.alerts := log + [row];
    conn.incidents := t[incidentId := t[incidentId].(alertCount := t[incidentId].alertCount + 1)];
    alertId := |conn.alerts|;
    forall id | id in conn.incidents
      ensures conn.incidents[id].alertCount == CountLinked(conn.alerts, id)
    {
      CountLinkedAppend(log, row, id);
    }
  }
}
