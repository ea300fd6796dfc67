/**
 * The two MySQL tables the receiver writes, `incidents` and `grafana_alerts`, and a connection
 * with autocommit off: writes go to a working copy that `commit` publishes and `rollback` discards.
 */
module Database {
  import opened Wrappers
  import opened AlertInfo

  datatype Status = Active | Acknowledged | Resolved

  /** A row of `incidents`. Times are naturals (seconds). */
  datatype Incident = Incident(
    id: string, key: string, status: Status, severity: string,
    phase: string, cluster: string, namespace: string, service: string, serviceCategory: string,
    startTime: nat, firstSeenAt: nat, lastSeenAt: nat, updatedAt: nat,
    alertCount: nat,
    acknowledgedBy: Option<string>, acknowledgedTime: Option<nat>,
    resolvedBy: Option<string>, resolvedTime: Option<nat>)

  /** A row of `grafana_alerts`; the labels, annotations and raw payload are kept as values
      rather than as their JSON text. */
  datatype AlertRow = AlertRow(
    incidentId: string, incidentKey: string, receivedAt: nat,
    state: string, ruleUid: string, alertname: string, message: string,
    labels: Labels, annotations: Labels, rawPayload: RawAlert)

  /** `incidents`, keyed by incident_id. */
  type IncidentTable = map<string, Incident>

  /** `grafana_alerts` in insertion order. */
  type AlertLog = seq<AlertRow>

  /** `status IN ('active', 'acknowledged')` */
  predicate IsOpen(r: Incident)
  {
    r.status == Active || r.status == Acknowledged
  }

  /** Some open incident carries `key`. */
  ghost predicate HasOpen(t: IncidentTable, key: string)
  {
    exists id :: id in t && IsOpen(t[id]) && t[id].key == key
  }

  /** The central invariant: no two open incidents share a key. */
  ghost predicate AtMostOneOpen(t: IncidentTable)
  {
    forall i, j :: i in t && j in t && IsOpen(t[i]) && IsOpen(t[j]) && t[i].key == t[j].key ==> i == j
  }

  /** The number of alert rows linked to incident `id`. */
  function CountLinked(log: AlertLog, id: string): nat
  {
    if |log| == 0 then 0
    else CountLinked(log[..|log| - 1], id) + (if log[|log| - 1].incidentId == id then 1 else 0)
  }

  lemma CountLinkedAppend(log: AlertLog, row: AlertRow, id: string)
    ensures CountLinked(log + [row], id) == CountLinked(log, id) + (if row.incidentId == id then 1 else 0)
  {
    assert (log + [row])[..|log|] == log;
  }

  /** An incident no alert row refers to has no linked alerts. */
  lemma {:induction false} CountLinkedUnreferenced(log: AlertLog, id: string)
    requires forall k :: 0 <= k < |log| ==> log[k].incidentId != id
    ensures CountLinked(log, id) == 0
  {
    if |log| > 0 {
      CountLinkedUnreferenced(log[..|log| - 1], id);
    }
  }

  /** What the schema and the alert_count trigger keep true of the two tables: rows are stored
      under their own id, every alert row refers to an existing incident, and each incident's
      alert_count is the number of alert rows linked to it. */
  ghost predicate Consistent(t: IncidentTable, log: AlertLog)
  {
    && (forall id :: id in t ==> t[id].id == id)
    && (forall row :: row in log ==> row.incidentId in t)
    && (forall id :: id in t ==> t[id].alertCount == CountLinked(log, id))
  }

  /** A pymysql connection with autocommit off. `incidents` and `alerts` are what this
      connection's queries see; the committed fields are what the database holds. */
  class Connection {
    var incidents: IncidentTable
    var alerts: AlertLog
    var committedIncidents: IncidentTable
    var committedAlerts: AlertLog

    ghost predicate Valid()
      reads this
    {
      Consistent(incidents, alerts) && Consistent(committedIncidents, committedAlerts)
    }

    /** No uncommitted writes, as on a connection just opened by `get_db_connection()`. */
    predicate Clean()
      reads this
    {
      incidents == committedIncidents && alerts == committedAlerts
    }

    constructor Open(incidents: IncidentTable, alerts: AlertLog)
      requires Consistent(incidents, alerts)
      ensures Valid() && Clean()
      ensures this.incidents == incidents && this.alerts == alerts
    {
      this.incidents := incidents;
      this.alerts := alerts;
      this.committedIncidents := incidents;
      this.committedAlerts := alerts;
    }

    method Commit()
      requires Valid()
      modifies this
      ensures Valid() && Clean()
      ensures incidents == old(incidents) && alerts == old(alerts)
    {
      committedIncidents := incidents;
      committedAlerts := alerts;
    }

    method Rollback()
      requires Valid()
      modifies this
      ensures Valid() && Clean()
      ensures committedIncidents == old(committedIncidents) && committedAlerts == old(committedAlerts)
    {
      incidents := committedIncidents;
      alerts := committedAlerts;
    }
  }
}
