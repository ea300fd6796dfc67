/**
 * The operator transitions of `incident_service.py`: acknowledge, resolve and the read-only
 * lookup. Each runs inside the caller's transaction and never commits; a database error is
 * caught and reported as failure. Neither transition checks the incident's current status.
 */
module IncidentService {
  import opened Wrappers
  import opened AlertInfo
  import opened Database
  import opened IncidentStore

  /** The acknowledged row: status, acknowledged_by, acknowledged_time and updated_at are set
      and every other column keeps its value. */
  function WithAck(r: Incident, user: string, now: nat): (r': Incident)
    ensures r'.status == Acknowledged && IsOpen(r')
    ensures r'.acknowledgedBy == Some(user) && r'.acknowledgedTime == Some(now) && r'.updatedAt == now
    ensures r'.(status := r.status, acknowledgedBy := r.acknowledgedBy,
                acknowledgedTime := r.acknowledgedTime, updatedAt := r.updatedAt) == r
  {
    r.(status := Acknowledged, acknowledgedTime := Some(now), acknowledgedBy := Some(user), updatedAt := now)
  }

  /** The resolved row: status, resolved_by, resolved_time and updated_at are set and every other
      column keeps its value. */
  function WithResolution(r: Incident, user: string, now: nat): (r': Incident)
    ensures r'.status == Resolved && !IsOpen(r')
    ensures r'.resolvedBy == Some(user) && r'.resolvedTime == Some(now) && r'.updatedAt == now
    ensures r'.(status := r.status, resolvedBy := r.resolvedBy,
                resolvedTime := r.resolvedTime, updatedAt := r.updatedAt) == r
  {
    r.(status := Resolved, resolvedTime := Some(now), resolvedBy := Some(user), updatedAt := now)
  }

  /** Rewriting one row without touching its id or its alert_count keeps the tables consistent. */
  lemma RewriteKeepsConsistent(t: IncidentTable, log: AlertLog, id: string, r: Incident)
    requires Consistent(t, log) && id in t
    requires r.id == id && r.alertCount == t[id].alertCount
    ensures Consistent(t[id := r], log)
  {
  }

  /** `UPDATE incidents SET status = 'acknowledged', ... WHERE incident_id = %s`, then
      `rowcount > 0`. `dbFault` stands for an exception raised by the statement, which leaves
      the table as it was and makes the function return false. */
  method AcknowledgeIncident(conn: Connection, incidentId: string, user: string, now: nat, dbFault: bool)
    returns (ok: bool)
    requires conn.Valid()
    modifies conn
    ensures conn.Valid()
    ensures ok <==> !dbFault && incidentId in old(conn.incidents)
    ensures ok ==> conn.incidents == old(conn.incidents)[incidentId := WithAck(old(conn.incidents)[incidentId], user, now)]
    ensures !ok ==> conn.incidents == old(conn.incidents)
    ensures conn.alerts == old(conn.alerts)
    ensures conn.committedIncidents == old(conn.committedIncidents)
    ensures conn.committedAlerts == old(conn.committedAlerts)
  {
    if dbFault || incidentId !in conn.incidents {
      return false;
    }
    var t := conn.incidents;
    RewriteKeepsConsistent(t, conn.alerts, incidentId, WithAck(t[incidentId], user, now));
    conn.incidents := t[incidentId := WithAck(t[incidentId], user, now)];
    ok := true;
  }

  /** `UPDATE incidents SET status = 'resolved', ... WHERE incident_id = %s`, then `rowcount > 0`. */
  method ResolveIncident(conn: Connection, incidentId: string, user: string, now: nat, dbFault: bool)
    returns (ok: bool)
    requires conn.Valid()
    modifies conn
    ensures conn.Valid()
    ensures ok <==> !dbFault && incidentId in old(conn.incidents)
    ensures ok ==> conn.incidents ==
                   old(conn.incidents)[incidentId := WithResolution(old(conn.incidents)[incidentId], user, now)]
    ensures !ok ==> conn.incidents == old(conn.incidents)
    ensures conn.alerts == old(conn.alerts)
    ensures conn.committedIncidents == old(conn.committedIncidents)
    ensures conn.committedAlerts == old(conn.committedAlerts)
  {
    if dbFault || incidentId !in conn.incidents {
      return false;
    }
    var t := conn.incidents;
    RewriteKeepsConsistent(t, conn.alerts, incidentId, WithResolution(t[incidentId], user, now));
    conn.incidents := t[incidentId := WithResolution(t[incidentId], user, now)];
    ok := true;
  }

  /** The columns `get_incident_info` selects. */
  datatype IncidentSummary = IncidentSummary(
    id: string, key: string, status: Status, severity: string, cluster: string, namespace: string,
    phase: string, service: string, alertCount: nat, startTime: nat, firstSeenAt: nat)

  function SummaryOf(r: Incident): IncidentSummary
  {
    IncidentSummary(r.id, r.key, r.status, r.severity, r.cluster, r.namespace, r.phase, r.service,
                    r.alertCount, r.startTime, r.firstSeenAt)
  }

  /** `SELECT ... FROM incidents WHERE incident_id = %s`, `fetchone()`: the row's selected
      columns, or None for an unknown id or a database error. Reads only. */
  method GetIncidentInfo(conn: Connection, incidentId: string, dbFault: bool) returns (info: Option<IncidentSummary>)
    requires conn.Valid()
    ensures info.Some? <==> !dbFault && incidentId in conn.incidents
    ensures info.Some? ==> info.value.id == incidentId
                           && info.value == SummaryOf(conn.incidents[incidentId])
  {
    if dbFault || incidentId !in conn.incidents {
      return None;
    }
    info := Some(SummaryOf(conn.incidents[incidentId]));
  }

  /** Acknowledging keeps "at most one open incident per key" exactly when the target is not a
      resolved incident whose key has meanwhile reopened: ack has no status guard, so an old,
      resolved episode is turned back into a second open incident for its key. */
  lemma AckKeepsAtMostOneOpenIff(t: IncidentTable, id: string, user: string, now: nat)
    requires AtMostOneOpen(t) && id in t
    ensures AtMostOneOpen(t[id := WithAck(t[id], user, now)])
            <==> t[id].status != Resolved || !HasOpen(t, t[id].key)
  {
    var t' := t[id := WithAck(t[id], user, now)];
    var key := t[id].key;
    if t[id].status != Resolved || !HasOpen(t, key) {
      forall a, b | a in t' && b in t' && IsOpen(t'[a]) && IsOpen(t'[b]) && t'[a].key == t'[b].key
        ensures a == b
      {
        if a != id && b != id {
          assert t'[a] == t[a] && t'[b] == t[b];
        }
      }
    } else {
      var other :| other in t && IsOpen(t[other]) && t[other].key == key;
      assert other != id;
      assert t'[other] == t[other];
      assert IsOpen(t'[id]) && t'[id].key == key;
    }
  }

  /** Example rows: one incident with the given id, key and status, everything else zero. */
  function Sample(id: string, key: string, status: Status): Incident
  {
    Incident(id, key, status, "warning", "", "", "", "", "", 0, 0, 0, 0, 0, None, None, None, None)
  }

  /** The hazard is reachable: a key whose first episode was resolved and whose second is active
      ends up with two open incidents when an operator acknowledges the old episode. */
  lemma AckOfResolvedBreaksInvariant()
    ensures var t := map["old" := Sample("old", "k", Resolved), "new" := Sample("new", "k", Active)];
            && AtMostOneOpen(t)
            && !AtMostOneOpen(t["old" := WithAck(t["old"], "operator", 1)])
  {
    var t := map["old" := Sample("old", "k", Resolved), "new" := Sample("new", "k", Active)];
    AckKeepsAtMostOneOpenIff(t, "old", "operator", 1);
    assert IsOpen(t["new"]) && t["new"].key == "k";
  }

  /** Resolving never breaks "at most one open incident per key". */
  lemma ResolveKeepsAtMostOneOpen(t: IncidentTable, id: string, user: string, now: nat)
    requires AtMostOneOpen(t) && id in t
    ensures AtMostOneOpen(t[id := WithResolution(t[id], user, now)])
  {
    var t' := t[id := WithResolution(t[id], user, now)];
    forall a, b | a in t' && b in t' && IsOpen(t'[a]) && IsOpen(t'[b]) && t'[a].key == t'[b].key
      ensures a == b
    {
      assert a != id && b != id;
      assert t'[a] == t[a] && t'[b] == t[b];
    }
  }

  /** Resolving the open incident of a key leaves that key with no open incident. */
  lemma ResolveClosesKey(t: IncidentTable, id: string, user: string, now: nat)
    requires AtMostOneOpen(t) && id in t && IsOpen(t[id])
    ensures !HasOpen(t[id := WithResolution(t[id], user, now)], t[id].key)
  {
    var t' := t[id := WithResolution(t[id], user, now)];
    forall j | j in t' && IsOpen(t'[j])
      ensures t'[j].key != t[id].key
    {
      assert j != id && t'[j] == t[j];
    }
  }

  /** The next alert for a resolved key opens a new episode under a new id. */
  lemma RecurrenceAfterResolveIsNew(t: IncidentTable, id: string, user: string, now: nat,
                                    t2: IncidentTable, info: AlertInfo, later: nat, freshId: string,
                                    id2: string, isNew: bool)
    requires AtMostOneOpen(t) && id in t && IsOpen(t[id])
    requires FoundOrCreated(t[id := WithResolution(t[id], user, now)], t2, t[id].key, info, later, freshId, id2, isNew)
    ensures isNew && id2 == freshId
  {
    ResolveClosesKey(t, id, user, now);
  }

  /** The next alert for an acknowledged key lands on the same incident and makes it active
      again: an acknowledgement does not survive a recurrence. */
  lemma RecurrenceAfterAckReactivates(t: IncidentTable, id: string, user: string, now: nat,
                                      t2: IncidentTable, info: AlertInfo, later: nat, freshId: string,
                                      id2: string, isNew: bool)
    requires AtMostOneOpen(t) && id in t && IsOpen(t[id])
    requires FoundOrCreated(t[id := WithAck(t[id], user, now)], t2, t[id].key, info, later, freshId, id2, isNew)
    ensures !isNew && id2 == id && t2[id].status == Active
    ensures t2[id].acknowledgedBy == Some(user) && t2[id].acknowledgedTime == Some(now)
  {
    var t' := t[id := WithAck(t[id], user, now)];
    assert IsOpen(t'[id]) && t'[id].key == t[id].key;
    AckKeepsAtMostOneOpenIff(t, id, user, now);
    assert IsLatestOpen(t', t[id].key, id2);
  }
}
