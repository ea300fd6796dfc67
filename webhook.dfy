/**
 * The per-alert loop of `grafana_webhook`: one transaction per delivery, committed after the last
 * alert and rolled back entirely when any step raises.
 */
module Webhook {
  import opened Wrappers
  import opened IncidentKeys
  import opened AlertInfo
  import opened Database
  import opened IncidentStore

  /** One entry of the response's `results`. */
  datatype AlertResult = AlertResult(
    alertId: nat, incidentId: string, incidentKey: string, isNewIncident: bool, alertCount: nat)

  datatype Response =
    | NoAlerts                          // 400, "No alerts in payload"
    | ServerError                       // 500 after the rollback
    | Processed(results: seq<AlertResult>)

  /** No earlier result in the batch has the key of result `i`. */
  ghost predicate FirstOfKey(results: seq<AlertResult>, i: nat)
    requires i < |results|
  {
    forall j :: 0 <= j < i ==> results[j].incidentKey != results[i].incidentKey
  }

  /** What the loop knows about result `j` once the incident table is `t` and the alert log `log`. */
  ghost predicate ResultRecorded(results: seq<AlertResult>, j: nat, alerts: seq<RawAlert>, freshIds: seq<string>,
                                 sha256: string -> Sha256Hex, now: nat, t0: IncidentTable, base: nat,
                                 t: IncidentTable, log: AlertLog)
  {
    && j < |results| && j < |alerts| && j < |freshIds| && base + j < |log|
    && results[j].incidentKey == IncidentKey(LabelsOf(alerts[j]), sha256)
    && results[j].alertId == base + j + 1
    && log[base + j] == AlertRecord(ExtractAlertInfo(alerts[j]), alerts[j],
                                    results[j].incidentId, results[j].incidentKey, now)
    && results[j].alertCount == CountLinked(log[..base + j + 1], results[j].incidentId)
    && results[j].incidentId in t
    && IsOpen(t[results[j].incidentId])
    && t[results[j].incidentId].key == results[j].incidentKey
    && (results[j].isNewIncident ==> results[j].incidentId == freshIds[j])
    && (results[j].isNewIncident <==> FirstOfKey(results, j) && !HasOpen(t0, results[j].incidentKey))
  }

  /** A key no result has touched yet has the open-incident status it had before the batch. */
  ghost predicate UntouchedKeysAsBefore(results: seq<AlertResult>, t0: IncidentTable, t: IncidentTable)
  {
    forall k :: (forall j :: 0 <= j < |results| ==> results[j].incidentKey != k)
                ==> (HasOpen(t, k) <==> HasOpen(t0, k))
  }

  /** Alerts with one key were all attached to one incident. */
  ghost predicate SameKeySameIncident(results: seq<AlertResult>)
  {
    forall j, k :: 0 <= j < |results| && 0 <= k < |results| && results[j].incidentKey == results[k].incidentKey
                   ==> results[j].incidentId == results[k].incidentId
  }

  /** Some result of the batch names incident `id`. */
  ghost predicate Named(results: seq<AlertResult>, id: string)
  {
    exists j :: 0 <= j < |results| && results[j].incidentId == id
  }

  /** Result `j` is the last of the batch attached to its incident. */
  ghost predicate LastOfIncident(results: seq<AlertResult>, j: nat)
    requires j < |results|
  {
    forall k :: j < k < |results| ==> results[k].incidentId != results[j].incidentId
  }

  /** The incident table gained exactly the results' incidents. */
  ghost predicate GainedExactly(results: seq<AlertResult>, t0: IncidentTable, t: IncidentTable)
  {
    t.Keys == t0.Keys + (set r | r in results :: r.incidentId)
  }

  /** An incident no result names keeps its row. */
  ghost predicate UnnamedKept(results: seq<AlertResult>, t0: IncidentTable, t: IncidentTable)
  {
    forall id :: id in t0 && !Named(results, id) ==> id in t && t[id] == t0[id]
  }

  /** An incident that existed before and that a result names keeps every column but status,
      severity, last_seen_at, updated_at and alert_count. */
  ghost predicate NamedTouched(results: seq<AlertResult>, now: nat, t0: IncidentTable, t: IncidentTable)
  {
    forall id :: id in t0 && Named(results, id) ==>
      id in t && t[id] == Touched(t0[id], t[id].severity, now).(alertCount := t[id].alertCount)
  }

  /** Every result's incident is active, last seen and updated `now`. */
  ghost predicate NamedActiveNow(results: seq<AlertResult>, now: nat, t: IncidentTable)
  {
    forall j :: 0 <= j < |results| ==>
      && results[j].incidentId in t
      && t[results[j].incidentId].status == Active
      && t[results[j].incidentId].lastSeenAt == now && t[results[j].incidentId].updatedAt == now
  }

  /** Every incident carries the severity of the last alert of the batch attached to it. */
  ghost predicate LastSeverity(results: seq<AlertResult>, alerts: seq<RawAlert>, t: IncidentTable)
  {
    forall j :: 0 <= j < |results| && j < |alerts| && LastOfIncident(results, j) ==>
      results[j].incidentId in t && t[results[j].incidentId].severity == ExtractAlertInfo(alerts[j]).severity
  }

  /** What the batch has written to the incident table so far, starting from `t0`. */
  ghost predicate BatchWrites(results: seq<AlertResult>, alerts: seq<RawAlert>, now: nat,
                              t0: IncidentTable, t: IncidentTable)
  {
    && |results| <= |alerts|
    && GainedExactly(results, t0, t)
    && UnnamedKept(results, t0, t)
    && NamedTouched(results, now, t0, t)
    && NamedActiveNow(results, now, t)
    && LastSeverity(results, alerts, t)
  }

  /** The table written by one alert: its incident touched (when it already exists) or inserted,
      then its alert_count raised by the trigger. */
  function AlertWrite(t: IncidentTable, r: AlertResult, info: AlertInfo, now: nat): IncidentTable
  {
    if r.incidentId in t
    then t[r.incidentId := Touched(t[r.incidentId], info.severity, now).(alertCount := t[r.incidentId].alertCount + 1)]
    else t[r.incidentId := NewIncident(r.incidentId, r.incidentKey, info, now).(alertCount := 1)]
  }

  /** The incident table after the writes of `results`, the results of `alerts` in order, applied
      to `t`. */
  function Replay(t: IncidentTable, results: seq<AlertResult>, alerts: seq<RawAlert>, now: nat): IncidentTable
    requires |results| <= |alerts|
    decreases |results|
  {
    if |results| == 0 then t
    else Replay(AlertWrite(t, results[0], ExtractAlertInfo(alerts[0]), now), results[1..], alerts[1..], now)
  }

  /** Replaying one more result applies its write last. */
  lemma {:induction false} ReplayAppend(t: IncidentTable, results: seq<AlertResult>, r: AlertResult,
                                        alerts: seq<RawAlert>, now: nat)
    requires |results| < |alerts|
    ensures Replay(t, results + [r], alerts, now)
            == AlertWrite(Replay(t, results, alerts, now), r, ExtractAlertInfo(alerts[|results|]), now)
    decreases |results|
  {
    if |results| > 0 {
      var t1 := AlertWrite(t, results[0], ExtractAlertInfo(alerts[0]), now);
      var rs := results + [r];
      assert rs[0] == results[0] && rs[1..] == results[1..] + [r];
      assert alerts[1..][|results[1..]|] == alerts[|results|];
      ReplayAppend(t1, results[1..], r, alerts[1..], now);
    }
  }

  /** Find-or-create followed by the trigger's count bump is exactly one alert's write, and the
      alert opened a new incident exactly when its id was not in the table. */
  lemma AlertWriteOfStep(t: IncidentTable, t1: IncidentTable, r: AlertResult, info: AlertInfo, now: nat,
                         freshId: string)
    requires freshId !in t
    requires FoundOrCreated(t, t1, r.incidentKey, info, now, freshId, r.incidentId, r.isNewIncident)
    requires r.incidentId in t1
    ensures r.isNewIncident <==> r.incidentId !in t
    ensures CountBumped(t1, r.incidentId) == AlertWrite(t, r, info, now)
  {
  }

  /** Appending a result names exactly the incidents named before and its own. */
  lemma NamedAppend(results: seq<AlertResult>, r: AlertResult, x: string)
    ensures Named(results + [r], x) <==> Named(results, x) || x == r.incidentId
  {
    var results' := results + [r];
    if Named(results, x) {
      var j :| 0 <= j < |results| && results[j].incidentId == x;
      assert results'[j] == results[j];
    }
    if x == r.incidentId {
      assert results'[|results|] == r;
    }
    if Named(results', x) {
      var j :| 0 <= j < |results'| && results'[j].incidentId == x;
      if j < |results| {
        assert results'[j] == results[j];
      }
    }
  }

  lemma GainedExactlyStep(results: seq<AlertResult>, r: AlertResult, t0: IncidentTable, t: IncidentTable,
                          t2: IncidentTable)
    requires GainedExactly(results, t0, t) && t2.Keys == t.Keys + {r.incidentId}
    ensures GainedExactly(results + [r], t0, t2)
  {
    var results' := results + [r];
    var i := |results|;
    assert (set x | x in results' :: x.incidentId)
           == (set x | x in results :: x.incidentId) + {r.incidentId};
  }

  lemma UnnamedKeptStep(results: seq<AlertResult>, r: AlertResult, t0: IncidentTable, t: IncidentTable,
                        t2: IncidentTable)
    requires UnnamedKept(results, t0, t)
    requires forall x :: x in t && x != r.incidentId ==> x in t2 && t2[x] == t[x]
    ensures UnnamedKept(results + [r], t0, t2)
  {
    forall x | x in t0 && !Named(results + [r], x)
      ensures x in t2 && t2[x] == t0[x]
    {
      NamedAppend(results, r, x);
    }
  }

  lemma NamedTouchedStep(results: seq<AlertResult>, r: AlertResult, now: nat, t0: IncidentTable,
                         t: IncidentTable, t2: IncidentTable)
    requires NamedTouched(results, now, t0, t) && UnnamedKept(results, t0, t)
    requires forall x :: x in t && x != r.incidentId ==> x in t2 && t2[x] == t[x]
    requires r.incidentId in t ==>
               r.incidentId in t2
               && t2[r.incidentId] == Touched(t[r.incidentId], t2[r.incidentId].severity, now)
                                        .(alertCount := t2[r.incidentId].alertCount)
    requires t0.Keys <= t.Keys
    ensures NamedTouched(results + [r], now, t0, t2)
  {
    forall x | x in t0 && Named(results + [r], x)
      ensures x in t2 && t2[x] == Touched(t0[x], t2[x].severity, now).(alertCount := t2[x].alertCount)
    {
      NamedAppend(results, r, x);
      if x == r.incidentId && !Named(results, x) {
        assert t[x] == t0[x];
      }
    }
  }

  lemma NamedActiveNowStep(results: seq<AlertResult>, r: AlertResult, now: nat, t: IncidentTable,
                           t2: IncidentTable)
    requires NamedActiveNow(results, now, t)
    requires forall x :: x in t && x != r.incidentId ==> x in t2 && t2[x] == t[x]
    requires r.incidentId in t2 && t2[r.incidentId].status == Active
    requires t2[r.incidentId].lastSeenAt == now && t2[r.incidentId].updatedAt == now
    ensures NamedActiveNow(results + [r], now, t2)
  {
    var results' := results + [r];
    forall j | 0 <= j < |results'|
      ensures && results'[j].incidentId in t2
              && t2[results'[j].incidentId].status == Active
              && t2[results'[j].incidentId].lastSeenAt == now && t2[results'[j].incidentId].updatedAt == now
    {
      if j < |results| {
        assert results'[j] == results[j];
      }
    }
  }

  /** A result that is last of its incident after an append was last before it, and the
      appended result names another incident. */
  lemma LastOfIncidentPrefix(results: seq<AlertResult>, r: AlertResult, j: nat)
    requires j < |results| && LastOfIncident(results + [r], j)
    ensures LastOfIncident(results, j) && r.incidentId != results[j].incidentId
  {
    var results' := results + [r];
    assert results'[|results|] == r && results'[j] == results[j];
    forall k | j < k < |results| ensures results[k].incidentId != results[j].incidentId {
      assert results'[k] == results[k];
    }
  }

  lemma LastSeverityStep(results: seq<AlertResult>, r: AlertResult, alerts: seq<RawAlert>, t: IncidentTable,
                         t2: IncidentTable)
    requires LastSeverity(results, alerts, t) && |results| < |alerts|
    requires forall x :: x in t && x != r.incidentId ==> x in t2 && t2[x] == t[x]
    requires r.incidentId in t2 && t2[r.incidentId].severity == ExtractAlertInfo(alerts[|results|]).severity
    ensures LastSeverity(results + [r], alerts, t2)
  {
    var results' := results + [r];
    forall j | 0 <= j < |results'| && j < |alerts| && LastOfIncident(results', j)
      ensures results'[j].incidentId in t2
              && t2[results'[j].incidentId].severity == ExtractAlertInfo(alerts[j]).severity
    {
      if j < |results| {
        LastOfIncidentPrefix(results, r, j);
        assert results'[j] == results[j];
      }
    }
  }

  /** One more alert's write extends what the batch has written. */
  lemma BatchWritesStep(results: seq<AlertResult>, r: AlertResult, alerts: seq<RawAlert>, now: nat,
                        t0: IncidentTable, t: IncidentTable)
    requires BatchWrites(results, alerts, now, t0, t) && |results| < |alerts|
    ensures BatchWrites(results + [r], alerts, now, t0, AlertWrite(t, r, ExtractAlertInfo(alerts[|results|]), now))
  {
    var t2 := AlertWrite(t, r, ExtractAlertInfo(alerts[|results|]), now);
    assert t0.Keys <= t.Keys;
    GainedExactlyStep(results, r, t0, t, t2);
    UnnamedKeptStep(results, r, t0, t, t2);
    NamedTouchedStep(results, r, now, t0, t, t2);
    NamedActiveNowStep(results, r, now, t, t2);
    LastSeverityStep(results, r, alerts, t, t2);
  }

  /** Whatever the batch, replaying its writes gives a table related to the start as
      `BatchWrites` describes. */
  lemma {:induction false} ReplayWrites(t0: IncidentTable, results: seq<AlertResult>, alerts: seq<RawAlert>, now: nat)
    requires |results| <= |alerts|
    ensures BatchWrites(results, alerts, now, t0, Replay(t0, results, alerts, now))
    decreases |results|
  {
    if |results| == 0 {
      assert (set x | x in results :: x.incidentId) == {};
    } else {
      var prev, r := results[..|results| - 1], results[|results| - 1];
      assert prev + [r] == results;
      var t := Replay(t0, prev, alerts, now);
      ReplayAppend(t0, prev, r, alerts, now);
      ReplayWrites(t0, prev, alerts, now);
      BatchWritesStep(prev, r, alerts, now, t0, t);
    }
  }

  /** Raising one incident's alert_count keeps every open incident open. */
  lemma CountBumpKeepsOpens(t0: IncidentTable, t: IncidentTable, id: string, n: nat)
    requires OpensStayOpen(t0, t) && id in t
    ensures OpensStayOpen(t0, t[id := t[id].(alertCount := n)])
  {
  }

  /** An earlier result stays recorded when the table only keeps its open incidents open and the
      log only grows. */
  lemma EarlierResultStays(results: seq<AlertResult>, r: AlertResult, j: nat, alerts: seq<RawAlert>,
                           freshIds: seq<string>, sha256: string -> Sha256Hex, now: nat, t0: IncidentTable,
                           base: nat, t: IncidentTable, log: AlertLog, t2: IncidentTable, row: AlertRow)
    requires ResultRecorded(results, j, alerts, freshIds, sha256, now, t0, base, t, log)
    requires OpensStayOpen(t, t2)
    ensures ResultRecorded(results + [r], j, alerts, freshIds, sha256, now, t0, base, t2, log + [row])
  {
    var log2 := log + [row];
    assert log2[..base + j + 1] == log[..base + j + 1];
    assert log2[base + j] == log[base + j];
    assert (results + [r])[j] == results[j];
    forall k | 0 <= k < j
      ensures (results + [r])[k] == results[k]
    {
    }
  }

  /** The alert just processed opened a new incident exactly when it is the first of its key in
      the batch and its key had no open incident before the batch. */
  lemma NewExactlyWhenFirst(results: seq<AlertResult>, r: AlertResult, alerts: seq<RawAlert>,
                            freshIds: seq<string>, sha256: string -> Sha256Hex, now: nat,
                            t0: IncidentTable, base: nat, t: IncidentTable, log: AlertLog)
    requires forall j :: 0 <= j < |results| ==> ResultRecorded(results, j, alerts, freshIds, sha256, now, t0, base, t, log)
    requires UntouchedKeysAsBefore(results, t0, t)
    requires r.isNewIncident <==> !HasOpen(t, r.incidentKey)
    ensures r.isNewIncident <==> FirstOfKey(results + [r], |results|) && !HasOpen(t0, r.incidentKey)
  {
    var results' := results + [r];
    var i := |results|;
    forall j | 0 <= j < i
      ensures results'[j] == results[j]
    {
    }
    if !FirstOfKey(results', i) {
      var j :| 0 <= j < i && results'[j].incidentKey == r.incidentKey;
      assert ResultRecorded(results, j, alerts, freshIds, sha256, now, t0, base, t, log);
      assert HasOpen(t, r.incidentKey);
    }
  }

  /** The result of the alert just processed is recorded. */
  lemma NewResultRecorded(results: seq<AlertResult>, alerts: seq<RawAlert>, freshIds: seq<string>,
                          sha256: string -> Sha256Hex, now: nat, t0: IncidentTable, base: nat,
                          r: AlertResult, t2: IncidentTable, log: AlertLog, log2: AlertLog)
    requires |results| < |alerts| == |freshIds| && |log| == base + |results|
    requires r.incidentKey == IncidentKey(LabelsOf(alerts[|results|]), sha256)
    requires r.incidentId in t2 && IsOpen(t2[r.incidentId]) && t2[r.incidentId].key == r.incidentKey
    requires r.alertId == |log2| && r.alertCount == t2[r.incidentId].alertCount
    requires r.isNewIncident ==> r.incidentId == freshIds[|results|]
    requires r.isNewIncident <==> FirstOfKey(results + [r], |results|) && !HasOpen(t0, r.incidentKey)
    requires log2 == log + [AlertRecord(ExtractAlertInfo(alerts[|results|]), alerts[|results|],
                                        r.incidentId, r.incidentKey, now)]
    requires t2[r.incidentId].alertCount == CountLinked(log2, r.incidentId)
    ensures ResultRecorded(results + [r], |results|, alerts, freshIds, sha256, now, t0, base, t2, log2)
  {
    assert log2[..base + |results| + 1] == log2;
  }

  /** Keys that no result has touched still have their open-incident status from before the batch. */
  lemma UntouchedKeysStep(results: seq<AlertResult>, r: AlertResult, t0: IncidentTable,
                          t: IncidentTable, t1: IncidentTable, t2: IncidentTable, id: string)
    requires UntouchedKeysAsBefore(results, t0, t)
    requires OtherKeysUnchanged(t, t1, r.incidentKey)
    requires id in t1 && t2 == t1[id := t1[id].(alertCount := t1[id].alertCount + 1)]
    ensures UntouchedKeysAsBefore(results + [r], t0, t2)
  {
    var results' := results + [r];
    forall k | forall j :: 0 <= j < |results'| ==> results'[j].incidentKey != k
      ensures HasOpen(t2, k) <==> HasOpen(t0, k)
    {
      assert results'[|results|].incidentKey != k;
      assert forall j :: 0 <= j < |results| ==> results[j].incidentKey != k by {
        forall j | 0 <= j < |results| ensures results[j].incidentKey != k {
          assert results'[j] == results[j];
        }
      }
      if HasOpen(t2, k) {
        var j :| j in t2 && IsOpen(t2[j]) && t2[j].key == k;
        assert j in t1 && IsOpen(t1[j]) && t1[j].key == k;
      }
      if HasOpen(t1, k) {
        var j :| j in t1 && IsOpen(t1[j]) && t1[j].key == k;
        assert j in t2 && IsOpen(t2[j]) && t2[j].key == k;
      }
    }
  }

  /** Under the invariant, the alert just processed joined the incident of every earlier alert
      with its key. */
  lemma OneIncidentPerKeyStep(results: seq<AlertResult>, r: AlertResult, alerts: seq<RawAlert>,
                              freshIds: seq<string>, sha256: string -> Sha256Hex, now: nat,
                              t0: IncidentTable, base: nat, t: IncidentTable, log: AlertLog,
                              t1: IncidentTable, t2: IncidentTable)
    requires forall j :: 0 <= j < |results| ==> ResultRecorded(results, j, alerts, freshIds, sha256, now, t0, base, t, log)
    requires AtMostOneOpen(t) && SameKeySameIncident(results)
    requires AtMostOneOpen(t1)
    requires HasOpen(t, r.incidentKey) ==> IsLatestOpen(t, r.incidentKey, r.incidentId)
    requires r.incidentId in t1 && t2 == t1[r.incidentId := t1[r.incidentId].(alertCount := t1[r.incidentId].alertCount + 1)]
    ensures AtMostOneOpen(t2) && SameKeySameIncident(results + [r])
  {
    var results' := results + [r];
    forall a, b | a in t2 && b in t2 && IsOpen(t2[a]) && IsOpen(t2[b]) && t2[a].key == t2[b].key
      ensures a == b
    {
      assert IsOpen(t1[a]) && IsOpen(t1[b]);
    }
    forall j | 0 <= j < |results| && results[j].incidentKey == r.incidentKey
      ensures results[j].incidentId == r.incidentId
    {
      assert ResultRecorded(results, j, alerts, freshIds, sha256, now, t0, base, t, log);
      assert HasOpen(t, r.incidentKey);
    }
    forall j, k | 0 <= j < |results'| && 0 <= k < |results'| && results'[j].incidentKey == results'[k].incidentKey
      ensures results'[j].incidentId == results'[k].incidentId
    {
      if j < |results| && k < |results| {
        assert results'[j] == results[j] && results'[k] == results[k];
      } else if j < |results| {
        assert results'[j] == results[j];
      } else if k < |results| {
        assert results'[k] == results[k];
      }
    }
  }

  /** Every earlier result stays recorded across one find-or-create and one save. */
  lemma EarlierResultsStay(results: seq<AlertResult>, r: AlertResult, alerts: seq<RawAlert>, freshIds: seq<string>,
                           sha256: string -> Sha256Hex, now: nat, t0: IncidentTable, base: nat,
                           t: IncidentTable, log: AlertLog, t1: IncidentTable, t2: IncidentTable, log2: AlertLog)
    requires forall j :: 0 <= j < |results| ==>
               ResultRecorded(results, j, alerts, freshIds, sha256, now, t0, base, t, log)
    requires OpensStayOpen(t, t1)
    requires r.incidentId in t1 && t2 == t1[r.incidentId := t1[r.incidentId].(alertCount := t1[r.incidentId].alertCount + 1)]
    requires |log2| == |log| + 1 && log2[..|log|] == log
    ensures forall j :: 0 <= j < |results| ==>
              ResultRecorded(results + [r], j, alerts, freshIds, sha256, now, t0, base, t2, log2)
  {
    var id := r.incidentId;
    CountBumpKeepsOpens(t, t1, id, t1[id].alertCount + 1);
    assert log + [log2[|log|]] == log2;
    forall j | 0 <= j < |results|
      ensures ResultRecorded(results + [r], j, alerts, freshIds, sha256, now, t0, base, t2, log2)
    {
      EarlierResultStays(results, r, j, alerts, freshIds, sha256, now, t0, base, t, log, t2, log2[|log|]);
    }
  }

  /** The result of the alert just saved and every earlier one are recorded, given what
      finding or creating its incident established. */
  lemma RecordedStep(results: seq<AlertResult>, r: AlertResult, alerts: seq<RawAlert>, freshIds: seq<string>,
                     sha256: string -> Sha256Hex, now: nat, t0: IncidentTable, base: nat,
                     t: IncidentTable, log: AlertLog, t1: IncidentTable, t2: IncidentTable, log2: AlertLog)
    requires |results| < |alerts| == |freshIds| && |log| == base + |results|
    requires forall j :: 0 <= j < |results| ==>
               ResultRecorded(results, j, alerts, freshIds, sha256, now, t0, base, t, log)
    requires UntouchedKeysAsBefore(results, t0, t)
    requires OpensStayOpen(t, t1)
    requires r.incidentKey == IncidentKey(LabelsOf(alerts[|results|]), sha256)
    requires r.incidentId in t1 && IsOpen(t1[r.incidentId]) && t1[r.incidentId].key == r.incidentKey
    requires r.isNewIncident <==> !HasOpen(t, r.incidentKey)
    requires r.isNewIncident ==> r.incidentId == freshIds[|results|]
    requires t2 == t1[r.incidentId := t1[r.incidentId].(alertCount := t1[r.incidentId].alertCount + 1)]
    requires log2 == log + [AlertRecord(ExtractAlertInfo(alerts[|results|]), alerts[|results|],
                                        r.incidentId, r.incidentKey, now)]
    requires r.alertId == |log2| && r.alertCount == t2[r.incidentId].alertCount
    requires t2[r.incidentId].alertCount == CountLinked(log2, r.incidentId)
    ensures forall j :: 0 <= j < |results| + 1 ==>
              ResultRecorded(results + [r], j, alerts, freshIds, sha256, now, t0, base, t2, log2)
  {
    EarlierResultsStay(results, r, alerts, freshIds, sha256, now, t0, base, t, log, t1, t2, log2);
    NewExactlyWhenFirst(results, r, alerts, freshIds, sha256, now, t0, base, t, log);
    NewResultRecorded(results, alerts, freshIds, sha256, now, t0, base, r, t2, log, log2);
  }

  /** After alert `i` was attached to `r.incidentId` (table `t` to `t1`) and saved (table `t1` to
      `t2`, log `log` to `log2`), its result and every earlier one are recorded. */
  lemma ResultsStep(results: seq<AlertResult>, r: AlertResult, alerts: seq<RawAlert>, freshIds: seq<string>,
                  sha256: string -> Sha256Hex, now: nat, t0: IncidentTable, base: nat, info: AlertInfo,
                  t: IncidentTable, log: AlertLog, t1: IncidentTable, t2: IncidentTable, log2: AlertLog)
    requires |results| < |alerts| == |freshIds| && |log| == base + |results|
    requires forall j :: 0 <= j < |results| ==>
               ResultRecorded(results, j, alerts, freshIds, sha256, now, t0, base, t, log)
    requires freshIds[|results|] !in t
    requires info == ExtractAlertInfo(alerts[|results|]) && r.incidentKey == IncidentKey(info.labels, sha256)
    requires FoundOrCreated(t, t1, r.incidentKey, info, now, freshIds[|results|], r.incidentId, r.isNewIncident)
    requires r.incidentId in t1
    requires t2 == CountBumped(t1, r.incidentId)
    requires UntouchedKeysAsBefore(results, t0, t)
    requires log2 == log + [AlertRecord(info, alerts[|results|], r.incidentId, r.incidentKey, now)]
    requires r.alertId == |log2| && r.alertCount == t2[r.incidentId].alertCount
    requires t2[r.incidentId].alertCount == CountLinked(log2, r.incidentId)
    ensures forall j :: 0 <= j < |results| + 1 ==>
              ResultRecorded(results + [r], j, alerts, freshIds, sha256, now, t0, base, t2, log2)
  {
    FoundOrCreatedFacts(t, t1, r.incidentKey, info, now, freshIds[|results|], r.incidentId, r.isNewIncident);
    RecordedStep(results, r, alerts, freshIds, sha256, now, t0, base, t, log, t1, t2, log2);
  }

  /** The same step keeps the untouched keys as they were and, under the invariant, one incident
      per key. */
  lemma KeysStep(results: seq<AlertResult>, r: AlertResult, alerts: seq<RawAlert>, freshIds: seq<string>,
                  sha256: string -> Sha256Hex, now: nat, t0: IncidentTable, base: nat, info: AlertInfo,
                  t: IncidentTable, log: AlertLog, t1: IncidentTable, t2: IncidentTable, log2: AlertLog)
    requires |results| < |alerts| == |freshIds| && |log| == base + |results|
    requires forall j :: 0 <= j < |results| ==>
               ResultRecorded(results, j, alerts, freshIds, sha256, now, t0, base, t, log)
    requires freshIds[|results|] !in t
    requires FoundOrCreated(t, t1, r.incidentKey, info, now, freshIds[|results|], r.incidentId, r.isNewIncident)
    requires r.incidentId in t1
    requires t2 == CountBumped(t1, r.incidentId)
    requires UntouchedKeysAsBefore(results, t0, t)
    requires AtMostOneOpen(t0) ==> AtMostOneOpen(t) && SameKeySameIncident(results)
    ensures UntouchedKeysAsBefore(results + [r], t0, t2)
    ensures AtMostOneOpen(t0) ==> AtMostOneOpen(t2) && SameKeySameIncident(results + [r])
  {
    var id := r.incidentId;
    FoundOrCreatedFacts(t, t1, r.incidentKey, info, now, freshIds[|results|], id, r.isNewIncident);
    UntouchedKeysStep(results, r, t0, t, t1, t2, id);
    if AtMostOneOpen(t0) {
      OneIncidentPerKeyStep(results, r, alerts, freshIds, sha256, now, t0, base, t, log, t1, t2);
    }
  }

  /** The same step uses up at most the fresh id of alert `i`. */
  lemma FreshIdsStep(i: nat, freshIds: seq<string>, key: string, info: AlertInfo, now: nat,
                     t: IncidentTable, t1: IncidentTable, t2: IncidentTable, id: string, isNew: bool)
    requires i < |freshIds|
    requires forall k :: i <= k < |freshIds| ==> freshIds[k] !in t
    requires forall a, b :: i <= a < b < |freshIds| ==> freshIds[a] != freshIds[b]
    requires FoundOrCreated(t, t1, key, info, now, freshIds[i], id, isNew)
    requires id in t1 && t2 == CountBumped(t1, id)
    ensures forall k :: i < k < |freshIds| ==> freshIds[k] !in t2
  {
    FoundOrCreatedFacts(t, t1, key, info, now, freshIds[i], id, isNew);
  }

  /** Everything the loop knows after the first `|results|` alerts of the batch. */
  ghost predicate BatchState(results: seq<AlertResult>, alerts: seq<RawAlert>, freshIds: seq<string>,
                             sha256: string -> Sha256Hex, now: nat, t0: IncidentTable, base: nat,
                             t: IncidentTable, log: AlertLog)
  {
    && |results| <= |alerts|
    && (forall k :: |results| <= k < |freshIds| ==> freshIds[k] !in t)
    && (forall j :: 0 <= j < |results| ==> ResultRecorded(results, j, alerts, freshIds, sha256, now, t0, base, t, log))
    && UntouchedKeysAsBefore(results, t0, t)
    && (AtMostOneOpen(t0) ==> AtMostOneOpen(t) && SameKeySameIncident(results))
    && t == Replay(t0, results, alerts, now)
  }

  /** Before the first alert the loop knows all of it trivially. */
  lemma BatchStateStart(alerts: seq<RawAlert>, freshIds: seq<string>, sha256: string -> Sha256Hex, now: nat,
                        t0: IncidentTable, log: AlertLog)
    requires forall k :: 0 <= k < |freshIds| ==> freshIds[k] !in t0
    ensures BatchState([], alerts, freshIds, sha256, now, t0, |log|, t0, log)
  {
  }

  /** A prefix of a prefix is a prefix. */
  lemma PrefixOfPrefix<T>(s: seq<T>, u: seq<T>, n: nat, m: nat)
    requires n <= m <= |s| && s[..m] == u
    ensures s[..n] == u[..n]
  {
    assert forall k :: 0 <= k < n ==> s[..n][k] == s[..m][k];
  }

  /** Steps 1 to 5 of the loop body for alert `i`: extract, key, find-or-create, save, read back
      the count. `raised` reports the exception injected by `failAt`, which leaves the incident
      write in place for the caller's rollback to undo. */
  method ProcessAlert(conn: Connection, alerts: seq<RawAlert>, i: nat, sha256: string -> Sha256Hex, now: nat,
                      freshIds: seq<string>, failAt: Option<nat>,
                      ghost results: seq<AlertResult>, ghost t0: IncidentTable, ghost base: nat)
    returns (r: AlertResult, raised: bool)
    requires conn.Valid()
    requires i == |results| < |alerts| == |freshIds| && |conn.alerts| == base + i
    requires forall a, b :: i <= a < b < |freshIds| ==> freshIds[a] != freshIds[b]
    requires BatchState(results, alerts, freshIds, sha256, now, t0, base, conn.incidents, conn.alerts)
    modifies conn
    ensures conn.Valid()
    ensures conn.committedIncidents == old(conn.committedIncidents)
    ensures conn.committedAlerts == old(conn.committedAlerts)
    ensures raised <==> failAt == Some(i)
    ensures !raised ==>
      && |conn.alerts| == base + i + 1 && conn.alerts[..base + i] == old(conn.alerts)
      && conn.alerts[..base] == old(conn.alerts)[..base]
      && BatchState(results + [r], alerts, freshIds, sha256, now, t0, base, conn.incidents, conn.alerts)
    ensures !raised ==> (r.isNewIncident <==> r.incidentId !in old(conn.incidents))
  {
    var alert := alerts[i];
    var info := ExtractAlertInfo(alert);
    var key := IncidentKey(info.labels, sha256);
    ghost var t := conn.incidents;
    ghost var log := conn.alerts;
    var incidentId, isNew := FindOrCreateIncident(conn, key, info, now, freshIds[i]);
    if failAt == Some(i) {
      r, raised := AlertResult(0, incidentId, key, isNew, 0), true;
      return;
    }
    raised := false;
    ghost var t1 := conn.incidents;
    var alertId := SaveAlertToDb(conn, info, alert, incidentId, key, now);
    // `SELECT alert_count FROM incidents WHERE incident_id = %s`, read back after the trigger.
    var alertCount := if incidentId in conn.incidents then conn.incidents[incidentId].alertCount else 1;
    r := AlertResult(alertId, incidentId, key, isNew, alertCount);
    ResultsStep(results, r, alerts, freshIds, sha256, now, t0, base, info, t, log, t1, conn.incidents, conn.alerts);
    KeysStep(results, r, alerts, freshIds, sha256, now, t0, base, info, t, log, t1, conn.incidents, conn.alerts);
    FreshIdsStep(i, freshIds, key, info, now, t, t1, conn.incidents, incidentId, isNew);
    AlertWriteOfStep(t, t1, r, info, now, freshIds[i]);
    ReplayAppend(t0, results, r, alerts, now);
    assert conn.alerts[..base + i] == log;
    PrefixOfPrefix(conn.alerts, log, base, base + i);
  }

  /** The `for` loop of `grafana_webhook`: handles the alerts in order inside the open
      transaction and stops at the first that raises, leaving the writes made so far for the
      caller to roll back. Without a failure, every alert has its recorded result and the
      incident table is the batch's writes replayed on the table it started from. */
  method IngestAlerts(conn: Connection, alerts: seq<RawAlert>, sha256: string -> Sha256Hex, now: nat,
                      freshIds: seq<string>, failAt: Option<nat>)
    returns (results: seq<AlertResult>, raised: bool)
    requires conn.Valid()
    requires |freshIds| == |alerts|
    requires forall i :: 0 <= i < |freshIds| ==> freshIds[i] !in conn.incidents
    requires forall i, j :: 0 <= i < j < |freshIds| ==> freshIds[i] != freshIds[j]
    modifies conn
    ensures conn.Valid()
    ensures conn.committedIncidents == old(conn.committedIncidents)
    ensures conn.committedAlerts == old(conn.committedAlerts)
    ensures raised <==> failAt.Some? && failAt.value < |alerts|
    ensures !raised ==>
      && |results| == |alerts|
      && |conn.alerts| == |old(conn.alerts)| + |alerts| && conn.alerts[..|old(conn.alerts)|] == old(conn.alerts)
      && BatchState(results, alerts, freshIds, sha256, now, old(conn.incidents), |old(conn.alerts)|,
                    conn.incidents, conn.alerts)
  {
    var base := |conn.alerts|;
    ghost var t0 := conn.incidents;
    ghost var log0 := conn.alerts;
    results := [];
    raised := false;
    BatchStateStart(alerts, freshIds, sha256, now, t0, log0);
    var i := 0;
    while i < |alerts|
      invariant 0 <= i <= |alerts| && |results| == i
      invariant failAt.Some? ==> i <= failAt.value
      invariant conn.Valid()
      invariant conn.committedIncidents == old(conn.committedIncidents)
      invariant conn.committedAlerts == old(conn.committedAlerts)
      invariant |conn.alerts| == base + i && conn.alerts[..base] == log0
      invariant BatchState(results, alerts, freshIds, sha256, now, t0, base, conn.incidents, conn.alerts)
    {
      ghost var log := conn.alerts;
      var r;
      r, raised := ProcessAlert(conn, alerts, i, sha256, now, freshIds, failAt, results, t0, base);
      if raised {
        return;
      }
      assert failAt.Some? ==> i < failAt.value by {
        assert failAt != Some(i);
      }
      results := results + [r];
      i := i + 1;
    }
  }

  /** Processes one delivery. `freshIds[i]` is the id `generate_incident_id()` would return while
      handling alert `i`; `failAt == Some(i)` makes the handling of alert `i` raise after its
      incident write (a database error, a lost connection), which must undo the whole batch.
      The Slack notification sent inside the loop is not modelled. */
  method GrafanaWebhook(conn: Connection, alerts: seq<RawAlert>, sha256: string -> Sha256Hex, now: nat,
                        freshIds: seq<string>, failAt: Option<nat>)
    returns (resp: Response)
    requires conn.Valid() && conn.Clean()
    requires |freshIds| == |alerts|
    requires forall i :: 0 <= i < |freshIds| ==> freshIds[i] !in conn.incidents
    requires forall i, j :: 0 <= i < j < |freshIds| ==> freshIds[i] != freshIds[j]
    modifies conn
    ensures conn.Valid() && conn.Clean()
    ensures resp.NoAlerts? <==> |alerts| == 0
    ensures resp.ServerError? <==> |alerts| > 0 && failAt.Some? && failAt.value < |alerts|
    ensures !resp.Processed? ==> conn.incidents == old(conn.incidents) && conn.alerts == old(conn.alerts)
    ensures resp.Processed? ==>
      && |resp.results| == |alerts|
      && |conn.alerts| == |old(conn.alerts)| + |alerts| && conn.alerts[..|old(conn.alerts)|] == old(conn.alerts)
      && (forall j :: 0 <= j < |alerts| ==>
            ResultRecorded(resp.results, j, alerts, freshIds, sha256, now, old(conn.incidents), |old(conn.alerts)|,
                           conn.incidents, conn.alerts))
    ensures resp.Processed? ==> conn.incidents == Replay(old(conn.incidents), resp.results, alerts, now)
    ensures resp.Processed? ==> BatchWrites(resp.results, alerts, now, old(conn.incidents), conn.incidents)
    ensures resp.Processed? && AtMostOneOpen(old(conn.incidents)) ==>
      && AtMostOneOpen(conn.incidents)
      && SameKeySameIncident(resp.results)
  {
    if |alerts| == 0 {
      return NoAlerts;
    }
    ghost var t0 := conn.incidents;
    var results, raised := IngestAlerts(conn, alerts, sha256, now, freshIds, failAt);
    if raised {
      conn.Rollback();
      return ServerError;
    }
    ReplayWrites(t0, results, alerts, now);
    conn.Commit();
    resp := Processed(results);
  }
}
