/**
 * The Socket Mode button handler (`handle_interactive_components` in `slack_socket.py`): the
 * early returns on an unusable payload, acknowledge and resolve inside one transaction that is
 * committed exactly when the operation reports success, and the mute path, which only reads the
 * tables and asks Grafana for a silence. Slack messages are modelled by which reply would be
 * composed and whether it goes to the message's thread; their wording and sending are not.
 */
module SlackSocket {
  import opened Wrappers
  import opened Database
  import opened IncidentService
  import opened GrafanaSilence
  import opened SlackInteractions

  /** The reply the handler composes. */
  datatype Reply =
    | AckDone(who: string)
    | AckFailed(incidentId: Option<string>, who: string)
    | ResolveDone(who: string)
    | ResolveFailed(incidentId: Option<string>, who: string)
    | SilenceCreated(durationText: string, who: string)
    | SilenceFailed(durationText: string, who: string)
    | ProcessingFailed(action: string, incidentId: Option<string>)
    | ProcessingError(failedAction: Option<string>)

  /** Where a thread reply is posted. */
  datatype Thread = Thread(channel: string, ts: string)

  /** What one button click leads to: the silence posted to Grafana, the reply composed, the
      thread it is posted to, and whether the `finally` clause closes a connection the mute path
      had already closed (pymysql raises on a second `close()`). */
  datatype Outcome = Outcome(
    silence: Option<SilenceRequest>, reply: Option<Reply>, sentTo: Option<Thread>, closeError: bool)

  const Ignored := Outcome(None, None, None, false)

  /** `user.get("name", user.get("id", "unknown"))`: the name recorded as actor. A present but
      empty name is kept. */
  function Actor(user: Labels): (a: string)
    ensures "name" in user ==> a == user["name"]
    ensures "name" !in user && "id" in user ==> a == user["id"]
    ensures "name" !in user && "id" !in user ==> a == "unknown"
  {
    Get(user, "name", Get(user, "id", "unknown"))
  }

  /** `user.get('name', 'unknown')`, the name shown in replies. */
  function DisplayName(user: Labels): string
  {
    Get(user, "name", "unknown")
  }

  predicate IsMute(action: string)
  {
    |action| >= 5 && action[..5] == "mute_"
  }

  /** The silence length in minutes, 30 for an unknown `mute_` action. */
  function MuteDuration(action: string): (minutes: nat)
    ensures action == "mute_2h" <==> minutes == 120
    ensures action == "mute_24h" <==> minutes == 1440
    ensures action != "mute_2h" && action != "mute_24h" <==> minutes == 30
  {
    if action == "mute_2h" then 120 else if action == "mute_24h" then 1440 else 30
  }

  /** The duration shown in the reply. */
  function DurationText(action: string): string
  {
    if action == "mute_30m" then "30분"
    else if action == "mute_2h" then "2시간"
    else if action == "mute_24h" then "24시간"
    else "30분"
  }

  /** The two lookup tables agree: the reply shows the length of the silence actually created. */
  lemma DurationTextAgrees(action: string)
    ensures MuteDuration(action) == 30 <==> DurationText(action) == "30분"
    ensures MuteDuration(action) == 120 <==> DurationText(action) == "2시간"
    ensures MuteDuration(action) == 1440 <==> DurationText(action) == "24시간"
  {
  }

  /** The labels a silence is scoped to. */
  datatype MuteTarget = MuteTarget(
    alertname: string, cluster: Option<string>, namespace: Option<string>,
    phase: Option<string>, service: Option<string>)

  /** A label of the latest alert when it is truthy, else the incident's column. */
  function Fallback(labels: Labels, name: string, column: string): (v: Option<string>)
    ensures Truthy(Lookup(labels, name)) ==> v == Lookup(labels, name)
    ensures !Truthy(Lookup(labels, name)) ==> v == Some(column)
  {
    if Truthy(Lookup(labels, name)) then Lookup(labels, name) else Some(column)
  }

  /** The mute scope: the alert row's alertname (else its alertname label, else ""), and each of
      cluster, namespace, phase and service from the alert's labels, else from the incident. */
  function MuteTargetOf(row: AlertRow, info: IncidentSummary): (m: MuteTarget)
    ensures row.alertname != "" ==> m.alertname == row.alertname
    ensures row.alertname == "" ==> m.alertname == Get(row.labels, "alertname", "")
    ensures m.cluster == Fallback(row.labels, "cluster", info.cluster)
    ensures m.namespace == Fallback(row.labels, "namespace", info.namespace)
    ensures m.phase == Fallback(row.labels, "phase", info.phase)
    ensures m.service == Fallback(row.labels, "service", info.service)
  {
    MuteTarget(OrElse(Some(row.alertname), Get(row.labels, "alertname", "")),
               Fallback(row.labels, "cluster", info.cluster),
               Fallback(row.labels, "namespace", info.namespace),
               Fallback(row.labels, "phase", info.phase),
               Fallback(row.labels, "service", info.service))
  }

  /** A silence built from a mute target matches a label exactly when the alert or, failing that,
      the incident has a non-empty value for it. */
  lemma MuteScopeFallsBack(row: AlertRow, info: IncidentSummary)
    ensures var m := MuteTargetOf(row, info);
            var s := SilenceMatchers(m.alertname, m.cluster, m.namespace, m.phase, m.service);
            && (Truthy(Lookup(row.labels, "cluster")) || info.cluster != "" <==>
                exists i :: 0 <= i < |s| && s[i].name == "cluster")
            && (Truthy(Lookup(row.labels, "service")) || info.service != "" <==>
                exists i :: 0 <= i < |s| && s[i].name == "service")
  {
    var m := MuteTargetOf(row, info);
    SilenceMatchersShape(m.alertname, m.cluster, m.namespace, m.phase, m.service);
  }

  /** Index `k` holds a newest alert row of the incident. */
  ghost predicate IsLatestAlert(log: AlertLog, id: string, k: int)
  {
    && 0 <= k < |log| && log[k].incidentId == id
    && forall j :: 0 <= j < |log| && log[j].incidentId == id ==> log[j].receivedAt <= log[k].receivedAt
  }

  predicate HasAlert(log: AlertLog, id: string)
  {
    exists k :: 0 <= k < |log| && log[k].incidentId == id
  }

  /** `SELECT alertname, labels FROM grafana_alerts WHERE incident_id = %s ORDER BY received_at
      DESC LIMIT 1`; among rows received in the same second any one may come back. */
  method SelectLatestAlert(conn: Connection, incidentId: string) returns (found: Option<nat>)
    ensures found.None? <==> !HasAlert(conn.alerts, incidentId)
    ensures found.Some? ==> IsLatestAlert(conn.alerts, incidentId, found.value)
  {
    var log := conn.alerts;
    found := None;
    var i := 0;
    while i < |log|
      invariant 0 <= i <= |log|
      invariant found.None? <==> forall k :: 0 <= k < i ==> log[k].incidentId != incidentId
      invariant found.Some? ==> found.value < i && IsLatestAlert(log[..i], incidentId, found.value)
    {
      if log[i].incidentId == incidentId && (found.None? || log[found.value].receivedAt < log[i].receivedAt) {
        found := Some(i);
      }
      i := i + 1;
    }
    assert log[..i] == log;
  }

  /** An incident has alert rows exactly when its alert_count is positive, so the mute path gives
      up precisely on incidents no alert was ever saved for. */
  lemma {:induction false} CountedIffHasAlert(log: AlertLog, id: string)
    ensures CountLinked(log, id) > 0 <==> HasAlert(log, id)
  {
    if |log| > 0 {
      var init := log[..|log| - 1];
      CountedIffHasAlert(init, id);
      assert HasAlert(init, id) ==> HasAlert(log, id) by {
        if HasAlert(init, id) {
          var k :| 0 <= k < |init| && init[k].incidentId == id;
          assert log[k] == init[k];
        }
      }
      assert HasAlert(log, id) && log[|log| - 1].incidentId != id ==> HasAlert(init, id) by {
        if HasAlert(log, id) && log[|log| - 1].incidentId != id {
          var k :| 0 <= k < |log| && log[k].incidentId == id;
          assert init[k] == log[k];
        }
      }
    }
  }

  /** acknowledge or resolve, as the buttons name them. */
  datatype Transition = Ack | Resolve

  function Applied(kind: Transition, r: Incident, actor: string, now: nat): Incident
  {
    match kind
    case Ack => WithAck(r, actor, now)
    case Resolve => WithResolution(r, actor, now)
  }

  /** The UPDATE reports a changed row: the statement did not fail and the id names an incident.
      An absent incident_id in the button value is bound as NULL and matches no row. */
  predicate Succeeds(t: IncidentTable, incidentId: Option<string>, dbFault: bool)
  {
    !dbFault && incidentId.Some? && incidentId.value in t
  }

  /** The incident table after a transition has been committed or rolled back. */
  function AfterTransition(t: IncidentTable, kind: Transition, incidentId: Option<string>, actor: string,
                           now: nat, dbFault: bool): IncidentTable
  {
    if Succeeds(t, incidentId, dbFault) then t[incidentId.value := Applied(kind, t[incidentId.value], actor, now)]
    else t
  }

  /** A transition that goes through touches only its own row. */
  lemma AfterTransitionTouchesOneRow(t: IncidentTable, kind: Transition, incidentId: Option<string>,
                                     actor: string, now: nat, dbFault: bool)
    ensures var t' := AfterTransition(t, kind, incidentId, actor, now, dbFault);
            && t'.Keys == t.Keys
            && (forall id :: id in t && (incidentId != Some(id) || dbFault) ==> t'[id] == t[id])
            && (Succeeds(t, incidentId, dbFault) ==>
                  t'[incidentId.value].status == (if kind == Ack then Acknowledged else Resolved)
                  && t'[incidentId.value].key == t[incidentId.value].key)
  {
  }

  /** Resolving, committed or not, keeps at most one open incident per key. */
  lemma ResolveHandlerKeepsAtMostOneOpen(t: IncidentTable, incidentId: Option<string>, actor: string,
                                         now: nat, dbFault: bool)
    requires AtMostOneOpen(t)
    ensures AtMostOneOpen(AfterTransition(t, Resolve, incidentId, actor, now, dbFault))
  {
    if Succeeds(t, incidentId, dbFault) {
      ResolveKeepsAtMostOneOpen(t, incidentId.value, actor, now);
    }
  }

  function Delivery(channel: Option<string>, messageTs: Option<string>): Option<Thread>
  {
    if Truthy(messageTs) && Truthy(channel) then Some(Thread(channel.value, messageTs.value)) else None
  }

  /** The ack and resolve branches: run the UPDATE, compose the reply, then commit when the
      operation reported success and roll back otherwise. */
  method HandleTransition(conn: Connection, kind: Transition, incidentId: Option<string>, user: Labels,
                          now: nat, dbFault: bool) returns (reply: Reply)
    requires conn.Valid() && conn.Clean()
    modifies conn
    ensures conn.Valid() && conn.Clean()
    ensures conn.incidents == AfterTransition(old(conn.incidents), kind, incidentId, Actor(user), now, dbFault)
    ensures conn.alerts == old(conn.alerts)
    ensures reply == if Succeeds(old(conn.incidents), incidentId, dbFault) then
                       (if kind == Ack then AckDone(DisplayName(user)) else ResolveDone(DisplayName(user)))
                     else
                       (if kind == Ack then AckFailed(incidentId, DisplayName(user))
                        else ResolveFailed(incidentId, DisplayName(user)))
  {
    var success := false;
    if incidentId.Some? {
      if kind == Ack {
        success := AcknowledgeIncident(conn, incidentId.value, Actor(user), now, dbFault);
      } else {
        success := ResolveIncident(conn, incidentId.value, Actor(user), now, dbFault);
      }
    }
    if kind == Ack {
      reply := if success then AckDone(DisplayName(user)) else AckFailed(incidentId, DisplayName(user));
    } else {
      reply := if success then ResolveDone(DisplayName(user)) else ResolveFailed(incidentId, DisplayName(user));
    }
    if success {
      conn.Commit();
    } else {
      conn.Rollback();
    }
  }

  /** The mute branch. It never writes: it reads the incident and its newest alert, closes the
      connection, and asks Grafana for a silence scoped by the alert's labels. Exits after the
      first `close()` make the `finally` clause close the connection a second time. */
  method HandleMute(conn: Connection, action: string, incidentId: Option<string>, user: Labels,
                    channel: Option<string>, messageTs: Option<string>, now: nat, dbFault: bool,
                    alertQueryFault: bool, post: SilenceRequest -> Option<Labels>)
    returns (outcome: Outcome)
    requires conn.Valid() && conn.Clean()
    modifies conn
    ensures conn.Valid() && conn.Clean()
    ensures conn.incidents == old(conn.incidents) && conn.alerts == old(conn.alerts)
    ensures outcome.silence.Some? <==> Succeeds(conn.incidents, incidentId, dbFault) && !alertQueryFault
                                       && HasAlert(conn.alerts, incidentId.value)
    ensures outcome.silence.Some? ==>
              var request := outcome.silence.value;
              && request.startsAt == now && request.endsAt == now + 60 * MuteDuration(action)
              && request.comment == MuteComment(Actor(user), MuteDuration(action))
              && exists k :: IsLatestAlert(conn.alerts, incidentId.value, k)
                             && var m := MuteTargetOf(conn.alerts[k], SummaryOf(conn.incidents[incidentId.value]));
                                request.matchers == SilenceMatchers(m.alertname, m.cluster, m.namespace, m.phase, m.service)
    ensures outcome.silence.Some? ==>
              && outcome.reply.Some?
              && (outcome.reply.value.SilenceCreated? || outcome.reply.value.SilenceFailed?)
              && (outcome.reply.value.SilenceCreated? <==>
                  post(outcome.silence.value).Some? && "silenceID" in post(outcome.silence.value).value)
              && outcome.reply.value.durationText == DurationText(action)
              && outcome.reply.value.who == DisplayName(user)
    ensures Succeeds(conn.incidents, incidentId, dbFault) && alertQueryFault ==>
              outcome.reply == Some(ProcessingError(Some(action))) && !outcome.closeError
    ensures outcome.reply.None? ==> outcome.silence.None? && outcome.closeError
    ensures outcome.closeError <==> !(Succeeds(conn.incidents, incidentId, dbFault) && alertQueryFault)
    ensures outcome.reply.Some? ==> outcome.sentTo == Delivery(channel, messageTs)
    ensures outcome.reply.None? ==> outcome.sentTo.None?
  {
    var minutes := MuteDuration(action);
    var durationText := DurationText(action);
    var info: Option<IncidentSummary> := None;
    if incidentId.Some? {
      info := GetIncidentInfo(conn, incidentId.value, dbFault);
    }
    if info.None? {
      // conn.close(); return -- and the finally clause closes it again
      return Outcome(None, None, None, true);
    }
    if alertQueryFault {
      // the SELECT raises: the except clause rolls back and reports the error
      conn.Rollback();
      var reply := ProcessingError(Some(action));
      return Outcome(None, Some(reply), Delivery(channel, messageTs), false);
    }
    var latest := SelectLatestAlert(conn, incidentId.value);
    if latest.None? {
      return Outcome(None, None, None, true);
    }
    var target := MuteTargetOf(conn.alerts[latest.value], info.value);
    var ok, request := MuteIncidentViaGrafana(target.alertname, target.cluster, target.namespace,
                                              target.phase, target.service, minutes, Actor(user), now, post);
    var reply := if ok then SilenceCreated(durationText, DisplayName(user))
                 else SilenceFailed(durationText, DisplayName(user));
    outcome := Outcome(Some(request), Some(reply), Delivery(channel, messageTs), true);
  }

  /** `handle_interactive_components`. */
  method HandleInteractiveComponents(conn: Connection, payload: Payload, jsonLoads: string -> Option<Labels>,
                                     now: nat, dbFault: bool, alertQueryFault: bool,
                                     post: SilenceRequest -> Option<Labels>)
    returns (outcome: Outcome)
    requires conn.Valid() && conn.Clean()
    modifies conn
    ensures conn.Valid() && conn.Clean()
    ensures conn.alerts == old(conn.alerts)
    ensures outcome == Ignored <==> ExtractButtonAction(payload, jsonLoads).None?
    ensures ExtractButtonAction(payload, jsonLoads).None? ==> conn.incidents == old(conn.incidents)
    ensures ExtractButtonAction(payload, jsonLoads).Some? ==>
              var click := ExtractButtonAction(payload, jsonLoads).value;
              var action := Lookup(click.value, "action");
              var incidentId := Lookup(click.value, "incident_id");
              && (action == Some("ack") ==>
                    conn.incidents == AfterTransition(old(conn.incidents), Ack, incidentId, Actor(click.user), now, dbFault))
              && (action == Some("resolve") ==>
                    conn.incidents == AfterTransition(old(conn.incidents), Resolve, incidentId, Actor(click.user), now, dbFault))
              && (action != Some("ack") && action != Some("resolve") ==> conn.incidents == old(conn.incidents))
              && (action == Some("ack") ==>
                    outcome.reply == Some(if Succeeds(old(conn.incidents), incidentId, dbFault)
                                          then AckDone(DisplayName(click.user))
                                          else AckFailed(incidentId, DisplayName(click.user))))
              && (action == Some("resolve") ==>
                    outcome.reply == Some(if Succeeds(old(conn.incidents), incidentId, dbFault)
                                          then ResolveDone(DisplayName(click.user))
                                          else ResolveFailed(incidentId, DisplayName(click.user))))
              && (outcome.silence.Some? ==> action.Some? && IsMute(action.value))
              && (action.Some? && IsMute(action.value) ==>
                    && (outcome.silence.Some? <==> Succeeds(old(conn.incidents), incidentId, dbFault)
                                                   && !alertQueryFault
                                                   && HasAlert(old(conn.alerts), incidentId.value))
                    && (outcome.silence.Some? ==>
                          outcome.silence.value.endsAt == now + 60 * MuteDuration(action.value)))
              && (action.None? ==> outcome.reply == Some(ProcessingError(None)))
              && (action.Some? && action.value != "ack" && action.value != "resolve" && !IsMute(action.value) ==>
                    outcome.reply == Some(ProcessingFailed(action.value, incidentId)))
              && (outcome.reply.Some? ==> outcome.sentTo == Delivery(click.channel, click.messageTs))
  {
    // The early returns, as in the handler; they coincide with extract_button_action.
    if payload.kind != Some(BLOCK_ACTIONS) {
      return Ignored;
    }
    var actions := if payload.actions.Some? then payload.actions.value else [];
    if |actions| == 0 {
      return Ignored;
    }
    var actionId := Lookup(actions[0], "action_id");
    var valueStr := Lookup(actions[0], "value");
    if !Truthy(actionId) || !Truthy(valueStr) {
      return Ignored;
    }
    var decoded := jsonLoads(valueStr.value);
    if decoded.None? {
      return Ignored;
    }
    var value := decoded.value;
    var incidentId := Lookup(value, "incident_id");
    var actionType := Lookup(value, "action");
    var user := RecordOr(payload.user);
    var channel := Lookup(RecordOr(payload.channel), "id");
    var messageTs := Lookup(RecordOr(payload.message), "ts");
    assert ExtractButtonAction(payload, jsonLoads)
           == Some(ButtonAction(actionId.value, value, user, payload.responseUrl, channel, messageTs));

    var reply: Reply;
    if actionType == Some("ack") {
      reply := HandleTransition(conn, Ack, incidentId, user, now, dbFault);
    } else if actionType == Some("resolve") {
      reply := HandleTransition(conn, Resolve, incidentId, user, now, dbFault);
      assert !IsMute("resolve") by { assert "resolve"[..5][0] == 'r'; }
    } else if actionType.None? {
      // `None.startswith` raises; the except clause rolls back
      conn.Rollback();
      reply := ProcessingError(None);
    } else if IsMute(actionType.value) {
      outcome := HandleMute(conn, actionType.value, incidentId, user, channel, messageTs, now, dbFault,
                            alertQueryFault, post);
      assert outcome != Ignored;
      return;
    } else {
      conn.Rollback();
      reply := ProcessingFailed(actionType.value, incidentId);
    }
    outcome := Outcome(None, Some(reply), Delivery(channel, messageTs), false);
  }
}
