# Incident correlation and lifecycle of the Grafana alert receiver

This project is a Dafny model of the core of the alert receiver. The receiver takes Grafana webhook
deliveries, folds each alert into an *incident*, and lets Slack users acknowledge, resolve or mute
incidents with buttons. The model covers:

- **Incident key.** It is built from `rule_uid`/`alertname`, `cluster`, `namespace` and
  `phase`/`environment`. The labels are joined with `|`, hashed with SHA-256 and cut to 16 hex
  characters. The hash is a function parameter.
- **Alert normalisation** (`extract_alert_info`) and its layered defaults.
- **The incident store.**
  - `find_or_create_incident` touches the newest open incident of a key, or inserts a new episode.
  - `save_alert_to_db` appends the alert row. The `alert_count` trigger is modelled as an invariant:
    every incident's count equals the number of alert rows linked to it.
- **Webhook ingestion** (`grafana_webhook`). All alerts of a delivery go through one transaction.
  It is committed after the last alert and rolled back completely when any alert raises.
- **Operator transitions** (`acknowledge_incident`, `resolve_incident`, `get_incident_info`).
- **The Socket Mode button handler** (`handle_interactive_components`):
  - early returns;
  - ack/resolve with commit on success and rollback otherwise;
  - the mute path, which chooses the duration, looks up the incident and its newest alert, and
    builds the silence scope.
- **The Grafana silence request** (`create_grafana_silence`, `mute_incident_via_grafana`).
- **The Slack helpers** `verify_slack_signature`, `parse_interaction_payload` and `extract_button_action`.

## How the database is modelled

`Database.Connection` stands for one pymysql connection with autocommit off:

- `incidents` and `alerts` are what the connection's own statements see;
- `committedIncidents` and `committedAlerts` are what the database holds;
- `Commit` publishes the working copy and `Rollback` restores it.

`Consistent` is kept by every write. It says:

- rows are stored under their own id;
- every alert row refers to an existing incident;
- `alert_count` equals the number of linked alert rows.

The trigger that keeps `alert_count` up to date is not one of the files modelled here. The counting
rule comes from the comments at `app.py:150, 189, 291`.

The central invariant is `AtMostOneOpen`: no two open (active or acknowledged) incidents share a key.

Values supplied from outside become parameters:

- clock readings (`now`, in seconds);
- the ids `generate_incident_id()` would return (`freshIds`);
- SHA-256 and HMAC;
- the query-string parser, the JSON decoder and Grafana's HTTP answer;
- injected failures (`failAt`, `dbFault`, `alertQueryFault`).

## Behaviour as written

- **No status guard.** `acknowledge_incident` and `resolve_incident` succeed on any existing row,
  whatever its status. A second resolve succeeds. Acknowledging a resolved incident makes it open
  again. Once its key has opened a newer episode, that gives the key two open incidents:
  `AckKeepsAtMostOneOpenIff` states exactly when this happens and `AckOfResolvedBreaksInvariant`
  exhibits it. The intended lifecycle treats these transitions as failures; the code does not, and the model follows the code.
- **Acknowledgement does not stop recurrence.** A new matching alert forces an acknowledged incident
  back to `active`. The acknowledgement fields are kept (`RecurrenceAfterAckReactivates`).
- **Mute never writes.** It reads the incident and its newest alert and then closes the connection.
  The `finally` clause closes it a second time; pymysql refuses this with an error. The three mute
  exits that follow the first `close()` are marked `closeError`.
  - When the incident is unknown or has no alert row, the handler gives up without a reply and
    without a silence.
- **Failed UPDATE.** `cursor.rowcount > 0` is modelled as "a row with that id exists". Every UPDATE
  writes a fresh timestamp, so a matched row always counts as changed.
- **Missing `incident_id`.** An `incident_id` absent from the button value is bound as SQL NULL, so
  it matches no row.

## Model

| member | source | states |
|---|---|---|
| Decimal.NatToDecimal | docker/alert-receiver/grafana_silence.py:139 | the decimal text of a minute count is non-empty, all digits, and has no leading zero unless it is "0" |
| Decimal.ParseInt | docker/alert-receiver/slack_interactions.py:32 | `int(timestamp)` succeeds exactly on a digit run, optionally after one `+` or `-` |
| Decimal.ParseIntOfDecimal | docker/alert-receiver/slack_interactions.py:31-33 | parsing the decimal text of a natural gives that natural back |
| IncidentKeys.KeyFields | docker/alert-receiver/app.py:52-55 | each of the four identity fields comes from its label by key presence, with rule_uid→alertname→"unknown", cluster→"default", namespace→"default", phase→environment→"default"; a present "" is kept |
| IncidentKeys.IncidentKey | docker/alert-receiver/app.py:57-58 | the key is exactly 16 characters and a prefix of the SHA-256 hex digest of the four identity fields joined by bars |
| IncidentKeys.KeyDependsOnlyOnKeySources | docker/alert-receiver/app.py:52-58 | two label sets that agree on rule_uid, alertname, cluster, namespace, phase and environment have the same identity fields and the same key |
| IncidentKeys.KeyIgnoresOtherLabel | docker/alert-receiver/app.py:49-58 | adding, changing or removing any other label (service, pod, node, instance, ...) leaves the key unchanged |
| IncidentKeys.FingerprintRoundTrip | docker/alert-receiver/app.py:57 | when the first three fields contain no bar character, splitting the fingerprint string at its bars gives the four fields back |
| IncidentKeys.FingerprintInjective | docker/alert-receiver/app.py:57 | under the same condition, equal fingerprint strings come from equal identity fields |
| IncidentKeys.FingerprintCollision | docker/alert-receiver/app.py:57 | without that condition, two label sets with different identities get the same key (a bar moved from the rule_uid into the cluster) |
| AlertInfo.ExtractAlertInfo | docker/alert-receiver/app.py:73-91 | labels and annotations default to empty and are carried over unchanged |
| AlertInfo.ExtractAlertInfoDefaults | docker/alert-receiver/app.py:79-88 | every field, present label first: rule_uid, else ""; alertname, else `__alert_rule_title__`, else "Unknown"; severity, else "warning"; cluster and namespace, else ""; service, else job, else ""; service_category, else category, else ""; phase, else environment, else ""; message from description, else summary, else ""; state from status, else "firing"; a present "" is kept |
| AlertInfo.StoredTopologyAgreesWithKey | docker/alert-receiver/app.py:52-87 | the cluster, namespace and phase stored on the incident equal the key's identity fields wherever the label (for phase, the phase or environment label) is present; where it is absent the stored value is "" and the key's is "default"; the key's rule is the rule_uid, else the alertname, else "unknown" |
| Database.CountLinkedAppend | docker/alert-receiver/app.py:289-292 | saving one alert row raises its incident's linked count by one and no other incident's count |
| Database.Connection.Open | docker/alert-receiver/app.py:269-274 | a new connection sees the committed tables and holds no uncommitted writes |
| Database.Connection.Commit | docker/alert-receiver/app.py:316-317 | the working tables become the committed tables and stay as they were |
| Database.Connection.Rollback | docker/alert-receiver/app.py:320-322 | every uncommitted write is discarded; the committed tables are unchanged |
| IncidentStore.SelectOpenIncident | docker/alert-receiver/app.py:135-144 | None exactly when no active or acknowledged incident has the key; otherwise an open incident of that key with the greatest last_seen_at |
| IncidentStore.TouchFacts | docker/alert-receiver/app.py:151-163 | forcing the matched open incident back to active keeps at most one open incident per key, keeps the alert counts consistent, keeps every open incident open and changes no other key |
| IncidentStore.InsertFacts | docker/alert-receiver/app.py:171-190 | inserting a fresh episode for a key with no open incident keeps the same four facts; the new row starts with alert_count 0, which equals its number of linked alerts |
| IncidentStore.FoundOrCreatedFacts | docker/alert-receiver/app.py:121-192 | afterwards the returned incident is active, has the key and was last seen now; the table gains at most that row; is_new holds exactly when the id is new; no other key changes; at most one open incident per key is preserved |
| IncidentStore.FindOrCreateIncident | docker/alert-receiver/app.py:121-192 | returns false with the newest open incident of the key, after setting its last_seen_at, severity, updated_at and status active; or, when no open incident exists (resolved ones never match), returns true after inserting exactly one active row with the fresh id; alert rows and committed tables untouched |
| IncidentStore.SaveAlertToDb | docker/alert-receiver/app.py:94-118 | appends exactly one alert row holding the extracted fields and the raw alert; its id is the new row count; the trigger's count bump is the only incident change |
| Webhook.AlertWriteOfStep | docker/alert-receiver/app.py:287-303 | find-or-create followed by the trigger's count bump is one alert's write: the matched open incident touched (active, severity, last_seen_at and updated_at now) with its count raised by one, or a new active row for the key with count 1; is_new holds exactly when the id was not in the table |
| Webhook.ReplayAppend | docker/alert-receiver/app.py:276-314 | replaying one more alert's result applies its write after those of the earlier alerts |
| Webhook.ReplayWrites | docker/alert-receiver/app.py:276-314 | the batch's writes replayed on the starting table add exactly the results' incidents to its keys, keep every incident no result names, keep all columns but status, severity, last_seen_at, updated_at and alert_count of a touched incident, leave every result's incident active and last seen and updated now, and give each incident the severity of its last alert in the batch |
| Webhook.ProcessAlert | docker/alert-receiver/app.py:276-314 | one loop step: raises exactly at the injected failure; otherwise it adds one alert row and one result whose key, id, is_new flag and alert_count are recorded as the loop invariant requires, keeps at most one open incident per key, and leaves the incident table as the earlier writes followed by exactly this alert's write |
| Webhook.IngestAlerts | docker/alert-receiver/app.py:276-314 | the loop stops exactly at the first injected failure, committed tables untouched; without one there is one result per alert in input order, the alert log grows by one row per alert with the old rows kept, every result is recorded, and the incident table is the replay of the batch's writes on the starting table |
| Webhook.GrafanaWebhook | docker/alert-receiver/app.py:262-332 | an empty list gives 400 with no change; an exception rolls back every write of the delivery; otherwise there is one result per alert in input order, each result's alert_count is the linked-alert count when its row was saved, is_new holds exactly for the first alert of a key with no open incident, and, when the table held at most one open incident per key, alerts with one key share one incident; the committed incident table is the batch's writes replayed in order: its keys are the old keys plus the results' incidents, incidents no result names keep their rows, each result's incident is active and last seen and updated now with the severity of its last alert, and its other columns are kept |
| IncidentService.WithAck | docker/alert-receiver/incident_service.py:17-29 | the acknowledged row has status acknowledged, acknowledged_by user, acknowledged_time and updated_at now, and all other columns unchanged |
| IncidentService.WithResolution | docker/alert-receiver/incident_service.py:45-57 | the resolved row has status resolved, resolved_by user, resolved_time and updated_at now, and all other columns unchanged |
| IncidentService.AcknowledgeIncident | docker/alert-receiver/incident_service.py:9-34 | true exactly when no database error occurred and the id exists; then only that row is rewritten; otherwise nothing changes; nothing is committed |
| IncidentService.ResolveIncident | docker/alert-receiver/incident_service.py:37-62 | the same for resolve, with no status guard, so a second resolve succeeds too |
| IncidentService.GetIncidentInfo | docker/alert-receiver/incident_service.py:65-82 | the selected columns of the row with that id, or None for an unknown id or a database error; reads only |
| IncidentService.AckKeepsAtMostOneOpenIff | docker/alert-receiver/incident_service.py:17-24 | acknowledging preserves at most one open incident per key exactly when the target is not a resolved incident whose key has another open incident |
| IncidentService.AckOfResolvedBreaksInvariant | docker/alert-receiver/incident_service.py:17-24 | a concrete table where acknowledging a resolved episode leaves its key with two open incidents |
| IncidentService.ResolveKeepsAtMostOneOpen | docker/alert-receiver/incident_service.py:45-57 | resolving never breaks at most one open incident per key |
| IncidentService.ResolveClosesKey | docker/alert-receiver/incident_service.py:45-57 | resolving a key's open incident leaves the key with no open incident |
| IncidentService.RecurrenceAfterResolveIsNew | docker/alert-receiver/app.py:135-192 | after a resolve, the next find-or-create for the key reports a new incident under the fresh id |
| IncidentService.RecurrenceAfterAckReactivates | docker/alert-receiver/app.py:146-165 | after an acknowledge, the next find-or-create for the key returns the same incident, not new, with status active again and the acknowledgement fields kept |
| GrafanaSilence.SilenceMatchersShape | docker/alert-receiver/grafana_silence.py:43-77 | alertname is the first matcher; cluster, namespace, phase and service get a matcher exactly when their value is truthy, with that value, in that order and without repetition; no matcher is a regex; there are 1 to 5 matchers |
| GrafanaSilence.CreateGrafanaSilence | docker/alert-receiver/grafana_silence.py:15-113 | the request carries those matchers, startsAt now, endsAt startsAt plus the duration, the comment and createdBy "Slack Bot"; the result is the reply's silenceID, or None when the POST failed or the field is missing |
| GrafanaSilence.MuteCommentRoundTrip | docker/alert-receiver/grafana_silence.py:139 | the comment is "Muted from Slack by {user} for {n} minutes", and the user and a decimal that parses to n can be cut back out of it |
| GrafanaSilence.MuteIncidentViaGrafana | docker/alert-receiver/grafana_silence.py:116-150 | true exactly when a silence id came back; the request carries the mute comment |
| SlackInteractions.VerifySlackSignature | docker/alert-receiver/slack_interactions.py:14-49 | no or an empty signing secret accepts; with a secret, a timestamp that is not an integer rejects |
| SlackInteractions.VerifyIff | docker/alert-receiver/slack_interactions.py:30-49 | with a secret, a request passes exactly when the timestamp is an integer at most 300 s from now and the signature is "v0=" + HMAC(secret, "v0:{timestamp}:{body}") |
| SlackInteractions.HonestRequestVerifies | docker/alert-receiver/slack_interactions.py:30-49 | a request signed with the secret and stamped within the window is accepted |
| SlackInteractions.StaleRequestRejected | docker/alert-receiver/slack_interactions.py:31-36 | a request stamped more than 300 s before now is rejected whatever its signature |
| SlackInteractions.ParseInteractionPayload | docker/alert-receiver/slack_interactions.py:52-72 | a result implies the form has a payload field whose first value decodes to it; no payload field gives None |
| SlackInteractions.ParseInteractionPayloadDecodes | docker/alert-receiver/slack_interactions.py:61-69 | a form whose first payload value decodes yields that payload |
| SlackInteractions.ExtractButtonAction | docker/alert-receiver/slack_interactions.py:75-113 | a result exactly for a block_actions payload whose first action has a non-empty action_id and a non-empty value that decodes; action_id and value come from that action; the user defaults to {}; channel id, message ts and response_url come from the payload |
| SlackInteractions.OnlyFirstActionMatters | docker/alert-receiver/slack_interactions.py:92 | payloads that differ only after their first action extract the same click |
| SlackSocket.Actor | docker/alert-receiver/slack_socket.py:97 | the actor is the user's name if present (even ""), else the id, else "unknown" |
| SlackSocket.MuteDuration | docker/alert-receiver/slack_socket.py:113-118 | mute_2h is 120 minutes, mute_24h is 1440, and every other action is 30 |
| SlackSocket.DurationTextAgrees | docker/alert-receiver/slack_socket.py:113-123 | the duration shown in the reply names the length of the silence created |
| SlackSocket.Fallback | docker/alert-receiver/slack_socket.py:153-156 | a truthy alert label wins; otherwise the incident's column is used |
| SlackSocket.MuteTargetOf | docker/alert-receiver/slack_socket.py:148-156 | alertname comes from the alert row, else its alertname label, else ""; the four scope labels fall back from the alert's labels to the incident row |
| SlackSocket.MuteScopeFallsBack | docker/alert-receiver/slack_socket.py:153-167 | the silence has a cluster (service) matcher exactly when the alert or the incident has a non-empty cluster (service) |
| SlackSocket.SelectLatestAlert | docker/alert-receiver/slack_socket.py:132-140 | None exactly when the incident has no alert row; otherwise the index of one of its rows with the greatest received_at |
| SlackSocket.CountedIffHasAlert | docker/alert-receiver/slack_socket.py:144-145 | an incident has alert rows exactly when its linked count is positive |
| SlackSocket.AfterTransitionTouchesOneRow | docker/alert-receiver/slack_socket.py:96-108 | an ack or resolve changes only its own row, and only when it succeeds, setting the new status and keeping the key |
| SlackSocket.ResolveHandlerKeepsAtMostOneOpen | docker/alert-receiver/slack_socket.py:103-108 | the resolve button, committed or rolled back, keeps at most one open incident per key |
| SlackSocket.HandleTransition | docker/alert-receiver/slack_socket.py:96-200 | the table after the request is the transition applied exactly when the operation succeeded, else the table before it, and no uncommitted write remains; the reply says done or failed accordingly |
| SlackSocket.HandleMute | docker/alert-receiver/slack_socket.py:110-194 | no table change; a silence is requested exactly when the incident exists, the alert query did not fail and an alert row exists; the request is scoped by the newest alert and lasts the mapped duration; the reply reports the silence result; the second `close()` raises on every exit except the alert-query error, including every exit that requested a silence |
| SlackSocket.HandleInteractiveComponents | docker/alert-receiver/slack_socket.py:40-216 | ignored, with no change, exactly when the payload is not a usable button click; ack and resolve change the table exactly as their operation reports, commit, and reply done or failed accordingly; every other action leaves the table unchanged; a mute action requests a silence of the mapped length exactly when the incident exists, the alert query did not fail and an alert row exists; a missing action gives the processing-error reply and an unknown one the processing-failed reply; replies go to the message thread when the channel and ts are set |

## Left out

- HTTP endpoints, payload logging and `send_to_slack` are not modelled (`app.py:199-239`, `241-260`, `334-338`). They are network and formatting code. `send_to_slack` runs before the commit and cannot undo it.
- Slack message wording and delivery are not modelled (`slack_socket.py:174-192`, `218-244`). The Socket Mode client (`slack_socket.py:247-290`) is not modelled either. The model only keeps which reply is composed and which thread it would go to.
- The Grafana HTTP POST, its authentication and the ISO-8601 formatting of the window are not modelled. The POST is a function parameter; times are seconds.
- `slack_sender.py` and `incident_ai.py` are not part of this model: they hold chat rendering and an LLM wrapper.
- SHA-256 and HMAC-SHA256 are function parameters. Only the text they are applied to and the 16-character cut are modelled.
- `generate_incident_id` is left out because it uses the clock and randomness. The ids it would return are a parameter, assumed fresh and distinct.
- `SELECT ... FOR UPDATE` row locking and concurrent deliveries are left out. Each request runs alone, so the model says nothing about two webhooks racing on one key.
- The `alert_count` trigger is an assumption: the model takes it from the `Consistent` invariant.
- `lastrowid` is modelled as the position of the new row, assuming auto-increment ids without gaps.
- The `updated_at` of a new incident is `now`. This assumes a column default that the shown files do not include.
- Errors from opening the connection, from `commit()`, or from `close()` outside the mute path are left out.
- JSON is simplified. Objects the receiver reads are string-to-string maps, and JSON null and absence are one case. A non-object button value (whose `.get` raises outside the `try` at `slack_socket.py:79`) and a null `user` are left out. So are non-string label values.
- Decimal.ParseInt: accepts only an optional `+` or `-` followed by ASCII digits. Python's `int()` also accepts surrounding whitespace, digit-group underscores and non-ASCII digits; the model treats those texts as non-integers.
- SlackInteractions.VerifySlackSignature: timestamps that Python's `int()` accepts beyond an optional sign and digits (surrounding whitespace, digit-group underscores, non-ASCII digits) are treated as non-integers. The `TypeError` that `compare_digest` raises on a non-ASCII signature is left out.
- Webhook.GrafanaWebhook: an injected failure strikes only after an alert's incident write. Failures at other points lead to the same rollback.
- Webhook.GrafanaWebhook: one clock reading `now` stands for every `datetime.now()` of a delivery, so all alert rows of a batch share one received_at and every touched incident one last_seen_at and updated_at.
- The incident's `incident_key` in the button value and the `response_url` are carried but never acted on, as in the source.
