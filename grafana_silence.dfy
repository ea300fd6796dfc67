/**
 * Muting an incident through Grafana's silence API (`grafana_silence.py`): the matcher list,
 * the time window, the comment, and the boolean the Slack handler acts on. The HTTP POST is a
 * function parameter; its outcome is either a failure (network error, error status, undecodable
 * body — all caught by the source's `except`) or the decoded JSON object of the answer.
 */
module GrafanaSilence {
  import opened Wrappers
  import opened Decimal

  /** One element of the `matchers` list of a silence. */
  datatype Matcher = Matcher(name: string, value: string, isRegex: bool)

  /** The JSON body posted to `/api/alertmanager/grafana/api/v2/silences`. Times are seconds; the
      ISO-8601 rendering is not modelled. */
  datatype SilenceRequest = SilenceRequest(
    matchers: seq<Matcher>, startsAt: nat, endsAt: nat, comment: string, createdBy: string)

  const CREATED_BY := "Slack Bot"

  /** The position of a label in the matcher list: alertname first, then the optional labels in
      the order the source appends them. */
  function Rank(name: string): nat
  {
    if name == "cluster" then 1
    else if name == "namespace" then 2
    else if name == "phase" then 3
    else if name == "service" then 4
    else 0
  }

  /** The matcher an optional label contributes: one exact matcher when the value is truthy, none
      when it is None or "". */
  function Optional(name: string, v: Option<string>): seq<Matcher>
  {
    if Truthy(v) then [Matcher(name, v.value, false)] else []
  }

  /** The matcher list of a silence for these labels. */
  function SilenceMatchers(alertname: string, cluster: Option<string>, namespace: Option<string>,
                           phase: Option<string>, service: Option<string>): seq<Matcher>
  {
    [Matcher("alertname", alertname, false)]
    + Optional("cluster", cluster) + Optional("namespace", namespace)
    + Optional("phase", phase) + Optional("service", service)
  }

  /** A label is matched exactly when its value is truthy, and then on that value. */
  ghost predicate MatchesExactly(m: seq<Matcher>, name: string, v: Option<string>)
  {
    && (Truthy(v) ==> exists i :: 0 <= i < |m| && m[i].name == name)
    && forall i :: 0 <= i < |m| && m[i].name == name ==> Truthy(v) && m[i].value == v.value
  }

  function Flag(v: Option<string>): nat
  {
    if Truthy(v) then 1 else 0
  }

  /** Labels appear in strictly increasing rank. */
  ghost predicate Ordered(m: seq<Matcher>)
  {
    forall i, j :: 0 <= i < j < |m| ==> Rank(m[i].name) < Rank(m[j].name)
  }

  /** Every label of `m` ranks below `r`. */
  ghost predicate RanksBelow(m: seq<Matcher>, r: nat)
  {
    forall i :: 0 <= i < |m| ==> Rank(m[i].name) < r
  }

  ghost predicate AllLiteral(m: seq<Matcher>)
  {
    forall i :: 0 <= i < |m| ==> !m[i].isRegex
  }

  /** Appending one optional label after all lower-ranked ones keeps the list ordered, literal
      and headed as before, and matches the new label exactly. */
  lemma AppendOptional(m: seq<Matcher>, name: string, v: Option<string>)
    requires Rank(name) > 0 && |m| >= 1
    requires Ordered(m) && RanksBelow(m, Rank(name)) && AllLiteral(m)
    ensures var m' := m + Optional(name, v);
            && |m'| == |m| + Flag(v) && m'[0] == m[0]
            && Ordered(m') && RanksBelow(m', Rank(name) + 1) && AllLiteral(m')
            && MatchesExactly(m', name, v)
  {
    var m' := m + Optional(name, v);
    if Truthy(v) {
      assert m'[|m|].name == name;
    }
  }

  /** Appending a different label does not disturb how an earlier label is matched. */
  lemma AppendKeepsMatch(m: seq<Matcher>, name: string, v: Option<string>, other: string, w: Option<string>)
    requires MatchesExactly(m, other, w) && other != name
    ensures MatchesExactly(m + Optional(name, v), other, w)
  {
    var m' := m + Optional(name, v);
    if Truthy(w) {
      var i :| 0 <= i < |m| && m[i].name == other;
      assert m'[i] == m[i];
    }
  }

  /** The shape of every silence the receiver creates: alertname first and exact, each optional
      label present exactly when truthy and with its value, all matchers literal, labels in a fixed
      order without repetition, and between one and five matchers. */
  lemma SilenceMatchersShape(alertname: string, cluster: Option<string>, namespace: Option<string>,
                             phase: Option<string>, service: Option<string>)
    ensures var m := SilenceMatchers(alertname, cluster, namespace, phase, service);
            && |m| == 1 + Flag(cluster) + Flag(namespace) + Flag(phase) + Flag(service)
            && 1 <= |m| <= 5
            && m[0] == Matcher("alertname", alertname, false)
            && AllLiteral(m) && Ordered(m)
            && MatchesExactly(m, "cluster", cluster)
            && MatchesExactly(m, "namespace", namespace)
            && MatchesExactly(m, "phase", phase)
            && MatchesExactly(m, "service", service)
  {
    var m0 := [Matcher("alertname", alertname, false)];
    var m1 := m0 + Optional("cluster", cluster);
    var m2 := m1 + Optional("namespace", namespace);
    var m3 := m2 + Optional("phase", phase);
    var m4 := m3 + Optional("service", service);
    AppendOptional(m0, "cluster", cluster);
    AppendOptional(m1, "namespace", namespace);
    AppendKeepsMatch(m1, "namespace", namespace, "cluster", cluster);
    AppendOptional(m2, "phase", phase);
    AppendKeepsMatch(m2, "phase", phase, "cluster", cluster);
    AppendKeepsMatch(m2, "phase", phase, "namespace", namespace);
    AppendOptional(m3, "service", service);
    AppendKeepsMatch(m3, "service", service, "cluster", cluster);
    AppendKeepsMatch(m3, "service", service, "namespace", namespace);
    AppendKeepsMatch(m3, "service", service, "phase", phase);
    assert m4 == SilenceMatchers(alertname, cluster, namespace, phase, service);
  }

  /** `create_grafana_silence`: builds the matcher list by conditional appends, opens the window
      at `now` for `durationMinutes` minutes, posts the request and answers the `silenceID` field
      of the decoded reply, or None when the POST failed. The request sent is returned alongside. */
  method CreateGrafanaSilence(alertname: string, cluster: Option<string>, namespace: Option<string>,
                              phase: Option<string>, service: Option<string>, durationMinutes: nat,
                              comment: string, now: nat, post: SilenceRequest -> Option<Labels>)
    returns (silenceId: Option<string>, request: SilenceRequest)
    ensures request.matchers == SilenceMatchers(alertname, cluster, namespace, phase, service)
    ensures request.startsAt == now && request.endsAt == request.startsAt + 60 * durationMinutes
    ensures request.comment == comment && request.createdBy == CREATED_BY
    ensures silenceId.Some? <==> post(request).Some? && "silenceID" in post(request).value
    ensures silenceId.Some? ==> silenceId.value == post(request).value["silenceID"]
  {
    var matchers := [Matcher("alertname", alertname, false)];
    if Truthy(cluster) {
      matchers := matchers + [Matcher("cluster", cluster.value, false)];
    }
    assert matchers == [Matcher("alertname", alertname, false)] + Optional("cluster", cluster);
    if Truthy(namespace) {
      matchers := matchers + [Matcher("namespace", namespace.value, false)];
    }
    assert matchers == [Matcher("alertname", alertname, false)] + Optional("cluster", cluster)
                       + Optional("namespace", namespace);
    if Truthy(phase) {
      matchers := matchers + [Matcher("phase", phase.value, false)];
    }
    assert matchers == [Matcher("alertname", alertname, false)] + Optional("cluster", cluster)
                       + Optional("namespace", namespace) + Optional("phase", phase);
    if Truthy(service) {
      matchers := matchers + [Matcher("service", service.value, false)];
    }
    assert matchers == SilenceMatchers(alertname, cluster, namespace, phase, service);
    var startsAt := now;
    var endsAt := startsAt + 60 * durationMinutes;
    request := SilenceRequest(matchers, startsAt, endsAt, comment, CREATED_BY);
    var answer := post(request);
    if answer.None? {
      return None, request;
    }
    silenceId := Lookup(answer.value, "silenceID");
  }

  const COMMENT_PREFIX := "Muted from Slack by "
  const COMMENT_SUFFIX := " minutes"

  /** The comment `mute_incident_via_grafana` attaches to the silence. */
  function MuteComment(user: string, durationMinutes: nat): string
  {
    COMMENT_PREFIX + user + " for " + NatToDecimal(durationMinutes) + COMMENT_SUFFIX
  }

  /** The comment names the user and the duration recoverably: cutting the fixed parts off again
      gives back the user and a decimal that parses to the duration. */
  lemma MuteCommentRoundTrip(user: string, durationMinutes: nat)
    ensures var c := MuteComment(user, durationMinutes);
            var u := |COMMENT_PREFIX| + |user|;
            && |c| >= u + 5 + |COMMENT_SUFFIX| + 1
            && c[..|COMMENT_PREFIX|] == COMMENT_PREFIX
            && c[|COMMENT_PREFIX|..u] == user
            && c[u..u + 5] == " for "
            && c[|c| - |COMMENT_SUFFIX|..] == COMMENT_SUFFIX
            && ParseInt(c[u + 5..|c| - |COMMENT_SUFFIX|]) == Some(durationMinutes)
  {
    var d := NatToDecimal(durationMinutes);
    var c := MuteComment(user, durationMinutes);
    var u := |COMMENT_PREFIX| + |user|;
    assert c == COMMENT_PREFIX + user + " for " + d + COMMENT_SUFFIX;
    assert c[u + 5..|c| - |COMMENT_SUFFIX|] == d;
    ParseIntOfDecimal(durationMinutes);
  }

  /** `mute_incident_via_grafana`: true exactly when a silence id came back. */
  method MuteIncidentViaGrafana(alertname: string, cluster: Option<string>, namespace: Option<string>,
                                phase: Option<string>, service: Option<string>, durationMinutes: nat,
                                user: string, now: nat, post: SilenceRequest -> Option<Labels>)
    returns (ok: bool, request: SilenceRequest)
    ensures request.matchers == SilenceMatchers(alertname, cluster, namespace, phase, service)
    ensures request.startsAt == now && request.endsAt == now + 60 * durationMinutes
    ensures request.comment == MuteComment(user, durationMinutes) && request.createdBy == CREATED_BY
    ensures ok <==> post(request).Some? && "silenceID" in post(request).value
  {
    var comment := MuteComment(user, durationMinutes);
    var silenceId;
    silenceId, request := CreateGrafanaSilence(alertname, cluster, namespace, phase, service,
                                               durationMinutes, comment, now, post);
    ok := silenceId.Some?;
  }
}
