/**
 * Slack interaction helpers (`slack_interactions.py`): the request-signature check, the decoding
 * of the form-encoded interaction body, and the extraction of a button click from a decoded
 * payload. JSON objects whose members are all strings (the user, an action, the button value,
 * the channel and message records) are `Labels`; the query-string parser, the JSON decoder and
 * HMAC-SHA256 are function parameters, and the clock is the parameter `now`.
 */
module SlackInteractions {
  import opened Wrappers
  import opened Decimal

  /** The members of a Slack interaction payload the receiver reads; `None` stands for a member
      that is absent (or JSON null). */
  datatype Payload = Payload(
    kind: Option<string>, actions: Option<seq<Labels>>, user: Option<Labels>,
    responseUrl: Option<string>, channel: Option<Labels>, message: Option<Labels>)

  /** The dictionary `extract_button_action` returns. */
  datatype ButtonAction = ButtonAction(
    actionId: string, value: Labels, user: Labels,
    responseUrl: Option<string>, channel: Option<string>, messageTs: Option<string>)

  const BLOCK_ACTIONS := "block_actions"
  const MAX_SKEW := 300

  /** Hex digest of HMAC-SHA256 keyed with the first argument over the second; not modelled. */
  type Hmac = (string, string) -> string

  /** `d.get(k, {})` for a nested record. */
  function RecordOr(d: Option<Labels>): Labels
  {
    if d.Some? then d.value else map[]
  }

  /** The text Slack signs: `v0:{timestamp}:{body}` with the timestamp as received. */
  function BaseString(timestamp: string, body: string): string
  {
    "v0:" + timestamp + ":" + body
  }

  function ExpectedSignature(secret: string, timestamp: string, body: string, hmac: Hmac): string
  {
    "v0=" + hmac(secret, BaseString(timestamp, body))
  }

  function Abs(x: int): nat
  {
    if x < 0 then -x else x
  }

  /** `verify_slack_signature`. No (or an empty) signing secret disables the check; a timestamp
      that does not parse as an integer, or lies more than five minutes from `now`, fails it;
      otherwise the signature must equal the expected one. */
  function VerifySlackSignature(signature: string, timestamp: string, body: string,
                                signingSecret: Option<string>, now: int, hmac: Hmac): (ok: bool)
    ensures !Truthy(signingSecret) ==> ok
    ensures Truthy(signingSecret) && ParseInt(timestamp).None? ==> !ok
  {
    if !Truthy(signingSecret) then true
    else
      match ParseInt(timestamp)
      case None => false
      case Some(ts) =>
        if Abs(now - ts) > MAX_SKEW then false
        else ExpectedSignature(signingSecret.value, timestamp, body, hmac) == signature
  }

  /** With a secret configured, a request passes exactly when its timestamp is an integer within
      five minutes of `now` and its signature is the HMAC of the signed text. */
  lemma VerifyIff(signature: string, timestamp: string, body: string, secret: string, now: int, hmac: Hmac)
    requires secret != ""
    ensures VerifySlackSignature(signature, timestamp, body, Some(secret), now, hmac)
            <==> && ParseInt(timestamp).Some?
                 && Abs(now - ParseInt(timestamp).value) <= MAX_SKEW
                 && signature == ExpectedSignature(secret, timestamp, body, hmac)
  {
  }

  /** A request Slack signed honestly with a timestamp it wrote as a decimal within the window is
      accepted. */
  lemma HonestRequestVerifies(sent: nat, body: string, secret: string, now: int, hmac: Hmac)
    requires secret != "" && Abs(now - sent) <= MAX_SKEW
    ensures var ts := NatToDecimal(sent);
            VerifySlackSignature(ExpectedSignature(secret, ts, body, hmac), ts, body, Some(secret), now, hmac)
  {
    ParseIntOfDecimal(sent);
  }

  /** A replayed request older than five minutes is refused whatever its signature. */
  lemma StaleRequestRejected(signature: string, sent: nat, body: string, secret: string, now: int, hmac: Hmac)
    requires secret != "" && now > sent + MAX_SKEW
    ensures !VerifySlackSignature(signature, NatToDecimal(sent), body, Some(secret), now, hmac)
  {
    ParseIntOfDecimal(sent);
  }

  /** `parse_interaction_payload`: the first `payload` field of the form body, JSON-decoded; None
      when the field is missing, its value list is empty or the JSON does not decode. */
  function ParseInteractionPayload(body: string, parseQs: string -> map<string, seq<string>>,
                                   jsonLoads: string -> Option<Payload>): (r: Option<Payload>)
    ensures r.Some? ==> "payload" in parseQs(body) && |parseQs(body)["payload"]| > 0
                        && r == jsonLoads(parseQs(body)["payload"][0])
    ensures "payload" !in parseQs(body) ==> r.None?
  {
    var parsed := parseQs(body);
    if "payload" !in parsed || |parsed["payload"]| == 0 then None
    else jsonLoads(parsed["payload"][0])
  }

  /** A form body whose first payload field decodes yields that payload. */
  lemma ParseInteractionPayloadDecodes(body: string, parseQs: string -> map<string, seq<string>>,
                                       jsonLoads: string -> Option<Payload>, p: Payload)
    requires "payload" in parseQs(body) && |parseQs(body)["payload"]| > 0
    requires jsonLoads(parseQs(body)["payload"][0]) == Some(p)
    ensures ParseInteractionPayload(body, parseQs, jsonLoads) == Some(p)
  {
  }

  /** The conditions under which a payload is a usable button click: a `block_actions` payload
      whose first action carries a non-empty action_id and a non-empty value that decodes. */
  predicate IsButtonClick(p: Payload, jsonLoads: string -> Option<Labels>)
  {
    && p.kind == Some(BLOCK_ACTIONS)
    && p.actions.Some? && |p.actions.value| > 0
    && Truthy(Lookup(p.actions.value[0], "action_id"))
    && Truthy(Lookup(p.actions.value[0], "value"))
    && jsonLoads(p.actions.value[0]["value"]).Some?
  }

  /** `extract_button_action`. */
  function ExtractButtonAction(p: Payload, jsonLoads: string -> Option<Labels>): (r: Option<ButtonAction>)
    ensures r.Some? <==> IsButtonClick(p, jsonLoads)
    ensures r.Some? ==> && r.value.actionId == p.actions.value[0]["action_id"] && r.value.actionId != ""
                        && r.value.value == jsonLoads(p.actions.value[0]["value"]).value
                        && r.value.user == RecordOr(p.user)
                        && r.value.responseUrl == p.responseUrl
                        && r.value.channel == Lookup(RecordOr(p.channel), "id")
                        && r.value.messageTs == Lookup(RecordOr(p.message), "ts")
  {
    if p.kind != Some(BLOCK_ACTIONS) then None
    else
      var actions := if p.actions.Some? then p.actions.value else [];
      if |actions| == 0 then None
      else
        var action := actions[0];
        var actionId := Lookup(action, "action_id");
        var valueStr := Lookup(action, "value");
        if !Truthy(actionId) || !Truthy(valueStr) then None
        else
          match jsonLoads(valueStr.value)
          case None => None
          case Some(value) =>
            Some(ButtonAction(actionId.value, value, RecordOr(p.user), p.responseUrl,
                              Lookup(RecordOr(p.channel), "id"), Lookup(RecordOr(p.message), "ts")))
  }

  /** Only the first action is looked at: payloads that agree on it (and on everything else)
      extract to the same click, whatever actions follow. */
  lemma OnlyFirstActionMatters(p: Payload, q: Payload, jsonLoads: string -> Option<Labels>)
    requires p.(actions := None) == q.(actions := None)
    requires p.actions.Some? && q.actions.Some? && |p.actions.value| > 0 && |q.actions.value| > 0
    requires p.actions.value[0] == q.actions.value[0]
    ensures ExtractButtonAction(p, jsonLoads) == ExtractButtonAction(q, jsonLoads)
  {
    assert p.kind == q.kind && p.user == q.user && p.channel == q.channel && p.message == q.message;
  }
}
