/** Alert normalisation (`extract_alert_info`): a total field extraction with layered defaults. */
module AlertInfo {
  import opened Wrappers
  import IncidentKeys

  /** One element of a webhook's `alerts` list. Each of the three fields the receiver reads may be
      absent; the whole element is also kept as the raw payload of its alert row. */
  datatype RawAlert = RawAlert(labels: Option<Labels>, annotations: Option<Labels>, status: Option<string>)

  datatype AlertInfo = AlertInfo(
    ruleUid: string, alertname: string, state: string, severity: string,
    cluster: string, namespace: string, service: string, serviceCategory: string,
    phase: string, message: string, labels: Labels, annotations: Labels)

  /** `alert.get("labels", {})` */
  function LabelsOf(alert: RawAlert): Labels
  {
    if alert.labels.Some? then alert.labels.value else map[]
  }

  /** `alert.get("annotations", {})` */
  function AnnotationsOf(alert: RawAlert): Labels
  {
    if alert.annotations.Some? then alert.annotations.value else map[]
  }

  function ExtractAlertInfo(alert: RawAlert): (info: AlertInfo)
    ensures info.labels == LabelsOf(alert) && info.annotations == AnnotationsOf(alert)
  {
    var labels := LabelsOf(alert);
    var annotations := AnnotationsOf(alert);
    AlertInfo(
      Get(labels, "rule_uid", ""),
      Get(labels, "alertname", Get(labels, "__alert_rule_title__", "Unknown")),
      if alert.status.Some? then alert.status.value else "firing",
      Get(labels, "severity", "warning"),
      Get(labels, "cluster", ""),
      Get(labels, "namespace", ""),
      Get(labels, "service", Get(labels, "job", "")),
      Get(labels, "service_category", Get(labels, "category", "")),
      Get(labels, "phase", Get(labels, "environment", "")),
      Get(annotations, "description", Get(annotations, "summary", "")),
      labels,
      annotations)
  }

  /** Every field of `extract_alert_info`, by which labels and annotations are present: the
      label itself when present (a present "" is kept), else the fallback label, else the default
      — "" for rule_uid, cluster, namespace, service, service category and phase, "Unknown" for
      the alertname, "warning" for the severity, "firing" for the state, and for the message the
      description, else the summary, else "". */
  lemma ExtractAlertInfoDefaults(alert: RawAlert, info: AlertInfo)
    requires info == ExtractAlertInfo(alert)
    ensures info.state == (if alert.status.Some? then alert.status.value else "firing")
    ensures "rule_uid" in info.labels ==> info.ruleUid == info.labels["rule_uid"]
    ensures "rule_uid" !in info.labels ==> info.ruleUid == ""
    ensures "alertname" in info.labels ==> info.alertname == info.labels["alertname"]
    ensures "alertname" !in info.labels && "__alert_rule_title__" in info.labels
            ==> info.alertname == info.labels["__alert_rule_title__"]
    ensures "alertname" !in info.labels && "__alert_rule_title__" !in info.labels
            ==> info.alertname == "Unknown"
    ensures "severity" in info.labels ==> info.severity == info.labels["severity"]
    ensures "severity" !in info.labels ==> info.severity == "warning"
    ensures "cluster" in info.labels ==> info.cluster == info.labels["cluster"]
    ensures "cluster" !in info.labels ==> info.cluster == ""
    ensures "namespace" in info.labels ==> info.namespace == info.labels["namespace"]
    ensures "namespace" !in info.labels ==> info.namespace == ""
    ensures "service" in info.labels ==> info.service == info.labels["service"]
    ensures "service" !in info.labels && "job" in info.labels ==> info.service == info.labels["job"]
    ensures "service" !in info.labels && "job" !in info.labels ==> info.service == ""
    ensures "service_category" in info.labels ==> info.serviceCategory == info.labels["service_category"]
    ensures "service_category" !in info.labels && "category" in info.labels
            ==> info.serviceCategory == info.labels["category"]
    ensures "service_category" !in info.labels && "category" !in info.labels ==> info.serviceCategory == ""
    ensures "phase" in info.labels ==> info.phase == info.labels["phase"]
    ensures "phase" !in info.labels && "environment" in info.labels ==> info.phase == info.labels["environment"]
    ensures "phase" !in info.labels && "environment" !in info.labels ==> info.phase == ""
    ensures "description" in info.annotations ==> info.message == info.annotations["description"]
    ensures "description" !in info.annotations && "summary" in info.annotations
            ==> info.message == info.annotations["summary"]
    ensures "description" !in info.annotations && "summary" !in info.annotations ==> info.message == ""
  {
  }

  /** The topology an incident row stores (taken from the alert info, defaulting to "") agrees with
      the identity fields of its key (defaulting to "default") whenever the label is present; where
      it is absent the stored side is "" and the key side "default". */
  lemma StoredTopologyAgreesWithKey(alert: RawAlert)
    ensures var info := ExtractAlertInfo(alert);
            var f := IncidentKeys.KeyFields(info.labels);
            && f.cluster == (if "cluster" in info.labels then info.cluster else "default")
            && f.namespace == (if "namespace" in info.labels then info.namespace else "default")
            && f.phase == (if "phase" in info.labels || "environment" in info.labels
                           then info.phase else "default")
            && f.rule == (if "rule_uid" in info.labels then info.ruleUid
                          else if "alertname" in info.labels then info.alertname else "unknown")
            && ("cluster" !in info.labels ==> info.cluster == "" && f.cluster == "default")
            && ("namespace" !in info.labels ==> info.namespace == "" && f.namespace == "default")
            && ("phase" !in info.labels && "environment" !in info.labels
                ==> info.phase == "" && f.phase == "default")
  {
  }
}
