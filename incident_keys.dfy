/**
 * The incident key (`calculate_incident_key`): four identity fields, defaulted by key presence,
 * joined with `|`, hashed with SHA-256 and cut to 16 hex characters. The hash is a parameter.
 */
module IncidentKeys {
  import opened Wrappers

  /** A SHA-256 digest as `hexdigest()` prints it. */
  type Sha256Hex = s: string | |s| == 64
    witness "0000000000000000000000000000000000000000000000000000000000000000"

  const KEY_LENGTH := 16

  /** The labels the key reads; every other label (service, pod, node, instance, ...) is ignored. */
  const KEY_SOURCES: set<string> := {"rule_uid", "alertname", "cluster", "namespace", "phase", "environment"}

  /** The four identity fields, in the order they are joined. */
  datatype Fingerprint = Fingerprint(rule: string, cluster: string, namespace: string, phase: string)

  /** The identity fields of a label set: rule_uid, else alertname, else "unknown"; cluster and
      namespace, else "default"; phase, else environment, else "default". A label that is present
      is used even when its value is "". */
  function KeyFields(labels: Labels): (f: Fingerprint)
    ensures "rule_uid" in labels ==> f.rule == labels["rule_uid"]
    ensures "rule_uid" !in labels && "alertname" in labels ==> f.rule == labels["alertname"]
    ensures "rule_uid" !in labels && "alertname" !in labels ==> f.rule == "unknown"
    ensures f.cluster == (if "cluster" in labels then labels["cluster"] else "default")
    ensures f.namespace == (if "namespace" in labels then labels["namespace"] else "default")
    ensures "phase" in labels ==> f.phase == labels["phase"]
    ensures "phase" !in labels && "environment" in labels ==> f.phase == labels["environment"]
    ensures "phase" !in labels && "environment" !in labels ==> f.phase == "default"
  {
    Fingerprint(
      Get(labels, "rule_uid", Get(labels, "alertname", "unknown")),
      Get(labels, "cluster", "default"),
      Get(labels, "namespace", "default"),
      Get(labels, "phase", Get(labels, "environment", "default")))
  }

  /** `f"{rule_uid}|{cluster}|{namespace}|{phase}"` */
  function FingerprintString(f: Fingerprint): string
  {
    f.rule + "|" + f.cluster + "|" + f.namespace + "|" + f.phase
  }

  /** The incident key: a 16-character prefix of the digest of the fingerprint string. */
  function IncidentKey(labels: Labels, sha256: string -> Sha256Hex): (key: string)
    ensures |key| == KEY_LENGTH
    ensures key <= sha256(FingerprintString(KeyFields(labels)))
  {
    sha256(FingerprintString(KeyFields(labels)))[..KEY_LENGTH]
  }

  /** Two label sets agree on label `k`: both lack it, or both carry it with one value. */
  predicate AgreeOn(a: Labels, b: Labels, k: string)
  {
    (k in a <==> k in b) && (k in a ==> a[k] == b[k])
  }

  /** The key depends only on the six labels it reads. */
  lemma KeyDependsOnlyOnKeySources(a: Labels, b: Labels, sha256: string -> Sha256Hex)
    requires AgreeOn(a, b, "rule_uid") && AgreeOn(a, b, "alertname")
    requires AgreeOn(a, b, "cluster") && AgreeOn(a, b, "namespace")
    requires AgreeOn(a, b, "phase") && AgreeOn(a, b, "environment")
    ensures KeyFields(a) == KeyFields(b)
    ensures IncidentKey(a, sha256) == IncidentKey(b, sha256)
  {
  }

  /** Adding, changing or removing any other label (service, pod, node, instance) keeps the key. */
  lemma KeyIgnoresOtherLabel(labels: Labels, k: string, v: string, sha256: string -> Sha256Hex)
    requires k !in KEY_SOURCES
    ensures IncidentKey(labels[k := v], sha256) == IncidentKey(labels, sha256)
    ensures IncidentKey(labels - {k}, sha256) == IncidentKey(labels, sha256)
  {
    KeyDependsOnlyOnKeySources(labels[k := v], labels, sha256);
    KeyDependsOnlyOnKeySources(labels - {k}, labels, sha256);
  }

  /** The text before the first `|` and the text after it (`(s, "")` when there is none). */
  function SplitAtBar(s: string): (string, string)
  {
    if |s| == 0 then ("", "")
    else if s[0] == '|' then ("", s[1..])
    else var (a, b) := SplitAtBar(s[1..]); ([s[0]] + a, b)
  }

  lemma {:induction false} SplitAtBarOfJoin(a: string, b: string)
    requires '|' !in a
    ensures SplitAtBar(a + "|" + b) == (a, b)
  {
    if |a| > 0 {
      assert (a + "|" + b)[1..] == a[1..] + "|" + b;
      SplitAtBarOfJoin(a[1..], b);
      assert [a[0]] + a[1..] == a;
    } else {
      assert a + "|" + b == "|" + b;
    }
  }

  /** Reads the four fields back out of a fingerprint string. */
  function ParseFingerprint(s: string): Fingerprint
  {
    var (rule, rest1) := SplitAtBar(s);
    var (cluster, rest2) := SplitAtBar(rest1);
    var (namespace, phase) := SplitAtBar(rest2);
    Fingerprint(rule, cluster, namespace, phase)
  }

  /** The first three fields hold no delimiter (the last may). */
  predicate BarFree(f: Fingerprint)
  {
    '|' !in f.rule && '|' !in f.cluster && '|' !in f.namespace
  }

  lemma FingerprintRoundTrip(f: Fingerprint)
    requires BarFree(f)
    ensures ParseFingerprint(FingerprintString(f)) == f
  {
    var tail2 := f.namespace + "|" + f.phase;
    var tail1 := f.cluster + "|" + tail2;
    assert FingerprintString(f) == f.rule + "|" + tail1;
    SplitAtBarOfJoin(f.rule, tail1);
    SplitAtBarOfJoin(f.cluster, tail2);
    SplitAtBarOfJoin(f.namespace, f.phase);
  }

  /** While label values hold no `|`, distinct identity fields give distinct fingerprint strings,
      so two incidents share a key only through a collision of the 16-character digest prefix. */
  lemma FingerprintInjective(f: Fingerprint, g: Fingerprint)
    requires BarFree(f) && BarFree(g)
    requires FingerprintString(f) == FingerprintString(g)
    ensures f == g
  {
    FingerprintRoundTrip(f);
    FingerprintRoundTrip(g);
  }

  /** A value containing `|` lets two different identities share one fingerprint string, and
      hence one key: the delimiter is assumed, not checked, to be absent from label values. */
  lemma FingerprintCollision(sha256: string -> Sha256Hex)
    ensures var a := map["rule_uid" := "r|x", "cluster" := "c"];
            var b := map["rule_uid" := "r", "cluster" := "x|c"];
            KeyFields(a) != KeyFields(b) && IncidentKey(a, sha256) == IncidentKey(b, sha256)
  {
    var a := map["rule_uid" := "r|x", "cluster" := "c"];
    var b := map["rule_uid" := "r", "cluster" := "x|c"];
    var fa, fb := KeyFields(a), KeyFields(b);
    assert fa == Fingerprint("r|x", "c", "default", "default");
    assert fb == Fingerprint("r", "x|c", "default", "default");
    assert fa.rule + "|" + fa.cluster == fb.rule + "|" + fb.cluster;
    assert FingerprintString(fa) == FingerprintString(fb);
  }
}
