/**
 * Intents as the vrouter and groupmeter applications submit them, and the
 * vrouter's key-based deduplication: an intent is submitted only when the
 * intent service does not already know its key.
 *
 * The intent service's store is modelled by the set of keys it knows; a
 * submitted intent's key is known from then on.  ONOS derives the key from
 * the `hashCode()` strings of its parts; here the key is the tuple of parts
 * itself, so hash collisions do not occur.
 */
module Intents {
  import opened Net

  /** A header rewrite applied on egress: set destination and source MAC. */
  datatype Rewrite = Rewrite(setEthDst: Mac, setEthSrc: Mac)

  datatype IntentKey =
    | PointKey(ingress: ConnectPoint, egress: ConnectPoint, selector: Selector, treatment: Option<Rewrite>)
    | MultiKey(egress: ConnectPoint, selector: Selector, treatment: Option<Rewrite>)

  /**
   * A submitted intent.  `key` is None when the application let the
   * intent builder choose a fresh key.
   */
  datatype Intent =
    | PointToPoint(
        key: Option<IntentKey>,
        priority: nat,
        ingress: ConnectPoint,
        egress: ConnectPoint,
        selector: Selector,
        treatment: Option<Rewrite>)
    | MultiPointToSinglePoint(
        key: Option<IntentKey>,
        priority: nat,
        ingresses: set<ConnectPoint>,
        egress: ConnectPoint,
        selector: Selector,
        treatment: Option<Rewrite>)

  /** Priority of every multipoint-to-single-point transit intent. */
  const MULTI_INTENT_PRIORITY: nat := 15

  /** The keys the intent service knows after a submission, and what was submitted. */
  datatype Install = Install(keys: set<IntentKey>, submitted: seq<Intent>)

  /**
   * `installIntent`: the key covers ingress, egress, selector and
   * treatment but not the priority.  A known key submits nothing; an
   * unknown one submits exactly one point-to-point intent under that key.
   */
  function InstallIntent(
    keys: set<IntentKey>,
    ingress: ConnectPoint,
    egress: ConnectPoint,
    selector: Selector,
    treatment: Option<Rewrite>,
    priority: nat): (r: Install)
    ensures r.keys == keys + {PointKey(ingress, egress, selector, treatment)}
    ensures PointKey(ingress, egress, selector, treatment) in keys <==> r.submitted == []
    ensures |r.submitted| <= 1
    ensures forall i | i in r.submitted ::
      && i == PointToPoint(Some(PointKey(ingress, egress, selector, treatment)), priority, ingress, egress, selector, treatment)
      && i.key.value !in keys
  {
    var key := PointKey(ingress, egress, selector, treatment);
    if key in keys then Install(keys, [])
    else Install(keys + {key}, [PointToPoint(Some(key), priority, ingress, egress, selector, treatment)])
  }

  /**
   * Calling `installIntent` twice with the same arguments, even under a
   * different priority, submits only once: the second call finds the key.
   */
  lemma InstallIntentIdempotent(
    keys: set<IntentKey>,
    ingress: ConnectPoint,
    egress: ConnectPoint,
    selector: Selector,
    treatment: Option<Rewrite>,
    priority1: nat,
    priority2: nat)
    ensures var first := InstallIntent(keys, ingress, egress, selector, treatment, priority1);
            var second := InstallIntent(first.keys, ingress, egress, selector, treatment, priority2);
            second.submitted == [] && second.keys == first.keys
  {
  }

  /**
   * `installMultiIntent`: keyed by egress, selector and treatment only, so
   * a changed ingress set under a known key submits nothing.  An unknown
   * key submits one multipoint intent at priority 15.
   */
  function InstallMultiIntent(
    keys: set<IntentKey>,
    ingresses: set<ConnectPoint>,
    egress: ConnectPoint,
    selector: Selector,
    treatment: Option<Rewrite>): (r: Install)
    ensures r.keys == keys + {MultiKey(egress, selector, treatment)}
    ensures MultiKey(egress, selector, treatment) in keys <==> r.submitted == []
    ensures |r.submitted| <= 1
    ensures forall i | i in r.submitted ::
      && i == MultiPointToSinglePoint(Some(MultiKey(egress, selector, treatment)), MULTI_INTENT_PRIORITY,
                                      ingresses, egress, selector, treatment)
      && i.key.value !in keys
  {
    var key := MultiKey(egress, selector, treatment);
    if key in keys then Install(keys, [])
    else Install(keys + {key},
                 [MultiPointToSinglePoint(Some(key), MULTI_INTENT_PRIORITY, ingresses, egress, selector, treatment)])
  }

  /**
   * Point-to-point and multipoint keys never collide, so neither kind of
   * installation masks the other.  This records a choice of the model, not
   * a guarantee of the Java code: there both kinds of key are hash strings,
   * which could coincide.
   */
  lemma KeyKindsDisjoint(
    keys: set<IntentKey>,
    ingresses: set<ConnectPoint>,
    ingress: ConnectPoint,
    egress: ConnectPoint,
    selector: Selector,
    treatment: Option<Rewrite>,
    priority: nat)
    requires PointKey(ingress, egress, selector, treatment) !in keys
    ensures var multi := InstallMultiIntent(keys, ingresses, egress, selector, treatment);
            |InstallIntent(multi.keys, ingress, egress, selector, treatment, priority).submitted| == 1
  {
  }
}
