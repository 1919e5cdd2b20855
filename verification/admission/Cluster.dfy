/**
 * An API server that calls the handler for writes to Deployments, with the namespace
 * selector and failurePolicy of config/webhook/webhookconfig.yaml.
 */
module Cluster {
  import opened Api
  import opened Prelude
  import opened Text
  import opened Rules
  import opened Evaluator
  import opened Handler

  type Labels = map<string, string>
  type Key = (string, string)

  /**
   * policies lists for each namespace all states its list of policies has been in, the
   * present one last: the handler lists from a cache that may be behind.
   */
  datatype State = State(
    namespaces: map<string, Labels>,
    policies: map<string, seq<seq<PolicySpec>>>,
    deployments: map<Key, Deployment>)

  /** What becomes of the call: no usable answer, or the handler runs and its List answers. */
  datatype Call = Unreachable | Reached(listing: Source)

  /** List fails, or shows the policies as they were in one of their states. */
  datatype Source = Failing | Version(index: nat)

  datatype Step =
    | Relabel(namespace: string, labels: Labels)
    | SetPolicies(namespace: string, items: seq<PolicySpec>)
    | Write(key: Key, deploy: Deployment, uid: nat, call: Call)
    | Subresource(key: Key, replicas: int)
    | Remove(key: Key)

  const SYSTEM_NAMESPACES := {"kube-system", "kube-public", "kube-node-lease", "deployguard-system"}

  /** namespaceSelector: both expressions must match. */
  predicate Selected(labels: Labels) {
    && "deployguard.io/enforce" in labels && labels["deployguard.io/enforce"] == "enabled"
    && ("kubernetes.io/metadata.name" in labels ==> labels["kubernetes.io/metadata.name"] !in SYSTEM_NAMESPACES)
  }

  function LabelsOf(s: State, namespace: string): Labels {
    if namespace in s.namespaces then s.namespaces[namespace] else map[]
  }

  /** All states of a namespace's policies; before the first policy there was none. */
  function History(s: State, namespace: string): (h: seq<seq<PolicySpec>>) {
    [[]] + if namespace in s.policies then s.policies[namespace] else []
  }

  /** What List returns. */
  function Answered(s: State, namespace: string, source: Source): Option<Listing> {
    match source
    case Failing => Some(ListFailed)
    case Version(i) => if i < |History(s, namespace)| then Some(Listed(History(s, namespace)[i])) else None
  }

  function Operation(s: State, key: Key): string {
    if key in s.deployments then "UPDATE" else "CREATE"
  }

  /** The exchange that a write causes. */
  function ExchangeOf(s: State, w: Step): Option<Exchange>
    requires w.Write? && w.call.Reached?
  {
    match Answered(s, w.key.0, w.call.listing)
    case None => None
    case Some(listing) =>
      Some(Exchange(Review(Some(Request(w.uid, w.key.0, Operation(s, w.key), Some(w.deploy)))), listing))
  }

  /** failurePolicy Fail: without an answer for this very request that allows it, no write. */
  predicate Accepts(reply: Reply, uid: nat) {
    reply.Answer? && reply.uid == uid && reply.allowed
  }

  /** Whether the API server stores the object. */
  predicate Stores(s: State, w: Step, t: Printable)
    requires w.Write?
  {
    || !Selected(LabelsOf(s, w.key.0))
    || (w.call.Reached? && ExchangeOf(s, w).Some? && Accepts(Outcome(ExchangeOf(s, w).value, t).0, w.uid))
  }

  function Apply(s: State, step: Step, t: Printable): State {
    match step
    case Relabel(ns, labels) => s.(namespaces := s.namespaces[ns := labels])
    case SetPolicies(ns, items) =>
      s.(policies := s.policies[ns := (if ns in s.policies then s.policies[ns] else []) + [items]])
    case Write(key, deploy, _, _) => if Stores(s, step, t) then s.(deployments := s.deployments[key := deploy]) else s
    case Subresource(key, replicas) =>
      // scale and status do not match the webhook's rules; neither touches the pod template
      if key in s.deployments then
        s.(deployments := s.deployments[key := s.deployments[key].(replicas := replicas)])
      else s
    case Remove(key) => s.(deployments := s.deployments - {key})
  }

  function Run(s: State, steps: seq<Step>, t: Printable): State {
    if steps == [] then s else Apply(Run(s, steps[..|steps| - 1], t), steps[|steps| - 1], t)
  }

  // ---------- the guarantee ----------

  /**
   * A write that was in order: the namespace was not selected, List failed, or List showed
   * the policies of the namespace in a state that had no policy or whose first policy the
   * containers comply with.
   */
  predicate InOrder(s: State, w: Step) {
    && w.Write?
    && (Selected(LabelsOf(s, w.key.0)) ==>
          && w.call.Reached?
          && (w.call.listing.Version? ==>
                && w.call.listing.index < |History(s, w.key.0)|
                && var items := History(s, w.key.0)[w.call.listing.index];
                   items != [] ==> Compliant(items[0], w.deploy.containers)))
  }

  /** A write is stored exactly when it is in order. */
  lemma StoredIffInOrder(s: State, w: Step, t: Printable)
    requires w.Write?
    ensures Stores(s, w, t) <==> InOrder(s, w)
  {
    if w.call.Reached? && ExchangeOf(s, w).Some? {
      AllowedIff(ExchangeOf(s, w).value, t);
    }
  }

  /** The labels of a namespace whose Deployments are checked, by their values. */
  lemma SelectedIff(labels: Labels)
    ensures Selected(labels) <==>
              && ("deployguard.io/enforce", "enabled") in labels.Items
              && ("kubernetes.io/metadata.name", "kube-system") !in labels.Items
              && ("kubernetes.io/metadata.name", "kube-public") !in labels.Items
              && ("kubernetes.io/metadata.name", "kube-node-lease") !in labels.Items
              && ("kubernetes.io/metadata.name", "deployguard-system") !in labels.Items
  {}

  /**
   * The verdict from the labels: without enforce=enabled, or in a system namespace, every
   * write is stored; elsewhere none without an answer of the handler, and with its answer
   * those that a failed List, no policy or the first policy lets through.
   */
  lemma VerdictByLabels(s: State, w: Step, t: Printable)
    requires w.Write?
    ensures var labels := LabelsOf(s, w.key.0);
            var exempt := || "deployguard.io/enforce" !in labels || labels["deployguard.io/enforce"] != "enabled"
                          || ("kubernetes.io/metadata.name" in labels
                              && labels["kubernetes.io/metadata.name"]
                                 in {"kube-system", "kube-public", "kube-node-lease", "deployguard-system"});
            && (exempt ==> Stores(s, w, t))
            && (!exempt && w.call.Unreachable? ==> !Stores(s, w, t))
            && (!exempt && w.call.Reached? && w.call.listing.Failing? ==> Stores(s, w, t))
            && (!exempt && w.call.Reached? && w.call.listing.Version?
                && w.call.listing.index < |History(s, w.key.0)| ==>
                  var items := History(s, w.key.0)[w.call.listing.index];
                  Stores(s, w, t) <==> items == [] || Compliant(items[0], w.deploy.containers))
  {
    StoredIffInOrder(s, w, t);
  }

  /** Step k of the run wrote these containers under the key, and that was in order. */
  predicate WrittenAt(s: State, steps: seq<Step>, t: Printable, key: Key, cs: seq<Container>, k: nat) {
    && k < |steps| && steps[k].Write? && steps[k].key == key && steps[k].deploy.containers == cs
    && InOrder(Run(s, steps[..k], t), steps[k])
  }

  /**
   * In every run, the containers of every stored Deployment that were not there from the
   * start come from a write that was in order when it was admitted, whatever was relabelled,
   * scaled, or changed in the policies before and after.
   */
  lemma {:induction false} EveryStoredDeployment(s: State, steps: seq<Step>, t: Printable, key: Key)
    requires key in Run(s, steps, t).deployments
    ensures var cs := Run(s, steps, t).deployments[key].containers;
            || (key in s.deployments && s.deployments[key].containers == cs)
            || exists k: nat :: WrittenAt(s, steps, t, key, cs, k)
    decreases |steps|
  {
    if steps == [] {
    } else {
      var n := |steps| - 1;
      var before, last := Run(s, steps[..n], t), steps[n];
      var cs := Run(s, steps, t).deployments[key].containers;
      if last.Write? && last.key == key && Stores(before, last, t) {
        StoredIffInOrder(before, last, t);
        assert WrittenAt(s, steps, t, key, cs, n);
      } else {
        assert key in before.deployments && before.deployments[key].containers == cs;
        EveryStoredDeployment(s, steps[..n], t, key);
        if k: nat :| WrittenAt(s, steps[..n], t, key, cs, k) {
          assert steps[..n][..k] == steps[..k];
          assert WrittenAt(s, steps, t, key, cs, k);
        }
      }
    }
  }
}
