/**
 * The validating handler (internal/webhook/validate.go) with its metrics, and the evaluator
 * it creates (internal/policy/evaluator.go).
 */
module Handler {
  import opened Api
  import opened ImageReference
  import opened Prelude
  import opened Text
  import opened Rules
  import opened Evaluator
  import opened Denial
  import opened Metrics

  // ---------- requests and replies ----------

  /** object is None if the raw object does not decode to a Deployment. */
  datatype Request = Request(uid: nat, namespace: string, operation: string, object_: Option<Deployment>)

  /** The request body; an AdmissionReview may lack its request. */
  datatype Body = Unreadable | NotAReview | Review(request: Option<Request>)

  /** The answer to List in the namespace of the request. */
  datatype Listing = ListFailed | Listed(items: seq<PolicySpec>)

  /** Http400, a panic that the HTTP server turns into an aborted connection, or an answer. */
  datatype Reply = BadRequest | Aborted | Answer(uid: nat, allowed: bool, message: Option<string>)

  datatype Attributes = Attributes(namespace: string, operation: string, decision: string)

  /** One call of the handler: what came in and what List returned. */
  datatype Exchange = Exchange(body: Body, listing: Listing)

  // ---------- metrics ----------

  datatype Series = Series(
    admissions: Counter<Attributes>,
    durations: Counter<string>,
    violations: Counter<(string, Rule)>)

  class Meters {
    var admissions: Counter<Attributes>
    var durations: Counter<string>
    var violations: Counter<(string, Rule)>

    function Value(): Series
      reads this
    {
      Series(admissions, durations, violations)
    }

    constructor ()
      ensures Value() == Series(map[], map[], map[])
    {
      admissions, durations, violations := map[], map[], map[];
    }
  }

  /** The violation counter after an evaluation: one series per rule that found something. */
  function CountFindings(m: Counter<(string, Rule)>, namespace: string, rs: seq<Rule>, cs: seq<Container>)
    : Counter<(string, Rule)>
    decreases |rs|
  {
    if rs == [] then m
    else
      var n := |Findings(rs[0], cs, 0)|;
      CountFindings(if n > 0 then Add(m, (namespace, rs[0]), n) else m, namespace, rs[1..], cs)
  }

  lemma RenderStep(rs: seq<Rule>, cs: seq<Container>, t: Printable)
    requires rs != []
    ensures RenderAll(AllFindings(rs, cs), t)
         == RenderAll(Findings(rs[0], cs, 0), t) + RenderAll(AllFindings(rs[1..], cs), t)
  {
    RenderConcat(Findings(rs[0], cs, 0), AllFindings(rs[1..], cs), t);
  }

  // ---------- the evaluator ----------

  /** A container without anything meets no rule. */
  const WORST := Container("", "", None, false)

  lemma WorstFails(r: Rule)
    ensures Findings(r, [WORST], 0) != []
  {
    assert LastIndex("", '/') == -1 && LastIndex("", ':') == -1;
    Single(r, WORST, 0);
  }

  lemma SomethingFails(rs: seq<Rule>)
    ensures rs != [] <==> exists cs :: AllFindings(rs, cs) != []
  {
    if rs == [] {
      assert forall cs :: AllFindings(rs, cs) == [];
    } else {
      WorstFails(rs[0]);
      assert AllFindings(rs, [WORST]) != [];
    }
  }

  class PolicyEvaluator {
    var activeRules: seq<Rule>

    /** New: the enabled rules in their fixed order; none without a policy. */
    constructor (policy: Option<PolicySpec>)
      ensures activeRules == if policy.None? then [] else Active(policy.value, ALL_RULES)
    {
      var active := [];
      if policy.Some? {
        var p := policy.value;
        if p.requireResources {
          active := active + [RequireResources];
        }
        if p.blockLatestTag {
          active := active + [BlockLatestTag];
        }
        if p.requireReadinessProbe {
          active := active + [RequireReadinessProbe];
        }
        ActiveAll(p);
      }
      activeRules := active;
    }

    /** Evaluate: all violations of all active rules, each rule's number counted. */
    method Evaluate(deploy: Deployment, meters: Meters, t: Printable) returns (all: seq<Violation>)
      modifies meters`violations
      ensures all == RenderAll(AllFindings(activeRules, deploy.containers), t)
      ensures meters.violations
           == CountFindings(old(meters.violations), deploy.namespace, activeRules, deploy.containers)
    {
      all := [];
      var rs, cs := activeRules, deploy.containers;
      for i := 0 to |rs|
        invariant activeRules == rs
        invariant all + RenderAll(AllFindings(rs[i..], cs), t) == RenderAll(AllFindings(rs, cs), t)
        invariant CountFindings(meters.violations, deploy.namespace, rs[i..], cs)
               == CountFindings(old(meters.violations), deploy.namespace, rs, cs)
      {
        var violations := EvaluateRule(rs[i], deploy, t);
        assert rs[i..][1..] == rs[i + 1..];
        RenderStep(rs[i..], cs, t);
        assert all + (violations + RenderAll(AllFindings(rs[i + 1..], cs), t))
            == (all + violations) + RenderAll(AllFindings(rs[i + 1..], cs), t);
        if |violations| > 0 {
          meters.violations := Add(meters.violations, (deploy.namespace, rs[i]), |violations|);
        }
        all := all + violations;
      }
    }

    /** HasRules: whether there is any Deployment that Evaluate finds fault with. */
    method HasRules() returns (b: bool)
      ensures b <==> exists cs :: AllFindings(activeRules, cs) != []
    {
      b := |activeRules| > 0;
      SomethingFails(activeRules);
    }
  }

  // ---------- the handler ----------

  /** What is evaluated, if the request gets that far: the Deployment under the first policy. */
  function Evaluated(x: Exchange): Option<(Deployment, PolicySpec)> {
    if x.body.Review? && x.body.request.Some? && x.body.request.value.object_.Some?
       && x.listing.Listed? && x.listing.items != []
    then Some((x.body.request.value.object_.value, x.listing.items[0]))
    else None
  }

  function Found(x: Exchange, t: Printable): seq<Violation> {
    match Evaluated(x)
    case None => []
    case Some((d, p)) => Violations(p, d.containers, t)
  }

  /** The reply and the decision recorded with it. */
  function Outcome(x: Exchange, t: Printable): (Reply, string) {
    match x.body
    case Unreadable => (BadRequest, "error")
    case NotAReview => (BadRequest, "error")
    case Review(None) => (Aborted, "error")
    case Review(Some(req)) =>
      if req.object_.None? then (Answer(req.uid, false, Some("failed to decode deployment object")), "deny")
      else if x.listing.ListFailed? then (Answer(req.uid, true, None), "error")
      else if Found(x, t) == [] then (Answer(req.uid, true, None), "allow")
      else (Answer(req.uid, false, Some(Formatted(Found(x, t)))), "deny")
  }

  /** The attributes that are known when the handler ends. */
  function AttributesOf(x: Exchange, t: Printable): Attributes {
    var decision := Outcome(x, t).1;
    if x.body.Review? && x.body.request.Some? then
      Attributes(x.body.request.value.namespace, x.body.request.value.operation, decision)
    else Attributes("", "", decision)
  }

  /** The metrics after one exchange. */
  function Account(s: Series, x: Exchange, t: Printable): Series {
    Series(
      Add(s.admissions, AttributesOf(x, t), 1),
      Add(s.durations, AttributesOf(x, t).decision, 1),
      match Evaluated(x)
      case None => s.violations
      case Some((d, p)) => CountFindings(s.violations, d.namespace, Active(p, ALL_RULES), d.containers))
  }

  /** fetchPolicy: the first policy of the namespace, if there is one. */
  method FetchPolicy(listing: Listing) returns (err: bool, policy: Option<PolicySpec>)
    ensures err <==> listing.ListFailed?
    ensures policy == if listing.Listed? && listing.items != [] then Some(listing.items[0]) else None
  {
    match listing {
      case ListFailed => err, policy := true, None;
      case Listed(items) => err, policy := false, if |items| == 0 then None else Some(items[0]);
    }
  }

  method AllowResponse(uid: nat) returns (r: Reply)
    ensures r == Answer(uid, true, None)
  {
    r := Answer(uid, true, None);
  }

  method DenyResponse(uid: nat, message: string) returns (r: Reply)
    ensures r == Answer(uid, false, Some(message))
  {
    r := Answer(uid, false, Some(message));
  }

  /**
   * The handler up to its return or panic.  The last three results are the local variables
   * that the deferred function sees.
   */
  method Decide(x: Exchange, meters: Meters, t: Printable)
    returns (reply: Reply, namespace: string, operation: string, decision: string)
    modifies meters`violations
    ensures (reply, decision) == Outcome(x, t)
    ensures Attributes(namespace, operation, decision) == AttributesOf(x, t)
    ensures meters.violations == Account(old(meters.Value()), x, t).violations
  {
    decision, namespace, operation := "error", "", "";
    if !x.body.Review? {
      reply := BadRequest;
      return;
    }
    if x.body.request.None? {
      reply := Aborted;      // req.Namespace dereferences nil
      return;
    }
    var req := x.body.request.value;
    namespace, operation := req.namespace, req.operation;
    if req.object_.None? {
      decision := "deny";
      reply := DenyResponse(req.uid, "failed to decode deployment object");
      return;
    }
    var err, policy := FetchPolicy(x.listing);
    if err {
      reply := AllowResponse(req.uid);
      return;
    }
    if policy.None? {
      decision := "allow";
      reply := AllowResponse(req.uid);
      return;
    }
    var evaluator := new PolicyEvaluator(policy);
    var violations := evaluator.Evaluate(req.object_.value, meters, t);
    assert violations == Found(x, t);
    if |violations| == 0 {
      decision := "allow";
      reply := AllowResponse(req.uid);
      return;
    }
    var message := FormatViolations(violations);
    decision := "deny";
    reply := DenyResponse(req.uid, message);
  }

  /** handleValidate with its deferred accounting, which runs after a panic too. */
  method HandleValidate(x: Exchange, meters: Meters, t: Printable) returns (reply: Reply)
    modifies meters
    ensures reply == Outcome(x, t).0
    ensures meters.Value() == Account(old(meters.Value()), x, t)
  {
    var namespace, operation, decision;
    reply, namespace, operation, decision := Decide(x, meters, t);
    meters.admissions := Add(meters.admissions, Attributes(namespace, operation, decision), 1);
    meters.durations := Add(meters.durations, decision, 1);
  }

  // ---------- who is admitted ----------

  /** No policy, a failed List, or compliance with the first policy listed. */
  predicate MayPass(listing: Listing, cs: seq<Container>) {
    listing.Listed? && listing.items != [] ==> Compliant(listing.items[0], cs)
  }

  /**
   * A request is answered with allowed exactly when its object decodes and it may pass, and
   * every answer carries the uid of its request.
   */
  lemma AllowedIff(x: Exchange, t: Printable)
    ensures var r := Outcome(x, t).0;
            && (r.Answer? <==> x.body.Review? && x.body.request.Some?)
            && (r.Answer? ==>
                  var req := x.body.request.value;
                  && r.uid == req.uid
                  && (r.allowed <==> req.object_.Some? && MayPass(x.listing, req.object_.value.containers))
                  && (r.message.Some? <==> !r.allowed))
  {
    if Evaluated(x).Some? {
      AdmittedIffCompliant(Evaluated(x).value.1, Evaluated(x).value.0.containers, t);
    }
  }

  /** Which replies there are: an error status, an aborted connection, or an answer. */
  lemma ReplyByBody(x: Exchange, t: Printable)
    ensures var r := Outcome(x, t).0;
            match x.body
            case Unreadable => r == BadRequest
            case NotAReview => r == BadRequest
            case Review(None) => r == Aborted
            case Review(Some(req)) =>
              r.Answer? && (req.object_.None? ==> r.message == Some("failed to decode deployment object"))
  {}

  /** The message of a denial by policy gives back every violation, in order. */
  lemma DenialTellsAll(x: Exchange, t: Printable)
    requires Evaluated(x).Some? && Outcome(x, t).0.Answer? && !Outcome(x, t).0.allowed
    ensures var r := Outcome(x, t).0;
            r.message.Some? && Found(x, t) != [] && ReadsBack(SplitLines(r.message.value), Found(x, t))
  {
    DenialRoundTrip(Evaluated(x).value.1, Evaluated(x).value.0.containers, t);
  }

  // ---------- conservation ----------

  function Serve(s: Series, xs: seq<Exchange>, t: Printable): Series {
    if xs == [] then s else Account(Serve(s, xs[..|xs| - 1], t), xs[|xs| - 1], t)
  }

  /** How many replies of a sequence are of a kind. */
  function Count(xs: seq<Exchange>, t: Printable, kind: Reply -> bool): nat {
    if xs == [] then 0
    else Count(xs[..|xs| - 1], t, kind) + if kind(Outcome(xs[|xs| - 1], t).0) then 1 else 0
  }

  /** Allowed because List failed. */
  function FailOpens(xs: seq<Exchange>, t: Printable): nat {
    if xs == [] then 0
    else
      var x := xs[|xs| - 1];
      FailOpens(xs[..|xs| - 1], t) +
      if Outcome(x, t).0.Answer? && Outcome(x, t).0.allowed && x.listing.ListFailed? then 1 else 0
  }

  /** The lengths of all returned lists of violations. */
  function Returned(xs: seq<Exchange>, t: Printable): nat {
    if xs == [] then 0 else Returned(xs[..|xs| - 1], t) + |Found(xs[|xs| - 1], t)|
  }

  function Any<K>(): K -> bool {
    k => true
  }

  function Deciding(d: string): Attributes -> bool {
    (a: Attributes) => a.decision == d
  }

  function Is(d: string): string -> bool {
    s => s == d
  }

  function Denials(): Reply -> bool {
    (r: Reply) => r.Answer? && !r.allowed
  }

  function Admittals(): Reply -> bool {
    (r: Reply) => r.Answer? && r.allowed
  }

  function Failures(): Reply -> bool {
    (r: Reply) => !r.Answer?
  }

  /** Requests counted with a decision, and violations counted. */
  ghost function Decided(s: Series, d: string): nat {
    Sum(Select(s.admissions, Deciding(d)))
  }

  lemma {:induction false} CountFindingsTotal(m: Counter<(string, Rule)>, ns: string, rs: seq<Rule>, cs: seq<Container>)
    ensures Sum(Select(CountFindings(m, ns, rs, cs), Any())) == Sum(Select(m, Any())) + |AllFindings(rs, cs)|
    decreases |rs|
  {
    if rs == [] {
    } else {
      var n := |Findings(rs[0], cs, 0)|;
      SumAdd(m, (ns, rs[0]), n, Any());
      CountFindingsTotal(if n > 0 then Add(m, (ns, rs[0]), n) else m, ns, rs[1..], cs);
    }
  }

  lemma AccountStep(s: Series, x: Exchange, d: string, t: Printable)
    ensures var s' := Account(s, x, t);
            && Decided(s', d) == Decided(s, d) + (if Outcome(x, t).1 == d then 1 else 0)
            && Sum(Select(s'.durations, Is(d)))
               == Sum(Select(s.durations, Is(d))) + (if Outcome(x, t).1 == d then 1 else 0)
            && Sum(Select(s'.admissions, Any())) == Sum(Select(s.admissions, Any())) + 1
            && Sum(Select(s'.violations, Any())) == Sum(Select(s.violations, Any())) + |Found(x, t)|
  {
    var a := AttributesOf(x, t);
    SumAdd(s.admissions, a, 1, Deciding(d));
    SumAdd(s.admissions, a, 1, Any());
    SumAdd(s.durations, a.decision, 1, Is(d));
    if Evaluated(x).Some? {
      var (deploy, p) := Evaluated(x).value;
      CountFindingsTotal(s.violations, deploy.namespace, Active(p, ALL_RULES), deploy.containers);
    }
  }

  /** How many requests of a sequence were decided like this. */
  function CountDecided(xs: seq<Exchange>, t: Printable, d: string): nat {
    if xs == [] then 0
    else CountDecided(xs[..|xs| - 1], t, d) + if Outcome(xs[|xs| - 1], t).1 == d then 1 else 0
  }

  lemma {:induction false} Totals(s: Series, xs: seq<Exchange>, d: string, t: Printable)
    ensures var e := Serve(s, xs, t);
            && Decided(e, d) == Decided(s, d) + CountDecided(xs, t, d)
            && Sum(Select(e.admissions, Any())) == Sum(Select(s.admissions, Any())) + |xs|
            && Sum(Select(e.violations, Any())) == Sum(Select(s.violations, Any())) + Returned(xs, t)
    decreases |xs|
  {
    if xs == [] {
    } else {
      var xs', x := xs[..|xs| - 1], xs[|xs| - 1];
      Totals(s, xs', d, t);
      AccountStep(Serve(s, xs', t), x, d, t);
    }
  }

  /** A fail-open is allowed but recorded as an error; otherwise decision and reply agree. */
  lemma DecisionOfReply(x: Exchange, t: Printable)
    ensures var (r, d) := Outcome(x, t);
            && (d == "deny" <==> r.Answer? && !r.allowed)
            && (d == "allow" <==> r.Answer? && r.allowed && !x.listing.ListFailed?)
            && (d == "error" <==> !r.Answer? || (r.allowed && x.listing.ListFailed?))
  {}

  lemma {:induction false} CountsAgree(xs: seq<Exchange>, t: Printable)
    ensures CountDecided(xs, t, "deny") == Count(xs, t, Denials())
    ensures CountDecided(xs, t, "allow") + FailOpens(xs, t) == Count(xs, t, Admittals())
    ensures CountDecided(xs, t, "error") == Count(xs, t, Failures()) + FailOpens(xs, t)
    decreases |xs|
  {
    if xs == [] {
    } else {
      CountsAgree(xs[..|xs| - 1], t);
      DecisionOfReply(xs[|xs| - 1], t);
    }
  }

  /**
   * Over any sequence of requests, unreadable ones and panics included, nothing is lost or
   * counted twice.
   */
  lemma Conserved(s: Series, xs: seq<Exchange>, t: Printable)
    ensures var e := Serve(s, xs, t);
            && Sum(Select(e.admissions, Any())) == Sum(Select(s.admissions, Any())) + |xs|
            && Decided(e, "deny") == Decided(s, "deny") + Count(xs, t, Denials())
            && Decided(e, "allow") + FailOpens(xs, t) == Decided(s, "allow") + Count(xs, t, Admittals())
            && Decided(e, "error") == Decided(s, "error") + Count(xs, t, Failures()) + FailOpens(xs, t)
            && Sum(Select(e.violations, Any())) == Sum(Select(s.violations, Any())) + Returned(xs, t)
  {
    Totals(s, xs, "deny", t);
    Totals(s, xs, "allow", t);
    Totals(s, xs, "error", t);
    CountsAgree(xs, t);
  }

  /** How many requests of a sequence carry attributes that a query selects. */
  function CountAttributes(xs: seq<Exchange>, t: Printable, wanted: Attributes -> bool): nat {
    if xs == [] then 0
    else CountAttributes(xs[..|xs| - 1], t, wanted) + if wanted(AttributesOf(xs[|xs| - 1], t)) then 1 else 0
  }

  /** The same for any query over namespace, operation and decision. */
  lemma {:induction false} EveryQuery(s: Series, xs: seq<Exchange>, wanted: Attributes -> bool, t: Printable)
    ensures Sum(Select(Serve(s, xs, t).admissions, wanted))
         == Sum(Select(s.admissions, wanted)) + CountAttributes(xs, t, wanted)
    decreases |xs|
  {
    if xs == [] {
    } else {
      var xs', x := xs[..|xs| - 1], xs[|xs| - 1];
      EveryQuery(s, xs', wanted, t);
      SumAdd(Serve(s, xs', t).admissions, AttributesOf(x, t), 1, wanted);
    }
  }

  /** The duration histogram counts each decision as often as the request counter does. */
  lemma {:induction false} DurationsAgree(xs: seq<Exchange>, d: string, t: Printable)
    ensures var e := Serve(Series(map[], map[], map[]), xs, t);
            Sum(Select(e.durations, Is(d))) == Decided(e, d)
    decreases |xs|
  {
    var zero := Series(map[], map[], map[]);
    if xs == [] {
      assert Select(zero.durations, Is(d)) == map[] && Select(zero.admissions, Deciding(d)) == map[];
    } else {
      DurationsAgree(xs[..|xs| - 1], d, t);
      AccountStep(Serve(zero, xs[..|xs| - 1], t), xs[|xs| - 1], d, t);
    }
  }

  // ---------- by label, counted from the requests themselves ----------

  /** The namespace and the operation of a body; empty if it is no review with a request. */
  predicate Carries(body: Body, namespace: string, operation: string) {
    match body
    case Review(Some(req)) => req.namespace == namespace && req.operation == operation
    case _ => namespace == "" && operation == ""
  }

  /** The decision that a reply stands for; allowed although List failed is an error. */
  predicate Decides(r: Reply, listing: Listing, decision: string) {
    decision == if !r.Answer? then "error"
                else if !r.allowed then "deny"
                else if listing.ListFailed? then "error"
                else "allow"
  }

  function CountLabelled(xs: seq<Exchange>, t: Printable, namespace: string, operation: string, decision: string): nat {
    if xs == [] then 0
    else
      var x := xs[|xs| - 1];
      CountLabelled(xs[..|xs| - 1], t, namespace, operation, decision)
      + if Carries(x.body, namespace, operation) && Decides(Outcome(x, t).0, x.listing, decision) then 1 else 0
  }

  function Labelled(namespace: string, operation: string, decision: string): Attributes -> bool {
    (a: Attributes) => a.namespace == namespace && a.operation == operation && a.decision == decision
  }

  lemma AttributesAreLabels(x: Exchange, t: Printable, namespace: string, operation: string, decision: string)
    ensures Labelled(namespace, operation, decision)(AttributesOf(x, t)) <==>
              Carries(x.body, namespace, operation) && Decides(Outcome(x, t).0, x.listing, decision)
  {
    DecisionOfReply(x, t);
  }

  /**
   * Each series of the request counter goes up by the requests that carry its namespace and
   * operation and got its decision.
   */
  lemma {:induction false} EveryLabel(s: Series, xs: seq<Exchange>, t: Printable,
                                      namespace: string, operation: string, decision: string)
    ensures var wanted := Labelled(namespace, operation, decision);
            Sum(Select(Serve(s, xs, t).admissions, wanted))
            == Sum(Select(s.admissions, wanted)) + CountLabelled(xs, t, namespace, operation, decision)
    decreases |xs|
  {
    if xs == [] {
    } else {
      var xs', x := xs[..|xs| - 1], xs[|xs| - 1];
      EveryLabel(s, xs', t, namespace, operation, decision);
      SumAdd(Serve(s, xs', t).admissions, AttributesOf(x, t), 1, Labelled(namespace, operation, decision));
      AttributesAreLabels(x, t, namespace, operation, decision);
    }
  }

  // ---------- per rule ----------

  function ByRule(r: Rule): ((string, Rule)) -> bool {
    (k: (string, Rule)) => k.1 == r
  }

  /** Violations of one rule in the list returned for one request. */
  function FoundBy(x: Exchange, r: Rule): nat {
    match Evaluated(x)
    case None => 0
    case Some((d, p)) => if Enabled(p, r) then |Findings(r, d.containers, 0)| else 0
  }

  function ReturnedBy(xs: seq<Exchange>, r: Rule): nat {
    if xs == [] then 0 else ReturnedBy(xs[..|xs| - 1], r) + FoundBy(xs[|xs| - 1], r)
  }

  function LengthBy(rs: seq<Rule>, r: Rule, cs: seq<Container>): nat {
    if rs == [] then 0 else (if rs[0] == r then |Findings(r, cs, 0)| else 0) + LengthBy(rs[1..], r, cs)
  }

  lemma {:induction false} CountFindingsByRule(m: Counter<(string, Rule)>, ns: string, rs: seq<Rule>,
                                               cs: seq<Container>, r: Rule)
    ensures Sum(Select(CountFindings(m, ns, rs, cs), ByRule(r))) == Sum(Select(m, ByRule(r))) + LengthBy(rs, r, cs)
    decreases |rs|
  {
    if rs == [] {
    } else {
      var n := |Findings(rs[0], cs, 0)|;
      SumAdd(m, (ns, rs[0]), n, ByRule(r));
      CountFindingsByRule(if n > 0 then Add(m, (ns, rs[0]), n) else m, ns, rs[1..], cs, r);
    }
  }

  lemma LengthByCons(on: bool, q: Rule, rs: seq<Rule>, r: Rule, cs: seq<Container>)
    ensures LengthBy(On(on, q) + rs, r, cs) == (if on && q == r then |Findings(r, cs, 0)| else 0) + LengthBy(rs, r, cs)
  {
    assert [] + rs == rs;
    assert ([q] + rs)[1..] == rs;
  }

  lemma ActiveLength(p: PolicySpec, r: Rule, cs: seq<Container>)
    ensures LengthBy(Active(p, ALL_RULES), r, cs) == if Enabled(p, r) then |Findings(r, cs, 0)| else 0
  {
    ActiveAll(p);
    var z := On(p.requireReadinessProbe, RequireReadinessProbe);
    LengthByCons(p.requireReadinessProbe, RequireReadinessProbe, [], r, cs);
    assert z + [] == z;
    LengthByCons(p.blockLatestTag, BlockLatestTag, z, r, cs);
    LengthByCons(p.requireResources, RequireResources, On(p.blockLatestTag, BlockLatestTag) + z, r, cs);
  }

  /** The series of a rule add up to the violations of that rule that were returned. */
  lemma {:induction false} ConservedByRule(s: Series, xs: seq<Exchange>, r: Rule, t: Printable)
    ensures Sum(Select(Serve(s, xs, t).violations, ByRule(r)))
         == Sum(Select(s.violations, ByRule(r))) + ReturnedBy(xs, r)
    decreases |xs|
  {
    if xs == [] {
    } else {
      var xs', x := xs[..|xs| - 1], xs[|xs| - 1];
      ConservedByRule(s, xs', r, t);
      if Evaluated(x).Some? {
        var (d, p) := Evaluated(x).value;
        CountFindingsByRule(Serve(s, xs', t).violations, d.namespace, Active(p, ALL_RULES), d.containers, r);
        ActiveLength(p, r, d.containers);
      }
    }
  }

  // ---------- per namespace and rule ----------

  function OfNamespace(namespace: string, r: Rule): ((string, Rule)) -> bool {
    (k: (string, Rule)) => k.0 == namespace && k.1 == r
  }

  /** Violations of a rule that are found in Deployments of a namespace. */
  function FoundIn(x: Exchange, namespace: string, r: Rule): nat {
    match x.body
    case Review(Some(req)) =>
      if req.object_.Some? && req.object_.value.namespace == namespace
         && x.listing.Listed? && x.listing.items != [] && Enabled(x.listing.items[0], r)
      then |Findings(r, req.object_.value.containers, 0)|
      else 0
    case _ => 0
  }

  function ReturnedIn(xs: seq<Exchange>, namespace: string, r: Rule): nat {
    if xs == [] then 0 else ReturnedIn(xs[..|xs| - 1], namespace, r) + FoundIn(xs[|xs| - 1], namespace, r)
  }

  lemma {:induction false} CountFindingsIn(m: Counter<(string, Rule)>, ns: string, rs: seq<Rule>,
                                           cs: seq<Container>, namespace: string, r: Rule)
    ensures Sum(Select(CountFindings(m, ns, rs, cs), OfNamespace(namespace, r)))
         == Sum(Select(m, OfNamespace(namespace, r))) + if ns == namespace then LengthBy(rs, r, cs) else 0
    decreases |rs|
  {
    if rs == [] {
    } else {
      var n := |Findings(rs[0], cs, 0)|;
      SumAdd(m, (ns, rs[0]), n, OfNamespace(namespace, r));
      CountFindingsIn(if n > 0 then Add(m, (ns, rs[0]), n) else m, ns, rs[1..], cs, namespace, r);
    }
  }

  lemma ViolationStep(s: Series, x: Exchange, t: Printable, namespace: string, r: Rule)
    ensures var wanted := OfNamespace(namespace, r);
            Sum(Select(Account(s, x, t).violations, wanted))
            == Sum(Select(s.violations, wanted)) + FoundIn(x, namespace, r)
  {
    if Evaluated(x).Some? {
      var (d, p) := Evaluated(x).value;
      CountFindingsIn(s.violations, d.namespace, Active(p, ALL_RULES), d.containers, namespace, r);
      ActiveLength(p, r, d.containers);
    }
  }

  /** Each series of the violation counter goes up by what its rule found in its namespace. */
  lemma {:induction false} EveryViolationLabel(s: Series, xs: seq<Exchange>, t: Printable, namespace: string, r: Rule)
    ensures var wanted := OfNamespace(namespace, r);
            Sum(Select(Serve(s, xs, t).violations, wanted))
            == Sum(Select(s.violations, wanted)) + ReturnedIn(xs, namespace, r)
    decreases |xs|
  {
    if xs == [] {
    } else {
      var xs', x := xs[..|xs| - 1], xs[|xs| - 1];
      EveryViolationLabel(s, xs', t, namespace, r);
      ViolationStep(Serve(s, xs', t), x, t, namespace, r);
    }
  }
}
