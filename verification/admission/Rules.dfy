/**
 * The three rules (internal/rules): the accumulating loops as methods, each against the
 * same declarative list of findings, and what that list means.
 */
module Rules {
  import opened Prelude
  import opened Text
  import opened ImageReference

  /** requests is None for a nil map; the quantities do not matter. */
  datatype Container = Container(
    name: string,
    image: string,
    requests: Option<map<string, string>>,
    hasReadinessProbe: bool)

  /** replicas stands for everything outside the pod template. */
  datatype Deployment = Deployment(namespace: string, containers: seq<Container>, replicas: int)

  datatype Violation = Violation(field: string, message: string)

  datatype Rule = RequireResources | BlockLatestTag | RequireReadinessProbe

  // ---------- compliance ----------

  /** What a rule asks of a container. */
  predicate Complies(r: Rule, c: Container) {
    match r
    case RequireResources => c.requests.Some? && "cpu" in c.requests.value && "memory" in c.requests.value
    case BlockLatestTag => !IsLatestOrUntagged(c.image)
    case RequireReadinessProbe => c.hasReadinessProbe
  }

  // ---------- findings ----------

  datatype Kind = Requests | Cpu | Memory | Image | Probe

  /** What is wrong with which container. */
  datatype Finding = Finding(index: nat, kind: Kind, container: Container)

  function Suffix(k: Kind): string {
    match k
    case Requests => "].resources.requests"
    case Cpu => "].resources.requests.cpu"
    case Memory => "].resources.requests.memory"
    case Image => "].image"
    case Probe => "].readinessProbe"
  }

  function Field(index: nat, k: Kind): string {
    "spec.template.spec.containers[" + Dec(index) + Suffix(k)
  }

  function Message(k: Kind, c: Container, t: Printable): string {
    match k
    case Requests => "container " + Quote(c.name, t) + " must have resources.requests defined"
    case Cpu => "container " + Quote(c.name, t) + " must have resources.requests.cpu defined"
    case Memory => "container " + Quote(c.name, t) + " must have resources.requests.memory defined"
    case Image =>
      "container " + Quote(c.name, t) + " uses image " + Quote(c.image, t)
      + " \U{2014} tag ':latest' or untagged" + " images are not allowed;" + " use an explicit tag or digest"
    case Probe =>
      "container " + Quote(c.name, t) + " must have a readinessProbe" + " defined to prevent traffic during startup"
  }

  function Render(f: Finding, t: Printable): Violation {
    Violation(Field(f.index, f.kind), Message(f.kind, f.container, t))
  }

  function RenderAll(fs: seq<Finding>, t: Printable): (vs: seq<Violation>)
    ensures |vs| == |fs|
  {
    seq(|fs|, i requires 0 <= i < |fs| => Render(fs[i], t))
  }

  /** The findings of one rule on one container. */
  function Check(r: Rule, i: nat, c: Container): seq<Finding> {
    match r
    case RequireResources =>
      if c.requests.None? then [Finding(i, Requests, c)]
      else
        (if "cpu" in c.requests.value then [] else [Finding(i, Cpu, c)])
        + (if "memory" in c.requests.value then [] else [Finding(i, Memory, c)])
    case BlockLatestTag => if IsLatestOrUntagged(c.image) then [Finding(i, Image, c)] else []
    case RequireReadinessProbe => if c.hasReadinessProbe then [] else [Finding(i, Probe, c)]
  }

  /** The findings of one rule on a list of containers numbered from base. */
  function Findings(r: Rule, cs: seq<Container>, base: nat): seq<Finding> {
    if cs == [] then [] else Check(r, base, cs[0]) + Findings(r, cs[1..], base + 1)
  }

  lemma Associate(x: seq<Finding>, y: seq<Finding>, z: seq<Finding>)
    ensures x + (y + z) == (x + y) + z
  {}

  lemma FindingsCons(r: Rule, cs: seq<Container>, base: nat)
    requires cs != []
    ensures Findings(r, cs, base) == Check(r, base, cs[0]) + Findings(r, cs[1..], base + 1)
  {}

  lemma {:induction false} FindingsConcat(r: Rule, a: seq<Container>, b: seq<Container>, base: nat)
    ensures Findings(r, a + b, base) == Findings(r, a, base) + Findings(r, b, base + |a|)
  {
    if a == [] {
      assert a + b == b;
    } else {
      var rest := a[1..];
      calc {
        Findings(r, a + b, base);
      ==  { FindingsCons(r, a + b, base); assert (a + b)[1..] == rest + b; }
        Check(r, base, a[0]) + Findings(r, rest + b, base + 1);
      ==  { FindingsConcat(r, rest, b, base + 1); }
        Check(r, base, a[0]) + (Findings(r, rest, base + 1) + Findings(r, b, base + |a|));
      ==  { Associate(Check(r, base, a[0]), Findings(r, rest, base + 1), Findings(r, b, base + |a|)); }
        (Check(r, base, a[0]) + Findings(r, rest, base + 1)) + Findings(r, b, base + |a|);
      ==  { FindingsCons(r, a, base); }
        Findings(r, a, base) + Findings(r, b, base + |a|);
      }
    }
  }

  lemma Single(r: Rule, c: Container, i: nat)
    ensures Findings(r, [c], i) == Check(r, i, c)
  {
    assert [c][1..] == [];
    assert Findings(r, [], i + 1) == [];
  }

  lemma OneMore(r: Rule, cs: seq<Container>, i: nat)
    requires i < |cs|
    ensures Findings(r, cs[..i + 1], 0) == Findings(r, cs[..i], 0) + Check(r, i, cs[i])
  {
    assert cs[..i + 1] == cs[..i] + [cs[i]];
    FindingsConcat(r, cs[..i], [cs[i]], 0);
    Single(r, cs[i], i);
  }

  lemma RenderConcat(a: seq<Finding>, b: seq<Finding>, t: Printable)
    ensures RenderAll(a + b, t) == RenderAll(a, t) + RenderAll(b, t)
  {
    var l, r := RenderAll(a + b, t), RenderAll(a, t) + RenderAll(b, t);
    assert |l| == |r|;
    forall k | 0 <= k < |l| ensures l[k] == r[k] {
      assert (a + b)[k] == if k < |a| then a[k] else b[k - |a|];
    }
  }

  // ---------- a finding names what is wrong ----------

  lemma CheckIndex(r: Rule, i: nat, c: Container, f: Finding)
    ensures f in Check(r, i, c) ==> f.index == i
  {}

  lemma InEither(x: seq<Finding>, y: seq<Finding>, f: Finding)
    ensures f in x + y <==> f in x || f in y
  {}

  /** The place in the list is the first one, or one in the rest. */
  lemma AtPlace(r: Rule, cs: seq<Container>, base: nat, f: Finding)
    requires cs != [] && (f in Check(r, base, cs[0]) ==> f.index == base)
    ensures (base <= f.index < base + |cs| && f in Check(r, f.index, cs[f.index - base])) <==>
              || f in Check(r, base, cs[0])
              || (base + 1 <= f.index < base + |cs| && f in Check(r, f.index, cs[1..][f.index - (base + 1)]))
  {
    if base + 1 <= f.index < base + |cs| {
      assert cs[1..][f.index - (base + 1)] == cs[f.index - base];
    }
  }

  /** A finding is one of a container's own, at its place in the list. */
  lemma {:induction false} FoundAtPlace(r: Rule, cs: seq<Container>, base: nat, f: Finding)
    ensures f in Findings(r, cs, base) <==>
              base <= f.index < base + |cs| && f in Check(r, f.index, cs[f.index - base])
    decreases |cs|
  {
    if cs == [] {
    } else {
      var x, y := Check(r, base, cs[0]), Findings(r, cs[1..], base + 1);
      FindingsCons(r, cs, base);
      InEither(x, y, f);
      FoundAtPlace(r, cs[1..], base + 1, f);
      CheckIndex(r, base, cs[0], f);
      AtPlace(r, cs, base, f);
    }
  }

  /** What requireResources finds: no requests at all, or one of the two keys missing. */
  lemma ResourcesFindings(cs: seq<Container>, base: nat, f: Finding)
    ensures f in Findings(RequireResources, cs, base) <==>
              && base <= f.index < base + |cs| && f.container == cs[f.index - base]
              && var c := cs[f.index - base];
                 || (f.kind == Requests && c.requests.None?)
                 || (f.kind == Cpu && c.requests.Some? && "cpu" !in c.requests.value)
                 || (f.kind == Memory && c.requests.Some? && "memory" !in c.requests.value)
  {
    FoundAtPlace(RequireResources, cs, base, f);
  }

  /** What blockLatestTag finds. */
  lemma LatestTagFindings(cs: seq<Container>, base: nat, f: Finding)
    ensures f in Findings(BlockLatestTag, cs, base) <==>
              && base <= f.index < base + |cs| && f.container == cs[f.index - base]
              && f.kind == Image && IsLatestOrUntagged(cs[f.index - base].image)
  {
    FoundAtPlace(BlockLatestTag, cs, base, f);
  }

  /** What requireReadinessProbe finds. */
  lemma ProbeFindings(cs: seq<Container>, base: nat, f: Finding)
    ensures f in Findings(RequireReadinessProbe, cs, base) <==>
              && base <= f.index < base + |cs| && f.container == cs[f.index - base]
              && f.kind == Probe && !cs[f.index - base].hasReadinessProbe
  {
    FoundAtPlace(RequireReadinessProbe, cs, base, f);
  }

  /** The path and the text with which each kind of finding is reported. */
  lemma Texts(i: nat, c: Container, t: Printable)
    ensures var path := "spec.template.spec.containers[" + Dec(i);
            var name := "container " + Quote(c.name, t);
            && Render(Finding(i, Requests, c), t)
               == Violation(path + "].resources.requests", name + " must have resources.requests defined")
            && Render(Finding(i, Cpu, c), t)
               == Violation(path + "].resources.requests.cpu", name + " must have resources.requests.cpu defined")
            && Render(Finding(i, Memory, c), t)
               == Violation(path + "].resources.requests.memory", name + " must have resources.requests.memory defined")
            && Render(Finding(i, Image, c), t)
               == Violation(path + "].image", name + " uses image " + Quote(c.image, t)
                            + " \U{2014} tag ':latest' or untagged" + " images are not allowed;"
                            + " use an explicit tag or digest")
            && Render(Finding(i, Probe, c), t)
               == Violation(path + "].readinessProbe", name + " must have a readinessProbe"
                            + " defined to prevent traffic during startup")
  {}

  // ---------- a rule on a concatenation ----------

  /** The same findings on containers that stand k places further back. */
  function Shift(fs: seq<Finding>, k: nat): (gs: seq<Finding>)
    ensures |gs| == |fs|
  {
    seq(|fs|, i requires 0 <= i < |fs| => fs[i].(index := fs[i].index + k))
  }

  lemma CheckShift(r: Rule, i: nat, c: Container, k: nat)
    ensures Check(r, i + k, c) == Shift(Check(r, i, c), k)
  {}

  lemma ShiftConcat(a: seq<Finding>, b: seq<Finding>, k: nat)
    ensures Shift(a + b, k) == Shift(a, k) + Shift(b, k)
  {}

  lemma {:induction false} FindingsShift(r: Rule, cs: seq<Container>, base: nat, k: nat)
    ensures Findings(r, cs, base + k) == Shift(Findings(r, cs, base), k)
  {
    if cs == [] {
    } else {
      var x, y := Check(r, base, cs[0]), Findings(r, cs[1..], base + 1);
      calc {
        Findings(r, cs, base + k);
      ==  { FindingsCons(r, cs, base + k); CheckShift(r, base, cs[0], k); }
        Shift(x, k) + Findings(r, cs[1..], base + k + 1);
      ==  { FindingsShift(r, cs[1..], base + 1, k); }
        Shift(x, k) + Shift(y, k);
      ==  { ShiftConcat(x, y, k); }
        Shift(x + y, k);
      ==  { FindingsCons(r, cs, base); }
        Shift(Findings(r, cs, base), k);
      }
    }
  }

  /** w says of container i + k what v says of container i. */
  ghost predicate Moved(v: Violation, w: Violation, k: nat) {
    exists i: nat, kind :: v.field == Field(i, kind) && w == Violation(Field(i + k, kind), v.message)
  }

  ghost predicate AllMoved(vs: seq<Violation>, ws: seq<Violation>, k: nat) {
    |vs| == |ws| && forall i :: 0 <= i < |vs| ==> Moved(vs[i], ws[i], k)
  }

  /** What the Evaluate method of a rule returns for a list of containers. */
  function RuleViolations(r: Rule, cs: seq<Container>, t: Printable): seq<Violation> {
    RenderAll(Findings(r, cs, 0), t)
  }

  lemma FindingMoves(f: Finding, k: nat, t: Printable)
    ensures Moved(Render(f, t), Render(f.(index := f.index + k), t), k)
  {
    assert Render(f, t).field == Field(f.index, f.kind);
  }

  lemma ShiftMoves(fs: seq<Finding>, k: nat, t: Printable)
    ensures AllMoved(RenderAll(fs, t), RenderAll(Shift(fs, k), t), k)
  {
    forall i | 0 <= i < |fs| ensures Moved(RenderAll(fs, t)[i], RenderAll(Shift(fs, k), t)[i], k) {
      FindingMoves(fs[i], k, t);
    }
  }

  lemma ConcatWithShift(r: Rule, a: seq<Container>, b: seq<Container>, t: Printable)
    ensures RuleViolations(r, a + b, t) == RuleViolations(r, a, t) + RenderAll(Shift(Findings(r, b, 0), |a|), t)
  {
    FindingsConcat(r, a, b, 0);
    FindingsShift(r, b, 0, |a|);
    RenderConcat(Findings(r, a, 0), Shift(Findings(r, b, 0), |a|), t);
  }

  /**
   * A rule distributes over container lists: the violations of a + b are those of a, and
   * then those of b with every index shifted by |a| and the same messages.
   */
  lemma Distributes(r: Rule, a: seq<Container>, b: seq<Container>, t: Printable)
    ensures exists ws :: && RuleViolations(r, a + b, t) == RuleViolations(r, a, t) + ws
                         && AllMoved(RuleViolations(r, b, t), ws, |a|)
  {
    ConcatWithShift(r, a, b, t);
    ShiftMoves(Findings(r, b, 0), |a|, t);
  }

  // ---------- the loops ----------

  /** require_resources.go, checkContainer. */
  method CheckContainer(index: nat, c: Container, t: Printable) returns (violations: seq<Violation>)
    ensures violations == RenderAll(Check(RequireResources, index, c), t)
    ensures c.requests.None? ==>
              violations == [Violation("spec.template.spec.containers[" + Dec(index) + "].resources.requests",
                                       "container " + Quote(c.name, t) + " must have resources.requests defined")]
    ensures c.requests.Some? ==>
              var cpu := Violation("spec.template.spec.containers[" + Dec(index) + "].resources.requests.cpu",
                                   "container " + Quote(c.name, t) + " must have resources.requests.cpu defined");
              var memory := Violation("spec.template.spec.containers[" + Dec(index) + "].resources.requests.memory",
                                      "container " + Quote(c.name, t) + " must have resources.requests.memory defined");
              violations == (if "cpu" in c.requests.value then [] else [cpu])
                            + (if "memory" in c.requests.value then [] else [memory])
  {
    violations := [];
    if c.requests.None? {
      violations := violations + [Violation(
        "spec.template.spec.containers[" + Dec(index) + "].resources.requests",
        "container " + Quote(c.name, t) + " must have resources.requests defined")];
      return;
    }
    if "cpu" !in c.requests.value {
      violations := violations + [Violation(
        "spec.template.spec.containers[" + Dec(index) + "].resources.requests.cpu",
        "container " + Quote(c.name, t) + " must have resources.requests.cpu defined")];
    }
    if "memory" !in c.requests.value {
      violations := violations + [Violation(
        "spec.template.spec.containers[" + Dec(index) + "].resources.requests.memory",
        "container " + Quote(c.name, t) + " must have resources.requests.memory defined")];
    }
  }

  method RequireResourcesEvaluate(deploy: Deployment, t: Printable) returns (violations: seq<Violation>)
    ensures violations == RuleViolations(RequireResources, deploy.containers, t)
  {
    violations := [];
    var cs := deploy.containers;
    for i := 0 to |cs|
      invariant violations == RuleViolations(RequireResources, cs[..i], t)
    {
      var more := CheckContainer(i, cs[i], t);
      OneMore(RequireResources, cs, i);
      RenderConcat(Findings(RequireResources, cs[..i], 0), Check(RequireResources, i, cs[i]), t);
      violations := violations + more;
    }
    assert cs[..|cs|] == cs;
  }

  method BlockLatestTagEvaluate(deploy: Deployment, t: Printable) returns (violations: seq<Violation>)
    ensures violations == RuleViolations(BlockLatestTag, deploy.containers, t)
  {
    violations := [];
    var cs := deploy.containers;
    for i := 0 to |cs|
      invariant violations == RuleViolations(BlockLatestTag, cs[..i], t)
    {
      OneMore(BlockLatestTag, cs, i);
      RenderConcat(Findings(BlockLatestTag, cs[..i], 0), Check(BlockLatestTag, i, cs[i]), t);
      if IsLatestOrUntagged(cs[i].image) {
        violations := violations + [Violation(
          "spec.template.spec.containers[" + Dec(i) + "].image",
          "container " + Quote(cs[i].name, t) + " uses image " + Quote(cs[i].image, t)
          + " \U{2014} tag ':latest' or untagged" + " images are not allowed;" + " use an explicit tag or digest")];
      }
    }
    assert cs[..|cs|] == cs;
  }

  method RequireReadinessProbeEvaluate(deploy: Deployment, t: Printable) returns (violations: seq<Violation>)
    ensures violations == RuleViolations(RequireReadinessProbe, deploy.containers, t)
  {
    violations := [];
    var cs := deploy.containers;
    for i := 0 to |cs|
      invariant violations == RuleViolations(RequireReadinessProbe, cs[..i], t)
    {
      OneMore(RequireReadinessProbe, cs, i);
      RenderConcat(Findings(RequireReadinessProbe, cs[..i], 0), Check(RequireReadinessProbe, i, cs[i]), t);
      if !cs[i].hasReadinessProbe {
        violations := violations + [Violation(
          "spec.template.spec.containers[" + Dec(i) + "].readinessProbe",
          "container " + Quote(cs[i].name, t) + " must have a readinessProbe"
          + " defined to prevent traffic during startup")];
      }
    }
    assert cs[..|cs|] == cs;
  }

  /** The interface through which the evaluator calls a rule. */
  method EvaluateRule(r: Rule, deploy: Deployment, t: Printable) returns (violations: seq<Violation>)
    ensures violations == RuleViolations(r, deploy.containers, t)
  {
    match r {
      case RequireResources => violations := RequireResourcesEvaluate(deploy, t);
      case BlockLatestTag => violations := BlockLatestTagEvaluate(deploy, t);
      case RequireReadinessProbe => violations := RequireReadinessProbeEvaluate(deploy, t);
    }
  }
}
