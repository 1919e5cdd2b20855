/** internal/policy/evaluator.go, and what the list that Evaluate returns means. */
module Evaluator {
  import opened Api
  import opened ImageReference
  import opened Text
  import opened Rules

  predicate Enabled(p: PolicySpec, r: Rule) {
    match r
    case RequireResources => p.requireResources
    case BlockLatestTag => p.blockLatestTag
    case RequireReadinessProbe => p.requireReadinessProbe
  }

  /** All rules in the order in which they are evaluated. */
  const ALL_RULES := [RequireResources, BlockLatestTag, RequireReadinessProbe]

  function Active(p: PolicySpec, rs: seq<Rule>): seq<Rule> {
    if rs == [] then [] else (if Enabled(p, rs[0]) then [rs[0]] else []) + Active(p, rs[1..])
  }

  /** Rule after rule, container after container. */
  function AllFindings(rs: seq<Rule>, cs: seq<Container>): seq<Finding> {
    if rs == [] then [] else Findings(rs[0], cs, 0) + AllFindings(rs[1..], cs)
  }

  /** The findings under a policy; the declarative form of New followed by Evaluate. */
  function Report(p: PolicySpec, cs: seq<Container>): seq<Finding> {
    AllFindings(Active(p, ALL_RULES), cs)
  }

  function Violations(p: PolicySpec, cs: seq<Container>, t: Printable): seq<Violation> {
    RenderAll(Report(p, cs), t)
  }

  function On(on: bool, r: Rule): seq<Rule> {
    if on then [r] else []
  }

  lemma ActiveAll(p: PolicySpec)
    ensures Active(p, ALL_RULES) ==
            On(p.requireResources, RequireResources)
            + (On(p.blockLatestTag, BlockLatestTag) + On(p.requireReadinessProbe, RequireReadinessProbe))
  {
    var rs := ALL_RULES;
    assert Active(p, []) == [];
    assert rs[2..] == [RequireReadinessProbe] && rs[2..][1..] == [];
    assert Active(p, rs[2..]) == On(p.requireReadinessProbe, RequireReadinessProbe);
    assert rs[1..][0] == BlockLatestTag && rs[1..][1..] == rs[2..];
  }

  lemma AllFindingsCons(on: bool, r: Rule, rs: seq<Rule>, cs: seq<Container>)
    ensures AllFindings(On(on, r) + rs, cs) == (if on then Findings(r, cs, 0) else []) + AllFindings(rs, cs)
  {
    if on {
      var all := [r] + rs;
      assert all[0] == r && all[1..] == rs;
    } else {
      assert [] + rs == rs;
    }
  }

  /** The three blocks of a report, each of which may be switched off. */
  lemma ReportBlocks(p: PolicySpec, cs: seq<Container>)
    ensures Report(p, cs) ==
            (if p.requireResources then Findings(RequireResources, cs, 0) else [])
            + (if p.blockLatestTag then Findings(BlockLatestTag, cs, 0) else [])
            + (if p.requireReadinessProbe then Findings(RequireReadinessProbe, cs, 0) else [])
  {
    ActiveAll(p);
    var z := On(p.requireReadinessProbe, RequireReadinessProbe);
    AllFindingsCons(p.requireReadinessProbe, RequireReadinessProbe, [], cs);
    assert z + [] == z;
    AllFindingsCons(p.blockLatestTag, BlockLatestTag, z, cs);
    AllFindingsCons(p.requireResources, RequireResources, On(p.blockLatestTag, BlockLatestTag) + z, cs);
  }

  // ---------- empty exactly when everything complies ----------

  lemma {:induction false} EmptyIffComplies(r: Rule, cs: seq<Container>, base: nat)
    ensures Findings(r, cs, base) == [] <==> forall c | c in cs :: Complies(r, c)
  {
    if cs == [] {
    } else {
      EmptyIffComplies(r, cs[1..], base + 1);
      assert Check(r, base, cs[0]) == [] <==> Complies(r, cs[0]);
      assert forall c :: c in cs <==> c == cs[0] || c in cs[1..];
    }
  }

  /** Every enabled rule is met by every container. */
  predicate Compliant(p: PolicySpec, cs: seq<Container>) {
    forall c, r | c in cs && r in ALL_RULES && Enabled(p, r) :: Complies(r, c)
  }

  lemma AdmittedIffCompliant(p: PolicySpec, cs: seq<Container>, t: Printable)
    ensures Violations(p, cs, t) == [] <==> Compliant(p, cs)
  {
    ReportBlocks(p, cs);
    EmptyIffComplies(RequireResources, cs, 0);
    EmptyIffComplies(BlockLatestTag, cs, 0);
    EmptyIffComplies(RequireReadinessProbe, cs, 0);
    assert RequireResources in ALL_RULES && BlockLatestTag in ALL_RULES && RequireReadinessProbe in ALL_RULES;
  }

  lemma InBlocks(a: bool, x: seq<Finding>, b: bool, y: seq<Finding>, c: bool, z: seq<Finding>, f: Finding)
    ensures f in (if a then x else []) + (if b then y else []) + (if c then z else []) <==>
              (a && f in x) || (b && f in y) || (c && f in z)
  {}

  lemma KindOfRule(cs: seq<Container>, f: Finding)
    ensures f in Findings(RequireResources, cs, 0) ==> f.kind == Requests || f.kind == Cpu || f.kind == Memory
    ensures f in Findings(BlockLatestTag, cs, 0) ==> f.kind == Image
    ensures f in Findings(RequireReadinessProbe, cs, 0) ==> f.kind == Probe
  {
    ResourcesFindings(cs, 0, f);
    LatestTagFindings(cs, 0, f);
    ProbeFindings(cs, 0, f);
  }

  lemma InReport(p: PolicySpec, cs: seq<Container>, f: Finding)
    ensures f in Report(p, cs) <==>
              || (p.requireResources && f in Findings(RequireResources, cs, 0))
              || (p.blockLatestTag && f in Findings(BlockLatestTag, cs, 0))
              || (p.requireReadinessProbe && f in Findings(RequireReadinessProbe, cs, 0))
  {
    ReportBlocks(p, cs);
    InBlocks(p.requireResources, Findings(RequireResources, cs, 0), p.blockLatestTag, Findings(BlockLatestTag, cs, 0),
             p.requireReadinessProbe, Findings(RequireReadinessProbe, cs, 0), f);
  }

  /**
   * What is in a report: exactly what the enabled rules ask for and a container does not have,
   * with the container's own index.
   */
  lemma ReportNames(p: PolicySpec, cs: seq<Container>, f: Finding)
    ensures f in Report(p, cs) <==>
              && f.index < |cs| && f.container == cs[f.index]
              && var c := cs[f.index];
                 match f.kind
                 case Requests => p.requireResources && c.requests.None?
                 case Cpu => p.requireResources && c.requests.Some? && "cpu" !in c.requests.value
                 case Memory => p.requireResources && c.requests.Some? && "memory" !in c.requests.value
                 case Image => p.blockLatestTag && IsLatestOrUntagged(c.image)
                 case Probe => p.requireReadinessProbe && !c.hasReadinessProbe
  {
    InReport(p, cs, f);
    KindOfRule(cs, f);
    match f.kind {
      case Image => LatestTagFindings(cs, 0, f);
      case Probe => ProbeFindings(cs, 0, f);
      case _ => ResourcesFindings(cs, 0, f);
    }
  }

  // ---------- who is blamed, and how often ----------

  function RuleOf(k: Kind): Rule {
    match k
    case Image => BlockLatestTag
    case Probe => RequireReadinessProbe
    case _ => RequireResources
  }

  /** Findings of one container. */
  function Blames(fs: seq<Finding>, i: nat): nat {
    if fs == [] then 0 else (if fs[0].index == i then 1 else 0) + Blames(fs[1..], i)
  }

  lemma {:induction false} BlamesConcat(a: seq<Finding>, b: seq<Finding>, i: nat)
    ensures Blames(a + b, i) == Blames(a, i) + Blames(b, i)
  {
    if a == [] {
      assert a + b == b;
    } else {
      BlamesConcat(a[1..], b, i);
      assert (a + b)[1..] == a[1..] + b;
    }
  }

  function MaxPerContainer(r: Rule): nat {
    if r.RequireResources? then 2 else 1
  }

  lemma {:induction false} BlamesBound(fs: seq<Finding>, i: nat)
    ensures Blames(fs, i) <= |fs|
    ensures (forall f | f in fs :: f.index != i) ==> Blames(fs, i) == 0
  {
    if fs == [] {
    } else {
      BlamesBound(fs[1..], i);
      assert fs[0] in fs;
      assert forall f | f in fs[1..] :: f in fs;
    }
  }

  lemma CheckBlames(r: Rule, j: nat, c: Container, i: nat)
    ensures Blames(Check(r, j, c), i) <= if i == j then MaxPerContainer(r) else 0
  {
    BlamesBound(Check(r, j, c), i);
  }

  lemma {:induction false} FindingsBlames(r: Rule, cs: seq<Container>, base: nat, i: nat)
    ensures Blames(Findings(r, cs, base), i) <= if base <= i < base + |cs| then MaxPerContainer(r) else 0
  {
    if cs == [] {
    } else {
      FindingsBlames(r, cs[1..], base + 1, i);
      BlamesConcat(Check(r, base, cs[0]), Findings(r, cs[1..], base + 1), i);
      CheckBlames(r, base, cs[0], i);
    }
  }

  /** At most four violations per container. */
  lemma AtMostFour(p: PolicySpec, cs: seq<Container>, i: nat)
    ensures Blames(Report(p, cs), i) <= if i < |cs| then 4 else 0
  {
    ReportBlocks(p, cs);
    var x := if p.requireResources then Findings(RequireResources, cs, 0) else [];
    var y := if p.blockLatestTag then Findings(BlockLatestTag, cs, 0) else [];
    var z := if p.requireReadinessProbe then Findings(RequireReadinessProbe, cs, 0) else [];
    BlamesConcat(x, y, i);
    BlamesConcat(x + y, z, i);
    FindingsBlames(RequireResources, cs, 0, i);
    FindingsBlames(BlockLatestTag, cs, 0, i);
    FindingsBlames(RequireReadinessProbe, cs, 0, i);
  }

  // ---------- no field is named twice ----------

  predicate Same(f: Finding, g: Finding) {
    f.index == g.index && f.kind == g.kind
  }

  predicate Distinct(fs: seq<Finding>) {
    forall i, j :: 0 <= i < j < |fs| ==> !Same(fs[i], fs[j])
  }

  lemma DistinctConcat(a: seq<Finding>, b: seq<Finding>)
    requires Distinct(a) && Distinct(b)
    requires forall f, g | f in a && g in b :: !Same(f, g)
    ensures Distinct(a + b)
  {
    forall i, j | 0 <= i < j < |a + b| ensures !Same((a + b)[i], (a + b)[j]) {
      if i < |a| <= j {
        assert a[i] in a && b[j - |a|] in b;
      }
    }
  }

  lemma CheckDistinct(r: Rule, i: nat, c: Container)
    ensures Distinct(Check(r, i, c))
    ensures forall f | f in Check(r, i, c) :: RuleOf(f.kind) == r && f.index == i
  {}

  lemma {:induction false} FindingsDistinct(r: Rule, cs: seq<Container>, base: nat)
    ensures Distinct(Findings(r, cs, base))
    ensures forall f | f in Findings(r, cs, base) :: RuleOf(f.kind) == r && base <= f.index < base + |cs|
  {
    if cs == [] {
    } else {
      var x, y := Check(r, base, cs[0]), Findings(r, cs[1..], base + 1);
      FindingsDistinct(r, cs[1..], base + 1);
      FindingsCons(r, cs, base);
      CheckDistinct(r, base, cs[0]);
      DistinctConcat(x, y);
    }
  }

  lemma ReportDistinct(p: PolicySpec, cs: seq<Container>)
    ensures Distinct(Report(p, cs))
  {
    ReportBlocks(p, cs);
    var x := if p.requireResources then Findings(RequireResources, cs, 0) else [];
    var y := if p.blockLatestTag then Findings(BlockLatestTag, cs, 0) else [];
    var z := if p.requireReadinessProbe then Findings(RequireReadinessProbe, cs, 0) else [];
    FindingsDistinct(RequireResources, cs, 0);
    FindingsDistinct(BlockLatestTag, cs, 0);
    FindingsDistinct(RequireReadinessProbe, cs, 0);
    DistinctConcat(x, y);
    DistinctConcat(x + y, z);
  }

  lemma SameHead(head: string, a: string, b: string)
    requires head + a == head + b
    ensures a == b
  {
    assert (head + a)[|head|..] == a && (head + b)[|head|..] == b;
  }

  lemma SuffixHead(k: Kind)
    ensures Suffix(k) != [] && Suffix(k)[0] == ']'
  {}

  lemma HeadAndRest(s: string)
    requires s != [] && s[0] == ']'
    ensures s == [']'] + s[1..]
  {}

  lemma Tail(i: nat, k: Kind)
    ensures Field(i, k) == "spec.template.spec.containers[" + (Dec(i) + [']'] + Suffix(k)[1..])
  {
    SuffixHead(k);
    HeadAndRest(Suffix(k));
  }

  lemma SuffixInjective(k: Kind, l: Kind)
    ensures |Suffix(k)[1..]| == |Suffix(l)[1..]| ==> k == l
  {}

  /** The path names the container and the kind. */
  lemma FieldInjective(i: nat, k: Kind, j: nat, l: Kind)
    ensures Field(i, k) == Field(j, l) ==> i == j && k == l
  {
    if Field(i, k) == Field(j, l) {
      Tail(i, k);
      Tail(j, l);
      var x, y := Suffix(k)[1..], Suffix(l)[1..];
      SameHead("spec.template.spec.containers[", Dec(i) + [']'] + x, Dec(j) + [']'] + y);
      DecRoundTrip(i);
      DecRoundTrip(j);
      CutAtFirst(Dec(i), x, Dec(j), y, ']');
      SuffixInjective(k, l);
    }
  }

  /** All Field strings of one denial are pairwise distinct. */
  lemma FieldsDistinct(p: PolicySpec, cs: seq<Container>, t: Printable)
    ensures var vs := Violations(p, cs, t);
            forall i, j :: 0 <= i < j < |vs| ==> vs[i].field != vs[j].field
  {
    ReportDistinct(p, cs);
    var fs, vs := Report(p, cs), Violations(p, cs, t);
    forall i, j | 0 <= i < j < |vs| ensures vs[i].field != vs[j].field {
      FieldInjective(fs[i].index, fs[i].kind, fs[j].index, fs[j].kind);
      assert !Same(fs[i], fs[j]);
    }
  }

  // ---------- more rules, more violations ----------

  predicate Subsequence(a: seq<Finding>, b: seq<Finding>)
    decreases |b|
  {
    if a == [] then true
    else if b == [] then false
    else (a[0] == b[0] && Subsequence(a[1..], b[1..])) || Subsequence(a, b[1..])
  }

  lemma {:induction false} SubsequenceSelf(a: seq<Finding>)
    ensures Subsequence(a, a)
  {
    if a == [] {
    } else {
      SubsequenceSelf(a[1..]);
    }
  }

  lemma {:induction false} SubsequenceConcat(a: seq<Finding>, b: seq<Finding>, c: seq<Finding>, d: seq<Finding>)
    requires Subsequence(a, b) && Subsequence(c, d)
    ensures Subsequence(a + c, b + d)
    decreases |b|
  {
    if b == [] {
      assert a + c == c && b + d == d;
    } else {
      assert (b + d)[1..] == b[1..] + d;
      if a != [] && a[0] == b[0] && Subsequence(a[1..], b[1..]) {
        SubsequenceConcat(a[1..], b[1..], c, d);
        assert (a + c)[1..] == a[1..] + c;
      } else {
        SubsequenceConcat(a, b[1..], c, d);
      }
    }
  }

  lemma Block(on: bool, more: bool, fs: seq<Finding>)
    requires on ==> more
    ensures Subsequence(if on then fs else [], if more then fs else [])
  {
    SubsequenceSelf(fs);
  }

  predicate AtLeast(q: PolicySpec, p: PolicySpec) {
    forall r | r in ALL_RULES :: Enabled(p, r) ==> Enabled(q, r)
  }

  /** Enabling more rules keeps every finding, in the same order. */
  lemma MoreRulesMoreFindings(p: PolicySpec, q: PolicySpec, cs: seq<Container>)
    requires AtLeast(q, p)
    ensures Subsequence(Report(p, cs), Report(q, cs))
  {
    ReportBlocks(p, cs);
    ReportBlocks(q, cs);
    assert RequireResources in ALL_RULES && BlockLatestTag in ALL_RULES && RequireReadinessProbe in ALL_RULES;
    assert Enabled(p, RequireResources) ==> Enabled(q, RequireResources);
    assert Enabled(p, BlockLatestTag) ==> Enabled(q, BlockLatestTag);
    assert Enabled(p, RequireReadinessProbe) ==> Enabled(q, RequireReadinessProbe);
    var x, y := Findings(RequireResources, cs, 0), Findings(BlockLatestTag, cs, 0);
    var z := Findings(RequireReadinessProbe, cs, 0);
    Block(p.requireResources, q.requireResources, x);
    Block(p.blockLatestTag, q.blockLatestTag, y);
    Block(p.requireReadinessProbe, q.requireReadinessProbe, z);
    var xp, xq := if p.requireResources then x else [], if q.requireResources then x else [];
    var yp, yq := if p.blockLatestTag then y else [], if q.blockLatestTag then y else [];
    SubsequenceConcat(xp, xq, yp, yq);
    var zp, zq := if p.requireReadinessProbe then z else [], if q.requireReadinessProbe then z else [];
    SubsequenceConcat(xp + yp, xq + yq, zp, zq);
  }
}
