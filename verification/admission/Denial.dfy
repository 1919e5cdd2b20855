/** The denial message (internal/webhook/validate.go, formatViolations) and how to read it back. */
module Denial {
  import opened Api
  import opened Prelude
  import opened Text
  import opened Rules
  import opened Evaluator

  function Title(n: nat): string {
    "deployment rejected by DeployGuard (" + Dec(n) + " violation(s)):"
  }

  /** A line without its newline. */
  function Line(number: nat, v: Violation): string {
    "  " + (Dec(number) + ". [" + (v.field + "] " + v.message))
  }

  function Lines(vs: seq<Violation>, from: nat): (ls: seq<string>)
    ensures |ls| == |vs|
    ensures forall i :: 0 <= i < |ls| ==> ls[i] == Line(from + i, vs[i])
  {
    seq(|vs|, i requires 0 <= i < |vs| => Line(from + i, vs[i]))
  }

  /** Lines put together, each ended by a newline. */
  function Unlines(ls: seq<string>): string {
    if ls == [] then [] else Unlines(ls[..|ls| - 1]) + ls[|ls| - 1] + "\n"
  }

  /** The lines of a denial. */
  function AllLines(vs: seq<Violation>): seq<string> {
    [Title(|vs|)] + Lines(vs, 1)
  }

  /** The text of a denial. */
  function Formatted(vs: seq<Violation>): string {
    Unlines(AllLines(vs))
  }

  /** The text of the title and the first i lines. */
  function Begun(vs: seq<Violation>, i: nat): string
    requires i <= |vs|
  {
    Unlines([Title(|vs|)] + Lines(vs[..i], 1))
  }

  lemma UnlinesSnoc(ls: seq<string>, l: string)
    ensures Unlines(ls + [l]) == Unlines(ls) + (l + "\n")
  {
    assert (ls + [l])[..|ls|] == ls;
    assert Unlines(ls) + l + "\n" == Unlines(ls) + (l + "\n");
  }

  lemma TitleText(vs: seq<Violation>)
    ensures Begun(vs, 0) == Title(|vs|) + "\n"
  {
    var title := Title(|vs|);
    assert [title] + Lines(vs[..0], 1) == [] + [title];
    UnlinesSnoc([], title);
    assert Unlines([]) + (title + "\n") == title + "\n";
  }

  lemma LineText(number: nat, v: Violation)
    ensures "  " + Dec(number) + ". [" + v.field + "] " + v.message + "\n" == Line(number, v) + "\n"
  {}

  lemma OneLineMore(vs: seq<Violation>, i: nat)
    requires i < |vs|
    ensures Begun(vs, i + 1) == Begun(vs, i) + (Line(i + 1, vs[i]) + "\n")
  {
    var ls := [Title(|vs|)] + Lines(vs[..i], 1);
    assert [Title(|vs|)] + Lines(vs[..i + 1], 1) == ls + [Line(i + 1, vs[i])];
    UnlinesSnoc(ls, Line(i + 1, vs[i]));
  }

  /** formatViolations. */
  method FormatViolations(violations: seq<Violation>) returns (s: string)
    ensures s == Formatted(violations)
  {
    s := "deployment rejected by DeployGuard (" + Dec(|violations|) + " violation(s)):" + "\n";
    TitleText(violations);
    for i := 0 to |violations|
      invariant s == Begun(violations, i)
    {
      var v := violations[i];
      s := s + ("  " + Dec(i + 1) + ". [" + v.field + "] " + v.message + "\n");
      LineText(i + 1, v);
      OneLineMore(violations, i);
    }
    assert violations[..|violations|] == violations;
  }

  lemma FirstNumeral()
    ensures Dec(1) == "1"
  {}

  lemma TitleOfOne()
    ensures Title(1) + "\n" == "deployment rejected by DeployGuard (1 violation(s)):\n"
  {
    FirstNumeral();
  }

  lemma LineOfOne(v: Violation)
    ensures Line(1, v) + "\n" == "  1. [" + v.field + "] " + v.message + "\n"
  {
    FirstNumeral();
    assert Line(1, v) == "  " + ("1" + ". [" + (v.field + "] " + v.message));
  }

  /** A message with one violation, letter by letter. */
  lemma OneViolationText(v: Violation)
    ensures Formatted([v])
         == "deployment rejected by DeployGuard (1 violation(s)):\n" + ("  1. [" + v.field + "] " + v.message + "\n")
  {
    TitleText([v]);
    OneLineMore([v], 0);
    assert [v][..1] == [v];
    TitleOfOne();
    LineOfOne(v);
  }

  // ---------- reading it back ----------

  /** The place of the first c, or the length. */
  function IndexOf(s: string, c: char): (i: nat)
    ensures i <= |s|
    ensures i < |s| ==> s[i] == c
    ensures forall k :: 0 <= k < i ==> s[k] != c
  {
    if s == [] || s[0] == c then 0 else 1 + IndexOf(s[1..], c)
  }

  /** Cuts at every newline; the text after the last one is dropped. */
  function SplitLines(s: string): seq<string>
    decreases |s|
  {
    var i := IndexOf(s, '\n');
    if i == |s| then [] else [s[..i]] + SplitLines(s[i + 1..])
  }

  /** The place of the first "] ", or the length. */
  function FirstClose(s: string): (i: nat)
    ensures i <= |s|
  {
    if |s| < 2 then |s|
    else if s[0] == ']' && s[1] == ' ' then 0
    else 1 + FirstClose(s[1..])
  }

  /** Number, field and message of a line. */
  function ParseLine(l: string): Option<(nat, Violation)> {
    if |l| < 2 || l[..2] != "  " then None
    else
      var rest := l[2..];
      var dot := IndexOf(rest, '.');
      var digits := rest[..dot];
      if dot + 3 > |rest| || rest[dot..dot + 3] != ". [" || exists c :: c in digits && !IsDigit(c) then None
      else
        var body := rest[dot + 3..];
        var close := FirstClose(body);
        if close + 2 > |body| then None
        else Some((ParseDec(digits), Violation(body[..close], body[close + 2..])))
  }

  // ---------- it is inverted ----------

  /** A violation that formatViolations can print without ambiguity. */
  predicate Unambiguous(v: Violation) {
    && '\n' !in v.field && '\n' !in v.message
    && (forall k :: 0 <= k < |v.field| - 1 ==> !(v.field[k] == ']' && v.field[k + 1] == ' '))
  }

  lemma {:induction false} FirstCloseOf(field: string, message: string)
    requires forall k :: 0 <= k < |field| - 1 ==> !(field[k] == ']' && field[k + 1] == ' ')
    ensures FirstClose(field + "] " + message) == |field|
  {
    var s := field + "] " + message;
    if field == [] {
    } else {
      assert s[1..] == field[1..] + "] " + message;
      FirstCloseOf(field[1..], message);
      if |field| == 1 {
        assert s[1] == ']';
      } else {
        assert s[1] == field[1];
      }
    }
  }

  lemma IndexOfPrefix(a: string, c: char, b: string)
    requires c !in a
    ensures IndexOf(a + [c] + b, c) == |a|
  {
    var s := a + [c] + b;
    assert s[|a|] == c;
    assert forall k :: 0 <= k < |a| ==> s[k] == a[k];
  }

  lemma CutAtDot(digits: string, body: string)
    requires forall c | c in digits :: IsDigit(c)
    ensures var rest := digits + ". [" + body;
            var dot := IndexOf(rest, '.');
            && dot + 3 <= |rest| && rest[..dot] == digits && rest[dot..dot + 3] == ". [" && rest[dot + 3..] == body
  {
    var rest := digits + ". [" + body;
    assert rest == digits + ['.'] + (" [" + body);
    IndexOfPrefix(digits, '.', " [" + body);
    assert rest[..|digits|] == digits;
    assert rest[|digits|..|digits| + 3] == ". [";
    assert rest[|digits| + 3..] == body;
  }

  lemma CutAtClose(v: Violation)
    requires Unambiguous(v)
    ensures var body := v.field + "] " + v.message;
            var close := FirstClose(body);
            close + 2 <= |body| && body[..close] == v.field && body[close + 2..] == v.message
  {
    FirstCloseOf(v.field, v.message);
  }

  /** A line gives back its number, field and message. */
  lemma LineRoundTrip(number: nat, v: Violation)
    requires Unambiguous(v)
    ensures ParseLine(Line(number, v)) == Some((number, v))
  {
    var body := v.field + "] " + v.message;
    var rest := Dec(number) + ". [" + body;
    var l := Line(number, v);
    assert l == "  " + rest;
    assert l[..2] == "  " && l[2..] == rest;
    DecRoundTrip(number);
    CutAtDot(Dec(number), body);
    CutAtClose(v);
  }

  lemma SplitAppend(l: string, s: string)
    requires '\n' !in l
    ensures SplitLines(l + "\n" + s) == [l] + SplitLines(s)
  {
    IndexOfPrefix(l, '\n', s);
    var t := l + ['\n'] + s;
    assert t[..|l|] == l && t[|l| + 1..] == s;
  }

  lemma {:induction false} UnlinesCons(ls: seq<string>)
    requires ls != []
    ensures Unlines(ls) == ls[0] + "\n" + Unlines(ls[1..])
    decreases |ls|
  {
    if |ls| == 1 {
      assert ls[..0] == [];
      assert Unlines(ls) == [] + ls[0] + "\n";
    } else {
      var init, last := ls[..|ls| - 1], ls[|ls| - 1];
      UnlinesCons(init);
      assert ls[1..][..|ls| - 2] == init[1..];
      assert Unlines(ls) == (init[0] + "\n" + Unlines(init[1..])) + last + "\n";
      assert Unlines(ls[1..]) == Unlines(init[1..]) + last + "\n";
    }
  }

  lemma {:induction false} SplitUnlines(ls: seq<string>)
    requires forall l | l in ls :: '\n' !in l
    ensures SplitLines(Unlines(ls)) == ls
    decreases |ls|
  {
    if ls == [] {
    } else {
      UnlinesCons(ls);
      assert ls[0] in ls;
      SplitAppend(ls[0], Unlines(ls[1..]));
      assert forall l | l in ls[1..] :: l in ls;
      SplitUnlines(ls[1..]);
      assert [ls[0]] + ls[1..] == ls;
    }
  }

  /** The number between a given beginning and a given end. */
  function ReadBetween(s: string, head: string, tail: string): Option<nat> {
    if |s| < |head| || s[..|head|] != head then None
    else
      var rest := s[|head|..];
      var i := IndexOf(rest, ' ');
      var digits := rest[..i];
      if rest[i..] != tail || exists c :: c in digits && !IsDigit(c) then None else Some(ParseDec(digits))
  }

  lemma BetweenRoundTrip(head: string, n: nat, tail: string)
    requires tail != [] && tail[0] == ' '
    ensures ReadBetween(head + Dec(n) + tail, head, tail) == Some(n)
  {
    var s, rest := head + Dec(n) + tail, Dec(n) + tail;
    assert s[..|head|] == head && s[|head|..] == rest;
    DecRoundTrip(n);
    assert rest == Dec(n) + [' '] + tail[1..];
    IndexOfPrefix(Dec(n), ' ', tail[1..]);
    assert rest[..|Dec(n)|] == Dec(n) && rest[|Dec(n)|..] == tail;
  }

  /** The number of violations that a title announces. */
  function ReadTitle(s: string): Option<nat> {
    ReadBetween(s, "deployment rejected by DeployGuard (", " violation(s)):")
  }

  lemma TitleRoundTrip(n: nat)
    ensures ReadTitle(Title(n)) == Some(n)
  {
    BetweenRoundTrip("deployment rejected by DeployGuard (", n, " violation(s)):");
  }

  /** 1 + n lines: the title, which says so, then line i with number i and the i-th violation. */
  predicate ReadsBack(ls: seq<string>, vs: seq<Violation>) {
    && |ls| == 1 + |vs|
    && ReadTitle(ls[0]) == Some(|vs|)
    && forall i :: 1 <= i <= |vs| ==> ParseLine(ls[i]) == Some((i, vs[i - 1]))
  }

  lemma LineAt(vs: seq<Violation>, i: nat)
    requires 1 <= i <= |vs| && forall v | v in vs :: Unambiguous(v)
    ensures ParseLine(AllLines(vs)[i]) == Some((i, vs[i - 1]))
  {
    var v, ls := vs[i - 1], Lines(vs, 1);
    assert v in vs;
    LineRoundTrip(i, v);
    assert AllLines(vs)[i] == ls[i - 1] && ls[i - 1] == Line(i, v);
  }

  lemma LinesReadBack(vs: seq<Violation>)
    requires forall v | v in vs :: Unambiguous(v)
    ensures ReadsBack(AllLines(vs), vs)
  {
    TitleRoundTrip(|vs|);
    forall i | 1 <= i <= |vs| ensures ParseLine(AllLines(vs)[i]) == Some((i, vs[i - 1])) {
      LineAt(vs, i);
    }
  }

  lemma TitleIsOneLine(n: nat)
    ensures '\n' !in Title(n)
  {}

  lemma LineIsOneLine(number: nat, v: Violation)
    requires Unambiguous(v)
    ensures '\n' !in Line(number, v)
  {}

  lemma AllLinesAreOneLine(vs: seq<Violation>)
    requires forall v | v in vs :: Unambiguous(v)
    ensures forall l | l in AllLines(vs) :: '\n' !in l
  {
    var ls := AllLines(vs);
    TitleIsOneLine(|vs|);
    forall i | 0 <= i < |ls| ensures '\n' !in ls[i] {
      if i > 0 {
        assert vs[i - 1] in vs;
        LineIsOneLine(i, vs[i - 1]);
        assert ls[i] == Line(i, vs[i - 1]);
      }
    }
  }

  /** A message of unambiguous violations gives them back. */
  lemma FormatRoundTrip(vs: seq<Violation>)
    requires forall v | v in vs :: Unambiguous(v)
    ensures ReadsBack(SplitLines(Formatted(vs)), vs)
  {
    AllLinesAreOneLine(vs);
    SplitUnlines(AllLines(vs));
    LinesReadBack(vs);
  }

  // ---------- what Evaluate returns can be printed ----------

  predicate OneLine(s: string) {
    '\n' !in s
  }

  lemma Then(a: string, b: string)
    requires OneLine(a) && OneLine(b)
    ensures OneLine(a + b)
  {}

  // The fixed parts of the messages.

  lemma NameText()
    ensures OneLine("container ")
  {}

  lemma UsesText()
    ensures OneLine(" uses image ")
  {}

  lemma UntaggedText()
    ensures OneLine(" \U{2014} tag ':latest' or untagged")
  {}

  lemma NotAllowedText()
    ensures OneLine(" images are not allowed;")
  {}

  lemma ExplicitText()
    ensures OneLine(" use an explicit tag or digest")
  {}

  lemma ProbeText()
    ensures OneLine(" must have a readinessProbe")
  {}

  lemma StartupText()
    ensures OneLine(" defined to prevent traffic during startup")
  {}

  lemma RequestsText()
    ensures OneLine(" must have resources.requests defined")
  {}

  lemma CpuText()
    ensures OneLine(" must have resources.requests.cpu defined")
  {}

  lemma MemoryText()
    ensures OneLine(" must have resources.requests.memory defined")
  {}

  lemma NamesContainer(c: Container, t: Printable)
    ensures OneLine("container " + Quote(c.name, t))
  {
    QuoteIsOneLine(c.name, t);
    NameText();
    Then("container ", Quote(c.name, t));
  }

  lemma NamesImage(c: Container, t: Printable)
    ensures OneLine("container " + Quote(c.name, t) + " uses image " + Quote(c.image, t))
  {
    NamesContainer(c, t);
    QuoteIsOneLine(c.image, t);
    UsesText();
    var s := "container " + Quote(c.name, t);
    Then(s, " uses image ");
    Then(s + " uses image ", Quote(c.image, t));
  }

  lemma ImageMessage(c: Container, t: Printable)
    ensures OneLine(Message(Image, c, t))
  {
    var s := "container " + Quote(c.name, t) + " uses image " + Quote(c.image, t);
    NamesImage(c, t);
    UntaggedText();
    NotAllowedText();
    ExplicitText();
    Then(s, " \U{2014} tag ':latest' or untagged");
    Then(s + " \U{2014} tag ':latest' or untagged", " images are not allowed;");
    Then(s + " \U{2014} tag ':latest' or untagged" + " images are not allowed;", " use an explicit tag or digest");
  }

  lemma ProbeMessage(c: Container, t: Printable)
    ensures OneLine(Message(Probe, c, t))
  {
    var s := "container " + Quote(c.name, t);
    NamesContainer(c, t);
    ProbeText();
    StartupText();
    Then(s, " must have a readinessProbe");
    Then(s + " must have a readinessProbe", " defined to prevent traffic during startup");
  }

  lemma RequestsMessage(c: Container, t: Printable)
    ensures OneLine(Message(Requests, c, t))
  {
    NamesContainer(c, t);
    RequestsText();
    Then("container " + Quote(c.name, t), " must have resources.requests defined");
  }

  lemma CpuMessage(c: Container, t: Printable)
    ensures OneLine(Message(Cpu, c, t))
  {
    NamesContainer(c, t);
    CpuText();
    Then("container " + Quote(c.name, t), " must have resources.requests.cpu defined");
  }

  lemma MemoryMessage(c: Container, t: Printable)
    ensures OneLine(Message(Memory, c, t))
  {
    NamesContainer(c, t);
    MemoryText();
    Then("container " + Quote(c.name, t), " must have resources.requests.memory defined");
  }

  lemma MessageIsOneLine(k: Kind, c: Container, t: Printable)
    ensures OneLine(Message(k, c, t))
  {
    match k {
      case Image => ImageMessage(c, t);
      case Probe => ProbeMessage(c, t);
      case Requests => RequestsMessage(c, t);
      case Cpu => CpuMessage(c, t);
      case Memory => MemoryMessage(c, t);
    }
  }

  predicate NoSpace(s: string) {
    '\n' !in s && ' ' !in s
  }

  lemma Join(a: string, b: string, c: string)
    requires NoSpace(a) && NoSpace(b) && NoSpace(c)
    ensures NoSpace(a + b + c)
  {}

  lemma SuffixHasNoSpace(k: Kind)
    ensures NoSpace(Suffix(k))
  {}

  /** There is no space in a field, so no "] " either. */
  lemma FieldIsPrintable(i: nat, k: Kind)
    ensures NoSpace(Field(i, k))
  {
    DecRoundTrip(i);
    SuffixHasNoSpace(k);
    Join("spec.template.spec.containers[", Dec(i), Suffix(k));
  }

  lemma RenderIsPrintable(f: Finding, t: Printable)
    ensures Unambiguous(Render(f, t))
  {
    MessageIsOneLine(f.kind, f.container, t);
    FieldIsPrintable(f.index, f.kind);
    var s := Field(f.index, f.kind);
    assert forall j :: 0 <= j < |s| ==> s[j] in s;
  }

  /**
   * For every policy and every Deployment, whatever its names and images contain, the denial
   * gives back exactly the violations found.
   */
  lemma DenialRoundTrip(p: PolicySpec, cs: seq<Container>, t: Printable)
    ensures var vs := Violations(p, cs, t); ReadsBack(SplitLines(Formatted(vs)), vs)
  {
    var fs, vs := Report(p, cs), Violations(p, cs, t);
    forall v | v in vs ensures Unambiguous(v) {
      var i :| 0 <= i < |vs| && vs[i] == v;
      RenderIsPrintable(fs[i], t);
    }
    FormatRoundTrip(vs);
  }
}
