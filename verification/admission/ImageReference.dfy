/**
 * internal/rules/block_latest_tag.go, isLatestOrUntagged, against the grammar of image
 * references.
 */
module ImageReference {
  import opened Prelude
  import opened Text

  /** strings.LastIndex for one character: -1 if there is none. */
  function LastIndex(s: string, c: char): (i: int)
    ensures -1 <= i < |s|
    ensures i >= 0 ==> s[i] == c
    ensures forall k :: i < k < |s| ==> s[k] != c
  {
    if s == [] then -1
    else if s[|s| - 1] == c then |s| - 1
    else LastIndex(s[..|s| - 1], c)
  }

  /** What follows the last slash. */
  function NameAndTag(image: string): string {
    var lastSlash := LastIndex(image, '/');
    if lastSlash >= 0 then image[lastSlash + 1..] else image
  }

  predicate NoTagOrLatest(nameAndTag: string) {
    var colon := LastIndex(nameAndTag, ':');
    if colon < 0 then true
    else
      var tag := nameAndTag[colon + 1..];
      tag == "" || tag == "latest"
  }

  predicate IsLatestOrUntagged(image: string) {
    if '@' in image then false else NoTagOrLatest(NameAndTag(image))
  }

  // ---------- the scanner on any string ----------

  lemma {:induction false} LastIndexConcat(q: string, s: string, c: char)
    ensures LastIndex(q + s, c) == if LastIndex(s, c) >= 0 then |q| + LastIndex(s, c) else LastIndex(q, c)
    decreases |s|
  {
    if s == [] {
      assert q + s == q;
    } else if s[|s| - 1] != c {
      LastIndexConcat(q, s[..|s| - 1], c);
      assert (q + s)[..|q + s| - 1] == q + s[..|s| - 1];
    }
  }

  lemma Tail(q: string, s: string, i: nat)
    requires i <= |s|
    ensures (q + s)[|q| + i..] == s[i..]
  {}

  lemma NameAndTagAfterSlash(p: string, s: string)
    ensures NameAndTag(p + "/" + s) == NameAndTag(s)
  {
    var q := p + "/";
    assert LastIndex(q, '/') == |p|;
    LastIndexConcat(q, s, '/');
    Tail(q, s, LastIndex(s, '/') + 1);
  }

  /** A registry or any other prefix up to a slash does not matter. */
  lemma PrefixIsIrrelevant(p: string, s: string)
    requires '@' !in p
    ensures IsLatestOrUntagged(p + "/" + s) == IsLatestOrUntagged(s)
  {
    NameAndTagAfterSlash(p, s);
  }

  /** A last segment cut at its last colon. */
  lemma TaggedSegment(name: string, tag: string)
    requires ':' !in tag
    ensures NoTagOrLatest(name + ":" + tag) <==> tag == "" || tag == "latest"
  {
    var q := name + ":";
    assert LastIndex(q, ':') == |name|;
    assert LastIndex(tag, ':') == -1;
    LastIndexConcat(q, tag, ':');
    Tail(q, tag, 0);
  }

  lemma BareSegment(name: string)
    requires ':' !in name
    ensures NoTagOrLatest(name)
  {}

  lemma OneSegment(name: string)
    requires '/' !in name && '@' !in name
    ensures IsLatestOrUntagged(name) == NoTagOrLatest(name)
  {}

  /** A segment with no colon, or that ends in a bare colon or in ":latest". */
  ghost predicate Untagged(segment: string) {
    ':' !in segment || (exists x :: segment == x + ":") || (exists x :: segment == x + ":latest")
  }

  lemma EndsBare(x: string)
    ensures NoTagOrLatest(x + ":")
  {
    assert x + ":" == x + ":" + "";
    TaggedSegment(x, "");
  }

  lemma EndsLatest(x: string)
    ensures NoTagOrLatest(x + ":latest")
  {
    assert x + ":latest" == x + ":" + "latest";
    TaggedSegment(x, "latest");
  }

  lemma CutAtColon(segment: string)
    requires NoTagOrLatest(segment) && ':' in segment
    ensures Untagged(segment)
  {
    var j := LastIndex(segment, ':');
    var x, tag := segment[..j], segment[j + 1..];
    if tag == "" {
      assert segment == x + ":";
    } else {
      assert segment == x + ":" + tag;
      assert segment == x + ":latest";
    }
  }

  lemma NoTagOrLatestIff(segment: string)
    ensures NoTagOrLatest(segment) <==> Untagged(segment)
  {
    if NoTagOrLatest(segment) && ':' in segment {
      CutAtColon(segment);
    }
    if x :| segment == x + ":" {
      EndsBare(x);
    }
    if x :| segment == x + ":latest" {
      EndsLatest(x);
    }
  }

  /** An image without a digest whose last segment is untagged. */
  ghost predicate Rejected(dir: string, segment: string) {
    && '@' !in dir && '@' !in segment && '/' !in segment
    && (dir == "" || dir[|dir| - 1] == '/')
    && Untagged(segment)
  }

  lemma RejectedIsBlocked(dir: string, segment: string)
    requires Rejected(dir, segment)
    ensures IsLatestOrUntagged(dir + segment)
  {
    NoTagOrLatestIff(segment);
    OneSegment(segment);
    if dir == "" {
      assert dir + segment == segment;
    } else {
      var p := dir[..|dir| - 1];
      assert dir + segment == p + "/" + segment;
      PrefixIsIrrelevant(p, segment);
    }
  }

  /** s, cut at i, is a directory part and an untagged segment. */
  ghost predicate RejectedAt(s: string, i: nat) {
    i <= |s| && Rejected(s[..i], s[i..])
  }

  lemma BlockedIsRejected(s: string)
    requires IsLatestOrUntagged(s)
    ensures RejectedAt(s, LastIndex(s, '/') + 1)
  {
    NoTagOrLatestIff(NameAndTag(s));
  }

  /** Which strings are blocked, without any scanning. */
  lemma BlockedIff(s: string)
    ensures IsLatestOrUntagged(s) <==> exists i :: RejectedAt(s, i)
  {
    forall i: nat | RejectedAt(s, i) ensures IsLatestOrUntagged(s) {
      RejectedIsBlocked(s[..i], s[i..]);
      assert s[..i] + s[i..] == s;
    }
    if IsLatestOrUntagged(s) {
      BlockedIsRejected(s);
    }
  }

  // ---------- the grammar ----------

  datatype Host = Host(name: string, port: Option<nat>)

  datatype Reference = Reference(host: Option<Host>, path: seq<string>, tag: Option<string>, digest: Option<string>)

  predicate Alphanumeric(c: char) {
    'a' <= c <= 'z' || 'A' <= c <= 'Z' || '0' <= c <= '9'
  }

  predicate HostChar(c: char) {
    Alphanumeric(c) || c in ".-[]:"
  }

  predicate PathChar(c: char) {
    'a' <= c <= 'z' || '0' <= c <= '9' || c in "._-"
  }

  predicate TagChar(c: char) {
    Alphanumeric(c) || c in "_.-"
  }

  predicate DigestChar(c: char) {
    Alphanumeric(c) || c in "=_:+.-"
  }

  /** The tag grammar of the OCI Distribution Specification, section "Pulling manifests". */
  predicate ValidTag(tag: string) {
    && 1 <= |tag| <= 128
    && (Alphanumeric(tag[0]) || tag[0] == '_')
    && forall c | c in tag :: TagChar(c)
  }

  predicate PathPart(p: string) {
    forall c | c in p :: PathChar(c)
  }

  predicate ValidReference(r: Reference) {
    && (r.host.Some? ==> r.host.value.name != "" && forall c | c in r.host.value.name :: HostChar(c))
    && r.path != []
    && (forall p | p in r.path :: p != "" && PathPart(p))
    && (r.tag.Some? ==> ValidTag(r.tag.value))
    && (r.digest.Some? ==> r.digest.value != "" && forall c | c in r.digest.value :: DigestChar(c))
  }

  function PrintPath(path: seq<string>): string
    requires path != []
  {
    if |path| == 1 then path[0] else PrintPath(path[..|path| - 1]) + "/" + path[|path| - 1]
  }

  function PrintHost(h: Host): string {
    h.name + (if h.port.Some? then ":" + Dec(h.port.value) else "") + "/"
  }

  function HostText(host: Option<Host>): string {
    if host.Some? then PrintHost(host.value) else ""
  }

  function TagText(tag: Option<string>): string {
    if tag.Some? then ":" + tag.value else ""
  }

  function DigestText(digest: Option<string>): string {
    if digest.Some? then "@" + digest.value else ""
  }

  function Print(r: Reference): string
    requires r.path != []
  {
    HostText(r.host) + PrintPath(r.path) + TagText(r.tag) + DigestText(r.digest)
  }

  lemma Reassociate(a: string, b: string, c: string, d: string)
    ensures a + b + c + d == a + b + (c + d)
  {}

  lemma NoAt(path: seq<string>)
    requires forall p | p in path :: PathPart(p)
    ensures forall i :: 0 <= i < |path| ==> '@' !in path[i]
  {
    forall i | 0 <= i < |path| ensures '@' !in path[i] {
      assert path[i] in path && PathPart(path[i]);
    }
  }

  lemma {:induction false} NoAtInPath(path: seq<string>)
    requires path != [] && forall i :: 0 <= i < |path| ==> '@' !in path[i]
    ensures '@' !in PrintPath(path)
    decreases |path|
  {
    if |path| == 1 {
    } else {
      NoAtInPath(path[..|path| - 1]);
    }
  }

  /** Only the last component and what follows it count. */
  lemma PathVerdict(path: seq<string>, end: string)
    requires path != [] && forall p | p in path :: PathPart(p)
    ensures IsLatestOrUntagged(PrintPath(path) + end) == IsLatestOrUntagged(path[|path| - 1] + end)
  {
    if |path| > 1 {
      var dir, last := PrintPath(path[..|path| - 1]), path[|path| - 1];
      NoAt(path);
      NoAtInPath(path[..|path| - 1]);
      Reassociate(dir, "/", last, end);
      PrefixIsIrrelevant(dir, last + end);
    }
  }

  lemma HostVerdict(r: Reference, rest: string)
    requires ValidReference(r)
    ensures IsLatestOrUntagged(HostText(r.host) + rest) == IsLatestOrUntagged(rest)
  {
    if r.host.Some? {
      var h := r.host.value;
      var authority := h.name + (if h.port.Some? then ":" + Dec(h.port.value) else "");
      assert PrintHost(h) + rest == authority + "/" + rest;
      PrefixIsIrrelevant(authority, rest);
    } else {
      assert "" + rest == rest;
    }
  }

  lemma LastVerdict(last: string, tag: Option<string>)
    requires PathPart(last)
    requires tag.Some? ==> ValidTag(tag.value)
    ensures IsLatestOrUntagged(last + TagText(tag)) <==> tag.None? || tag.value == "latest"
  {
    if tag.Some? {
      var s := last + ":" + tag.value;
      assert last + (":" + tag.value) == s;
      TaggedSegment(last, tag.value);
      OneSegment(s);
    } else {
      assert last + "" == last;
      BareSegment(last);
      OneSegment(last);
    }
  }

  lemma DigestVerdict(r: Reference)
    requires r.path != [] && r.digest.Some?
    ensures !IsLatestOrUntagged(Print(r))
  {
    var rest := HostText(r.host) + PrintPath(r.path) + TagText(r.tag);
    assert Print(r) == rest + ("@" + r.digest.value);
    assert Print(r)[|rest|] == '@';
  }

  lemma WithoutDigest(a: string, b: string, c: string)
    ensures a + b + c + "" == a + (b + c)
  {}

  lemma PathParts(r: Reference)
    requires ValidReference(r)
    ensures (forall p | p in r.path :: PathPart(p)) && PathPart(r.path[|r.path| - 1])
  {
    assert r.path[|r.path| - 1] in r.path;
  }

  lemma TagVerdict(r: Reference)
    requires ValidReference(r) && r.digest.None?
    ensures IsLatestOrUntagged(Print(r)) <==> r.tag.None? || r.tag.value == "latest"
  {
    var path, tag, last := PrintPath(r.path), TagText(r.tag), r.path[|r.path| - 1];
    WithoutDigest(HostText(r.host), path, tag);
    HostVerdict(r, path + tag);
    PathParts(r);
    PathVerdict(r.path, tag);
    LastVerdict(last, r.tag);
  }

  /**
   * Every printed reference is blocked exactly when it has no digest and its tag is absent
   * or "latest"; so a registry port is never taken for a tag.
   */
  lemma VerdictOnReferences(r: Reference)
    requires ValidReference(r)
    ensures IsLatestOrUntagged(Print(r)) <==> r.digest.None? && (r.tag.None? || r.tag.value == "latest")
  {
    if r.digest.Some? {
      DigestVerdict(r);
    } else {
      TagVerdict(r);
    }
  }
}
