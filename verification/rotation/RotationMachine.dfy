/**
 * The certificate rotator (internal/certrotator/rotator.go) and its surroundings as a
 * small-step machine.
 *
 * One label is one atomic event: a client call or a file operation of the rotator that
 * succeeds or fails, a crash, or a move of somebody else (another controller that writes
 * the webhook configuration, an operator that deletes the Secret, the clock).  Given the
 * label, Next is a function, so a run is its list of labels.
 *
 * Every key pair carries the number of the generateCert call that made it.  The number
 * stands for the key: no decision of the code reads it.
 */
module RotationMachine {
  import opened Prelude

  /**
   * What a PEM blob decodes to.  Empty and Junk do not decode.  The clock counts nanoseconds,
   * but a certificate holds its two dates in whole seconds.
   */
  datatype Blob =
    | Empty
    | Junk
    | Cert(gen: nat, notBefore: int, notAfter: int)
    | Key(gen: nat)

  /** The three entries of the Secret: tls.crt, tls.key and ca.crt. */
  datatype Material = Material(crt: Blob, key: Blob, ca: Blob)

  /** A caBundle as written by the rotator, or anything somebody else put there. */
  datatype Bundle = Ours(ca: Blob) | Foreign(id: int)

  /** One entry of the webhook list; rest stands for all its other fields. */
  datatype Hook = Hook(bundle: Bundle, rest: int)

  /** A ValidatingWebhookConfiguration; meta stands for everything outside the list. */
  datatype Config = Config(hooks: seq<Hook>, meta: int)

  /** How long a certificate is valid, and how much of that must be left. */
  datatype Terms = Terms(lifetime: nat, threshold: nat)

  /** Which of the two entry points is running. */
  datatype Op = Ensure | Rotate

  /** The next thing the rotator does, with the local variables it still needs. */
  datatype Pc =
    | Down
    | Idle
    | Load(op: Op)
    | Check(m: Material)
    | Generate(op: Op)
    | SaveGet(op: Op, m: Material)
    | SavePut(op: Op, m: Material, found: bool)
    | MakeDir(op: Op, m: Material)
    | CrtTrunc(op: Op, m: Material)
    | CrtFill(op: Op, m: Material)
    | KeyTrunc(op: Op, m: Material)
    | KeyFill(op: Op, m: Material)
    | HookGet(op: Op, m: Material)
    | HookPut(op: Op, m: Material, seen: nat)

  /**
   * The stores and the rotator.  config is the stored webhook configuration and past lists
   * its former versions; the resourceVersion of a version is its place in past + [config].
   * terms never changes.
   */
  datatype Machine = Machine(
    secret: Option<Material>,
    crt: Option<Blob>,
    key: Option<Blob>,
    past: seq<Option<Config>>,
    config: Option<Config>,
    pc: Pc,
    now: int,
    nextGen: nat,
    terms: Terms)

  datatype Label =
    | Boot
    | Tick
    | Stop
    | Do
    | Stale(seen: nat)
    | Fail
    | Partial
    | Crash(loseDisk: bool)
    | Overwrite(config: Option<Config>)
    | DropSecret
    | Elapse(dt: nat)

  const SECOND: nat := 1_000_000_000
  const DAY: nat := 24 * 60 * 60 * SECOND
  const LIFETIME: nat := 365 * DAY
  const THRESHOLD: nat := 30 * DAY

  /** The terms of the code: 365 days, of which 30 must be left. */
  const CODE := Terms(LIFETIME, THRESHOLD)

  // ---------- what the rotator does at each program point ----------

  /** A failed Start ends the process; a failed rotation is logged and the loop goes on. */
  function GiveUp(op: Op): Pc {
    if op.Ensure? then Down else Idle
  }

  /** The key pair of one generateCert call; the CA certificate is the server certificate. */
  function Fresh(gen: nat, now: int, lifetime: nat): Material {
    var crt := Cert(gen, now / SECOND, (now + lifetime) / SECOND);
    Material(crt, Key(gen), crt)
  }

  /** The time that a certificate has left. */
  function Left(crt: Blob, now: int): int
    requires crt.Cert?
  {
    crt.notAfter * SECOND - now
  }

  /** Whether rotateIfNeeded regenerates: unparsable, or less than the threshold left. */
  predicate Due(crt: Blob, now: int, threshold: nat) {
    !crt.Cert? || Left(crt, now) < threshold
  }

  function WithBundle(hooks: seq<Hook>, ca: Blob): (r: seq<Hook>)
    ensures |r| == |hooks|
    ensures forall i :: 0 <= i < |r| ==> r[i].bundle == Ours(ca) && r[i].rest == hooks[i].rest
  {
    seq(|hooks|, i requires 0 <= i < |hooks| => hooks[i].(bundle := Ours(ca)))
  }

  /** All versions of the configuration, the stored one last. */
  function Versions(s: Machine): (vs: seq<Option<Config>>)
    ensures |vs| == |s.past| + 1
  {
    s.past + [s.config]
  }

  /** A write to the configuration; one that changes nothing creates no new version. */
  function Put(s: Machine, c: Option<Config>): Machine {
    if s.config == c then s else s.(past := Versions(s), config := c)
  }

  /** The Get of the configuration; a cached client may answer with any older version. */
  function ReadConfig(s: Machine, op: Op, m: Material, seen: nat): Machine
    requires seen <= |s.past|
  {
    s.(pc := if Versions(s)[seen].Some? then HookPut(op, m, seen) else GiveUp(op))
  }

  /** A step of the rotator that succeeds; a local decision counts as one. */
  function Succeed(s: Machine): Option<Machine> {
    match s.pc
    case Down => None
    case Idle => None
    case Load(op) =>
      Some(s.(pc := match s.secret
                    case None => Generate(op)
                    case Some(m) => if op.Ensure? then MakeDir(op, m) else Check(m)))
    case Check(m) => Some(s.(pc := if Due(m.crt, s.now, s.terms.threshold) then Generate(Rotate) else Idle))
    case Generate(op) =>
      Some(s.(pc := SaveGet(op, Fresh(s.nextGen, s.now, s.terms.lifetime)), nextGen := s.nextGen + 1))
    case SaveGet(op, m) => Some(s.(pc := SavePut(op, m, s.secret.Some?)))
    case SavePut(op, m, found) =>
      // Update needs the Secret to exist, Create needs it not to
      if found == s.secret.Some? then Some(s.(pc := MakeDir(op, m), secret := Some(m)))
      else Some(s.(pc := GiveUp(op)))
    case MakeDir(op, m) => Some(s.(pc := CrtTrunc(op, m)))
    case CrtTrunc(op, m) => Some(s.(pc := CrtFill(op, m), crt := Some(Empty)))
    case CrtFill(op, m) => Some(s.(pc := KeyTrunc(op, m), crt := Some(m.crt)))
    case KeyTrunc(op, m) => Some(s.(pc := KeyFill(op, m), key := Some(Empty)))
    case KeyFill(op, m) => Some(s.(pc := HookGet(op, m), key := Some(m.key)))
    case HookGet(op, m) => Some(ReadConfig(s, op, m, |s.past|))
    case HookPut(op, m, seen) =>
      // the whole object read as version seen is sent; only the stored version may be replaced
      if seen == |s.past| && Versions(s)[seen].Some? then
        var c := Versions(s)[seen].value;
        Some(Put(s.(pc := Idle), Some(c.(hooks := WithBundle(c.hooks, m.ca)))))
      else Some(s.(pc := GiveUp(op)))
  }

  /** Program points whose step is a call that may return an error. */
  predicate CanRefuse(pc: Pc) {
    !pc.Down? && !pc.Idle? && !pc.Check?
  }

  /** Where an error of the step leads: a failed Get of the Secret reads as "there is none". */
  function RefusalOf(pc: Pc): Pc
    requires CanRefuse(pc)
  {
    if pc.Load? then Generate(pc.op)
    else if pc.SaveGet? then SavePut(pc.op, pc.m, false)
    else GiveUp(pc.op)
  }

  /** A step of the rotator that returns an error without having changed a store. */
  function Refuse(s: Machine): Option<Machine> {
    if CanRefuse(s.pc) then Some(s.(pc := RefusalOf(s.pc))) else None
  }

  /** The bundles of one version, and of every version there ever was. */
  function HookBundles(c: Option<Config>): set<Bundle> {
    if c.None? then {} else set h | h in c.value.hooks :: h.bundle
  }

  function Bundles(s: Machine): set<Bundle> {
    set c, b | c in Versions(s) && b in HookBundles(c) :: b
  }

  /** Another writer may not invent a bundle of ours: it can only keep or put back stored ones. */
  predicate Keeps(s: Machine, c: Option<Config>) {
    forall b | b in HookBundles(c) && b.Ours? :: b in Bundles(s)
  }

  function Next(s: Machine, l: Label): Option<Machine> {
    match l
    case Boot => if s.pc.Down? then Some(s.(pc := Load(Ensure))) else None
    case Tick => if s.pc.Idle? then Some(s.(pc := Load(Rotate))) else None
    case Stop => if s.pc.Idle? then Some(s.(pc := Down)) else None
    case Do => Succeed(s)
    case Stale(seen) =>
      if s.pc.HookGet? && seen <= |s.past| then Some(ReadConfig(s, s.pc.op, s.pc.m, seen)) else None
    case Fail => Refuse(s)
    case Partial =>
      // os.WriteFile has written some of the bytes
      if s.pc.CrtFill? then Some(s.(crt := Some(Junk)))
      else if s.pc.KeyFill? then Some(s.(key := Some(Junk)))
      else None
    case Crash(loseDisk) =>
      Some(if loseDisk then s.(pc := Down, crt := None, key := None) else s.(pc := Down))
    case Overwrite(c) =>
      if Keeps(s, c) then Some(Put(s, c)) else None
    case DropSecret => Some(s.(secret := None))
    case Elapse(dt) => Some(s.(now := s.now + dt))
  }

  lemma TermsKept(s: Machine, l: Label)
    requires Next(s, l).Some?
    ensures Next(s, l).value.terms == s.terms
  {}

  // ---------- runs ----------

  /** The state a list of labels leads to, or None if one of them was not enabled. */
  function Exec(s: Machine, ls: seq<Label>): Option<Machine> {
    if ls == [] then Some(s)
    else
      match Exec(s, ls[..|ls| - 1])
      case None => None
      case Some(t) => Next(t, ls[|ls| - 1])
  }

  lemma ExecSnoc(s: Machine, ls: seq<Label>, l: Label)
    requires Exec(s, ls).Some?
    ensures Exec(s, ls + [l]) == Next(Exec(s, ls).value, l)
  {
    assert (ls + [l])[..|ls|] == ls;
  }

  lemma {:induction false} ExecConcat(s: Machine, a: seq<Label>, b: seq<Label>)
    ensures Exec(s, a + b) == (match Exec(s, a) case None => None case Some(t) => Exec(t, b))
    decreases |b|
  {
    if b == [] {
      assert a + b == a;
    } else {
      var b' := b[..|b| - 1];
      assert (a + b)[..|a + b| - 1] == a + b';
      ExecConcat(s, a, b');
    }
  }

  /** Every prefix of a run is a run. */
  lemma ExecPrefix(s: Machine, ls: seq<Label>, i: nat)
    requires Exec(s, ls).Some? && i <= |ls|
    ensures Exec(s, ls[..i]).Some?
  {
    assert ls == ls[..i] + ls[i..];
    ExecConcat(s, ls[..i], ls[i..]);
  }

  /** The output of one generateCert call: the pair matches and the CA is the certificate. */
  predicate Whole(m: Material) {
    m.crt.Cert? && m.key == Key(m.crt.gen) && m.ca == m.crt
  }

  /** Before the first start: no files, at most the Secret of an earlier installation. */
  predicate Initial(s: Machine) {
    && s.pc.Down? && s.crt.None? && s.key.None?
    && (s.secret.Some? ==> Whole(s.secret.value) && s.secret.value.crt.gen < s.nextGen)
    && forall b | b in Bundles(s) :: b.Foreign?
  }

  ghost predicate Reachable(s: Machine) {
    exists s0, ls :: Initial(s0) && Exec(s0, ls) == Some(s)
  }
}
