/**
 * What the ordering of the four stores is for: whether the API server, which checks the
 * served certificate against the stored caBundles, accepts it.
 */
module RotationTrust {
  import opened Prelude
  import opened RotationMachine
  import opened RotationRepair
  import opened RotationSafety

  // ---------- a generation stands for one certificate ----------

  /** The certificates that exist, by generation: that of the first Secret, and all generated. */
  function IssuedNext(m: map<nat, Blob>, s: Machine, l: Label): map<nat, Blob> {
    if l.Do? && s.pc.Generate? then m[s.nextGen := Fresh(s.nextGen, s.now, s.terms.lifetime).crt] else m
  }

  function Issued(s0: Machine, ls: seq<Label>): map<nat, Blob> {
    if ls == [] then
      if s0.secret.Some? && s0.secret.value.crt.Cert? then map[s0.secret.value.crt.gen := s0.secret.value.crt]
      else map[]
    else
      match Exec(s0, ls[..|ls| - 1])
      case None => map[]
      case Some(t) => IssuedNext(Issued(s0, ls[..|ls| - 1]), t, ls[|ls| - 1])
  }

  predicate FromIssue(m: map<nat, Blob>, b: Blob) {
    b.Cert? ==> b.gen in m && m[b.gen] == b
  }

  /** The pair in the hands of the rotator. */
  function InHand(pc: Pc): Option<Material> {
    match pc
    case Down => None
    case Idle => None
    case Load(_) => None
    case Generate(_) => None
    case _ => Some(pc.m)
  }

  /** Every certificate anywhere is one of those issued. */
  predicate Genuine(s: Machine, bs: set<Bundle>, m: map<nat, Blob>) {
    && (forall g | g in m :: g < s.nextGen)
    && (s.secret.Some? ==> FromIssue(m, s.secret.value.crt))
    && (s.crt.Some? ==> FromIssue(m, s.crt.value))
    && (InHand(s.pc).Some? ==> FromIssue(m, InHand(s.pc).value.crt))
    && (forall b | b in bs && b.Ours? :: FromIssue(m, b.ca))
  }

  lemma IssuedGrows(m: map<nat, Blob>, s: Machine, l: Label, b: Blob)
    requires (forall g | g in m :: g < s.nextGen) && FromIssue(m, b)
    ensures FromIssue(IssuedNext(m, s, l), b)
  {}

  /** A step of the rotator that leaves the configuration alone. */
  lemma GenuineDo(s: Machine, bs: set<Bundle>, m: map<nat, Blob>)
    requires Genuine(s, bs, m) && Succeed(s).Some? && !s.pc.HookPut? && !s.pc.Generate?
    ensures Genuine(Succeed(s).value, bs, m)
  {}

  lemma GenuineGenerate(s: Machine, bs: set<Bundle>, m: map<nat, Blob>)
    requires Genuine(s, bs, m) && s.pc.Generate?
    ensures Genuine(Succeed(s).value, bs, IssuedNext(m, s, Do))
  {
    forall b | b in bs && b.Ours? ensures FromIssue(IssuedNext(m, s, Do), b.ca) {
      IssuedGrows(m, s, Do, b.ca);
    }
  }

  lemma GenuineOther(s: Machine, l: Label, bs: set<Bundle>, m: map<nat, Blob>)
    requires Genuine(s, bs, m) && Next(s, l).Some? && !l.Do? && !l.Overwrite?
    ensures Genuine(Next(s, l).value, bs, m)
  {}

  /** Any step but a write to the configuration. */
  lemma GenuineStores(s: Machine, l: Label, bs: set<Bundle>, m: map<nat, Blob>)
    requires Genuine(s, bs, m) && Next(s, l).Some?
    requires !l.Overwrite? && !(l.Do? && s.pc.HookPut?)
    ensures Genuine(Next(s, l).value, bs, IssuedNext(m, s, l))
  {
    if l.Do? && s.pc.Generate? {
      GenuineGenerate(s, bs, m);
    } else if l.Do? {
      GenuineDo(s, bs, m);
    } else {
      GenuineOther(s, l, bs, m);
    }
  }

  lemma GenuineBundles(s: Machine, t: Machine, bs: set<Bundle>, bs': set<Bundle>, m: map<nat, Blob>)
    requires Genuine(s, bs, m) && t == s.(past := t.past, config := t.config, pc := t.pc)
    requires t.pc == s.pc || t.pc.Idle? || t.pc.Down?
    requires forall b | b in bs' && b.Ours? :: b in bs || (s.pc.HookPut? && b.ca == s.pc.m.crt)
    ensures Genuine(t, bs', m)
  {}

  lemma GenuineNext(s: Machine, l: Label, m: map<nat, Blob>)
    requires Inv(s) && Genuine(s, Bundles(s), m) && Next(s, l).Some?
    ensures Genuine(Next(s, l).value, Bundles(Next(s, l).value), IssuedNext(m, s, l))
  {
    var t := Next(s, l).value;
    if l.Overwrite? {
      BundlesAfterPut(s, l.config);
      GenuineBundles(s, t, Bundles(s), Bundles(t), m);
    } else if l.Do? && s.pc.HookPut? {
      UpdatedBundles(s);
      GenuineBundles(s, t, Bundles(s), Bundles(t), m);
    } else {
      BundlesCongruence(s, t);
      GenuineStores(s, l, Bundles(s), m);
    }
  }

  lemma {:induction false} GenuineRun(s0: Machine, ls: seq<Label>)
    requires Initial(s0) && Exec(s0, ls).Some?
    ensures Inv(Exec(s0, ls).value)
    ensures Genuine(Exec(s0, ls).value, Bundles(Exec(s0, ls).value), Issued(s0, ls))
    decreases |ls|
  {
    InitialInv(s0);
    if ls == [] {
    } else {
      var ls', l := ls[..|ls| - 1], ls[|ls| - 1];
      GenuineRun(s0, ls');
      InvNext(Exec(s0, ls').value, l);
      GenuineNext(Exec(s0, ls').value, l, Issued(s0, ls'));
    }
  }

  /** What has been issued stays the same certificate for ever. */
  lemma {:induction false} IssuedForEver(s0: Machine, first: seq<Label>, mid: seq<Label>, b: Blob)
    requires Initial(s0) && Exec(s0, first + mid).Some? && FromIssue(Issued(s0, first), b)
    ensures FromIssue(Issued(s0, first + mid), b)
    decreases |mid|
  {
    if mid == [] {
      assert first + mid == first;
    } else {
      var mid', l := mid[..|mid| - 1], mid[|mid| - 1];
      assert (first + mid)[..|first + mid| - 1] == first + mid';
      IssuedForEver(s0, first, mid', b);
      GenuineRun(s0, first + mid');
      IssuedGrows(Issued(s0, first + mid'), Exec(s0, first + mid').value, l, b);
    }
  }

  // ---------- trust ----------

  /** Every stored caBundle is this certificate, so that the API server accepts it. */
  predicate Trusts(c: Option<Config>, crt: Blob) {
    forall b | b in HookBundles(c) :: b == Ours(crt)
  }

  /** No stored caBundle is somebody else's, or older than generation g. */
  predicate Current(c: Option<Config>, g: nat) {
    forall b | b in HookBundles(c) :: b.Ours? && b.ca.Cert? && g <= b.ca.gen
  }

  /** What a load returns is trusted exactly if no stored caBundle is foreign or older. */
  predicate TrustFits(a: Machine, b: Machine, torn1: bool, torn2: bool) {
    var g := Loads(a, b, torn1, torn2);
    g.Some? ==> a.crt.Some? && (Trusts(b.config, a.crt.value) <==> Current(b.config, g.value))
  }

  lemma StoredBundles(s: Machine)
    ensures HookBundles(s.config) <= Bundles(s)
  {
    assert Versions(s)[|s.past|] == s.config;
    assert s.config in Versions(s);
  }

  lemma CurrentIsTrusted(s: Machine, m: map<nat, Blob>, crt: Blob)
    requires Genuine(s, Bundles(s), m) && crt.Cert? && FromIssue(m, crt) && BundlesUpTo(Bundles(s), crt.gen)
    ensures Trusts(s.config, crt) <==> Current(s.config, crt.gen)
  {
    StoredBundles(s);
    if Current(s.config, crt.gen) {
      forall b | b in HookBundles(s.config) ensures b == Ours(crt) {
        assert b in Bundles(s) && FromIssue(m, b.ca);
      }
    }
  }

  lemma ConsistentIsTrusted(a: Machine, b: Machine, m: map<nat, Blob>, torn1: bool, torn2: bool)
    requires ConsistentLoad(a, b, torn1, torn2) && Genuine(b, Bundles(b), m)
    requires a.crt.Some? ==> FromIssue(m, a.crt.value)
    ensures TrustFits(a, b, torn1, torn2)
  {
    if Loads(a, b, torn1, torn2).Some? {
      CurrentIsTrusted(b, m, a.crt.value);
    }
  }

  /** The first read comes after the events of first, the second after those of mid. */
  lemma TrustedLoad(s0: Machine, first: seq<Label>, mid: seq<Label>, a: Machine, b: Machine, torn1: bool, torn2: bool)
    requires Initial(s0) && Exec(s0, first) == Some(a) && Exec(a, mid) == Some(b)
    ensures TrustFits(a, b, torn1, torn2)
  {
    ExecConcat(s0, first, mid);
    GenuineRun(s0, first);
    GenuineRun(s0, first + mid);
    InvRun(a, mid);
    InvGivesConsistency(a, b, torn1, torn2);
    if a.crt.Some? {
      IssuedForEver(s0, first, mid, a.crt.value);
    }
    ConsistentIsTrusted(a, b, Issued(s0, first + mid), torn1, torn2);
  }

  /**
   * The API server trusts what a load returns, at the moment of its second read, exactly if
   * no stored caBundle is foreign or older: in every run, for every two moments.
   */
  lemma TrustedIff(s: Machine, ls: seq<Label>, i: nat, j: nat, torn1: bool, torn2: bool)
    requires Reachable(s) && Exec(s, ls).Some? && i <= j <= |ls|
    ensures Exec(s, ls[..i]).Some? && Exec(s, ls[..j]).Some?
    ensures TrustFits(Exec(s, ls[..i]).value, Exec(s, ls[..j]).value, torn1, torn2)
  {
    var s0, before :| Initial(s0) && Exec(s0, before) == Some(s);
    Moments(s, ls, i, j);
    ExecConcat(s0, before, ls[..i]);
    TrustedLoad(s0, before + ls[..i], ls[i..j], Exec(s, ls[..i]).value, Exec(s, ls[..j]).value, torn1, torn2);
  }

  // ---------- a rotation, moment by moment ----------

  /** Each file is as it was until it is truncated. */
  predicate NotYetWritten(s: Machine, t: Machine) {
    match t.pc
    case MakeDir(_, _) => t.crt == s.crt && t.key == s.key
    case CrtTrunc(_, _) => t.crt == s.crt && t.key == s.key
    case CrtFill(_, _) => t.key == s.key
    case KeyTrunc(_, _) => t.key == s.key
    case _ => true
  }

  lemma NotYetWrittenNext(s: Machine, t: Machine, l: Label)
    requires s.pc.Load? && Track(s, t) && NotYetWritten(s, t) && FaultFree(l) && Next(t, l).Some?
    ensures NotYetWritten(s, Next(t, l).value)
  {}

  lemma {:induction false} NotYetWrittenRun(s: Machine, ls: seq<Label>)
    requires s.pc.Load? && s.config.Some?
    requires (forall l | l in ls :: FaultFree(l)) && Exec(s, ls).Some?
    ensures NotYetWritten(s, Exec(s, ls).value)
    decreases |ls|
  {
    if ls == [] {
    } else {
      var ls', l := ls[..|ls| - 1], ls[|ls| - 1];
      NotYetWrittenRun(s, ls');
      TrackRun(s, ls');
      NotYetWrittenNext(s, Exec(s, ls').value, l);
    }
  }

  /** The files are being replaced: they do not hold one pair. */
  predicate Replacing(pc: Pc) {
    pc.CrtFill? || pc.KeyTrunc? || pc.KeyFill?
  }

  /** The files are written, and the webhook configuration is not updated yet. */
  predicate Announcing(pc: Pc) {
    pc.HookGet? || pc.HookPut?
  }

  /** A rotation is about to run: everything agrees, and there are webhooks to be called. */
  predicate AboutToRotate(s: Machine) {
    s.pc == Load(Rotate) && Agreed(s) && Inv(s) && s.config.value.hooks != []
  }

  lemma AgreedBundles(c: Option<Config>, ca: Blob)
    requires c.Some? && forall h | h in c.value.hooks :: h.bundle == Ours(ca)
    ensures forall b | b in HookBundles(c) :: b == Ours(ca)
    ensures c.value.hooks != [] ==> Ours(ca) in HookBundles(c)
  {
    if c.value.hooks != [] {
      assert c.value.hooks[0] in c.value.hooks;
    }
  }

  /** The generation of the key decides: the old one is current until the Update, the new one from then on. */
  lemma CurrentUntil(s: Machine, t: Machine, g: nat)
    requires AboutToRotate(s) && Track(s, t) && NotYetWritten(s, t) && Inv(t)
    requires t.key == Some(Key(g))
    ensures Current(t.config, g) <==> !Announcing(t.pc)
  {
    AgreedBundles(s.config, s.secret.value.ca);
    if t.pc.Idle? && !LeftAlone(s, t) {
      AgreedBundles(t.config, t.secret.value.ca);
    }
  }

  lemma ServedUnless(s: Machine, t: Machine)
    requires AboutToRotate(s) && Track(s, t) && NotYetWritten(s, t) && Inv(t)
    ensures Loads(t, t, false, false).Some? <==> !Replacing(t.pc)
  {}

  lemma MomentOfRotation(s: Machine, ls: seq<Label>, j: nat)
    requires Reachable(s) && s.pc == Load(Rotate) && Agreed(s) && s.config.value.hooks != []
    requires (forall l | l in ls :: FaultFree(l)) && Exec(s, ls).Some? && j <= |ls|
    ensures AboutToRotate(s) && Exec(s, ls[..j]).Some?
    ensures var t := Exec(s, ls[..j]).value; Track(s, t) && NotYetWritten(s, t) && Inv(t)
  {
    var s0, before :| Initial(s0) && Exec(s0, before) == Some(s);
    InitialInv(s0);
    InvRun(s0, before);
    ExecPrefix(s, ls, j);
    assert forall l | l in ls[..j] :: l in ls;
    InvRun(s, ls[..j]);
    TrackRun(s, ls[..j]);
    NotYetWrittenRun(s, ls[..j]);
  }

  /**
   * An undisturbed rotation from agreement, with delays anywhere.  A load whose two reads are
   * at any two moments of it, and which succeeds, is not trusted at its end exactly if the
   * files are written and the caBundles are not; and a load at one moment fails exactly while
   * the files are being replaced.
   */
  lemma TrustLostExactly(s: Machine, ls: seq<Label>, i: nat, j: nat, torn1: bool, torn2: bool)
    requires Reachable(s) && s.pc == Load(Rotate) && Agreed(s) && s.config.value.hooks != []
    requires (forall l | l in ls :: FaultFree(l)) && Exec(s, ls).Some? && i <= j <= |ls|
    ensures Exec(s, ls[..i]).Some? && Exec(s, ls[..j]).Some?
    ensures var a, b := Exec(s, ls[..i]).value, Exec(s, ls[..j]).value;
            && (Loads(a, b, torn1, torn2).Some? ==>
                  a.crt.Some? && (Trusts(b.config, a.crt.value) <==> !Announcing(b.pc)))
            && (Loads(b, b, false, false).Some? <==> !Replacing(b.pc))
  {
    TrustedIff(s, ls, i, j, torn1, torn2);
    MomentOfRotation(s, ls, j);
    var a, b := Exec(s, ls[..i]).value, Exec(s, ls[..j]).value;
    if Loads(a, b, torn1, torn2).Some? {
      CurrentUntil(s, b, Loads(a, b, torn1, torn2).value);
    }
    ServedUnless(s, b);
  }

  /** Successful steps until the files are written. */
  lemma {:induction false} UpToAnnouncing(s: Machine) returns (ls: seq<Label>)
    requires Rank(s.pc) >= 2 && (s.pc.Load? || s.pc.Check? ==> s.secret.Some?)
    requires s.pc.Load? ==> s.pc.op.Rotate? && RotationDue(s, s.now)
    requires s.pc.Check? ==> Due(s.pc.m.crt, s.now, s.terms.threshold)
    requires s.pc.SavePut? ==> s.pc.found == s.secret.Some?
    ensures (forall l | l in ls :: l.Do?) && Exec(s, ls).Some? && Announcing(Exec(s, ls).value.pc)
    decreases Rank(s.pc)
  {
    if s.pc.HookGet? {
      ls := [];
    } else {
      var rest := UpToAnnouncing(Succeed(s).value);
      ExecSnoc(s, [], Do);
      ExecConcat(s, [Do], rest);
      ls := [Do] + rest;
    }
  }

  /** A certificate is served that the API server does not accept. */
  predicate Untrusted(t: Machine) {
    Loads(t, t, false, false).Some? && t.crt.Some? && !Trusts(t.config, t.crt.value)
  }

  /** The loss is real: every rotation that is due passes through such a moment. */
  lemma TrustIsLost(s: Machine)
    requires Reachable(s) && s.pc == Load(Rotate) && Agreed(s) && s.config.value.hooks != []
    requires RotationDue(s, s.now)
    ensures exists ls :: (forall l | l in ls :: FaultFree(l)) && Exec(s, ls).Some? && Untrusted(Exec(s, ls).value)
  {
    var ls := UpToAnnouncing(s);
    TrustLostExactly(s, ls, |ls|, |ls|, false, false);
    assert ls[..|ls|] == ls;
    assert Untrusted(Exec(s, ls).value);
  }

  // ---------- what success and failure mean, whatever happened ----------

  lemma OnlyTheUpdate(s: Machine, l: Label)
    requires Next(s, l).Some? && Next(s, l).value.pc.Idle?
    requires !s.pc.Idle? && !s.pc.Down? && !s.pc.Check? && s.pc.op.Ensure?
    ensures var t := Next(s, l).value;
            && s.pc.HookPut? && t.crt == s.crt && t.key == s.key && t.config.Some?
            && forall h | h in t.config.value.hooks :: h.bundle == Ours(s.pc.m.ca)
  {
    assert Versions(s)[|s.past|] == s.config;
  }

  /**
   * A start that gets to its tick loop has just updated the configuration: however it was
   * disturbed, the two files hold one pair and every caBundle is its certificate.
   */
  lemma StartedMeansTrusted(s: Machine, l: Label)
    requires Reachable(s) && Next(s, l).Some? && Next(s, l).value.pc.Idle?
    requires !s.pc.Idle? && !s.pc.Down? && !s.pc.Check? && s.pc.op.Ensure?
    ensures var t := Next(s, l).value;
            && s.pc.HookPut? && t.config.Some? && t.crt.Some? && t.crt.value.Cert?
            && t.key == Some(Key(t.crt.value.gen))
            && forall h | h in t.config.value.hooks :: h.bundle == Ours(t.crt.value)
  {
    var s0, ls :| Initial(s0) && Exec(s0, ls) == Some(s);
    InitialInv(s0);
    InvRun(s0, ls);
    OnlyTheUpdate(s, l);
    assert AtPc(s, Bundles(s));
  }

  /** A conflicting Update ends a start, and leaves the configuration to the other writer. */
  lemma ConflictIsAnError(s: Machine)
    requires s.pc.HookPut? && s.pc.seen < |s.past|
    ensures Next(s, Do) == Some(s.(pc := if s.pc.op.Ensure? then Down else Idle))
  {}

  /** The Secret is written exactly if it is there for an Update, or is not there for a Create. */
  lemma SavedIff(s: Machine)
    requires s.pc.SavePut?
    ensures var t := Next(s, Do).value;
            if s.pc.found == s.secret.Some? then t.secret == Some(s.pc.m) && t.pc == MakeDir(s.pc.op, s.pc.m)
            else t.secret == s.secret && t.pc == if s.pc.op.Ensure? then Down else Idle
  {}

  /** After any error of the Get there is a Create: it saves the pair exactly if there is no Secret. */
  lemma GetErrorMeansCreate(s: Machine)
    requires s.pc.SaveGet?
    ensures var t := Next(s, Fail);
            && t.Some? && t.value.secret == s.secret && Next(t.value, Do).Some?
            && var u := Next(t.value, Do).value;
               (u.secret == Some(s.pc.m) && u.pc.MakeDir? <==> s.secret.None?)
  {}

  /** Every other call may fail, changes nothing then, and ends a start or a rotation. */
  lemma ErrorsArePassedOn(s: Machine)
    requires s.pc.Generate? || s.pc.SavePut? || s.pc.MakeDir? || s.pc.CrtTrunc? || s.pc.CrtFill?
             || s.pc.KeyTrunc? || s.pc.KeyFill? || s.pc.HookGet? || s.pc.HookPut?
    ensures Next(s, Fail) == Some(s.(pc := if s.pc.op.Ensure? then Down else Idle))
  {}
}
