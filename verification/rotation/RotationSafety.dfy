/**
 * What no run of the rotator can break: the order Secret, tls.crt, tls.key, caBundle of
 * the generations, and what a TLS load that reads the two files at two moments can get.
 */
module RotationSafety {
  import opened Prelude
  import opened RotationMachine

  // ---------- the ordering ----------

  predicate Parses(b: Option<Blob>) {
    b.Some? && (b.value.Cert? || b.value.Key?)
  }

  /** What b parses to, if it is there and parses, is at most generation g. */
  predicate UpTo(b: Option<Blob>, g: nat) {
    Parses(b) ==> b.value.gen <= g
  }

  predicate BundlesUpTo(bs: set<Bundle>, g: nat) {
    forall b | b in bs && b.Ours? :: UpTo(Some(b.ca), g)
  }

  function SecretCrt(s: Machine): Option<Blob> {
    if s.secret.Some? then Some(s.secret.value.crt) else None
  }

  /** Secret >= tls.crt >= tls.key >= bs, for whichever of them are there and parse. */
  predicate Chain(s: Machine, bs: set<Bundle>) {
    && (Parses(SecretCrt(s)) ==>
          var g := SecretCrt(s).value.gen; UpTo(s.crt, g) && UpTo(s.key, g) && BundlesUpTo(bs, g))
    && (Parses(s.crt) ==> UpTo(s.key, s.crt.value.gen) && BundlesUpTo(bs, s.crt.value.gen))
    && (Parses(s.key) ==> BundlesUpTo(bs, s.key.value.gen))
  }

  /** The chain over every bundle the configuration ever held, not only the stored ones. */
  predicate Ordered(s: Machine) {
    Chain(s, Bundles(s))
  }

  // ---------- the invariant ----------

  predicate Known(m: Material, nextGen: nat) {
    Whole(m) && m.crt.gen < nextGen
  }

  predicate Blank(f: Option<Blob>) {
    f.Some? && (f.value.Empty? || f.value.Junk?)
  }

  /** Everything stored comes from generateCert, or is a torn file. */
  predicate Shape(s: Machine, bs: set<Bundle>) {
    && (s.secret.Some? ==> Known(s.secret.value, s.nextGen))
    && (s.crt.None? || Blank(s.crt) || (s.crt.value.Cert? && s.crt.value.gen < s.nextGen))
    && (s.key.None? || Blank(s.key) || (s.key.value.Key? && s.key.value.gen < s.nextGen))
    && (forall b | b in bs && b.Ours? :: b.ca.Cert? && b.ca.gen < s.nextGen)
  }

  /** The pair being installed is at least as new as everything stored outside the Secret. */
  predicate Newest(s: Machine, bs: set<Bundle>, m: Material) {
    && Known(m, s.nextGen)
    && UpTo(s.crt, m.crt.gen) && UpTo(s.key, m.crt.gen) && BundlesUpTo(bs, m.crt.gen)
  }

  predicate Installing(s: Machine, bs: set<Bundle>, m: Material) {
    Newest(s, bs, m) && (s.secret.Some? ==> s.secret.value == m)
  }

  /** What holds at each program point. */
  predicate AtPc(s: Machine, bs: set<Bundle>) {
    match s.pc
    case Check(m) => Known(m, s.nextGen)
    case SaveGet(_, m) => Newest(s, bs, m)
    case SavePut(_, m, _) => Newest(s, bs, m)
    case MakeDir(_, m) => Installing(s, bs, m)
    case CrtTrunc(_, m) => Installing(s, bs, m)
    case CrtFill(_, m) => Installing(s, bs, m) && Blank(s.crt)
    case KeyTrunc(_, m) => Installing(s, bs, m) && s.crt == Some(m.crt)
    case KeyFill(_, m) => Installing(s, bs, m) && s.crt == Some(m.crt) && Blank(s.key)
    case HookGet(_, m) => Installing(s, bs, m) && s.crt == Some(m.crt) && s.key == Some(m.key)
    case HookPut(_, m, _) => Installing(s, bs, m) && s.crt == Some(m.crt) && s.key == Some(m.key)
    case _ => true
  }

  predicate InvFor(s: Machine, bs: set<Bundle>) {
    Shape(s, bs) && Chain(s, bs) && AtPc(s, bs)
  }

  predicate Inv(s: Machine) {
    InvFor(s, Bundles(s))
  }

  // ---------- preservation ----------

  lemma BundlesAfterPut(s: Machine, c: Option<Config>)
    ensures Bundles(Put(s, c)) == Bundles(s) + HookBundles(c)
  {
    var t := Put(s, c);
    assert Versions(t)[|t.past|] == c;
    assert forall v | v in Versions(s) :: v in Versions(t);
    assert forall v | v in Versions(t) :: v in Versions(s) || v == c;
  }

  lemma BundlesCongruence(s: Machine, t: Machine)
    requires s.past == t.past && s.config == t.config
    ensures Bundles(s) == Bundles(t)
  {}

  lemma OnlyOurs(hooks: seq<Hook>, meta: int, ca: Blob)
    ensures forall b | b in HookBundles(Some(Config(WithBundle(hooks, ca), meta))) :: b == Ours(ca)
  {}

  lemma InvRead(s: Machine, bs: set<Bundle>)
    requires InvFor(s, bs) && (s.pc.Load? || s.pc.Check? || s.pc.Generate? || s.pc.SaveGet?)
    ensures InvFor(Succeed(s).value, bs)
  {}

  lemma InvSave(s: Machine, bs: set<Bundle>)
    requires InvFor(s, bs) && s.pc.SavePut?
    ensures InvFor(Succeed(s).value, bs)
  {}

  lemma InvFiles(s: Machine, bs: set<Bundle>)
    requires InvFor(s, bs)
    requires s.pc.MakeDir? || s.pc.CrtTrunc? || s.pc.CrtFill? || s.pc.KeyTrunc? || s.pc.KeyFill? || s.pc.HookGet?
    ensures InvFor(Succeed(s).value, bs)
  {}

  lemma InvCrash(s: Machine, l: Label, bs: set<Bundle>)
    requires InvFor(s, bs) && l.Crash?
    ensures InvFor(Next(s, l).value, bs)
  {}

  /** Nothing but the program point, or the time, changes. */
  lemma InvControl(s: Machine, l: Label, bs: set<Bundle>)
    requires InvFor(s, bs) && Next(s, l).Some?
    requires l.Boot? || l.Tick? || l.Stop? || l.Stale? || l.Elapse?
    ensures InvFor(Next(s, l).value, bs)
  {}

  /** A torn write, or a Secret deleted by somebody. */
  lemma InvTear(s: Machine, l: Label, bs: set<Bundle>)
    requires InvFor(s, bs) && Next(s, l).Some? && (l.DropSecret? || l.Partial?)
    ensures InvFor(Next(s, l).value, bs)
  {}

  /** A successful step of the rotator that leaves the configuration alone. */
  lemma InvDo(s: Machine, bs: set<Bundle>)
    requires InvFor(s, bs) && Succeed(s).Some? && !s.pc.HookPut?
    ensures InvFor(Succeed(s).value, bs)
  {
    if s.pc.Load? || s.pc.Check? || s.pc.Generate? || s.pc.SaveGet? {
      InvRead(s, bs);
    } else if s.pc.SavePut? {
      InvSave(s, bs);
    } else {
      InvFiles(s, bs);
    }
  }

  lemma InvFail(s: Machine, bs: set<Bundle>)
    requires InvFor(s, bs) && Refuse(s).Some?
    ensures InvFor(Refuse(s).value, bs)
  {}

  /** Any step but a write to the configuration. */
  lemma InvStores(s: Machine, l: Label, bs: set<Bundle>)
    requires InvFor(s, bs) && Next(s, l).Some?
    requires !l.Overwrite? && !(l.Do? && s.pc.HookPut?)
    ensures InvFor(Next(s, l).value, bs)
  {
    if l.Do? {
      InvDo(s, bs);
    } else if l.Fail? {
      InvFail(s, bs);
    } else if l.DropSecret? || l.Partial? {
      InvTear(s, l, bs);
    } else if l.Crash? {
      InvCrash(s, l, bs);
    } else {
      InvControl(s, l, bs);
    }
  }

  /** The bundles may grow by foreign ones and by the generation being installed. */
  lemma InvBundles(s: Machine, bs: set<Bundle>, t: Machine, bs': set<Bundle>)
    requires InvFor(s, bs)
    requires t == s.(past := t.past, config := t.config, pc := t.pc)
    requires t.pc == s.pc || t.pc.Idle? || t.pc.Down?
    requires forall b | b in bs' && b.Ours? :: b in bs || (s.pc.HookPut? && b.ca == s.pc.m.ca && !t.pc.HookPut?)
    ensures InvFor(t, bs')
  {}

  /** The rotator's Update adds its own caBundle to those there ever were, and nothing else. */
  lemma UpdatedBundles(s: Machine)
    requires s.pc.HookPut?
    ensures var t := Succeed(s).value;
            && Bundles(s) <= Bundles(t)
            && forall b | b in Bundles(t) :: b in Bundles(s) || b == Ours(s.pc.m.ca)
  {
    assert Versions(s)[|s.past|] == s.config;
    if s.pc.seen == |s.past| && s.config.Some? {
      var c := s.config.value;
      BundlesAfterPut(s.(pc := Idle), Some(c.(hooks := WithBundle(c.hooks, s.pc.m.ca))));
      OnlyOurs(c.hooks, c.meta, s.pc.m.ca);
      BundlesCongruence(s, s.(pc := Idle));
    } else {
      BundlesCongruence(s, Succeed(s).value);
    }
  }

  lemma InvNext(s: Machine, l: Label)
    requires Inv(s) && Next(s, l).Some?
    ensures Inv(Next(s, l).value)
    ensures Bundles(s) <= Bundles(Next(s, l).value)
  {
    var t := Next(s, l).value;
    var bs, bs' := Bundles(s), Bundles(t);
    if l.Overwrite? {
      BundlesAfterPut(s, l.config);
      assert Versions(s)[|s.past|] == s.config;
      InvBundles(s, bs, t, bs');
    } else if l.Do? && s.pc.HookPut? {
      UpdatedBundles(s);
      InvBundles(s, bs, t, bs');
    } else {
      BundlesCongruence(s, t);
      InvStores(s, l, bs);
    }
  }

  /** d is c with the caBundle of every webhook replaced, and nothing else. */
  predicate OnlyBundles(c: Config, d: Config, ca: Blob) {
    && d.meta == c.meta && |d.hooks| == |c.hooks|
    && forall i :: 0 <= i < |c.hooks| ==> d.hooks[i].bundle == Ours(ca) && d.hooks[i].rest == c.hooks[i].rest
  }

  /**
   * No concurrent writer's change is lost.  Step k of any run leaves every earlier version
   * of the configuration in place; if the stored one changes, then another writer did it,
   * or it is the one stored immediately before, whatever the rotator had read and when,
   * with the caBundle of every webhook replaced and nothing else.
   */
  lemma NoLostUpdate(s0: Machine, ls: seq<Label>, k: nat)
    requires Exec(s0, ls).Some? && k < |ls|
    ensures Exec(s0, ls[..k]).Some? && Exec(s0, ls[..k + 1]).Some?
    ensures var a, b := Exec(s0, ls[..k]).value, Exec(s0, ls[..k + 1]).value;
            && Versions(a) <= Versions(b)
            && (b.config != a.config ==>
                  || ls[k] == Overwrite(b.config)
                  || (a.pc.HookPut? && a.config.Some? && b.config.Some?
                      && OnlyBundles(a.config.value, b.config.value, a.pc.m.ca)))
  {
    ExecPrefix(s0, ls, k);
    ExecPrefix(s0, ls, k + 1);
    assert ls[..k + 1][..k] == ls[..k];
    var a := Exec(s0, ls[..k]).value;
    assert Exec(s0, ls[..k + 1]) == Next(a, ls[k]);
    assert Versions(a)[|a.past|] == a.config;
  }

  lemma {:induction false} InvRun(s: Machine, ls: seq<Label>)
    requires Inv(s) && Exec(s, ls).Some?
    ensures Inv(Exec(s, ls).value)
    ensures Bundles(s) <= Bundles(Exec(s, ls).value)
    decreases |ls|
  {
    if ls == [] {
    } else {
      InvRun(s, ls[..|ls| - 1]);
      InvNext(Exec(s, ls[..|ls| - 1]).value, ls[|ls| - 1]);
    }
  }

  lemma InitialInv(s: Machine)
    requires Initial(s)
    ensures Inv(s)
  {}

  // ---------- the theorems ----------

  /**
   * In every reachable state, whatever failed, crashed, was lost or was overwritten, the
   * generations are ordered Secret >= tls.crt >= tls.key >= caBundle, and the Secret holds
   * a matching pair.
   */
  lemma AlwaysOrdered(s: Machine)
    requires Reachable(s)
    ensures Ordered(s)
    ensures s.secret.Some? ==> Whole(s.secret.value)
  {
    var s0, ls :| Initial(s0) && Exec(s0, ls) == Some(s);
    InitialInv(s0);
    InvRun(s0, ls);
  }

  /** tls.LoadX509KeyPair: both blobs parse and the key belongs to the certificate. */
  function LoadKeyPair(crt: Option<Blob>, key: Option<Blob>): Option<nat> {
    if crt.Some? && key.Some? && crt.value.Cert? && key.value == Key(crt.value.gen) then Some(crt.value.gen) else None
  }

  /** A read that overlaps a write yields bytes that do not parse. */
  function ReadFile(f: Option<Blob>, torn: bool): Option<Blob> {
    if torn then Some(Junk) else f
  }

  /** A TLS load with its first read in state a and its second in state b. */
  function Loads(a: Machine, b: Machine, torn1: bool, torn2: bool): Option<nat> {
    LoadKeyPair(ReadFile(a.crt, torn1), ReadFile(b.key, torn2))
  }

  /**
   * If it succeeds, both files were of one generation when read, which is at least every
   * caBundle written by then, and at most the Secret's at either read.
   */
  predicate ConsistentLoad(a: Machine, b: Machine, torn1: bool, torn2: bool) {
    var g := Loads(a, b, torn1, torn2);
    g.Some? ==>
      && a.crt.Some? && a.crt.value.Cert? && a.crt.value.gen == g.value && b.key == Some(Key(g.value))
      && Bundles(a) <= Bundles(b) && BundlesUpTo(Bundles(b), g.value)
      && (a.secret.Some? && a.secret.value.crt.Cert? ==> g.value <= a.secret.value.crt.gen)
      && (b.secret.Some? && b.secret.value.crt.Cert? ==> g.value <= b.secret.value.crt.gen)
  }

  lemma InvGivesConsistency(a: Machine, b: Machine, torn1: bool, torn2: bool)
    requires Inv(a) && Inv(b) && Bundles(a) <= Bundles(b)
    ensures ConsistentLoad(a, b, torn1, torn2)
  {}

  /** Two moments of a run are states of which the second follows the first. */
  lemma Moments(s0: Machine, ls: seq<Label>, i: nat, j: nat)
    requires Exec(s0, ls).Some? && i <= j <= |ls|
    ensures Exec(s0, ls[..i]).Some? && Exec(s0, ls[..j]).Some?
    ensures Exec(Exec(s0, ls[..i]).value, ls[i..j]) == Exec(s0, ls[..j])
  {
    ExecPrefix(s0, ls, i);
    ExecPrefix(s0, ls, j);
    assert ls[..j] == ls[..i] + ls[i..j];
    ExecConcat(s0, ls[..i], ls[i..j]);
  }

  /**
   * GetCertificate reads tls.crt after i steps of a run and tls.key after j >= i steps,
   * with anything in between.  If it succeeds, both files were of one generation g when
   * read, g is at least every caBundle the rotator had written by the time of either read,
   * and at most the Secret's generation at either read.
   */
  lemma LoadIsConsistent(s0: Machine, ls: seq<Label>, i: nat, j: nat, torn1: bool, torn2: bool)
    requires Initial(s0) && Exec(s0, ls).Some? && i <= j <= |ls|
    ensures Exec(s0, ls[..i]).Some? && Exec(s0, ls[..j]).Some?
    ensures ConsistentLoad(Exec(s0, ls[..i]).value, Exec(s0, ls[..j]).value, torn1, torn2)
  {
    Moments(s0, ls, i, j);
    var a, b := Exec(s0, ls[..i]).value, Exec(s0, ls[..j]).value;
    InitialInv(s0);
    InvRun(s0, ls[..i]);
    InvRun(a, ls[i..j]);
    InvGivesConsistency(a, b, torn1, torn2);
  }
}
