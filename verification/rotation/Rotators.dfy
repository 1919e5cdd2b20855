/**
 * The rotator in its own form: methods that call the API server and write the files one
 * after the other.  Between any two calls others may move, any call may fail, and a read
 * of the configuration may be stale.
 *
 * The ghost trace names each event.  Valid() says that the trace is a run of the machine
 * and leads to the present stores, so what holds of every run holds of every execution of
 * these methods, cut off by a crash at any point.
 */
module Rotators {
  import opened Prelude
  import opened RotationMachine
  import opened RotationSafety
  import opened RotationRepair

  datatype File = TlsCrt | TlsKey

  datatype Event = Ticked | Cancelled

  /** How many ticks come before the cancellation. */
  function Ticks(events: seq<Event>): (n: nat)
    ensures n <= |events|
  {
    if events == [] || events[0].Cancelled? then 0 else 1 + Ticks(events[1..])
  }

  /** The labels after a run a, seen as a run of their own. */
  lemma Since(s0: Machine, a: seq<Label>, c: seq<Label>)
    requires a <= c && Exec(s0, a).Some?
    ensures Exec(s0, c) == Exec(Exec(s0, a).value, c[|a|..])
  {
    assert c == a + c[|a|..];
    ExecConcat(s0, a, c[|a|..]);
  }

  /** How many events were errors, or moves of others, or the process starting and stopping. */
  function Faults(ls: seq<Label>): nat {
    if ls == [] then 0 else Faults(ls[..|ls| - 1]) + if FaultFree(ls[|ls| - 1]) then 0 else 1
  }

  predicate AllFaultFree(ls: seq<Label>) {
    forall l | l in ls :: FaultFree(l)
  }

  lemma {:induction false} NoNewFaults(a: seq<Label>, c: seq<Label>)
    requires a <= c
    ensures Faults(a) <= Faults(c)
    ensures Faults(a) == Faults(c) ==> AllFaultFree(c[|a|..])
    decreases |c|
  {
    if |a| == |c| {
      assert a == c;
    } else {
      var c' := c[..|c| - 1];
      NoNewFaults(a, c');
      assert c[|a|..] == c'[|a|..] + [c[|c| - 1]];
    }
  }

  /** What holds of an undisturbed run of the machine holds of a trace without new faults. */
  lemma EnsureUndisturbed(s0: Machine, a: seq<Label>, s: Machine, c: seq<Label>, t: Machine)
    requires a <= c && Exec(s0, a) == Some(s) && Exec(s0, c) == Some(t) && Faults(a) == Faults(c)
    requires s.pc == Load(Ensure) && s.config.Some? && Returned(t)
    ensures t.pc.Idle? && t.secret.Some? && Installed(t, t.secret.value)
    ensures Agreed(t) <==> s.secret.None? || Whole(s.secret.value)
  {
    NoNewFaults(a, c);
    Since(s0, a, c);
    EnsureRepairs(s, c[|a|..]);
  }

  lemma RotateUndisturbed(s0: Machine, a: seq<Label>, s: Machine, c: seq<Label>, t: Machine)
    requires a <= c && Exec(s0, a) == Some(s) && Exec(s0, c) == Some(t) && Faults(a) == Faults(c)
    requires s.pc == Load(Rotate) && s.config.Some? && Returned(t)
    ensures LeftAlone(s, t) || (RotationDue(s, t.now) && Agreed(t) && t.secret.value.crt.gen == s.nextGen)
  {
    NoNewFaults(a, c);
    Since(s0, a, c);
    RotateAllOrNothing(s, c[|a|..]);
  }

  function AtOpen(op: Op, m: Material, f: File): Pc {
    if f.TlsCrt? then CrtTrunc(op, m) else KeyTrunc(op, m)
  }

  function AtFill(op: Op, m: Material, f: File): Pc {
    if f.TlsCrt? then CrtFill(op, m) else KeyFill(op, m)
  }

  function AfterFile(op: Op, m: Material, f: File): Pc {
    if f.TlsCrt? then KeyTrunc(op, m) else HookGet(op, m)
  }

  lemma FaultsSnoc(ls: seq<Label>, l: Label)
    ensures Faults(ls + [l]) == Faults(ls) + if FaultFree(l) then 0 else 1
  {
    assert (ls + [l])[..|ls|] == ls;
  }

  /** Every webhook of the stored configuration has this caBundle. */
  predicate Announced(s: Machine, ca: Blob) {
    s.config.Some? && forall h | h in s.config.value.hooks :: h.bundle == Ours(ca)
  }

  /** The files hold this pair, and every webhook its CA. */
  predicate Delivered(s: Machine, m: Material) {
    s.crt == Some(m.crt) && s.key == Some(m.key) && Announced(s, m.ca)
  }

  /** Both files hold one pair, and every webhook its certificate: a load succeeds and is trusted. */
  predicate Served(s: Machine) {
    && s.crt.Some? && s.crt.value.Cert? && s.key == Some(Key(s.crt.value.gen))
    && Announced(s, s.crt.value)
  }

  /** The object that is sent is the one the machine sends. */
  lemma SentIs(read: Config, c: Config, ca: Blob)
    requires OnlyBundles(read, c, ca)
    ensures c == read.(hooks := WithBundle(read.hooks, ca))
  {
    assert c.hooks == WithBundle(read.hooks, ca);
  }

  class Rotator {
    var secret: Option<Material>
    var crt: Option<Blob>
    var key: Option<Blob>
    var past: seq<Option<Config>>
    var config: Option<Config>
    var now: int
    var nextGen: nat
    var pc: Pc
    const calm: bool       // no call ever fails, and nobody else ever moves
    ghost const start: Machine
    ghost var checks: nat  // calls of rotateIfNeeded
    ghost var trace: seq<Label>
    ghost var faults: nat  // events of the trace that are not fault-free

    function State(): Machine
      reads this
    {
      Machine(secret, crt, key, past, config, pc, now, nextGen, CODE)
    }

    ghost predicate Valid()
      reads this
    {
      Exec(start, trace) == Some(State()) && faults == Faults(trace)
    }

    /** The trace went on as a run, in calm surroundings without a fault, and no tick was handled. */
    twostate predicate Ran()
      reads this
    {
      && Valid() && old(trace) <= trace && checks == old(checks)
      && old(faults) <= faults && (calm ==> faults == old(faults))
    }

    /** Others may have moved: the files are as before, and if there was no fault the rest is. */
    twostate predicate OnlyOthers()
      reads this
    {
      && Ran() && nextGen == old(nextGen) && crt == old(crt) && key == old(key)
      && Versions(old(State())) <= Versions(State())
      && (faults == old(faults) ==> secret == old(secret) && past == old(past) && config == old(config))
    }

    /** The process starts over whatever stores there are, with the terms of the code. */
    constructor (s: Machine, calm: bool)
      ensures this.calm == calm && Valid() && State() == s.(pc := Down, terms := CODE)
      ensures start == s.(pc := Down, terms := CODE) && trace == [] && checks == 0 && faults == 0
    {
      this.calm := calm;
      secret, crt, key, past, config, now, nextGen := s.secret, s.crt, s.key, s.past, s.config, s.now, s.nextGen;
      pc, start, trace, checks, faults := Down, s.(pc := Down, terms := CODE), [], 0, 0;
    }

    /** Appends a label after the fields have been set accordingly. */
    ghost method Log(before: Machine, l: Label)
      requires Exec(start, trace) == Some(before) && faults == Faults(trace)
      requires Next(before, l) == Some(State())
      modifies this`trace, this`faults
      ensures trace == old(trace) + [l] && Valid()
      ensures faults == old(faults) + if FaultFree(l) then 0 else 1
    {
      ExecSnoc(start, trace, l);
      FaultsSnoc(trace, l);
      trace, faults := trace + [l], faults + if FaultFree(l) then 0 else 1;
    }

    /** Another writer changes the configuration, if the API server lets it. */
    method Rewrite(c: Option<Config>)
      requires Valid() && !calm
      modifies this`past, this`config, this`trace, this`faults
      ensures OnlyOthers()
    {
      ghost var s := State();
      if c != config && Keeps(State(), c) {
        past, config := past + [config], c;
        assert Next(s, Overwrite(c)) == Some(State());
        Log(s, Overwrite(c));
      }
    }

    /** Somebody deletes the Secret. */
    method DeleteSecret()
      requires Valid() && !calm
      modifies this`secret, this`trace, this`faults
      ensures OnlyOthers()
    {
      ghost var s := State();
      secret := None;
      assert Next(s, DropSecret) == Some(State());
      Log(s, DropSecret);
    }

    method PassTime(dt: nat)
      requires Valid()
      modifies this`now, this`trace, this`faults
      ensures OnlyOthers()
    {
      ghost var s := State();
      now := now + dt;
      assert Versions(State()) == Versions(s);
      assert Next(s, Elapse(dt)) == Some(State());
      Log(s, Elapse(dt));
    }

    /** Somebody deletes the Secret, the clock moves, or another writer changes the configuration. */
    method Move()
      requires Valid()
      modifies this
      ensures OnlyOthers() && pc == old(pc)
    {
      var dt: nat :| true;
      var drop: bool := *;
      var overwrite: bool := *;
      if !calm && drop {
        DeleteSecret();
      } else if !calm && overwrite {
        var c: Option<Config> := *;
        Rewrite(c);
      } else {
        PassTime(dt);
      }
    }

    /** Any number of moves of the clock and of other writers. */
    method Others()
      requires Valid()
      modifies this
      ensures OnlyOthers() && pc == old(pc)
    {
      var moves: nat :| true;
      for i := 0 to moves
        invariant OnlyOthers() && pc == old(pc)
      {
        Move();
      }
    }

    /** One event of a run, whoever it belongs to. */
    method Advance(l: Label)
      requires Valid()
      modifies this
      ensures Valid() && old(trace) <= trace
    {
      ghost var s := State();
      var t := Next(State(), l);
      if t.Some? {
        TermsKept(s, l);
        secret, crt, key := t.value.secret, t.value.crt, t.value.key;
        past, config, pc := t.value.past, t.value.config, t.value.pc;
        now, nextGen := t.value.now, t.value.nextGen;
        Log(s, l);
      }
    }

    /** What another goroutine sees happen meanwhile: anything a run can do. */
    method Meanwhile()
      requires Valid()
      modifies this
      ensures Valid() && old(trace) <= trace
    {
      var events: nat :| true;
      for i := 0 to events
        invariant Valid() && old(trace) <= trace
      {
        var l: Label := *;
        Advance(l);
      }
    }

    /** A call that may return an error without effect, in calm surroundings it does not. */
    method Flaky(then_: Pc) returns (err: bool)
      requires Valid() && CanRefuse(pc) && RefusalOf(pc) == then_
      modifies this
      ensures OnlyOthers() && (err ==> faults > old(faults))
      ensures if err then pc == then_ else pc == old(pc)
    {
      Others();
      err := *;
      err := err && !calm;
      if err {
        ghost var s := State();
        pc := then_;
        Log(s, Fail);
      }
    }

    /**
     * internal/certrotator/rotator.go, loadCertFromSecret: the stored material, or nothing if
     * there is none or the Get fails.
     */
    method LoadCertFromSecret(op: Op) returns (r: Option<Material>)
      requires Valid() && pc == Load(op)
      modifies this
      ensures OnlyOthers()
      ensures r.Some? ==> r == secret && (Inv(start) ==> Whole(r.value))
      ensures faults == old(faults) ==> r == old(secret)
      ensures pc == match r
                    case None => Generate(op)
                    case Some(m) => if op.Ensure? then MakeDir(op, m) else Check(m)
    {
      var err := Flaky(Generate(op));
      if err {
        return None;
      }
      ghost var s := State();
      r := secret;
      pc := if r.None? then Generate(op) else if op.Ensure? then MakeDir(op, r.value) else Check(r.value);
      Log(s, Do);
      if Inv(start) {
        InvRun(start, trace);
      }
    }

    /** generateCert: the pair of the next unused generation, valid for 365 days from now on. */
    method GenerateCert(op: Op) returns (r: Option<Material>)
      requires Valid() && pc == Generate(op)
      modifies this
      ensures Ran() && crt == old(crt) && key == old(key)
      ensures r.Some? ==> r.value == Fresh(old(nextGen), now, LIFETIME) && nextGen == old(nextGen) + 1
      ensures faults == old(faults) ==> r.Some? && secret == old(secret) && past == old(past) && config == old(config)
      ensures pc == if r.Some? then SaveGet(op, r.value) else GiveUp(op)
    {
      var err := Flaky(GiveUp(op));
      if err {
        return None;
      }
      ghost var s := State();
      var m := Fresh(nextGen, now, LIFETIME);
      nextGen := nextGen + 1;
      pc := SaveGet(op, m);
      assert s.terms.lifetime == LIFETIME && Succeed(s) == Some(State());
      Log(s, Do);
      r := Some(m);
    }

    /** The Get of saveCertToSecret; any error reads as "there is none". */
    method FindSecret(op: Op, m: Material) returns (found: bool)
      requires Valid() && pc == SaveGet(op, m)
      modifies this
      ensures OnlyOthers() && pc == SavePut(op, m, found)
      ensures if found then secret.Some? else secret.None? || faults > old(faults)
    {
      var err := Flaky(SavePut(op, m, false));
      if err {
        return false;
      }
      ghost var s := State();
      found := secret.Some?;
      pc := SavePut(op, m, found);
      Log(s, Do);
    }

    /** Its Update or Create, which need the Secret to exist, or not to. */
    method PutSecret(op: Op, m: Material, found: bool) returns (ok: bool)
      requires Valid() && pc == SavePut(op, m, found)
      modifies this
      ensures Ran() && nextGen == old(nextGen) && crt == old(crt) && key == old(key)
      ensures ok ==> secret == Some(m)
      ensures faults == old(faults) ==> ok == (found == old(secret).Some?) && past == old(past) && config == old(config)
      ensures pc == if ok then MakeDir(op, m) else GiveUp(op)
    {
      var err := Flaky(GiveUp(op));
      if err {
        return false;
      }
      ghost var s := State();
      ok := found == secret.Some?;
      if ok {
        secret := Some(m);
      }
      pc := if ok then MakeDir(op, m) else GiveUp(op);
      Log(s, Do);
    }

    /** saveCertToSecret: Update if the Get found a Secret, Create if it returned any error. */
    method SaveCertToSecret(op: Op, m: Material) returns (ok: bool)
      requires Valid() && pc == SaveGet(op, m)
      modifies this
      ensures Ran() && nextGen == old(nextGen) && crt == old(crt) && key == old(key)
      ensures ok ==> secret == Some(m)
      ensures faults == old(faults) ==> ok && past == old(past) && config == old(config)
      ensures pc == if ok then MakeDir(op, m) else GiveUp(op)
    {
      var found := FindSecret(op, m);
      ok := PutSecret(op, m, found);
    }

    method SetFile(f: File, b: Blob)
      modifies this`crt, this`key
      ensures if f.TlsCrt? then crt == Some(b) && key == old(key) else crt == old(crt) && key == Some(b)
    {
      if f.TlsCrt? {
        crt := Some(b);
      } else {
        key := Some(b);
      }
    }

    /** The content of one of the files, and of the other one. */
    function Content(f: File): Option<Blob>
      reads this
    {
      if f.TlsCrt? then crt else key
    }

    function OtherContent(f: File): Option<Blob>
      reads this
    {
      if f.TlsCrt? then key else crt
    }

    /** Some bytes may have arrived. */
    method TearFile(op: Op, m: Material, f: File)
      requires Valid() && pc == AtFill(op, m, f)
      modifies this
      ensures Ran() && pc == old(pc) && nextGen == old(nextGen) && OtherContent(f) == old(OtherContent(f))
      ensures faults == old(faults) ==> secret == old(secret) && past == old(past) && config == old(config)
    {
      Others();
      var torn: bool := *;
      if torn {
        ghost var s := State();
        SetFile(f, Junk);
        Log(s, Partial);
      }
    }

    /** The rest of the bytes, or an error. */
    method FinishFile(op: Op, m: Material, f: File) returns (ok: bool)
      requires Valid() && pc == AtFill(op, m, f)
      modifies this
      ensures Ran() && nextGen == old(nextGen) && OtherContent(f) == old(OtherContent(f))
      ensures ok ==> Content(f) == Some(if f.TlsCrt? then m.crt else m.key)
      ensures faults == old(faults) ==> ok && secret == old(secret) && past == old(past) && config == old(config)
      ensures pc == if ok then AfterFile(op, m, f) else GiveUp(op)
    {
      var err := Flaky(GiveUp(op));
      if err {
        return false;
      }
      ghost var s := State();
      SetFile(f, if f.TlsCrt? then m.crt else m.key);
      pc := AfterFile(op, m, f);
      Log(s, Do);
      ok := true;
    }

    /** The bytes may arrive in pieces, and the write may fail after some of them. */
    method WriteBytes(op: Op, m: Material, f: File) returns (ok: bool)
      requires Valid() && pc == AtFill(op, m, f)
      modifies this
      ensures Ran() && nextGen == old(nextGen) && OtherContent(f) == old(OtherContent(f))
      ensures ok ==> Content(f) == Some(if f.TlsCrt? then m.crt else m.key)
      ensures faults == old(faults) ==> ok && secret == old(secret) && past == old(past) && config == old(config)
      ensures pc == if ok then AfterFile(op, m, f) else GiveUp(op)
    {
      TearFile(op, m, f);
      ok := FinishFile(op, m, f);
    }

    /** The file is opened and truncated. */
    method OpenFile(op: Op, m: Material, f: File) returns (ok: bool)
      requires Valid() && pc == AtOpen(op, m, f)
      modifies this
      ensures Ran() && nextGen == old(nextGen) && OtherContent(f) == old(OtherContent(f))
      ensures faults == old(faults) ==> ok && secret == old(secret) && past == old(past) && config == old(config)
      ensures pc == if ok then AtFill(op, m, f) else GiveUp(op)
    {
      var err := Flaky(GiveUp(op));
      if err {
        return false;
      }
      ghost var s := State();
      SetFile(f, Empty);
      pc := AtFill(op, m, f);
      Log(s, Do);
      ok := true;
    }

    /** os.WriteFile: open and truncate, then write. */
    method WriteFile(op: Op, m: Material, f: File) returns (ok: bool)
      requires Valid() && pc == AtOpen(op, m, f)
      modifies this
      ensures Ran() && nextGen == old(nextGen) && OtherContent(f) == old(OtherContent(f))
      ensures ok ==> Content(f) == Some(if f.TlsCrt? then m.crt else m.key)
      ensures faults == old(faults) ==> ok && secret == old(secret) && past == old(past) && config == old(config)
      ensures pc == if ok then AfterFile(op, m, f) else GiveUp(op)
    {
      ok := OpenFile(op, m, f);
      if ok {
        ok := WriteBytes(op, m, f);
      }
    }

    /** os.MkdirAll. */
    method MakeDirectory(op: Op, m: Material) returns (ok: bool)
      requires Valid() && pc == MakeDir(op, m)
      modifies this
      ensures OnlyOthers() && (faults == old(faults) ==> ok)
      ensures pc == if ok then CrtTrunc(op, m) else GiveUp(op)
    {
      var err := Flaky(GiveUp(op));
      if err {
        return false;
      }
      ghost var s := State();
      pc := CrtTrunc(op, m);
      Log(s, Do);
      ok := true;
    }

    /** writeCertToDisk: the certificate first, then the key. */
    method WriteCertToDisk(op: Op, m: Material) returns (ok: bool)
      requires Valid() && pc == MakeDir(op, m)
      modifies this
      ensures Ran() && nextGen == old(nextGen)
      ensures ok ==> crt == Some(m.crt) && key == Some(m.key)
      ensures faults == old(faults) ==> ok && secret == old(secret) && past == old(past) && config == old(config)
      ensures pc == if ok then HookGet(op, m) else GiveUp(op)
    {
      ok := MakeDirectory(op, m);
      if ok {
        ok := WriteFile(op, m, TlsCrt);
      }
      if ok {
        ok := WriteFile(op, m, TlsKey);
      }
    }

    /** The loop of patchWebhookConfigs over the webhooks of the object read. */
    static method SetBundles(hooks: array<Hook>, ca: Blob)
      modifies hooks
      ensures forall k :: 0 <= k < hooks.Length ==> hooks[k].bundle == Ours(ca) && hooks[k].rest == old(hooks[k].rest)
    {
      for i := 0 to hooks.Length
        invariant forall k :: 0 <= k < i ==> hooks[k].bundle == Ours(ca) && hooks[k].rest == old(hooks[k].rest)
        invariant forall k :: i <= k < hooks.Length ==> hooks[k] == old(hooks[k])
      {
        hooks[i] := hooks[i].(bundle := Ours(ca));
      }
    }

    /** Client.Get of the configuration: the version seen, which may be stale, or nothing for an error. */
    method GetConfig(op: Op, m: Material) returns (seen: nat, vwc: Option<Config>)
      requires Valid() && pc == HookGet(op, m)
      modifies this
      ensures OnlyOthers()
      ensures faults == old(faults) ==> vwc == config && seen == |past|
      ensures if vwc.None? then pc == GiveUp(op)
              else pc == HookPut(op, m, seen) && seen <= |past| && (past + [config])[seen] == vwc
    {
      var err := Flaky(GiveUp(op));
      if err {
        return 0, None;
      }
      ghost var s := State();
      seen :| true;
      if |past| < seen || calm {
        seen := |past|;
      }
      assert seen <= |past|;
      vwc := (past + [config])[seen];
      pc := if vwc.Some? then HookPut(op, m, seen) else GiveUp(op);
      Log(s, if seen == |past| then Do else Stale(seen));
    }

    /** Client.Update of the configuration read as version seen. */
    method Update(op: Op, m: Material, seen: nat, c: Config) returns (ok: bool)
      requires Valid() && pc == HookPut(op, m, seen)
      requires seen <= |past| && (past + [config])[seen].Some?
      requires OnlyBundles((past + [config])[seen].value, c, m.ca)
      modifies this
      ensures Ran() && nextGen == old(nextGen) && crt == old(crt) && key == old(key)
      ensures ok ==> config == Some(c) && Announced(State(), m.ca)
      ensures faults == old(faults) ==> secret == old(secret) && ok == (seen == |old(past)|)
      ensures pc == if ok then Idle else GiveUp(op)
    {
      ghost var read := (past + [config])[seen];
      var err := Flaky(GiveUp(op));
      if err {
        return false;
      }
      ghost var s := State();
      assert Versions(s)[seen] == read;
      ok := seen == |past| && config.Some?;
      SentIs(read.value, c, m.ca);
      if ok && config != Some(c) {
        past, config := past + [config], Some(c);
      }
      pc := if ok then Idle else GiveUp(op);
      Log(s, Do);
    }

    /** patchWebhookConfigs: Get, change every caBundle, Update. */
    method PatchWebhookConfigs(op: Op, m: Material) returns (ok: bool)
      requires Valid() && pc == HookGet(op, m)
      modifies this
      ensures Ran() && nextGen == old(nextGen) && crt == old(crt) && key == old(key)
      ensures ok ==> Announced(State(), m.ca)
      ensures faults == old(faults) ==> ok == old(config).Some? && secret == old(secret)
      ensures pc == if ok then Idle else GiveUp(op)
    {
      var seen, vwc := GetConfig(op, m);
      if vwc.None? {
        return false;
      }
      var hooks := new Hook[|vwc.value.hooks|](i requires 0 <= i < |vwc.value.hooks| => vwc.value.hooks[i]);
      SetBundles(hooks, m.ca);
      ok := Update(op, m, seen, vwc.value.(hooks := hooks[..]));
    }

    /**
     * generateAndSave: Secret, then files, then webhook configuration.  If it succeeds, a new
     * pair is served and trusted.
     */
    method GenerateAndSave(op: Op) returns (ok: bool)
      requires Valid() && pc == Generate(op)
      modifies this
      ensures Ran()
      ensures ok ==> Served(State()) && crt.value.gen == old(nextGen) && nextGen == old(nextGen) + 1
      ensures faults == old(faults) ==> ok == old(config).Some?
      ensures pc == if ok then Idle else GiveUp(op)
    {
      var m := GenerateCert(op);
      if m.None? {
        return false;
      }
      ok := SaveCertToSecret(op, m.value);
      if !ok {
        return;
      }
      ok := WriteCertToDisk(op, m.value);
      if !ok {
        return;
      }
      ok := PatchWebhookConfigs(op, m.value);
    }

    /**
     * ensureCert.  If it succeeds, whatever happened meanwhile, both files hold what it
     * installed and every webhook its CA, one pair unless the Secret it found was not.  If
     * there was no fault, it succeeds, and installs the Secret's pair.
     */
    method EnsureCert() returns (ok: bool)
      requires Valid() && pc == Load(Ensure)
      modifies this
      ensures Ran()
      ensures pc == if ok then Idle else Down
      ensures ok ==> exists m: Material :: Delivered(State(), m)
      ensures ok && Inv(start) ==> Served(State())
      ensures faults == old(faults) && old(config).Some? ==>
                && ok && secret.Some? && Installed(State(), secret.value)
                && (Agreed(State()) <==> old(secret).None? || Whole(old(secret).value))
    {
      var existing := LoadCertFromSecret(Ensure);
      if existing.Some? {
        ok := WriteCertToDisk(Ensure, existing.value);
        if ok {
          ok := PatchWebhookConfigs(Ensure, existing.value);
          assert ok ==> Delivered(State(), existing.value);
        }
      } else {
        ok := GenerateAndSave(Ensure);
        assert ok ==> Delivered(State(), Material(crt.value, key.value, crt.value));
      }
      if faults == old(faults) && old(config).Some? {
        EnsureUndisturbed(start, old(trace), old(State()), trace, State());
      }
    }

    /** The checks of rotateIfNeeded on the loaded certificate. */
    method NeedsRotation(m: Material) returns (due: bool)
      requires Valid() && pc == Check(m)
      modifies this
      ensures OnlyOthers()
      ensures due <==> !m.crt.Cert? || m.crt.notAfter * SECOND - now < 30 * DAY
      ensures pc == if due then Generate(Rotate) else Idle
    {
      Others();
      ghost var s := State();
      if m.crt.Empty? || m.crt.Junk? {          // pem.Decode found no block
        due := true;
      } else if !m.crt.Cert? {                  // x509.ParseCertificate failed
        due := true;
      } else {
        due := m.crt.notAfter * SECOND - now < THRESHOLD;
      }
      pc := if due then Generate(Rotate) else Idle;
      Log(s, Do);
    }

    /**
     * rotateIfNeeded.  If it succeeds, whatever happened meanwhile, either it found enough
     * time left and wrote nothing, or a new pair is served and trusted.  If there was no
     * fault it succeeds, and in the second case the Secret holds that pair too.
     */
    method RotateIfNeeded() returns (ok: bool)
      requires Valid() && pc == Load(Rotate)
      modifies this
      ensures Valid() && old(trace) <= trace && checks == old(checks) + 1
      ensures old(faults) <= faults && (calm ==> faults == old(faults))
      ensures pc == Idle
      ensures ok ==>
                || (nextGen == old(nextGen) && crt == old(crt) && key == old(key))
                || (Served(State()) && crt.value.gen == old(nextGen))
      ensures faults == old(faults) && old(config).Some? ==>
                && ok
                && (|| LeftAlone(old(State()), State())
                    || (RotationDue(old(State()), now) && Agreed(State()) && secret.value.crt.gen == old(nextGen)))
    {
      checks := checks + 1;
      var existing := LoadCertFromSecret(Rotate);
      var due := true;
      if existing.Some? {
        due := NeedsRotation(existing.value);
      }
      ok := true;
      if due {
        ok := GenerateAndSave(Rotate);
      }
      if faults == old(faults) && old(config).Some? {
        RotateUndisturbed(start, old(trace), old(State()), trace, State());
      }
    }

    /** The select statement receives a tick. */
    method Receive()
      requires Valid() && pc == Idle
      modifies this`pc, this`trace, this`faults
      ensures Valid() && old(trace) <= trace && checks == old(checks) && pc == Load(Rotate)
    {
      ghost var s := State();
      pc := Load(Rotate);
      assert Next(s, Tick) == Some(State());
      Log(s, Tick);
    }

    /** A tick; the error of rotateIfNeeded is only logged. */
    method OnTick()
      requires Valid() && pc == Idle
      modifies this
      ensures Valid() && old(trace) <= trace && checks == old(checks) + 1 && pc == Idle
    {
      Receive();
      var _ := RotateIfNeeded();
    }

    /** The select loop of Start. */
    method Loop(events: seq<Event>)
      requires Valid() && pc == Idle
      modifies this
      ensures Valid() && old(trace) <= trace
      ensures checks == old(checks) + Ticks(events)
      ensures pc == if Ticks(events) == |events| then Idle else Down
    {
      for i := 0 to |events|
        invariant Valid() && old(trace) <= trace && pc == Idle
        invariant checks == old(checks) + i
        invariant Ticks(events) == i + Ticks(events[i..])
      {
        Others();
        if events[i].Cancelled? {
          ghost var s := State();
          pc := Down;
          Log(s, Stop);
          return;
        }
        OnTick();
        assert events[i..][1..] == events[i + 1..];
      }
    }

    /**
     * Start: ensureCert once, then one rotateIfNeeded per tick until cancelled, whether or
     * not it returns an error.  events lists what the select statement receives.
     */
    method Start(events: seq<Event>) returns (ok: bool)
      requires Valid() && pc == Down
      modifies this
      ensures Valid() && old(trace) <= trace
      ensures checks == old(checks) + if ok then Ticks(events) else 0
      ensures pc == if ok && Ticks(events) == |events| then Idle else Down
    {
      ghost var s := State();
      pc := Load(Ensure);
      Log(s, Boot);
      ok := EnsureCert();
      if ok {
        Loop(events);
      }
    }
  }

  /**
   * The GetCertificate closure of internal/webhook/server.go: reads tls.crt, later tls.key,
   * without a lock; a read that overlaps a write may be torn.  A pair it returns is of one
   * generation, at least as new as every caBundle the rotator ever wrote, and not newer than
   * the Secret; and without an overlap it returns one exactly if key and certificate match.
   */
  method GetCertificate(r: Rotator) returns (g: Option<nat>)
    requires r.Valid() && Inv(r.start)
    modifies r
    ensures r.Valid() && old(r.trace) <= r.trace
    ensures g.Some? ==>
              && old(r.crt).Some? && old(r.crt).value.Cert? && old(r.crt).value.gen == g.value
              && r.key == Some(Key(g.value))
              && BundlesUpTo(Bundles(r.State()), g.value)
              && (r.secret.Some? ==> Whole(r.secret.value) && g.value <= r.secret.value.crt.gen)
    ensures !old(r.pc).CrtFill? && !r.pc.KeyFill? ==>
              (g.Some? <==> old(r.crt).Some? && old(r.crt).value.Cert? && r.key == Some(Key(old(r.crt).value.gen)))
  {
    var torn: bool := *;
    var crt := ReadFile(r.crt, torn && r.pc.CrtFill?);
    r.Meanwhile();
    torn := *;
    var key := ReadFile(r.key, torn && r.pc.KeyFill?);
    g := LoadKeyPair(crt, key);
    InvRun(r.start, r.trace);
  }
}
