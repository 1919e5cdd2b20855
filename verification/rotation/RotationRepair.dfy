/**
 * What one undisturbed ensureCert or rotateIfNeeded repairs, from any state whatever that
 * earlier failures, crashes and other writers left behind.
 */
module RotationRepair {
  import opened Prelude
  import opened RotationMachine
  import opened RotationSafety

  predicate Installed(s: Machine, m: Material) {
    && s.secret == Some(m) && s.crt == Some(m.crt) && s.key == Some(m.key)
    && (s.config.Some? ==> forall h | h in s.config.value.hooks :: h.bundle == Ours(m.ca))
  }

  /** The Secret, both files and every caBundle hold the pair of one generation. */
  predicate Agreed(s: Machine) {
    && s.secret.Some? && Whole(s.secret.value) && s.config.Some?
    && Installed(s, s.secret.value)
  }

  /** No call fails and nobody else moves; time may pass and a write may take its time. */
  predicate FaultFree(l: Label) {
    l.Do? || l.Elapse? || l.Partial?
  }

  /** The guard of rotateIfNeeded: no Secret, no certificate in it, or too little time left. */
  predicate RotationDue(s: Machine, now: int) {
    s.secret.None? || Due(s.secret.value.crt, now, s.terms.threshold)
  }

  predicate SameStores(s: Machine, t: Machine) {
    s.secret == t.secret && s.crt == t.crt && s.key == t.key && s.past == t.past && s.config == t.config
  }

  /** Why a new pair is generated. */
  predicate Called(s: Machine, t: Machine) {
    s.pc.Load? && if s.pc.op.Ensure? then s.secret.None? else RotationDue(s, t.now)
  }

  /** The pair being installed: the one ensureCert loaded, or a new one. */
  predicate Chosen(s: Machine, t: Machine, m: Material) {
    || (s.pc == Load(Ensure) && s.secret == Some(m))
    || (Called(s, t) && Whole(m) && m.crt.gen == s.nextGen
        && s.now / SECOND <= m.crt.notBefore <= t.now / SECOND
        && (s.now + s.terms.lifetime) / SECOND <= m.crt.notAfter <= (t.now + s.terms.lifetime) / SECOND)
  }

  /** A new certificate is not due at once. */
  predicate Sensible(terms: Terms) {
    terms.threshold + SECOND <= terms.lifetime
  }

  /** A rotation that found enough time left. */
  predicate LeftAlone(s: Machine, t: Machine) {
    s.pc == Load(Rotate) && SameStores(s, t) && !RotationDue(s, s.now)
  }

  /** How far a fault-free operation that started in s has got when it is in t. */
  predicate Track(s: Machine, t: Machine)
    requires s.pc.Load?
  {
    var op := s.pc.op;
    && s.now <= t.now && t.config.Some? && t.terms == s.terms
    && (!t.pc.Idle? ==> t.past == s.past && t.config == s.config)
    && match t.pc
       case Load(o) => o == op && SameStores(s, t) && t.nextGen == s.nextGen
       case Check(m) => op == Rotate && s.secret == Some(m) && SameStores(s, t) && t.nextGen == s.nextGen
       case Generate(o) => o == op && SameStores(s, t) && t.nextGen == s.nextGen && Called(s, t)
       case SaveGet(o, m) => o == op && SameStores(s, t) && Chosen(s, t, m) && Called(s, t)
       case SavePut(o, m, found) =>
         o == op && SameStores(s, t) && Chosen(s, t, m) && found == t.secret.Some?
       case MakeDir(o, m) => o == op && Chosen(s, t, m) && t.secret == Some(m)
       case CrtTrunc(o, m) => o == op && Chosen(s, t, m) && t.secret == Some(m)
       case CrtFill(o, m) => o == op && Chosen(s, t, m) && t.secret == Some(m)
       case KeyTrunc(o, m) => o == op && Chosen(s, t, m) && t.secret == Some(m) && t.crt == Some(m.crt)
       case KeyFill(o, m) => o == op && Chosen(s, t, m) && t.secret == Some(m) && t.crt == Some(m.crt)
       case HookGet(o, m) =>
         o == op && Chosen(s, t, m) && t.secret == Some(m) && t.crt == Some(m.crt) && t.key == Some(m.key)
       case HookPut(o, m, seen) =>
         && o == op && Chosen(s, t, m) && t.secret == Some(m) && t.crt == Some(m.crt) && t.key == Some(m.key)
         && seen == |t.past|
       case Idle => LeftAlone(s, t) || (t.secret.Some? && Chosen(s, t, t.secret.value) && Installed(t, t.secret.value))
       case Down => false
  }

  lemma TrackDo(s: Machine, t: Machine)
    requires s.pc.Load? && Track(s, t) && Next(t, Do).Some? && !t.pc.HookPut? && !t.pc.HookGet?
    ensures Track(s, Next(t, Do).value)
  {}

  lemma TrackHook(s: Machine, t: Machine)
    requires s.pc.Load? && Track(s, t) && (t.pc.HookPut? || t.pc.HookGet?)
    ensures Track(s, Next(t, Do).value)
  {
    assert Versions(t)[|t.past|] == t.config;
    if t.pc.HookPut? {
      var c := t.config.value;
      assert Next(t, Do).value.config == Some(c.(hooks := WithBundle(c.hooks, t.pc.m.ca)));
    }
  }

  lemma TrackNext(s: Machine, t: Machine, l: Label)
    requires s.pc.Load? && Track(s, t) && FaultFree(l) && Next(t, l).Some?
    ensures Track(s, Next(t, l).value)
  {
    if l.Do? && (t.pc.HookPut? || t.pc.HookGet?) {
      TrackHook(s, t);
    } else if l.Do? {
      TrackDo(s, t);
    }
  }

  lemma {:induction false} TrackRun(s: Machine, ls: seq<Label>)
    requires s.pc.Load? && s.config.Some?
    requires (forall l | l in ls :: FaultFree(l)) && Exec(s, ls).Some?
    ensures Track(s, Exec(s, ls).value)
    decreases |ls|
  {
    if ls == [] {
    } else {
      var ls', l := ls[..|ls| - 1], ls[|ls| - 1];
      TrackRun(s, ls');
      TrackNext(s, Exec(s, ls').value, l);
    }
  }

  // ---------- termination ----------

  /** Successful steps left until the operation returns. */
  function Rank(pc: Pc): nat {
    match pc
    case Down => 0
    case Idle => 0
    case Load(_) => 12
    case Check(_) => 11
    case Generate(_) => 10
    case SaveGet(_, _) => 9
    case SavePut(_, _, _) => 8
    case MakeDir(_, _) => 7
    case CrtTrunc(_, _) => 6
    case CrtFill(_, _) => 5
    case KeyTrunc(_, _) => 4
    case KeyFill(_, _) => 3
    case HookGet(_, _) => 2
    case HookPut(_, _, _) => 1
  }

  function Dos(ls: seq<Label>): nat {
    if ls == [] then 0 else Dos(ls[..|ls| - 1]) + if ls[|ls| - 1].Do? then 1 else 0
  }

  /** Until the operation returns it can go on, and twelve successful steps are enough. */
  lemma {:induction false} RanksDown(s: Machine, ls: seq<Label>)
    requires (forall l | l in ls :: FaultFree(l)) && Exec(s, ls).Some?
    ensures Rank(Exec(s, ls).value.pc) + Dos(ls) <= Rank(s.pc)
    ensures Next(Exec(s, ls).value, Do).Some? <==> Rank(Exec(s, ls).value.pc) > 0
    decreases |ls|
  {
    if ls == [] {
    } else {
      var ls', l := ls[..|ls| - 1], ls[|ls| - 1];
      RanksDown(s, ls');
      assert FaultFree(l);
      var t := Exec(s, ls').value;
      assert Rank(Next(t, l).value.pc) + (if l.Do? then 1 else 0) <= Rank(t.pc);
    }
  }

  /** Successful steps until the operation returns. */
  function Finish(s: Machine): Machine
    decreases Rank(s.pc)
  {
    if Rank(s.pc) == 0 then s else Finish(Succeed(s).value)
  }

  lemma {:induction false} FinishIsRun(s: Machine) returns (ls: seq<Label>)
    ensures Exec(s, ls) == Some(Finish(s)) && forall l | l in ls :: l.Do?
    decreases Rank(s.pc)
  {
    if Rank(s.pc) == 0 {
      ls := [];
    } else {
      var rest := FinishIsRun(Succeed(s).value);
      ExecSnoc(s, [], Do);
      ExecConcat(s, [Do], rest);
      ls := [Do] + rest;
    }
  }

  /** Files or configuration are being written, and the configuration read is the stored one. */
  predicate Writing(s: Machine) {
    && s.config.Some?
    && (s.pc.MakeDir? || s.pc.CrtTrunc? || s.pc.CrtFill? || s.pc.KeyTrunc? || s.pc.KeyFill? || s.pc.HookGet?
        || (s.pc.HookPut? && s.pc.seen == |s.past|))
  }

  lemma WritingNext(s: Machine)
    requires Writing(s)
    ensures var t := Succeed(s).value;
            && (t.pc.Idle? || (Writing(t) && t.pc.op == s.pc.op)) && (t.pc.Idle? <==> s.pc.HookPut?)
            && t.config.Some? && t.secret == s.secret && t.now == s.now && t.nextGen == s.nextGen && t.terms == s.terms
  {
    assert Versions(s)[|s.past|] == s.config;
  }

  // ---------- the theorems ----------

  predicate Returned(s: Machine) {
    s.pc.Idle? || s.pc.Down?
  }

  /**
   * ensureCert in any state, undisturbed: it returns without an error, and Secret, files
   * and every caBundle then agree if and only if the Secret it found was absent or held one
   * generateCert output.  In the second case it is the Secret's own pair that is installed.
   */
  lemma EnsureRepairs(s: Machine, ls: seq<Label>)
    requires s.pc == Load(Ensure) && s.config.Some?
    requires (forall l | l in ls :: FaultFree(l)) && Exec(s, ls).Some?
    requires Returned(Exec(s, ls).value)
    ensures var t := Exec(s, ls).value;
            && t.pc.Idle? && t.secret.Some? && Installed(t, t.secret.value)
            && (Agreed(t) <==> s.secret.None? || Whole(s.secret.value))
            && (s.secret.Some? ==> t.secret == s.secret)
  {
    TrackRun(s, ls);
  }

  /** No reachable state is beyond repair: the next undisturbed start heals it. */
  lemma RestartHeals(s: Machine, ls: seq<Label>)
    requires Reachable(s) && s.pc == Load(Ensure) && s.config.Some?
    requires (forall l | l in ls :: FaultFree(l)) && Exec(s, ls).Some?
    requires Returned(Exec(s, ls).value)
    ensures Exec(s, ls).value.pc.Idle? && Agreed(Exec(s, ls).value)
  {
    AlwaysOrdered(s);
    EnsureRepairs(s, ls);
  }

  /**
   * Start says that it makes sure of a valid certificate.  It leaves an unexpired one behind
   * exactly when the Secret was absent or its certificate had not expired: ensureCert does
   * not look at the date.
   */
  lemma StartServesUnexpiredIff(s: Machine, ls: seq<Label>)
    requires Reachable(s) && s.pc == Load(Ensure) && s.config.Some?
    requires (forall l | l in ls :: FaultFree(l)) && Exec(s, ls).Some?
    requires var t := Exec(s, ls).value; Returned(t) && t.now + SECOND <= s.now + s.terms.lifetime
    ensures var t := Exec(s, ls).value;
            Agreed(t) && (0 <= Left(t.secret.value.crt, t.now) <==>
                            s.secret.None? || (s.secret.value.crt.Cert? && 0 <= Left(s.secret.value.crt, t.now)))
  {
    AlwaysOrdered(s);
    TrackRun(s, ls);
  }

  /**
   * rotateIfNeeded in any state, undisturbed: either it changes no store, and only because
   * the certificate in the Secret had enough time left, or everything agrees on a new pair.
   */
  lemma RotateAllOrNothing(s: Machine, ls: seq<Label>)
    requires s.pc == Load(Rotate) && s.config.Some?
    requires (forall l | l in ls :: FaultFree(l)) && Exec(s, ls).Some?
    requires Returned(Exec(s, ls).value)
    ensures var t := Exec(s, ls).value;
            && t.pc.Idle?
            && (LeftAlone(s, t) || (RotationDue(s, t.now) && Agreed(t) && t.secret.value.crt.gen == s.nextGen))
  {
    TrackRun(s, ls);
  }

  /** When rotateIfNeeded looks at the certificate: the last moment before it has decided. */
  function CheckedAt(s: Machine, ls: seq<Label>): int {
    if ls == [] then s.now
    else
      var t := Exec(s, ls[..|ls| - 1]);
      if t.Some? && (t.value.pc.Load? || t.value.pc.Check?) then t.value.now
      else CheckedAt(s, ls[..|ls| - 1])
  }

  /** What became of a tick whose check was at the time checked. */
  predicate Decided(s: Machine, t: Machine, checked: int) {
    && (t.pc.Load? || t.pc.Check? ==> checked <= t.now)
    && (!t.pc.Load? && !t.pc.Check? ==>
          if RotationDue(s, checked) then t.pc.Idle? ==> Agreed(t)
          else t.pc.Idle? && SameStores(s, t))
  }

  lemma DecidedNext(s: Machine, t: Machine, l: Label, checked: int)
    requires s.pc == Load(Rotate) && Track(s, t) && FaultFree(l) && Next(t, l).Some?
    requires Decided(s, t, checked)
    ensures Decided(s, Next(t, l).value, if t.pc.Load? || t.pc.Check? then t.now else checked)
  {
    if l.Do? && t.pc.HookPut? {
      assert Versions(t)[|t.past|] == t.config;
      var c := t.config.value;
      assert Next(t, l).value.config == Some(c.(hooks := WithBundle(c.hooks, t.pc.m.ca)));
    }
  }

  lemma {:induction false} DecidedRun(s: Machine, ls: seq<Label>)
    requires s.pc == Load(Rotate) && s.config.Some?
    requires (forall l | l in ls :: FaultFree(l)) && Exec(s, ls).Some?
    ensures Decided(s, Exec(s, ls).value, CheckedAt(s, ls))
    decreases |ls|
  {
    if ls == [] {
    } else {
      var ls', l := ls[..|ls| - 1], ls[|ls| - 1];
      DecidedRun(s, ls');
      TrackRun(s, ls');
      DecidedNext(s, Exec(s, ls').value, l, CheckedAt(s, ls'));
    }
  }

  /**
   * Start says that a failed rotation is tried again at the next tick.  It is not: a tick
   * restores agreement exactly when there already was agreement or the certificate in the
   * Secret, at the moment of the check, calls for a rotation again.
   */
  lemma TickHealsIff(s: Machine, ls: seq<Label>)
    requires s.pc == Load(Rotate) && s.config.Some?
    requires (forall l | l in ls :: FaultFree(l)) && Exec(s, ls).Some?
    requires Returned(Exec(s, ls).value)
    ensures Agreed(Exec(s, ls).value) <==> Agreed(s) || RotationDue(s, CheckedAt(s, ls))
  {
    TrackRun(s, ls);
    DecidedRun(s, ls);
  }

  lemma ReachNext(s: Machine, l: Label)
    requires Reachable(s) && Next(s, l).Some?
    ensures Reachable(Next(s, l).value)
  {
    var s0, ls :| Initial(s0) && Exec(s0, ls) == Some(s);
    ExecSnoc(s0, ls, l);
    assert Exec(s0, ls + [l]) == Some(Next(s, l).value);
  }

  lemma ReachRun(s: Machine, ls: seq<Label>)
    requires Reachable(s) && Exec(s, ls).Some?
    ensures Reachable(Exec(s, ls).value)
  {
    var s0, before :| Initial(s0) && Exec(s0, before) == Some(s);
    ExecConcat(s0, before, ls);
    assert Exec(s0, before + ls) == Exec(s, ls);
  }

  // ---------- a start with an expired certificate ----------

  /** An undisturbed start after a further dt ends in agreement on an expired certificate. */
  predicate ServesExpired(s: Machine, dt: nat, ls: seq<Label>) {
    var b := s.(pc := Load(Ensure), now := s.now + dt);
    && (forall l | l in ls :: FaultFree(l)) && Exec(b, ls).Some?
    && var t := Exec(b, ls).value;
       t.pc.Idle? && Agreed(t) && t.secret == s.secret && Left(t.secret.value.crt, t.now) < 0
  }

  lemma {:induction false} FinishReturns(s: Machine)
    ensures Returned(Finish(s))
    decreases Rank(s.pc)
  {
    if Rank(s.pc) == 0 {
    } else {
      FinishReturns(Succeed(s).value);
    }
  }

  lemma {:induction false} FinishKeepsTime(s: Machine)
    ensures Finish(s).now == s.now
    decreases Rank(s.pc)
  {
    if Rank(s.pc) == 0 {
    } else {
      FinishKeepsTime(Succeed(s).value);
    }
  }

  lemma UndisturbedStart(s: Machine) returns (ls: seq<Label>)
    requires s.pc == Load(Ensure) && s.config.Some? && s.secret.Some? && Whole(s.secret.value)
    ensures (forall l | l in ls :: FaultFree(l)) && Exec(s, ls).Some?
    ensures var t := Exec(s, ls).value; t.pc.Idle? && Agreed(t) && t.secret == s.secret && t.now == s.now
  {
    ls := FinishIsRun(s);
    FinishReturns(s);
    FinishKeepsTime(s);
    EnsureRepairs(s, ls);
  }

  /**
   * The case that StartServesUnexpiredIff leaves: every reachable Secret gets served after
   * its expiry, if the process is down for long enough.
   */
  lemma StartMayServeExpired(s: Machine)
    requires Reachable(s) && s.pc.Down? && s.secret.Some? && s.config.Some?
    ensures exists dt, ls :: ServesExpired(s, dt, ls) && Reachable(s.(pc := Load(Ensure), now := s.now + dt))
  {
    AlwaysOrdered(s);
    var left := Left(s.secret.value.crt, s.now);
    var dt := if left < 0 then 0 else left + 1;
    ReachNext(s, Elapse(dt));
    ReachNext(s.(now := s.now + dt), Boot);
    var ls := UndisturbedStart(s.(pc := Load(Ensure), now := s.now + dt));
    assert ServesExpired(s, dt, ls);
  }

  // ---------- a rotation that the next tick does not retry ----------

  /** n successful steps. */
  function Steps(s: Machine, n: nat): Option<Machine>
    decreases n
  {
    if n == 0 then Some(s)
    else match Succeed(s) case None => None case Some(t) => Steps(t, n - 1)
  }

  lemma {:induction false} ReachSteps(s: Machine, n: nat)
    requires Reachable(s) && Steps(s, n).Some?
    ensures Reachable(Steps(s, n).value)
    decreases n
  {
    if n == 0 {
    } else {
      ReachNext(s, Do);
      ReachSteps(Succeed(s).value, n - 1);
    }
  }

  /** The Secret has been written, and nothing else. */
  function SavedOnly(s: Machine): Machine {
    var m := Fresh(s.nextGen, s.now, s.terms.lifetime);
    s.(pc := MakeDir(Rotate, m), nextGen := s.nextGen + 1, secret := Some(m))
  }

  lemma UpToTheWrite(s: Machine)
    requires s.pc.Idle? && s.secret.Some? && RotationDue(s, s.now)
    ensures Steps(s.(pc := Load(Rotate)), 5) == Some(SavedOnly(s))
  {
    var s1 := Succeed(s.(pc := Load(Rotate))).value;
    var s2 := Succeed(s1).value;
    var s3 := Succeed(s2).value;
    var s4 := Succeed(s3).value;
    assert Succeed(s4) == Some(SavedOnly(s));
    assert Steps(s4, 1) == Some(SavedOnly(s));
    assert Steps(s2, 3) == Some(SavedOnly(s));
  }

  lemma SavedDisagrees(s: Machine)
    requires Reachable(s)
    ensures !Agreed(SavedOnly(s).(pc := Load(Rotate)))
  {
    var s0, ls :| Initial(s0) && Exec(s0, ls) == Some(s);
    InitialInv(s0);
    InvRun(s0, ls);
  }

  /** A rotation that finds enough time left. */
  lemma NothingToDo(t: Machine)
    requires t.pc == Load(Rotate) && t.secret.Some? && !RotationDue(t, t.now)
    ensures Steps(t, 2) == Some(t.(pc := Idle))
  {
    var u := Succeed(t).value;
    assert Succeed(u) == Some(t.(pc := Idle));
    assert Steps(u, 1) == Some(t.(pc := Idle));
  }

  /**
   * From every reachable idle state whose certificate is due, a rotation that fails after
   * the Secret write leaves the new pair in the Secret only; the tick after it finds enough
   * time left and changes nothing.
   */
  lemma FailedRotationIsNotRetried(s: Machine)
    requires Reachable(s) && s.pc.Idle? && s.secret.Some? && s.config.Some?
    requires RotationDue(s, s.now) && Sensible(s.terms)
    ensures exists t :: && Reachable(t) && t.pc == Load(Rotate) && !Agreed(t)
                        && t.secret == Some(Fresh(s.nextGen, s.now, s.terms.lifetime))
                        && t.crt == s.crt && t.key == s.key
                        && Steps(t, 2) == Some(t.(pc := Idle))
  {
    var t := SavedOnly(s).(pc := Load(Rotate));
    ReachNext(s, Tick);
    UpToTheWrite(s);
    ReachSteps(s.(pc := Load(Rotate)), 5);
    ReachNext(SavedOnly(s), Fail);
    ReachNext(SavedOnly(s).(pc := Idle), Tick);
    SavedDisagrees(s);
    NothingToDo(t);
  }
}
