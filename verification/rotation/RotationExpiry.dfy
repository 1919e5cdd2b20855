/**
 * The expiry arithmetic of the tick loop: how many failing ticks and restarts in a row the
 * certificate in the Secret survives, exactly.
 *
 * A certificate is valid from notBefore through notAfter inclusive (section 4.1.2.5 of
 * RFC 5280).
 */
module RotationExpiry {
  import opened Prelude
  import opened RotationMachine
  import opened RotationRepair

  /**
   * A ticker of the given period.  The work on a tick up to the Secret write is done at most
   * delay after the tick was due.  A restart is over, and the new ticker runs, at most outage
   * after the time by which the next tick would have been worked on.  Between two writes (or
   * checks that found enough time left) there are at most patience failing ticks and
   * restarts, of which at most restarts are restarts.
   */
  datatype Schedule = Schedule(period: nat, delay: nat, outage: nat, patience: nat, restarts: nat)

  /**
   * A run that is being timed: when the last tick was due or the ticker was started, and how
   * many ticks failed and how many restarts there were in a row.
   */
  datatype Watch = Watch(s: Machine, due: int, fails: nat, restarts: nat)

  /** In rotateIfNeeded, the Secret not yet written. */
  predicate Ticking(pc: Pc) {
    pc.Check? || ((pc.Load? || pc.Generate? || pc.SaveGet? || pc.SavePut?) && pc.op.Rotate?)
  }

  /** Down, or in the ensureCert of a start. */
  predicate Starting(pc: Pc) {
    pc.Down? || (!pc.Idle? && !pc.Check? && pc.op.Ensure?)
  }

  /** A tick that fails, or is cut off by a crash, counts; so does a restart when it is over. */
  function Count(w: Watch, t: Machine, p: Schedule): Watch {
    if w.s.pc.Idle? && Ticking(t.pc) then Watch(t, w.due + p.period, w.fails, w.restarts)
    else if (w.s.pc.SavePut? && t.pc.MakeDir?) || (w.s.pc.Check? && t.pc.Idle?) then Watch(t, w.due, 0, 0)
    else if Ticking(w.s.pc) && !Ticking(t.pc) then Watch(t, w.due, w.fails + 1, w.restarts)
    else if Starting(w.s.pc) && t.pc.Idle? then Watch(t, t.now, w.fails, w.restarts + 1)
    else w.(s := t)
  }

  predicate Timely(w: Watch, p: Schedule) {
    var restarts := w.restarts + if Starting(w.s.pc) then 1 else 0;
    && restarts <= p.restarts && w.fails + restarts <= p.patience
    && w.due <= w.s.now <= w.due + p.period + p.delay + (if Starting(w.s.pc) then p.outage else 0)
    && (Ticking(w.s.pc) ==> w.s.now <= w.due + p.delay)
  }

  function WatchNext(w: Watch, l: Label, p: Schedule): Option<Watch> {
    match Next(w.s, l)
    case None => None
    case Some(t) => if Timely(Count(w, t, p), p) then Some(Count(w, t, p)) else None
  }

  /** The run of ls, if it keeps to the schedule at every moment. */
  function Timed(w: Watch, ls: seq<Label>, p: Schedule): Option<Watch> {
    if ls == [] then Some(w)
    else
      match Timed(w, ls[..|ls| - 1], p)
      case None => None
      case Some(v) => WatchNext(v, ls[|ls| - 1], p)
  }

  /** Timed runs are runs. */
  lemma {:induction false} TimedIsRun(w: Watch, ls: seq<Label>, p: Schedule)
    requires Timed(w, ls, p).Some?
    ensures Exec(w.s, ls) == Some(Timed(w, ls, p).value.s)
    decreases |ls|
  {
    if ls == [] {
    } else {
      TimedIsRun(w, ls[..|ls| - 1], p);
    }
  }

  /** The certificate in the Secret, if there is one, is valid. */
  predicate Valid(s: Machine) {
    s.secret.Some? ==>
      var crt := s.secret.value.crt;
      crt.Cert? && crt.notBefore * SECOND <= s.now && 0 <= Left(crt, s.now)
  }

  /** The ticker has just been started, with at least the threshold left. */
  predicate StartsWell(s: Machine) {
    s.pc.Idle? && Valid(s) && s.secret.Some? && s.terms.threshold <= Left(s.secret.value.crt, s.now)
  }

  function Started(s: Machine): Watch {
    Watch(s, s.now, 0, 0)
  }

  // ---------- what failures and restarts cost ----------

  function Min(a: int, b: int): int {
    if a <= b then a else b
  }

  /** A failed tick costs a period, a restart what passes until the new ticker runs. */
  function Spent(fails: nat, restarts: nat, p: Schedule): int {
    (fails + restarts) * p.period + restarts * (p.delay + p.outage)
  }

  /** The longest time from one write to the end of the next. */
  function Cost(p: Schedule): int {
    var restarts := Min(p.restarts, p.patience);
    (p.patience + 1) * p.period + p.delay + restarts * (p.delay + p.outage)
  }

  /** What is left, at least, after a check or a write; the encoding may cut off a second. */
  function Margin(terms: Terms): int {
    Min(terms.threshold, terms.lifetime + 1 - SECOND)
  }

  lemma SpentMore(fails: nat, restarts: nat, p: Schedule)
    ensures Spent(fails + 1, restarts, p) == Spent(fails, restarts, p) + p.period
    ensures Spent(fails, restarts + 1, p) == Spent(fails, restarts, p) + p.period + p.delay + p.outage
    ensures Spent(0, 0, p) == 0 <= Spent(fails, restarts, p)
  {
    var q := p.delay + p.outage;
    assert (fails + restarts + 1) * p.period == (fails + restarts) * p.period + p.period;
    assert (restarts + 1) * q == restarts * q + q;
  }

  lemma TimesMonotone(a: nat, b: nat, c: nat)
    requires a <= b
    ensures a * c <= b * c
  {}

  lemma OneMore(n: nat, q: nat)
    requires n > 0
    ensures n * q == (n - 1) * q + q
  {}

  lemma SpentBound(fails: nat, restarts: nat, p: Schedule)
    requires restarts <= p.restarts && fails + restarts <= p.patience
    ensures Spent(fails, restarts, p) + p.period + p.delay <= Cost(p)
  {
    TimesMonotone(fails + restarts, p.patience, p.period);
    TimesMonotone(restarts, Min(p.restarts, p.patience), p.delay + p.outage);
    assert (p.patience + 1) * p.period == p.patience * p.period + p.period;
  }

  // ---------- the invariant ----------

  /** What the certificate lasts for: the worst so far, and the tick being worked on. */
  predicate Lasts(crt: Blob, w: Watch, p: Schedule) {
    && crt.Cert? && crt.notBefore * SECOND <= w.s.now
    && w.due + Margin(w.s.terms) - Spent(w.fails, w.restarts, p) - (if Ticking(w.s.pc) then p.period else 0)
       <= crt.notAfter * SECOND
  }

  predicate NewPair(m: Material, w: Watch) {
    && m.crt.Cert? && m.crt.notBefore * SECOND <= w.s.now
    && w.due + Margin(w.s.terms) <= m.crt.notAfter * SECOND
  }

  predicate Inv(w: Watch, p: Schedule) {
    && Timely(w, p)
    && (w.s.secret.Some? ==> Lasts(w.s.secret.value.crt, w, p))
    && (w.s.pc.Check? && w.s.secret.Some? ==> w.s.secret.value == w.s.pc.m)
    && (w.s.pc.SaveGet? || w.s.pc.SavePut? ==> NewPair(w.s.pc.m, w))
  }

  /** A check that finds enough time left, or not, and a write of the Secret. */
  lemma InvDecide(w: Watch, p: Schedule)
    requires Inv(w, p) && WatchNext(w, Do, p).Some? && (w.s.pc.Check? || w.s.pc.SavePut?)
    ensures Inv(WatchNext(w, Do, p).value, p)
  {
    SpentMore(w.fails, w.restarts, p);
  }

  lemma InvGenerate(w: Watch, p: Schedule)
    requires Inv(w, p) && WatchNext(w, Do, p).Some? && w.s.pc.Generate?
    ensures Inv(WatchNext(w, Do, p).value, p)
  {
    assert (w.s.now + w.s.terms.lifetime) / SECOND * SECOND > w.s.now + w.s.terms.lifetime - SECOND;
  }

  lemma InvInstall(w: Watch, p: Schedule)
    requires Inv(w, p) && WatchNext(w, Do, p).Some?
    requires !w.s.pc.Check? && !w.s.pc.SavePut? && !w.s.pc.Generate?
    ensures Inv(WatchNext(w, Do, p).value, p)
  {
    SpentMore(w.fails, w.restarts, p);
    var t := Succeed(w.s).value;
    assert t.secret == w.s.secret && t.now == w.s.now && t.terms == w.s.terms;
  }

  lemma InvDo(w: Watch, p: Schedule)
    requires Inv(w, p) && WatchNext(w, Do, p).Some?
    ensures Inv(WatchNext(w, Do, p).value, p)
  {
    if w.s.pc.Check? || w.s.pc.SavePut? {
      InvDecide(w, p);
    } else if w.s.pc.Generate? {
      InvGenerate(w, p);
    } else {
      InvInstall(w, p);
    }
  }

  lemma InvFail(w: Watch, p: Schedule)
    requires Inv(w, p) && WatchNext(w, Fail, p).Some?
    ensures Inv(WatchNext(w, Fail, p).value, p)
  {
    SpentMore(w.fails, w.restarts, p);
  }

  lemma InvCrash(w: Watch, l: Label, p: Schedule)
    requires Inv(w, p) && WatchNext(w, l, p).Some? && l.Crash?
    ensures Inv(WatchNext(w, l, p).value, p)
  {
    SpentMore(w.fails, w.restarts, p);
  }

  /** A step of the control flow, the clock or somebody else. */
  lemma InvOther(w: Watch, l: Label, p: Schedule)
    requires Inv(w, p) && WatchNext(w, l, p).Some? && !l.Do? && !l.Fail? && !l.Crash?
    ensures Inv(WatchNext(w, l, p).value, p)
  {
    SpentMore(w.fails, w.restarts, p);
    var v := WatchNext(w, l, p).value;
    assert v.s.secret == w.s.secret || v.s.secret.None?;
    assert v.s.terms == w.s.terms;
  }

  lemma InvNext(w: Watch, l: Label, p: Schedule)
    requires Inv(w, p) && WatchNext(w, l, p).Some?
    ensures Inv(WatchNext(w, l, p).value, p)
  {
    if l.Do? {
      InvDo(w, p);
    } else if l.Fail? {
      InvFail(w, p);
    } else if l.Crash? {
      InvCrash(w, l, p);
    } else {
      InvOther(w, l, p);
    }
  }

  lemma {:induction false} InvRun(w: Watch, ls: seq<Label>, p: Schedule)
    requires Inv(w, p) && Timed(w, ls, p).Some?
    ensures Inv(Timed(w, ls, p).value, p)
    ensures Timed(w, ls, p).value.s.terms == w.s.terms
    decreases |ls|
  {
    if ls == [] {
    } else {
      var ls', l := ls[..|ls| - 1], ls[|ls| - 1];
      InvRun(w, ls', p);
      InvNext(Timed(w, ls', p).value, l, p);
      TermsKept(Timed(w, ls', p).value.s, l);
    }
  }

  lemma InvSuffices(w: Watch, p: Schedule)
    requires Inv(w, p) && Cost(p) <= Margin(w.s.terms)
    ensures Valid(w.s)
  {
    SpentMore(w.fails, w.restarts, p);
    SpentBound(w.fails, w.restarts + if Starting(w.s.pc) then 1 else 0, p);
  }

  /**
   * Whatever fails, crashes, restarts or is deleted by others: in every run that starts with
   * the threshold left and keeps to a schedule that costs no more than the margin, a stored
   * certificate is valid at every moment.
   */
  lemma NeverExpires(s: Machine, ls: seq<Label>, p: Schedule)
    requires StartsWell(s) && Timed(Started(s), ls, p).Some?
    requires Cost(p) <= Margin(s.terms)
    ensures Valid(Timed(Started(s), ls, p).value.s)
  {
    SpentMore(0, 0, p);
    InvRun(Started(s), ls, p);
    InvSuffices(Timed(Started(s), ls, p).value, p);
  }

  // ---------- the bound is exact ----------

  lemma TimedSnoc(w: Watch, ls: seq<Label>, l: Label, p: Schedule)
    requires Timed(w, ls, p).Some?
    ensures Timed(w, ls + [l], p) == WatchNext(Timed(w, ls, p).value, l, p)
  {
    assert (ls + [l])[..|ls|] == ls;
  }

  /** Waiting, at the very moment in which the last tick was due or the ticker was started. */
  predicate Rested(v: Watch, secret: Material, terms: Terms, now: int, fails: nat, restarts: nat) {
    && v.s.pc.Idle? && v.s.now == v.due == now && v.fails == fails && v.restarts == restarts
    && v.s.secret == Some(secret) && v.s.terms == terms && v.s.config.Some?
  }

  predicate ComesTo(w: Watch, ls: seq<Label>, p: Schedule, secret: Material, now: int, fails: nat, restarts: nat) {
    Timed(w, ls, p).Some? && Rested(Timed(w, ls, p).value, secret, w.s.terms, now, fails, restarts)
  }

  lemma Extend(w: Watch, ls: seq<Label>, p: Schedule, v: Watch, l: Label, v': Watch)
    requires Timed(w, ls, p) == Some(v) && WatchNext(v, l, p) == Some(v')
    ensures Timed(w, ls + [l], p) == Some(v')
  {
    TimedSnoc(w, ls, l, p);
  }

  // One step each.

  /** The watch v with the rotator at pc. */
  function At(v: Watch, pc: Pc): Watch {
    v.(s := v.s.(pc := pc))
  }

  /** The watch v later by dt. */
  function Later(v: Watch, dt: nat): Watch {
    v.(s := v.s.(now := v.s.now + dt))
  }

  lemma ElapseNext(v: Watch, p: Schedule, dt: nat)
    requires Timely(Later(v, dt), p)
    ensures WatchNext(v, Elapse(dt), p) == Some(Later(v, dt))
  {}

  /** The watch on a tick that is received the moment it is due. */
  function Ticked(v: Watch, p: Schedule): Watch {
    At(v, Load(Rotate)).(due := v.due + p.period)
  }

  lemma TickNext(v: Watch, p: Schedule)
    requires v.s.pc.Idle? && v.s.now == v.due + p.period && Timely(v, p)
    ensures WatchNext(v, Tick, p) == Some(Ticked(v, p)) && Timely(Ticked(v, p), p)
  {}

  lemma LoadFails(v: Watch, p: Schedule)
    requires v.s.pc == Load(Rotate) && Timely(v, p)
    ensures WatchNext(v, Fail, p) == Some(At(v, Generate(Rotate))) && Timely(At(v, Generate(Rotate)), p)
  {}

  lemma GenerateFails(v: Watch, p: Schedule)
    requires v.s.pc == Generate(Rotate) && Timely(v, p) && v.fails + v.restarts < p.patience
    ensures WatchNext(v, Fail, p) == Some(At(v, Idle).(fails := v.fails + 1))
  {}

  lemma CrashNext(v: Watch, p: Schedule)
    requires v.s.pc.Idle? && Timely(v, p) && v.restarts < p.restarts && v.fails + v.restarts < p.patience
    ensures WatchNext(v, Crash(false), p) == Some(At(v, Down)) && Timely(At(v, Down), p)
  {}

  lemma BootNext(v: Watch, p: Schedule)
    requires v.s.pc.Down? && Timely(v, p)
    ensures WatchNext(v, Boot, p) == Some(At(v, Load(Ensure))) && Timely(At(v, Load(Ensure)), p)
  {}

  lemma LoadNext(v: Watch, p: Schedule)
    requires v.s.pc.Load? && v.s.secret.Some? && Timely(v, p)
    ensures var m := v.s.secret.value;
            var v' := At(v, if v.s.pc.op.Ensure? then MakeDir(Ensure, m) else Check(m));
            WatchNext(v, Do, p) == Some(v') && Timely(v', p)
  {}

  lemma GenerateNext(v: Watch, p: Schedule)
    requires v.s.pc == Generate(Rotate) && Timely(v, p)
    ensures var m := Fresh(v.s.nextGen, v.s.now, v.s.terms.lifetime);
            var v' := v.(s := v.s.(pc := SaveGet(Rotate, m), nextGen := v.s.nextGen + 1));
            WatchNext(v, Do, p) == Some(v') && Timely(v', p)
  {}

  lemma SaveGetNext(v: Watch, p: Schedule, m: Material)
    requires v.s.pc == SaveGet(Rotate, m) && v.s.secret.Some? && Timely(v, p)
    ensures var v' := At(v, SavePut(Rotate, m, true)); WatchNext(v, Do, p) == Some(v') && Timely(v', p)
  {}

  lemma SavePutNext(v: Watch, p: Schedule, m: Material)
    requires v.s.pc == SavePut(Rotate, m, true) && v.s.secret.Some? && Timely(v, p)
    ensures var v' := Watch(v.s.(pc := MakeDir(Rotate, m), secret := Some(m)), v.due, 0, 0);
            WatchNext(v, Do, p) == Some(v') && Timely(v', p)
  {}

  // Several steps.

  lemma Wait(w: Watch, ls: seq<Label>, p: Schedule, v: Watch, dt: nat)
    requires Timed(w, ls, p) == Some(v) && Timely(Later(v, dt), p)
    ensures Timed(w, ls + [Elapse(dt)], p) == Some(Later(v, dt))
  {
    ElapseNext(v, p, dt);
    Extend(w, ls, p, v, Elapse(dt), Later(v, dt));
  }

  /** The watch after a period and the tick at its end. */
  function NextDay(v: Watch, p: Schedule): Watch {
    Ticked(Later(v, p.period), p)
  }

  /** A period passes, and the tick at its end is received at once. */
  lemma NextTick(w: Watch, ls: seq<Label>, p: Schedule, v: Watch) returns (ls': seq<Label>)
    requires Timed(w, ls, p) == Some(v) && v.s.pc.Idle? && v.s.now == v.due && Timely(v, p)
    ensures Timed(w, ls', p) == Some(NextDay(v, p)) && Timely(NextDay(v, p), p)
    ensures ls' == ls + [Elapse(p.period)] + [Tick]
  {
    var u := Later(v, p.period);
    Wait(w, ls, p, v, p.period);
    TickNext(u, p);
    Extend(w, ls + [Elapse(p.period)], p, u, Tick, Ticked(u, p));
    ls' := ls + [Elapse(p.period)] + [Tick];
  }

  /** A period, and a tick that cannot read the Secret. */
  lemma BlindTick(w: Watch, ls: seq<Label>, p: Schedule, v: Watch) returns (ls': seq<Label>)
    requires Timed(w, ls, p) == Some(v) && v.s.pc.Idle? && v.s.now == v.due && Timely(v, p)
    ensures var v' := At(NextDay(v, p), Generate(Rotate)); Timed(w, ls', p) == Some(v') && Timely(v', p)
  {
    var a := NextTick(w, ls, p, v);
    var u := NextDay(v, p);
    LoadFails(u, p);
    Extend(w, a, p, u, Fail, At(u, Generate(Rotate)));
    ls' := a + [Fail];
  }

  lemma FailHere(w: Watch, ls: seq<Label>, p: Schedule, v: Watch)
    requires Timed(w, ls, p) == Some(At(v, Generate(Rotate))) && Timely(At(v, Generate(Rotate)), p)
    requires v.fails + v.restarts < p.patience
    ensures Timed(w, ls + [Fail], p) == Some(At(v, Idle).(fails := v.fails + 1))
  {
    GenerateFails(At(v, Generate(Rotate)), p);
    Extend(w, ls, p, At(v, Generate(Rotate)), Fail, At(v, Idle).(fails := v.fails + 1));
  }

  /** One period in which the rotation fails in generateCert. */
  lemma FailingDay(w: Watch, ls: seq<Label>, p: Schedule, m: Material, now: int, fails: nat) returns (ls': seq<Label>)
    requires ComesTo(w, ls, p, m, now, fails, 0) && fails < p.patience
    ensures ComesTo(w, ls', p, m, now + p.period, fails + 1, 0)
  {
    var v := Timed(w, ls, p).value;
    var a := BlindTick(w, ls, p, v);
    var u := NextDay(v, p);
    assert u.fails == fails && u.restarts == 0 && u.due == u.s.now == now + p.period;
    FailHere(w, a, p, u);
    ls' := a + [Fail];
  }

  lemma {:induction false} FailingDays(w: Watch, ls: seq<Label>, p: Schedule, m: Material, now: int, n: nat)
    returns (ls': seq<Label>)
    requires ComesTo(w, ls, p, m, now, 0, 0) && n <= p.patience
    ensures ComesTo(w, ls', p, m, now + n * p.period, n, 0)
    decreases n
  {
    if n == 0 {
      ls' := ls;
    } else {
      var before := FailingDays(w, ls, p, m, now, n - 1);
      OneMore(n, p.period);
      ls' := FailingDay(w, before, p, m, now + (n - 1) * p.period, n - 1);
    }
  }

  /** v' is v after the files and the configuration have been written without a fault, in no time. */
  predicate AfterInstall(v: Watch, op: Op, v': Watch) {
    && v'.s.pc.Idle? && v'.s.secret == v.s.secret && v'.s.now == v.s.now && v'.s.terms == v.s.terms
    && v'.s.config.Some? && v'.fails == v.fails
    && if op.Ensure? then v'.due == v.s.now && v'.restarts == v.restarts + 1
       else v'.due == v.due && v'.restarts == v.restarts
  }

  lemma InstallStep(v: Watch, p: Schedule)
    requires Writing(v.s) && Timely(v, p)
    ensures var v' := WatchNext(v, Do, p);
            && v'.Some? && Timely(v'.value, p)
            && if v.s.pc.HookPut? then AfterInstall(v, v.s.pc.op, v'.value)
               else Writing(v'.value.s) && v'.value.s.pc.op == v.s.pc.op && Rank(v'.value.s.pc) < Rank(v.s.pc)
                    && v'.value == v.(s := v'.value.s) && v'.value.s.secret == v.s.secret
                    && v'.value.s.now == v.s.now && v'.value.s.terms == v.s.terms
  {
    WritingNext(v.s);
  }

  /** The steps of writeCertToDisk and patchWebhookConfigs from v on. */
  lemma {:induction false} Install(w: Watch, ls: seq<Label>, p: Schedule, v: Watch) returns (ls': seq<Label>)
    requires Timed(w, ls, p) == Some(v) && Writing(v.s) && Timely(v, p)
    ensures Timed(w, ls', p).Some? && AfterInstall(v, v.s.pc.op, Timed(w, ls', p).value)
    ensures forall l | l in ls' :: l in ls || l.Do?
    decreases Rank(v.s.pc)
  {
    InstallStep(v, p);
    Extend(w, ls, p, v, Do, WatchNext(v, Do, p).value);
    ls' := ls + [Do];
    if v.s.pc.HookPut? {
    } else {
      ls' := Install(w, ls', p, WatchNext(v, Do, p).value);
    }
  }

  /** A crash just before the next tick is worked on, and the outage. */
  lemma Outage(w: Watch, ls: seq<Label>, p: Schedule, v: Watch) returns (ls': seq<Label>)
    requires Timed(w, ls, p) == Some(v) && v.s.pc.Idle? && v.s.now == v.due && Timely(v, p)
    requires v.restarts < p.restarts && v.fails + v.restarts < p.patience
    ensures var v' := Later(At(Later(v, p.period + p.delay), Down), p.outage);
            Timed(w, ls', p) == Some(v') && Timely(v', p)
  {
    var dt := p.period + p.delay;
    var u := Later(v, dt);
    Wait(w, ls, p, v, dt);
    CrashNext(u, p);
    Extend(w, ls + [Elapse(dt)], p, u, Crash(false), At(u, Down));
    Wait(w, ls + [Elapse(dt)] + [Crash(false)], p, At(u, Down), p.outage);
    ls' := ls + [Elapse(dt)] + [Crash(false)] + [Elapse(p.outage)];
  }

  lemma BootAndLoad(w: Watch, ls: seq<Label>, p: Schedule, v: Watch) returns (ls': seq<Label>)
    requires Timed(w, ls, p) == Some(v) && v.s.pc.Down? && v.s.secret.Some? && Timely(v, p)
    ensures var v' := At(v, MakeDir(Ensure, v.s.secret.value)); Timed(w, ls', p) == Some(v') && Timely(v', p)
  {
    var u := At(v, Load(Ensure));
    BootNext(v, p);
    Extend(w, ls, p, v, Boot, u);
    LoadNext(u, p);
    Extend(w, ls + [Boot], p, u, Do, At(u, MakeDir(Ensure, v.s.secret.value)));
    ls' := ls + [Boot] + [Do];
  }

  /** The longest restart. */
  lemma Restart(w: Watch, ls: seq<Label>, p: Schedule, m: Material, now: int, fails: nat, restarts: nat)
    returns (ls': seq<Label>)
    requires ComesTo(w, ls, p, m, now, fails, restarts)
    requires restarts < p.restarts && fails + restarts < p.patience
    ensures ComesTo(w, ls', p, m, now + p.period + p.delay + p.outage, fails, restarts + 1)
  {
    var v := Timed(w, ls, p).value;
    var down := Outage(w, ls, p, v);
    var loaded := BootAndLoad(w, down, p, Timed(w, down, p).value);
    ls' := Install(w, loaded, p, Timed(w, loaded, p).value);
  }

  lemma {:induction false} Restarts(w: Watch, ls: seq<Label>, p: Schedule, m: Material, now: int, fails: nat, n: nat)
    returns (ls': seq<Label>)
    requires ComesTo(w, ls, p, m, now, fails, 0) && n <= p.restarts && fails + n <= p.patience
    ensures ComesTo(w, ls', p, m, now + n * (p.period + p.delay + p.outage), fails, n)
    decreases n
  {
    var q := p.period + p.delay + p.outage;
    if n == 0 {
      ls' := ls;
    } else {
      var before := Restarts(w, ls, p, m, now, fails, n - 1);
      OneMore(n, q);
      ls' := Restart(w, before, p, m, now + (n - 1) * q, fails, n - 1);
    }
  }

  /** A last period, at the end of which the tick is worked on with the full delay. */
  lemma LateDay(w: Watch, ls: seq<Label>, p: Schedule, m: Material, now: int, fails: nat, restarts: nat)
    returns (ls': seq<Label>)
    requires ComesTo(w, ls, p, m, now, fails, restarts) && restarts <= p.restarts && fails + restarts <= p.patience
    ensures Timed(w, ls', p).Some?
    ensures var s := Timed(w, ls', p).value.s; s.secret == Some(m) && s.now == now + p.period + p.delay
  {
    var v := Timed(w, ls, p).value;
    var a := NextTick(w, ls, p, v);
    Wait(w, a, p, NextDay(v, p), p.delay);
    ls' := a + [Elapse(p.delay)];
  }

  /** A new pair is generated and saved, in no time. */
  lemma SaveNew(w: Watch, ls: seq<Label>, p: Schedule, v: Watch) returns (ls': seq<Label>)
    requires Timed(w, ls, p) == Some(v) && v.s.pc == Generate(Rotate) && v.s.secret.Some? && Timely(v, p)
    ensures var m := Fresh(v.s.nextGen, v.s.now, v.s.terms.lifetime);
            var v' := Watch(v.s.(pc := MakeDir(Rotate, m), secret := Some(m), nextGen := v.s.nextGen + 1), v.due, 0, 0);
            Timed(w, ls', p) == Some(v') && Timely(v', p)
    ensures ls' == ls + [Do] + [Do] + [Do]
  {
    var m := Fresh(v.s.nextGen, v.s.now, v.s.terms.lifetime);
    var a := v.(s := v.s.(pc := SaveGet(Rotate, m), nextGen := v.s.nextGen + 1));
    var b := At(a, SavePut(Rotate, m, true));
    GenerateNext(v, p);
    Extend(w, ls, p, v, Do, a);
    SaveGetNext(a, p, m);
    Extend(w, ls + [Do], p, a, Do, b);
    SavePutNext(b, p, m);
    Extend(w, ls + [Do] + [Do], p, b, Do, Watch(b.s.(pc := MakeDir(Rotate, m), secret := Some(m)), v.due, 0, 0));
    ls' := ls + [Do] + [Do] + [Do];
  }

  /** A renewal without a fault and in no time. */
  lemma Renew(w: Watch, ls: seq<Label>, p: Schedule, v: Watch) returns (ls': seq<Label>)
    requires Timed(w, ls, p) == Some(v) && Timely(v, p)
    requires v.s.pc == Generate(Rotate) && v.s.secret.Some? && v.s.config.Some?
    ensures Timed(w, ls', p).Some?
    ensures var m := Fresh(v.s.nextGen, v.s.now, v.s.terms.lifetime);
            AfterInstall(Watch(v.s.(secret := Some(m)), v.due, 0, 0), Rotate, Timed(w, ls', p).value)
    ensures forall l | l in ls' :: l in ls || l.Do?
  {
    var a := SaveNew(w, ls, p, v);
    ls' := Install(w, a, p, Timed(w, a, p).value);
  }

  lemma RenewedDay(w: Watch, ls: seq<Label>, p: Schedule, v: Watch) returns (ls': seq<Label>)
    requires Timed(w, ls, p) == Some(v) && Timely(v, p)
    requires v.s.pc.Idle? && v.s.now == v.due && v.s.secret.Some? && v.s.config.Some?
    ensures Timed(w, ls', p).Some?
    ensures var u, v' := NextDay(v, p), Timed(w, ls', p).value;
            var m := Fresh(v.s.nextGen, u.s.now, v.s.terms.lifetime);
            AfterInstall(Watch(u.s.(secret := Some(m)), u.due, 0, 0), Rotate, v')
  {
    var a := BlindTick(w, ls, p, v);
    ls' := Renew(w, a, p, At(NextDay(v, p), Generate(Rotate)));
  }

  /** A tick that renews the certificate, in no time, because it cannot read the Secret. */
  lemma RenewalDay(w: Watch, ls: seq<Label>, p: Schedule, m: Material, now: int) returns (m': Material, ls': seq<Label>)
    requires ComesTo(w, ls, p, m, now, 0, 0)
    ensures ComesTo(w, ls', p, m', now + p.period, 0, 0)
    ensures m'.crt.Cert? && m'.crt.notAfter == (now + p.period + w.s.terms.lifetime) / SECOND
  {
    var v := Timed(w, ls, p).value;
    m' := Fresh(v.s.nextGen, now + p.period, v.s.terms.lifetime);
    ls' := RenewedDay(w, ls, p, v);
  }

  lemma CostIs(fails: nat, restarts: nat, p: Schedule)
    requires restarts == Min(p.restarts, p.patience) && fails == p.patience - restarts
    ensures fails * p.period + restarts * (p.period + p.delay + p.outage) + p.period + p.delay == Cost(p)
  {
    var q := p.delay + p.outage;
    assert restarts * (p.period + q) == restarts * p.period + restarts * q;
    assert fails * p.period + restarts * p.period == p.patience * p.period;
    assert (p.patience + 1) * p.period == p.patience * p.period + p.period;
  }

  /** As many failing ticks and restarts as the schedule allows, and a late tick. */
  lemma WorstCase(w: Watch, ls: seq<Label>, p: Schedule, m: Material, now: int) returns (ls': seq<Label>)
    requires ComesTo(w, ls, p, m, now, 0, 0)
    ensures Timed(w, ls', p).Some?
    ensures var s := Timed(w, ls', p).value.s; s.secret == Some(m) && s.now == now + Cost(p)
  {
    var restarts := Min(p.restarts, p.patience);
    var fails := p.patience - restarts;
    var a := FailingDays(w, ls, p, m, now, fails);
    var then_ := now + fails * p.period;
    var b := Restarts(w, a, p, m, then_, fails, restarts);
    ls' := LateDay(w, b, p, m, then_ + restarts * (p.period + p.delay + p.outage), fails, restarts);
    CostIs(fails, restarts, p);
  }

  lemma {:induction false} ExecKeepsTerms(s: Machine, ls: seq<Label>)
    requires Exec(s, ls).Some?
    ensures Exec(s, ls).value.terms == s.terms
    decreases |ls|
  {
    if ls == [] {
    } else {
      ExecKeepsTerms(s, ls[..|ls| - 1]);
      TermsKept(Exec(s, ls[..|ls| - 1]).value, ls[|ls| - 1]);
    }
  }

  /** Every time and every date with the threshold left is reached by a first start. */
  lemma FirstStart(terms: Terms, now: int, notAfter: int) returns (s: Machine)
    requires terms.threshold <= notAfter * SECOND - now
    ensures Reachable(s) && StartsWell(s) && s.terms == terms && s.now == now && s.config.Some?
    ensures s.secret.value.crt.notAfter == notAfter
  {
    var crt := Cert(0, now / SECOND, notAfter);
    var m := Material(crt, Key(0), crt);
    var s0 := Machine(Some(m), None, None, [], Some(Config([], 0)), Down, now, 1, terms);
    assert Initial(s0) by {
      assert Versions(s0) == [Some(Config([], 0))];
    }
    assert Exec(s0, []) == Some(s0);
    ReachNext(s0, Boot);
    var ls := UndisturbedStart(s0.(pc := Load(Ensure)));
    ReachRun(s0.(pc := Load(Ensure)), ls);
    ExecKeepsTerms(s0.(pc := Load(Ensure)), ls);
    s := Exec(s0.(pc := Load(Ensure)), ls).value;
  }

  predicate Safe(s: Machine, ls: seq<Label>, p: Schedule) {
    StartsWell(s) && Timed(Started(s), ls, p).Some? ==> Valid(Timed(Started(s), ls, p).value.s)
  }

  /** If the schedule costs more than the threshold, some run expires before any renewal. */
  lemma ExpiresBeforeRenewal(terms: Terms, p: Schedule) returns (s: Machine, ls: seq<Label>)
    requires Cost(p) > terms.threshold
    ensures Reachable(s) && s.terms == terms && !Safe(s, ls, p)
  {
    s := FirstStart(terms, 0 - terms.threshold as int, 0);
    assert ComesTo(Started(s), [], p, s.secret.value, s.now, 0, 0);
    ls := WorstCase(Started(s), [], p, s.secret.value, s.now);
  }

  lemma RenewedWorstCase(s: Machine, p: Schedule) returns (ls: seq<Label>)
    requires s.secret.Some? && ComesTo(Started(s), [], p, s.secret.value, s.now, 0, 0)
    ensures Timed(Started(s), ls, p).Some?
    ensures var t := Timed(Started(s), ls, p).value.s;
            && t.now == s.now + p.period + Cost(p) && t.secret.Some? && t.secret.value.crt.Cert?
            && t.secret.value.crt.notAfter == (s.now + p.period + s.terms.lifetime) / SECOND
  {
    var m, renewed := RenewalDay(Started(s), [], p, s.secret.value, s.now);
    ls := WorstCase(Started(s), renewed, p, m, s.now + p.period);
  }

  /** If it costs more than a certificate lasts, some run expires after a renewal. */
  lemma ExpiresAfterRenewal(terms: Terms, p: Schedule) returns (s: Machine, ls: seq<Label>)
    requires Cost(p) > terms.lifetime + 1 - SECOND
    ensures Reachable(s) && s.terms == terms && !Safe(s, ls, p)
  {
    var now := SECOND - 1 - terms.lifetime - p.period;
    s := FirstStart(terms, now, terms.threshold / SECOND + 2);
    assert ComesTo(Started(s), [], p, s.secret.value, now, 0, 0);
    ls := RenewedWorstCase(s, p);
    assert (now + p.period + terms.lifetime) / SECOND == 0;
  }

  ghost predicate AlwaysSafe(terms: Terms, p: Schedule) {
    forall s, ls | Reachable(s) && s.terms == terms :: Safe(s, ls, p)
  }

  /**
   * No run of the schedule from a reachable good start ever sees an expired certificate in
   * the Secret, exactly if the schedule costs no more than the margin.
   */
  lemma NeverExpiresIff(terms: Terms, p: Schedule)
    ensures AlwaysSafe(terms, p) <==> Cost(p) <= Margin(terms)
  {
    if Cost(p) <= Margin(terms) {
      forall s, ls | Reachable(s) && s.terms == terms ensures Safe(s, ls, p) {
        if StartsWell(s) && Timed(Started(s), ls, p).Some? {
          NeverExpires(s, ls, p);
        }
      }
    } else if Cost(p) > terms.threshold {
      var s, ls := ExpiresBeforeRenewal(terms, p);
      assert !Safe(s, ls, p);
    } else {
      var s, ls := ExpiresAfterRenewal(terms, p);
      assert !Safe(s, ls, p);
    }
  }

  lemma CostByKind(p: Schedule)
    ensures p.restarts == 0 ==> Cost(p) == (p.patience + 1) * p.period + p.delay
    ensures p.restarts >= p.patience && p.outage == 0 ==> Cost(p) == (p.patience + 1) * (p.period + p.delay)
  {
    var n := p.patience + 1;
    assert n * (p.period + p.delay) == n * p.period + n * p.delay;
    assert n * p.delay == p.patience * p.delay + p.delay;
    if p.restarts >= p.patience && p.outage == 0 {
      assert Min(p.restarts, p.patience) == p.patience && p.delay + p.outage == p.delay;
    }
  }

  /** Failing ticks alone cost a period each; restarts may delay the work every time. */
  lemma NeverExpiresByKind(terms: Terms, p: Schedule)
    ensures p.restarts == 0 ==>
              (AlwaysSafe(terms, p) <==> (p.patience + 1) * p.period + p.delay <= Margin(terms))
    ensures p.restarts >= p.patience && p.outage == 0 ==>
              (AlwaysSafe(terms, p) <==> (p.patience + 1) * (p.period + p.delay) <= Margin(terms))
  {
    NeverExpiresIff(terms, p);
    CostByKind(p);
  }

  /**
   * The code's numbers: without restarts the 24h ticker survives 28 failing ticks in a row
   * with any delay up to a full day, and 29 only if the work takes no time at all; it survives
   * 28 failing ticks or restarts if 29 delays and 28 outages fit into a day.
   */
  lemma DailyTicker(delay: nat, outage: nat)
    ensures AlwaysSafe(CODE, Schedule(DAY, delay, outage, 28, 0)) <==> delay <= DAY
    ensures AlwaysSafe(CODE, Schedule(DAY, delay, outage, 29, 0)) <==> delay == 0
    ensures AlwaysSafe(CODE, Schedule(DAY, delay, outage, 28, 28)) <==> 29 * delay + 28 * outage <= DAY
  {
    NeverExpiresIff(CODE, Schedule(DAY, delay, outage, 28, 0));
    NeverExpiresIff(CODE, Schedule(DAY, delay, outage, 29, 0));
    NeverExpiresIff(CODE, Schedule(DAY, delay, outage, 28, 28));
  }
}
