/**
 * When the controller has nothing left to do, the object is as Reconcile wants it, although
 * it reads a stale cache and swallows failed status writes; and it gets there.
 */
module PolicyConvergence {
  import opened Api
  import opened Prelude
  import opened PolicyMachine

  // ---------- conditions and finalizers ----------

  lemma {:induction false} FindIs(cs: seq<Condition>, kind: string, i: nat)
    requires i <= |cs|
    requires forall k :: 0 <= k < i ==> cs[k].kind != kind
    requires i < |cs| ==> cs[i].kind == kind
    ensures Find(cs, kind) == i
  {
    if i == 0 {
    } else {
      FindIs(cs[1..], kind, i - 1);
    }
  }

  /** Setting an equal Ready condition again changes nothing, not even its time. */
  lemma MarkReadyMarks(cs: seq<Condition>, now: int)
    ensures Marked(MarkReady(cs, now))
    ensures Marked(cs) <==> MarkReady(cs, now) == cs
    ensures |cs| <= |MarkReady(cs, now)| <= |cs| + 1
    ensures forall k :: 0 <= k < |cs| && cs[k].kind != "Ready" ==> MarkReady(cs, now)[k] == cs[k]
  {
    var i := Find(cs, "Ready");
    FindIs(MarkReady(cs, now), "Ready", i);
  }

  lemma {:induction false} OthersRemoves(fs: seq<string>)
    ensures FINALIZER !in Others(fs)
    ensures FINALIZER !in fs <==> Others(fs) == fs
    ensures forall f :: f in Others(fs) ==> f in fs
    ensures |Others(fs)| <= |fs|
  {
    if fs == [] {
    } else {
      OthersRemoves(fs[1..]);
      assert fs == [fs[0]] + fs[1..];
      if fs[0] == FINALIZER {
        assert |Others(fs)| < |fs|;
      } else {
        assert Others(fs)[1..] == Others(fs[1..]);
      }
    }
  }

  lemma {:induction false} OthersAppend(a: seq<string>, b: seq<string>)
    ensures Others(a + b) == Others(a) + Others(b)
  {
    if a == [] {
      assert a + b == b;
    } else {
      OthersAppend(a[1..], b);
      assert (a + b)[1..] == a[1..] + b && (a + b)[0] == a[0];
      assert [a[0]] + (Others(a[1..]) + Others(b)) == ([a[0]] + Others(a[1..])) + Others(b);
    }
  }

  lemma OthersKept(fs: seq<string>)
    ensures Others(AddFinalizer(fs)) == Others(fs)
    ensures fs <= AddFinalizer(fs)
    ensures Others(Others(fs)) == Others(fs)
    ensures FINALIZER in AddFinalizer(fs)
  {
    OthersRemoves(fs);
    OthersRemoves(Others(fs));
    OthersAppend(fs, [FINALIZER]);
    assert Others([FINALIZER]) == [];
  }

  /**
   * The first condition of a kind has been set in place, its time moved only with its status;
   * or there was none, and it has been appended.  All other conditions are as they were.
   */
  predicate IsSet(before: seq<Condition>, after: seq<Condition>, i: nat, c: Condition)
    requires i <= |before|
  {
    if i == |before| then after == before + [c]
    else
      && |after| == |before| && (forall k :: 0 <= k < |before| && k != i ==> after[k] == before[k])
      && after[i].kind == c.kind && after[i].status == c.status
      && after[i].reason == c.reason && after[i].message == c.message
      && after[i].since == if before[i].status == c.status then before[i].since else c.since
  }

  /** meta.SetStatusCondition, said without a search. */
  lemma SetStatusConditionSets(cs: seq<Condition>, c: Condition, i: nat)
    requires i <= |cs| && (forall k :: 0 <= k < i ==> cs[k].kind != c.kind) && (i < |cs| ==> cs[i].kind == c.kind)
    ensures IsSet(cs, SetStatusCondition(cs, c), i, c)
  {
    FindIs(cs, c.kind, i);
  }

  /** The conditions after Ready=True has been reported at time now. */
  predicate ShowsReady(before: seq<Condition>, after: seq<Condition>, now: int) {
    exists i :: && 0 <= i <= |before|
                && (forall k :: 0 <= k < i ==> before[k].kind != "Ready")
                && (i < |before| ==> before[i].kind == "Ready")
                && IsSet(before, after, i, Condition("Ready", "True", "Reconciled", "Policy is active", now))
  }

  /** Reporting Ready: an appended condition, or one whose status changes, carries the time. */
  lemma MarkReadyShows(cs: seq<Condition>, now: int)
    ensures ShowsReady(cs, MarkReady(cs, now), now)
  {
    var i := Find(cs, "Ready");
    SetStatusConditionSets(cs, Condition("Ready", "True", "Reconciled", "Policy is active", now), i);
  }

  // ---------- the invariant ----------

  /** What Reconcile wants the object to be. */
  predicate Settled(o: Option<Policy>) {
    o.Some? ==>
      if o.value.deleting then FINALIZER !in o.value.finalizers
      else FINALIZER in o.value.finalizers && Marked(o.value.conditions)
  }

  /** The cache is up to date and no event, queue entry or retry is outstanding. */
  predicate NothingPending(s: Machine) {
    s.cache == Latest(s) && s.notices == 0 && !s.dirty && !s.retry
  }

  predicate Calm(s: Machine) {
    NothingPending(s) && s.pc.Idle?
  }

  /** The write in progress is the one its snapshot called for. */
  predicate Snapshot(s: Machine) {
    Writing(s.pc) ==>
      && s.pc.seen <= s.cache <= Latest(s)
      && Versions(s)[s.pc.seen].Some?
      && s.pc == Decide(s.pc.seen, Versions(s)[s.pc.seen])
      && (s.pc.seen != s.cache ==> s.notices > 0 || s.dirty)
  }

  predicate Shape(s: Machine) {
    && s.cache <= Latest(s)
    && (s.stored.Some? ==> Settle(s.stored.value) == s.stored)
    && (s.dropped ==> s.stored.Some? && !s.stored.value.deleting
                      && FINALIZER in s.stored.value.finalizers && !Marked(s.stored.value.conditions))
  }

  predicate Inv(s: Machine) {
    Shape(s) && Snapshot(s) && (Calm(s) ==> (Settled(s.stored) <==> !s.dropped))
  }

  // ---------- preservation ----------

  /** An accepted write either makes a new version or finds the object settled. */
  lemma WrittenEffect(s: Machine, now: int)
    requires Inv(s) && Accepted(s)
    ensures var t := Written(s, now);
            && Shape(t)
            && (t.stored == s.stored ==> t == s && Settled(s.stored) && !s.dropped)
            && (t.stored != s.stored ==> t.past == Versions(s))
  {
    assert Versions(s)[|s.past|] == s.stored;
    var p := s.stored.value;
    MarkReadyMarks(p.conditions, now);
    OthersRemoves(p.finalizers);
    OthersKept(p.finalizers);
    if s.pc.Adding? {
      assert Outgoing(s.pc, p, now).finalizers != p.finalizers;
    }
  }

  lemma InvWrite(s: Machine, l: Label)
    requires Inv(s) && Next(s, l).Some? && (l.Write? || l.WriteTimeout? || l.WriteError?)
    ensures Inv(Next(s, l).value)
  {
    assert Versions(s)[|s.past|] == s.stored;
    if Accepted(s) && !l.WriteError? {
      WrittenEffect(s, l.now);
    }
  }

  lemma InvOutside(s: Machine, l: Label)
    requires Inv(s) && Next(s, l).Some? && (l.Create? || l.Edit? || l.Delete?)
    ensures Inv(Next(s, l).value)
  {
    VersionsKept(s, l);
  }

  lemma InvNext(s: Machine, l: Label)
    requires Inv(s) && Next(s, l).Some?
    ensures Inv(Next(s, l).value)
  {
    if l.Create? || l.Edit? || l.Delete? {
      InvOutside(s, l);
    } else if l.Write? || l.WriteTimeout? || l.WriteError? {
      InvWrite(s, l);
    } else {
      assert Versions(s)[|s.past|] == s.stored;
    }
  }

  lemma {:induction false} InvRun(s: Machine, ls: seq<Label>)
    requires Inv(s) && Exec(s, ls).Some?
    ensures Inv(Exec(s, ls).value)
    decreases |ls|
  {
    if ls == [] {
    } else {
      InvRun(s, ls[..|ls| - 1]);
      InvNext(Exec(s, ls[..|ls| - 1]).value, ls[|ls| - 1]);
    }
  }

  ghost predicate Reachable(s: Machine) {
    exists ls :: Exec(INITIAL, ls) == Some(s)
  }

  lemma ReachableInv(s: Machine)
    requires Reachable(s)
    ensures Inv(s)
  {
    var ls :| Exec(INITIAL, ls) == Some(s);
    InvRun(INITIAL, ls);
  }

  /** What a user sees of a settled object. */
  predicate ReportedReady(o: Policy) {
    && "deployguard.io/policy-finalizer" in o.finalizers
    && exists i :: && 0 <= i < |o.conditions| && o.conditions[i].kind == "Ready" && o.conditions[i].status == "True"
                   && o.conditions[i].reason == "Reconciled" && o.conditions[i].message == "Policy is active"
                   && forall k :: 0 <= k < i ==> o.conditions[k].kind != "Ready"
  }

  /** A live object is settled exactly if it has the finalizer and its Ready condition is True. */
  lemma SettledMeans(o: Policy)
    ensures o.deleting ==> (Settled(Some(o)) <==> "deployguard.io/policy-finalizer" !in o.finalizers)
    ensures !o.deleting ==> (Settled(Some(o)) <==> ReportedReady(o))
  {
    var i := Find(o.conditions, "Ready");
    if ReportedReady(o) {
      var j :| && 0 <= j < |o.conditions| && o.conditions[j].kind == "Ready" && o.conditions[j].status == "True"
               && o.conditions[j].reason == "Reconciled" && o.conditions[j].message == "Policy is active"
               && forall k :: 0 <= k < j ==> o.conditions[k].kind != "Ready";
      FindIs(o.conditions, "Ready", j);
    }
    if Marked(o.conditions) {
      assert o.conditions[i] == Condition("Ready", "True", "Reconciled", "Policy is active", o.conditions[i].since);
    }
  }

  // ---------- convergence ----------

  /**
   * Whenever the queue is empty, all watch events are delivered and no reconcile is running,
   * a live policy has the finalizer and Ready=True and a deleting one no longer has our
   * finalizer: exactly when no status write of the stored version was lost otherwise than
   * by a conflict.  A swallowed conflict does no harm.
   */
  lemma CalmMeansSettledIff(s: Machine)
    requires Reachable(s) && Calm(s)
    ensures Settled(s.stored) <==> !s.dropped
    ensures !s.dropped && s.stored.Some? ==>
              if s.stored.value.deleting then "deployguard.io/policy-finalizer" !in s.stored.value.finalizers
              else ReportedReady(s.stored.value)
    ensures s.dropped ==> s.stored.Some? && !Marked(s.stored.value.conditions)
  {
    ReachableInv(s);
    if s.stored.Some? {
      SettledMeans(s.stored.value);
    }
  }

  /** Status().Update fails by conflict only. */
  predicate OnlyConflicts(s: Machine, ls: seq<Label>) {
    ls == [] ||
    var ls' := ls[..|ls| - 1];
    && OnlyConflicts(s, ls')
    && (ls[|ls| - 1].WriteError? && Exec(s, ls').Some? ==> !Exec(s, ls').value.pc.Marking?)
  }

  lemma DroppedNext(s: Machine, l: Label)
    requires Next(s, l).Some? && !s.dropped && !(l.WriteError? && s.pc.Marking?)
    ensures !Next(s, l).value.dropped
  {}

  lemma {:induction false} NeverDropped(s: Machine, ls: seq<Label>)
    requires Exec(s, ls).Some? && OnlyConflicts(s, ls) && !s.dropped
    ensures !Exec(s, ls).value.dropped
    decreases |ls|
  {
    if ls == [] {
    } else {
      NeverDropped(s, ls[..|ls| - 1]);
      DroppedNext(Exec(s, ls[..|ls| - 1]).value, ls[|ls| - 1]);
    }
  }

  /** With conflicts as the only failures of the status write, calm means settled. */
  lemma Converged(ls: seq<Label>)
    requires Exec(INITIAL, ls).Some? && OnlyConflicts(INITIAL, ls)
    requires Calm(Exec(INITIAL, ls).value)
    ensures var o := Exec(INITIAL, ls).value.stored;
            && Settled(o)
            && (o.Some? && o.value.deleting ==> "deployguard.io/policy-finalizer" !in o.value.finalizers)
            && (o.Some? && !o.value.deleting ==> ReportedReady(o.value))
  {
    NeverDropped(INITIAL, ls);
    CalmMeansSettledIff(Exec(INITIAL, ls).value);
  }

  lemma ReachNext(s: Machine, l: Label, t: Machine)
    requires Reachable(s) && Next(s, l) == Some(t)
    ensures Reachable(t)
  {
    var ls :| Exec(INITIAL, ls) == Some(s);
    ExecSnoc(INITIAL, ls, l);
    assert Exec(INITIAL, ls + [l]) == Some(t);
  }

  /** The cache catches up, and Reconcile runs up to its write. */
  lemma Woken(s: Machine, pc: Pc) returns (t: Machine)
    requires Reachable(s) && s.pc.Idle? && s.cache < Latest(s) && s.notices == 0 && !s.dirty
    requires pc == Decide(Latest(s), s.stored)
    ensures Reachable(t) && t == s.(cache := Latest(s), pc := pc)
  {
    var a := s.(cache := Latest(s), notices := 1);
    ReachNext(s, Observe(Latest(s)), a);
    ReachNext(a, Deliver, a.(notices := 0, dirty := true));
    ReachNext(a.(notices := 0, dirty := true), Take, a.(notices := 0, pc := Started));
    assert Versions(s)[|s.past|] == s.stored;
    t := a.(notices := 0, pc := pc);
    ReachNext(a.(notices := 0, pc := Started), Read, t);
  }

  /** The first two events in the life of a policy, and the first write. */
  lemma WithFinalizer(p: Policy) returns (s6: Machine)
    requires !p.deleting && FINALIZER !in p.finalizers
    ensures var q := p.(finalizers := AddFinalizer(p.finalizers));
            Reachable(s6) && s6 == Machine([None, Some(p)], Some(q), 1, 0, false, false, Idle, false)
  {
    var q := p.(finalizers := AddFinalizer(p.finalizers));
    assert Exec(INITIAL, []) == Some(INITIAL);
    var s1 := Machine([None], Some(p), 0, 0, false, false, Idle, false);
    assert Versions(INITIAL) == [None] && Versions(s1) == [None, Some(p)];
    ReachNext(INITIAL, Create(p), s1);
    var s5 := Woken(s1, Adding(1));
    assert Outgoing(s5.pc, p, 0) == q && q != p by { assert FINALIZER in q.finalizers; }
    s6 := Machine([None, Some(p)], Some(q), 1, 0, false, false, Idle, false);
    ReachNext(s5, Write(0), s6);
  }

  /** The condition is needed: a failed status write is not retried. */
  lemma DroppedStatusStays(p: Policy)
    requires !p.deleting && FINALIZER !in p.finalizers && p.conditions == []
    ensures exists s :: Reachable(s) && Calm(s) && s.dropped && s.stored.Some? && s.stored.value.uid == p.uid
                        && !Settled(s.stored)
  {
    var s6 := WithFinalizer(p);
    var s10 := Woken(s6, Marking(2));
    ReachNext(s10, WriteError, s10.(pc := Idle, dropped := true));
  }

  // ---------- it gets there ----------

  /** Writes the object still needs. */
  function WritesLeft(o: Option<Policy>): nat {
    if o.None? then 0
    else if o.value.deleting then (if FINALIZER in o.value.finalizers then 1 else 0)
    else (if FINALIZER in o.value.finalizers then 0 else 1) + if Marked(o.value.conditions) then 0 else 1
  }

  /** Nobody else touches the object. */
  predicate NoEdit(l: Label) {
    !l.Create? && !l.Edit? && !l.Delete?
  }

  /** A step of the controller, its cache and its queue; no event without a cause. */
  predicate Internal(l: Label) {
    NoEdit(l) && !l.Resync? && !l.Restart?
  }

  lemma WrittenWrites(s: Machine, now: int)
    requires Inv(s) && Accepted(s)
    ensures var t := Written(s, now); |t.past| + WritesLeft(t.stored) == |s.past| + WritesLeft(s.stored)
  {
    WrittenEffect(s, now);
    assert Versions(s)[|s.past|] == s.stored;
    var p := s.stored.value;
    MarkReadyMarks(p.conditions, now);
    OthersRemoves(p.finalizers);
    OthersKept(p.finalizers);
  }

  /** Each new version that the controller makes is one write fewer to go. */
  lemma StepWrites(s: Machine, l: Label)
    requires Inv(s) && Next(s, l).Some? && NoEdit(l)
    ensures var t := Next(s, l).value;
            |t.past| + WritesLeft(t.stored) == |s.past| + WritesLeft(s.stored)
  {
    if Accepted(s) && (l.Write? || l.WriteTimeout?) {
      WrittenWrites(s, l.now);
      AfterWrite(s, l.now);
    }
  }

  predicate AllInternal(ls: seq<Label>) {
    forall l | l in ls :: Internal(l)
  }

  /**
   * Without outside edits, whatever fails, is stale, is retried, is resynced or restarted,
   * the controller changes the stored object at most twice if it is live and at most once if
   * it is being deleted.
   */
  lemma {:induction false} FewWrites(s: Machine, ls: seq<Label>)
    requires Inv(s) && Exec(s, ls).Some? && forall l | l in ls :: NoEdit(l)
    ensures var t := Exec(s, ls).value;
            && |t.past| - |s.past| == WritesLeft(s.stored) - WritesLeft(t.stored)
            && |t.past| - |s.past| <= (if s.stored.None? then 0 else if s.stored.value.deleting then 1 else 2)
    decreases |ls|
  {
    if ls == [] {
    } else {
      var ls' := ls[..|ls| - 1];
      FewWrites(s, ls');
      InvRun(s, ls');
      assert ls[|ls| - 1] in ls;
      StepWrites(Exec(s, ls').value, ls[|ls| - 1]);
    }
  }

  /** A read or write that returned an error, or a write of a version that is not stored. */
  predicate Failing(s: Machine, l: Label) {
    l.ReadError? || l.WriteError? || l.WriteTimeout? || (l.Write? && !Accepted(s))
  }

  /** Work left: over the object, the lag of the cache, the events, the queue and Reconcile. */
  function Measure(s: Machine): nat
    requires s.cache <= Latest(s)
  {
    5 * WritesLeft(s.stored) + 5 * (Latest(s) - s.cache) + 4 * s.notices
    + (if s.retry then 4 else 0) + (if s.dirty then 3 else 0)
    + (match s.pc case Idle => 0 case Started => 2 case Failed => 5 case _ => 1)
  }

  lemma AcceptedMeasure(s: Machine, l: Label)
    requires Inv(s) && Accepted(s) && (l.Write? || l.WriteTimeout?)
    ensures Next(s, l).value.cache <= Latest(Next(s, l).value)
    ensures Measure(Next(s, l).value) + 1 <= Measure(s) + if Failing(s, l) then 5 else 0
  {
    WrittenWrites(s, l.now);
    WrittenEffect(s, l.now);
    AfterWrite(s, l.now);
  }

  lemma StepMeasure(s: Machine, l: Label)
    requires Inv(s) && Next(s, l).Some? && Internal(l)
    ensures Inv(Next(s, l).value)
    ensures Measure(Next(s, l).value) + 1 <= Measure(s) + if Failing(s, l) then 5 else 0
  {
    InvNext(s, l);
    if Accepted(s) && (l.Write? || l.WriteTimeout?) {
      AcceptedMeasure(s, l);
    } else {
      assert Next(s, l).value.stored == s.stored && Next(s, l).value.past == s.past;
    }
  }

  function Failures(s: Machine, ls: seq<Label>): nat {
    if ls == [] then 0
    else
      var ls' := ls[..|ls| - 1];
      Failures(s, ls') + if Exec(s, ls').Some? && Failing(Exec(s, ls').value, ls[|ls| - 1]) then 1 else 0
  }

  /** Reconcile does not trigger itself forever: a run is no longer than this. */
  lemma {:induction false} Quiesces(s: Machine, ls: seq<Label>)
    requires Inv(s) && Exec(s, ls).Some? && AllInternal(ls)
    ensures Inv(Exec(s, ls).value)
    ensures Measure(Exec(s, ls).value) + |ls| <= Measure(s) + 5 * Failures(s, ls)
    decreases |ls|
  {
    if ls == [] {
    } else {
      var ls' := ls[..|ls| - 1];
      Quiesces(s, ls');
      assert ls[|ls| - 1] in ls;
      StepMeasure(Exec(s, ls').value, ls[|ls| - 1]);
    }
  }

  /** Until it is calm, the controller can go on. */
  lemma NotStuck(s: Machine)
    requires Inv(s) && !Calm(s)
    ensures exists l :: Internal(l) && Next(s, l).Some? && (Failing(s, l) ==> l.Write?)
  {
    if !s.pc.Idle? {
      assert Next(s, if s.pc.Started? then Read else if s.pc.Failed? then Requeue else Write(0)).Some?;
    } else if s.cache < Latest(s) {
      assert Next(s, Observe(Latest(s))).Some?;
    } else if s.notices > 0 {
      assert Next(s, Deliver).Some?;
    } else if s.dirty {
      assert Next(s, Take).Some?;
    } else {
      assert Next(s, RetryDue).Some?;
    }
  }
}
