/** What no run does to the finalizers, whatever the controller has read and when. */
module PolicySafety {
  import opened Prelude
  import opened PolicyMachine
  import opened PolicyConvergence

  /** The object of this incarnation is stored with our finalizer. */
  predicate Guarded(s: Machine, uid: nat) {
    s.stored.Some? && s.stored.value.uid == uid && FINALIZER in s.stored.value.finalizers
  }

  /** handleDeletion's write of the stored version of an object that is being deleted. */
  predicate RemovalWrite(s: Machine, l: Label, uid: nat) {
    && (l.Write? || l.WriteTimeout?)
    && s.pc == Removing(Latest(s))
    && s.stored.Some? && s.stored.value.uid == uid && s.stored.value.deleting
  }

  /** Nobody else adds or removes our finalizer. */
  predicate HandsOff(s: Machine, l: Label) {
    l.Edit? && s.stored.Some? ==>
      (FINALIZER in l.policy.finalizers <==> FINALIZER in s.stored.value.finalizers)
  }

  predicate AllHandsOff(s: Machine, ls: seq<Label>) {
    ls == [] ||
    var ls' := ls[..|ls| - 1];
    AllHandsOff(s, ls') && (Exec(s, ls').Some? ==> HandsOff(Exec(s, ls').value, ls[|ls| - 1]))
  }

  lemma StepGuarded(s: Machine, l: Label, uid: nat)
    requires Inv(s) && Next(s, l).Some? && HandsOff(s, l)
    requires Guarded(s, uid) && !Guarded(Next(s, l).value, uid)
    ensures RemovalWrite(s, l, uid)
  {
    assert Versions(s)[|s.past|] == s.stored;
  }

  /**
   * Once our finalizer is persisted it is there until a handleDeletion write takes it away;
   * in particular the object does not leave the store before that.
   */
  lemma {:induction false} LeavesOnlyByRemoval(s: Machine, ls: seq<Label>, uid: nat)
    requires Inv(s) && Exec(s, ls).Some? && AllHandsOff(s, ls)
    requires Guarded(s, uid) && !Guarded(Exec(s, ls).value, uid)
    ensures exists k :: && 0 <= k < |ls| && Exec(s, ls[..k]).Some?
                        && Guarded(Exec(s, ls[..k]).value, uid) && RemovalWrite(Exec(s, ls[..k]).value, ls[k], uid)
    decreases |ls|
  {
    if ls == [] {
    } else {
      var n := |ls| - 1;
      var ls' := ls[..n];
      var t := Exec(s, ls').value;
      if Guarded(t, uid) {
        InvRun(s, ls');
        StepGuarded(t, ls[n], uid);
        assert Exec(s, ls[..n]).Some? && RemovalWrite(t, ls[n], uid);
      } else {
        LeavesOnlyByRemoval(s, ls', uid);
        var k :| && 0 <= k < |ls'| && Exec(s, ls'[..k]).Some?
                 && Guarded(Exec(s, ls'[..k]).value, uid) && RemovalWrite(Exec(s, ls'[..k]).value, ls'[k], uid);
        assert ls'[..k] == ls[..k] && ls'[k] == ls[k];
      }
    }
  }

  // ---------- no way back ----------

  predicate Seen(s: Machine, uid: nat) {
    exists v :: v in Versions(s) && v.Some? && v.value.uid == uid
  }

  predicate OnItsWay(o: Option<Policy>, uid: nat, had: bool) {
    o.Some? && o.value.uid == uid ==> o.value.deleting && (FINALIZER in o.value.finalizers ==> had)
  }

  /** If the incarnation is stored at all, it is being deleted, and with our finalizer only if had. */
  predicate Going(s: Machine, uid: nat, had: bool) {
    Seen(s, uid) && OnItsWay(s.stored, uid, had)
  }

  lemma StillSeen(s: Machine, l: Label, uid: nat)
    requires Next(s, l).Some? && Seen(s, uid)
    ensures Seen(Next(s, l).value, uid)
  {
    VersionsKept(s, l);
    var v :| v in Versions(s) && v.Some? && v.value.uid == uid;
    assert v in Versions(Next(s, l).value);
  }

  lemma WrittenGoing(s: Machine, now: int, uid: nat, had: bool)
    requires Inv(s) && Accepted(s) && Going(s, uid, had)
    ensures OnItsWay(Written(s, now).stored, uid, had)
  {
    assert Versions(s)[|s.past|] == s.stored;
    OthersRemoves(s.stored.value.finalizers);
  }

  lemma StepGoing(s: Machine, l: Label, uid: nat, had: bool)
    requires Inv(s) && Next(s, l).Some? && Going(s, uid, had)
    ensures Going(Next(s, l).value, uid, had)
  {
    StillSeen(s, l, uid);
    if Accepted(s) && (l.Write? || l.WriteTimeout?) {
      WrittenGoing(s, l.now, uid, had);
    } else if l.Create? {
      assert l.policy.uid != uid;
    }
  }

  /**
   * After deletionTimestamp is set it stays set, and a finalizer of ours that is not there
   * is never added again: not from a stale snapshot, not by anyone.
   */
  lemma {:induction false} NeverAddedBack(s: Machine, ls: seq<Label>)
    requires Inv(s) && Exec(s, ls).Some? && s.stored.Some? && s.stored.value.deleting
    ensures Going(Exec(s, ls).value, s.stored.value.uid, FINALIZER in s.stored.value.finalizers)
    decreases |ls|
  {
    var uid, had := s.stored.value.uid, FINALIZER in s.stored.value.finalizers;
    if ls == [] {
      assert Versions(s)[|s.past|] == s.stored;
      assert s.stored in Versions(s);
    } else {
      var ls' := ls[..|ls| - 1];
      NeverAddedBack(s, ls');
      InvRun(s, ls');
      StepGoing(Exec(s, ls').value, ls[|ls| - 1], uid, had);
    }
  }

  // ---------- what a write of ours touches ----------

  /** q is p up to our finalizer and the Ready condition. */
  predicate SameToOthers(p: Policy, q: Policy) {
    && q == p.(finalizers := q.finalizers, conditions := q.conditions)
    && Others(q.finalizers) == Others(p.finalizers)
    && |p.conditions| <= |q.conditions| <= |p.conditions| + 1
    && forall k :: 0 <= k < |p.conditions| && p.conditions[k].kind != "Ready" ==> q.conditions[k] == p.conditions[k]
  }

  /** What is stored before and after a write. */
  predicate Narrow(before: Option<Policy>, after: Option<Policy>) {
    if before.None? then after.None?
    else if after.Some? then SameToOthers(before.value, after.value)
    else before.value.deleting && Others(before.value.finalizers) == []
  }

  lemma WrittenIsNarrow(s: Machine, now: int)
    requires Inv(s) && Accepted(s)
    ensures Narrow(s.stored, Written(s, now).stored)
  {
    assert Versions(s)[|s.past|] == s.stored;
    MarkReadyMarks(s.stored.value.conditions, now);
    OthersKept(s.stored.value.finalizers);
  }

  /**
   * A write of the controller, whatever it had read, leaves everything of the version stored
   * just before except our finalizer and our condition; the other finalizers keep their
   * content and order.  If it makes the object go, the object was being deleted and no other
   * finalizer was left.
   */
  lemma WritesAreNarrow(s: Machine, l: Label)
    requires Inv(s) && Next(s, l).Some? && (l.Write? || l.WriteTimeout? || l.WriteError?)
    ensures Narrow(s.stored, Next(s, l).value.stored)
  {
    if Accepted(s) && !l.WriteError? {
      WrittenIsNarrow(s, l.now);
      AfterWrite(s, l.now);
    } else if s.stored.Some? {
      OthersKept(s.stored.value.finalizers);
    }
  }
}
